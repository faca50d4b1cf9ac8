// Which superblock and which block malloc takes, and which superblock free gives away: said
// of the lists, the blocks and the numbers of blocks in use, without the functions that
// compute the choices.
module Choices {
  import opened Layout
  import opened Mapping
  import opened SizeTables
  import opened SuperblockModel
  import opened BinManagers
  import opened Worlds
  import opened Filing
  import opened Steps
  import opened Counters
  import opened Emptiness

  /** The block a superblock at `a` hands out next: the one past the last that was ever handed
      out, until all have been; then the one freed last. */
  function NextAddress(a: nat, sb: Sb): nat {
    if sb.carved < TotalBlocks(sb.blockSize) then a + HEADER_SIZE + sb.carved * sb.blockSize
    else if sb.free != [] then a + HEADER_SIZE + sb.free[0] * sb.blockSize
    else 0
  }

  /** Malloc serves the request from the superblock at `a`, in the state `sb`: heap `h` owns it
      then, and no other superblock changes. */
  ghost predicate Picks(w: World, fix: Repairs, h: nat, size: nat, raw: Option<nat>, a: nat, sb: Sb) {
    var (after, r) := HeapAlloc(w, fix, h, size, raw);
    && r == Some(NextAddress(a, sb)) && SuperblockOf(r.value) == a
    && ChangedAt(w, after, a) && after.SbAt(a) == sb.Alloc() && after.OwnerOf(a) == h
  }

  /** Bin `b` of heap `h` holds nothing in the classes from 1 up to `e`. */
  predicate Bare(w: World, h: nat, b: nat, e: nat) {
    forall f :: 1 <= f < e ==> w.List(InBin(h, b, f)) == []
  }

  lemma BareScan(w: World, h: nat, b: nat)
    ensures Bare(w, h, b, NUM_EMPTINESS_CLASSES) <==> FullestFrom(w, h, b, 1).None?
    ensures forall e :: 1 <= e < NUM_EMPTINESS_CLASSES && Bare(w, h, b, e) && w.List(InBin(h, b, e)) != [] ==>
              FullestFrom(w, h, b, 1) == Some(e)
  {
  }

  /** The state from which the chosen superblock serves. */
  function ServingState(w: World, fix: Repairs, b: nat, src: Source, a: nat): Sb {
    if Resets(fix, src) then Fresh(ClassOf(b)) else w.SbAt(a)
  }

  lemma NextIsSlot(a: nat, sb: Sb)
    requires sb.Valid() && sb.NumFree() > 0 && a % SUPERBLOCK_SIZE == 0
    ensures NextAddress(a, sb) == BlockAddr(a, sb.blockSize, sb.NextSlot())
    ensures SuperblockOf(NextAddress(a, sb)) == a
  {
    AllocTakesOne(sb);
    MaskRecoversSuperblock(a, sb.blockSize, sb.NextSlot(), BlockAddr(a, sb.blockSize, sb.NextSlot()));
  }

  lemma ObtainedIs(w: World, fix: Repairs, h: nat, b: nat, raw: Option<nat>, src: Source, a: nat)
    requires WellFiled(w) && Serves(w, h, b, raw, src, a)
    ensures Obtained(w, fix, h, b, src, a).SbAt(a) == ServingState(w, fix, b, src, a)
  {
    ChosenFacts(w, Lost(w), h, b, raw, src, a);
    TakeOutKeeps(w, fix, h, b, src);
    PrepareEffect(TakeOut(w, fix, h, b, src), fix, h, ClassOf(b), src, a);
  }

  /** What serving does to the superblocks. */
  lemma ServedIs(w: World, fix: Repairs, h: nat, b: nat, raw: Option<nat>, src: Source, a: nat)
    requires WellFiled(w) && Serves(w, h, b, raw, src, a)
    ensures var after := Serve(Obtained(w, fix, h, b, src, a), h, b, a); var sb := ServingState(w, fix, b, src, a);
            && ChangedAt(w, after, a) && after.SbAt(a) == sb.Alloc() && after.OwnerOf(a) == h
            && sb.Valid() && sb.NumFree() > 0 && a % SUPERBLOCK_SIZE == 0
  {
    hide Obtained, ServingState, Serve, Sb.NumFree, Sb.Alloc, Sb.Valid;
    var w1 := Obtained(w, fix, h, b, src, a);
    ObtainedIs(w, fix, h, b, raw, src, a);
    ObtainedSound(w, fix, Lost(w), h, b, raw, src, a);
    ObtainedReady(w, fix, Lost(w), h, b, raw, src, a);
    ServeFiled(w1, Lost(w) + Dropped(w, fix, h, src) + {a}, h, b, a);
    assert SoundAt(w1, a);
  }

  lemma ReturnedIs(w: World, fix: Repairs, h: nat, size: nat, raw: Option<nat>, src: Source, a: nat)
    requires src == SourceFor(w, h, BinOf(size), raw) && !src.NoMemory? && a == Chosen(w, h, BinOf(size), src)
    ensures var sb := Obtained(w, fix, h, BinOf(size), src, a).SbAt(a);
            HeapAlloc(w, fix, h, size, raw).1 == Some(BlockAddr(a, sb.blockSize, sb.NextSlot()))
  {
    hide BlockAddr, Serve, SourceFor, Chosen, Prepare, TakeOut, Sb.NextSlot;
  }

  lemma PicksChosen(w: World, fix: Repairs, h: nat, size: nat, raw: Option<nat>, src: Source, a: nat)
    requires WellFiled(w) && LegalMalloc(w, h, size, raw)
    requires src == SourceFor(w, h, BinOf(size), raw) && !src.NoMemory? && a == Chosen(w, h, BinOf(size), src)
    ensures Picks(w, fix, h, size, raw, a, ServingState(w, fix, BinOf(size), src, a))
  {
    hide HeapAlloc, WellFiled, Obtained, ServingState, Serve, SourceFor, Chosen, NextAddress, BlockAddr, SuperblockOf, MapOk;
    hide Sb.NumFree, Sb.Alloc, Sb.Valid, Sb.NextSlot, BinOf, ClassOf;
    BinHoldsRequest(size);
    var b := BinOf(size);
    ServedIs(w, fix, h, b, raw, src, a);
    ObtainedIs(w, fix, h, b, raw, src, a);
    ReturnedIs(w, fix, h, size, raw, src, a);
    NextIsSlot(a, ServingState(w, fix, b, src, a));
    HeapAllocIs(w, fix, h, size, raw);
  }

  // ---------- malloc, source by source ----------

  /** While the bin has a superblock that is neither full nor empty, the head of the fullest such
      class serves. */
  lemma MallocFromBin(w: World, fix: Repairs, h: nat, size: nat, raw: Option<nat>, e: nat)
    requires WellFiled(w) && LegalMalloc(w, h, size, raw)
    requires 1 <= e < NUM_EMPTINESS_CLASSES && Bare(w, h, BinOf(size), e) && w.List(InBin(h, BinOf(size), e)) != []
    ensures var a := w.List(InBin(h, BinOf(size), e))[0]; Picks(w, fix, h, size, raw, a, w.SbAt(a))
  {
    hide Picks, FullestFrom;
    BareScan(w, h, BinOf(size));
    PicksChosen(w, fix, h, size, raw, OwnBin(e), w.List(InBin(h, BinOf(size), e))[0]);
  }

  /** Then the head of the heap's recycling list, cut afresh. */
  lemma MallocRecycles(w: World, fix: Repairs, h: nat, size: nat, raw: Option<nat>)
    requires WellFiled(w) && LegalMalloc(w, h, size, raw)
    requires Bare(w, h, BinOf(size), NUM_EMPTINESS_CLASSES) && w.List(Recycled(h)) != []
    ensures Picks(w, fix, h, size, raw, w.List(Recycled(h))[0], Fresh(ClassOf(BinOf(size))))
  {
    hide Picks, FullestFrom;
    BareScan(w, h, BinOf(size));
    PicksChosen(w, fix, h, size, raw, OwnRecycled, w.List(Recycled(h))[0]);
  }

  /** Nothing of the heap's own can serve. */
  predicate OwnBare(w: World, h: nat, size: nat) {
    Bare(w, h, BinOf(size), NUM_EMPTINESS_CLASSES) && w.List(Recycled(h)) == []
  }

  /** Then the head of the fullest class of the global heap's bin, as it is. */
  lemma MallocAdopts(w: World, fix: Repairs, h: nat, size: nat, raw: Option<nat>, e: nat)
    requires WellFiled(w) && LegalMalloc(w, h, size, raw) && OwnBare(w, h, size)
    requires 1 <= e < NUM_EMPTINESS_CLASSES && Bare(w, 0, BinOf(size), e) && w.List(InBin(0, BinOf(size), e)) != []
    ensures var a := w.List(InBin(0, BinOf(size), e))[0]; Picks(w, fix, h, size, raw, a, w.SbAt(a))
  {
    hide Picks, FullestFrom;
    BareScan(w, h, BinOf(size));
    BareScan(w, 0, BinOf(size));
    CounterGuidesScan(w, Lost(w), 0, BinOf(size));
    PicksChosen(w, fix, h, size, raw, GlobalBin(e), w.List(InBin(0, BinOf(size), e))[0]);
  }

  /** Then the head of the global recycling list, cut afresh only if that is repaired. */
  lemma MallocAdoptsRecycled(w: World, fix: Repairs, h: nat, size: nat, raw: Option<nat>)
    requires WellFiled(w) && LegalMalloc(w, h, size, raw) && OwnBare(w, h, size)
    requires Bare(w, 0, BinOf(size), NUM_EMPTINESS_CLASSES) && w.List(Recycled(0)) != []
    ensures var a := w.List(Recycled(0))[0];
            Picks(w, fix, h, size, raw, a, if fix.resetAdopted then Fresh(ClassOf(BinOf(size))) else w.SbAt(a))
  {
    hide Picks, FullestFrom;
    BareScan(w, h, BinOf(size));
    BareScan(w, 0, BinOf(size));
    CounterGuidesScan(w, Lost(w), 0, BinOf(size));
    PicksChosen(w, fix, h, size, raw, GlobalRecycled, w.List(Recycled(0))[0]);
  }

  /** Then a new mapping; without memory malloc fails. */
  lemma MallocMapsOrFails(w: World, fix: Repairs, h: nat, size: nat, raw: Option<nat>)
    requires WellFiled(w) && LegalMalloc(w, h, size, raw) && OwnBare(w, h, size) && OwnBare(w, 0, size)
    ensures raw.Some? ==> Picks(w, fix, h, size, raw, AlignUp(raw.value), Fresh(ClassOf(BinOf(size))))
    ensures raw.None? ==> HeapAlloc(w, fix, h, size, raw).1 == None
  {
    hide Picks, FullestFrom;
    BareScan(w, h, BinOf(size));
    BareScan(w, 0, BinOf(size));
    CounterGuidesScan(w, Lost(w), 0, BinOf(size));
    if raw.Some? {
      PicksChosen(w, fix, h, size, raw, NewMapping(AlignUp(raw.value)), AlignUp(raw.value));
    }
  }

  // ---------- in blocks in use ----------

  lemma QuarterFuller(u: int, v: int, t: int, e: int, f: int)
    requires t > 0 && e <= f && (4 - e) * t <= 4 * u && 4 * v < (5 - f) * t
    ensures 4 * v < 4 * u + t
  {
    assert (5 - f) * t <= (5 - e) * t;
    assert (5 - e) * t == (4 - e) * t + t;
  }

  /** A superblock of the bin's class with room is in the class its blocks in use determine. */
  lemma InClass(w: World, h: nat, b: nat, y: nat)
    requires WellFiled(w) && y in w.sbs && y !in Lost(w) && w.OwnerOf(y) == h && b < NUM_SIZE_BINS
    requires w.SbAt(y).blockSize == ClassOf(b) && !w.SbAt(y).Empty() && w.SbAt(y).NumFree() > 0
    ensures var e := w.SbAt(y).Eidx(); w.SbAt(y).Valid() && 1 <= e < NUM_EMPTINESS_CLASSES && y in w.List(InBin(h, b, e))
  {
    assert SoundAt(w, y);
    EidxRange(w.SbAt(y));
    BinOfClass(b);
    assert y in w.List(w.Home(y));
  }

  /** Malloc serves from as full a superblock as there is, to a quarter: no superblock of the heap
      and class that is in a list and neither full nor empty has a quarter of its blocks more in
      use. */
  lemma MallocTakesFullest(w: World, fix: Repairs, h: nat, size: nat, raw: Option<nat>, y: nat) returns (a: nat)
    requires WellFiled(w) && LegalMalloc(w, h, size, raw)
    requires y in w.sbs && y !in Lost(w) && w.OwnerOf(y) == h && w.SbAt(y).blockSize == ClassOf(BinOf(size))
    requires !w.SbAt(y).Empty() && w.SbAt(y).NumFree() > 0
    ensures Picks(w, fix, h, size, raw, a, w.SbAt(a))
    ensures a in w.sbs && w.OwnerOf(a) == h && w.SbAt(a).blockSize == ClassOf(BinOf(size))
    ensures 4 * w.SbAt(y).UsedBlocks() < 4 * w.SbAt(a).UsedBlocks() + w.SbAt(a).Total()
  {
    hide WellFiled, Picks, LegalMalloc, Sb.Eidx, Sb.NumFree, Sb.Empty, Sb.Total, Sb.UsedBlocks, Sb.Valid, BinOf, ClassOf, Lost;
    var b := BinOf(size);
    InRangeBin(w, h, size, raw);
    InClass(w, h, b, y);
    var e := FullestFrom(w, h, b, 1).value;
    a := w.List(InBin(h, b, e))[0];
    MallocFromBin(w, fix, h, size, raw, e);
    InClassFacts(w, h, b, e, a);
    EidxQuarters(w.SbAt(a));
    EidxQuarters(w.SbAt(y));
    SameTotal(w.SbAt(a), w.SbAt(y));
    QuarterFuller(w.SbAt(a).UsedBlocks(), w.SbAt(y).UsedBlocks(), w.SbAt(a).Total(), e, w.SbAt(y).Eidx());
  }

  lemma InRangeBin(w: World, h: nat, size: nat, raw: Option<nat>)
    requires LegalMalloc(w, h, size, raw)
    ensures BinOf(size) < NUM_SIZE_BINS
  {
    BinHoldsRequest(size);
  }

  lemma InClassFacts(w: World, h: nat, b: nat, e: nat, a: nat)
    requires WellFiled(w) && a in w.List(InBin(h, b, e))
    ensures a in w.sbs && w.OwnerOf(a) == h && w.SbAt(a).blockSize == ClassOf(b) && w.SbAt(a).Valid() && w.SbAt(a).Eidx() == e
  {
    InBinFacts(w, Lost(w), h, b, e, a);
    assert SoundAt(w, a);
  }

  lemma SameTotal(x: Sb, y: Sb)
    requires x.Valid() && x.blockSize == y.blockSize
    ensures x.Total() == y.Total() > 0
  {
    TotalBlocksBounds(x.blockSize);
  }

  /** The superblock that a free searches out has, to a quarter, as few blocks in use as any that
      the heap has in a list: none has a quarter less of its blocks in use. */
  lemma SearchTakesEmptiest(w: World, ptr: nat, bytes: nat, y: nat)
    requires WellFiled(w) && LiveAt(w, ptr)
    ensures var h := w.OwnerOf(SuperblockOf(ptr)); var charged := BinFree(w, ptr).AddUsage(h, 0 - bytes);
            charged.List(Recycled(h)) == [] && y in charged.sbs && y !in Lost(charged) && charged.OwnerOf(y) == h ==>
              && TransferFrom(charged, h).Some?
              && var x := charged.List(TransferFrom(charged, h).value)[0];
                 && x in charged.sbs && charged.OwnerOf(x) == h && charged.SbAt(x).NumFree() > 0
                 && 4 * charged.SbAt(x).UsedBlocks() * charged.SbAt(y).Total() < (4 * charged.SbAt(y).UsedBlocks() + charged.SbAt(y).Total()) * charged.SbAt(x).Total()
  {
    hide BinFree, FindEmptiest, WellFiled, Lost, LiveAt, Sb.Eidx, Sb.NumFree, Sb.Total, Sb.UsedBlocks, Sb.Valid, World.AddUsage;
    var h := w.OwnerOf(SuperblockOf(ptr));
    var freed := BinFree(w, ptr);
    var charged := freed.AddUsage(h, 0 - bytes);
    SearchInFree(w, ptr, bytes);
    ChargedFiled(w, ptr, bytes);
    if charged.List(Recycled(h)) == [] && y in charged.sbs && y !in Lost(charged) && charged.OwnerOf(y) == h {
      var (b, e) := FindEmptiest(charged, h).value;
      InClassFacts(charged, h, b, e, charged.List(InBin(h, b, e))[0]);
      ValidAt(charged, y);
      FullerByClass(charged.SbAt(y), charged.SbAt(charged.List(InBin(h, b, e))[0]));
    }
  }

  lemma ChargedFiled(w: World, ptr: nat, bytes: nat)
    requires WellFiled(w) && LiveAt(w, ptr)
    ensures WellFiled(BinFree(w, ptr).AddUsage(w.OwnerOf(SuperblockOf(ptr)), 0 - bytes))
  {
    hide BinFree, WellFiled, LiveAt;
    BinFreeKeepsFiling(w, ptr);
    UsageKeepsFiled(BinFree(w, ptr), BinFree(w, ptr).AddUsage(w.OwnerOf(SuperblockOf(ptr)), 0 - bytes));
  }

  lemma ValidAt(w: World, y: nat)
    requires WellFiled(w) && y in w.sbs
    ensures w.SbAt(y).Valid()
  {
    assert SoundAt(w, y);
  }

  // ---------- free ----------

  /** Where a superblock belongs once the block at `ptr` is back. */
  function FreedPlace(w: World, ptr: nat): Place {
    var a := SuperblockOf(ptr);
    var sb := w.SbAt(a);
    var left := sb.Release(SlotAt(a, sb.blockSize, ptr));
    if sb.UsedBlocks() == 1 || left.Eidx() < 0 then Recycled(w.OwnerOf(a))
    else InBin(w.OwnerOf(a), BinOf(sb.blockSize), left.Eidx())
  }

  lemma MovedLists(w: World, from: Place, to: Place, a: nat, sb: Sb)
    ensures var after := w.Take(from, a).SetSb(a, sb).Push(to, a);
            && after.SbAt(a) == sb
            && after.List(to) == [a] + (if to == from then Without(w.List(from), a) else w.List(to))
            && (to != from ==> after.List(from) == Without(w.List(from), a))
            && forall p :: p != from && p != to ==> after.List(p) == w.List(p)
  {
  }

  lemma LeftBehind(sb: Sb, i: nat)
    requires sb.Valid() && i in sb.Live()
    ensures var left := sb.Release(i);
            left.blockSize == sb.blockSize && left.Eidx() >= 0 && (left.Empty() <==> sb.UsedBlocks() == 1)
  {
    ReleaseReturnsOne(sb, i);
    EidxRange(sb.Release(i));
  }

  lemma FreedHome(w: World, ptr: nat)
    requires WellFiled(w) && LiveAt(w, ptr)
    ensures var a := SuperblockOf(ptr); var sb := w.SbAt(a); var left := sb.Release(SlotAt(a, sb.blockSize, ptr));
            BinFree(w, ptr) == w.Take(w.Home(a), a).SetSb(a, left).Push(FreedPlace(w, ptr), a)
  {
    hide World.Push, World.Take, SlotAt, SuperblockOf, WellFiled, BinOf, Sb.Eidx, Sb.Empty, Sb.UsedBlocks, Sb.Release, Sb.Live, Sb.Valid;
    var a := SuperblockOf(ptr);
    var sb := w.SbAt(a);
    var left := sb.Release(SlotAt(a, sb.blockSize, ptr));
    LiveInBin(w, ptr);
    ValidAt(w, a);
    LeftBehind(sb, SlotAt(a, sb.blockSize, ptr));
    TakeKeeps(w, w.Home(a), a);
    var detached := w.Take(w.Home(a), a).SetSb(a, left);
    assert detached.SbAt(a) == left && detached.OwnerOf(a) == w.OwnerOf(a);
    assert detached.Home(a) == FreedPlace(w, ptr);
  }

  /** Free returns the block to its superblock and moves that, to the head of its owner's recycling
      list if no other block was in use, or else to the head of the class that its blocks in use
      determine. */
  lemma FreeMoves(w: World, ptr: nat)
    requires WellFiled(w) && LiveAt(w, ptr)
    ensures var a := SuperblockOf(ptr); var sb := w.SbAt(a); var after := BinFree(w, ptr);
            sb.Eidx() >= 0 &&
            var from, to := InBin(w.OwnerOf(a), BinOf(sb.blockSize), sb.Eidx()), FreedPlace(w, ptr);
            && after.SbAt(a) == sb.Release(SlotAt(a, sb.blockSize, ptr)) && a in w.List(from)
            && after.List(to) == [a] + (if to == from then Without(w.List(from), a) else w.List(to))
            && (to != from ==> after.List(from) == Without(w.List(from), a))
            && forall p :: p != from && p != to ==> after.List(p) == w.List(p)
  {
    hide FreedPlace, BinFree, World.Home, World.List, World.Push, World.Take, World.SbAt, SlotAt, SuperblockOf;
    var a := SuperblockOf(ptr);
    var sb := w.SbAt(a);
    LiveInBin(w, ptr);
    FreedHome(w, ptr);
    MovedLists(w, w.Home(a), FreedPlace(w, ptr), a, sb.Release(SlotAt(a, sb.blockSize, ptr)));
  }

  lemma SettleStays(freed: World, fix: Repairs, h: nat, bytes: nat)
    requires h < |freed.inUse| == |freed.alloced|
    ensures var after := Settle(freed, fix, h, bytes);
            && (h == 0 || !EmptyEnough(freed.inUse[h] - bytes, freed.alloced[h]) ==> after.owner == freed.owner && after.lists == freed.lists)
            && (h == 0 ==> after.inUse == freed.inUse && after.alloced == freed.alloced)
  {
    hide EmptyEnough, Transfer;
  }

  /** What a free leaves where it is: nothing moves to the global heap when the heap stays full
      enough, and a block of the global heap changes no counter. */
  lemma FreeKeepsOwners(w: World, fix: Repairs, ptr: nat)
    requires WellFiled(w) && LiveAt(w, ptr)
    ensures var h := w.OwnerOf(SuperblockOf(ptr)); var after := HeapFree(w, fix, ptr);
            && h < |w.inUse| == |w.alloced|
            && (h == 0 || !EmptyEnough(w.inUse[h] - BlockSizeAt(w, ptr), w.alloced[h]) ==>
                  after.owner == w.owner && after.lists == BinFree(w, ptr).lists)
            && (h == 0 ==> after.inUse == w.inUse && after.alloced == w.alloced)
  {
    hide BinFree, EmptyEnough, Settle, IsLive, Filed, SuperblockOf;
    assert SoundAt(w, SuperblockOf(ptr));
    BinFreeUsage(w, ptr);
    FreedOwner(w, ptr);
    SettleStays(BinFree(w, ptr), fix, w.OwnerOf(SuperblockOf(ptr)), BlockSizeAt(w, ptr));
  }

  lemma FreedOwner(w: World, ptr: nat)
    ensures BinFree(w, ptr).owner == w.owner
  {
    hide Sb.Eidx, Sb.Release, BinOf;
  }

  /** Free gives one superblock of a thread heap away when the heap is empty enough. */
  ghost predicate GivesUp(w: World, ptr: nat) {
    var h := w.OwnerOf(SuperblockOf(ptr));
    && WellFiled(w) && LiveAt(w, ptr)
    && 0 < h < |w.inUse| && h < |w.alloced| && EmptyEnough(w.inUse[h] - BlockSizeAt(w, ptr), w.alloced[h])
  }

  /** Heap 0 owns `x` at the end, which was the head of `from` and is that of `to`; all other
      superblocks keep their owner and all other lists their members. */
  ghost predicate Hands(freed: World, after: World, from: Place, to: Place, x: nat) {
    && freed.List(from) != [] && x == freed.List(from)[0]
    && after.owner == freed.owner[x := 0]
    && after.List(to) == [x] + freed.List(to) && after.List(from) == freed.List(from)[1..]
    && forall p :: p != from && p != to ==> after.List(p) == freed.List(p)
  }

  lemma MovedToGlobal(w: World, from: Place, x: nat)
    requires w.List(from) != [] && x == w.List(from)[0] && from.heap > 0
    ensures Hands(w, MoveToGlobal(w, from, x), from, InGlobal(from), x)
  {
    assert Without(w.List(from), x) == w.List(from)[1..];
  }

  lemma HandsSame(w: World, after: World, w': World, after': World, from: Place, to: Place, x: nat)
    requires Hands(w, after, from, to, x)
    requires w'.owner == w.owner && w'.lists == w.lists && after'.owner == after.owner && after'.lists == after.lists
    ensures Hands(w', after', from, to, x)
  {
    assert forall p :: w'.List(p) == w.List(p) && after'.List(p) == after.List(p);
  }

  lemma SettleHands(freed: World, fix: Repairs, h: nat, bytes: nat, from: Place)
    requires 0 < h < |freed.inUse| && h < |freed.alloced| && EmptyEnough(freed.inUse[h] - bytes, freed.alloced[h])
    requires TransferFrom(freed, h) == Some(from)
    ensures Hands(freed, Settle(freed, fix, h, bytes), from, InGlobal(from), freed.List(from)[0])
  {
    hide EmptyEnough, TransferFrom, MoveToGlobal, Sb.UsedBytes;
    var charged := freed.AddUsage(h, 0 - bytes);
    UsageKeepsTransfer(freed, h, h, 0 - bytes);
    var x := freed.List(from)[0];
    assert charged.List(from) == freed.List(from);
    MovedToGlobal(charged, from, x);
    var moved := MoveToGlobal(charged, from, x);
    var after := Settle(freed, fix, h, bytes);
    assert after.owner == moved.owner && after.lists == moved.lists;
    assert charged.owner == freed.owner && charged.lists == freed.lists;
    HandsSame(charged, moved, freed, after, from, InGlobal(from), x);
  }

  lemma FreeHands(w: World, fix: Repairs, ptr: nat, from: Place)
    requires GivesUp(w, ptr) && TransferFrom(BinFree(w, ptr), w.OwnerOf(SuperblockOf(ptr))) == Some(from)
    ensures Hands(BinFree(w, ptr), HeapFree(w, fix, ptr), from, InGlobal(from), BinFree(w, ptr).List(from)[0])
  {
    hide BinFree, Settle, Hands, EmptyEnough, TransferFrom, WellFiled, LiveAt;
    BinFreeUsage(w, ptr);
    SettleHands(BinFree(w, ptr), fix, w.OwnerOf(SuperblockOf(ptr)), BlockSizeAt(w, ptr), from);
  }

  /** It is the head of the recycling list, if there is one. */
  lemma FreeHandsRecycled(w: World, fix: Repairs, ptr: nat)
    requires GivesUp(w, ptr)
    ensures var h := w.OwnerOf(SuperblockOf(ptr)); var freed := BinFree(w, ptr);
            freed.List(Recycled(h)) != [] ==>
              Hands(freed, HeapFree(w, fix, ptr), Recycled(h), Recycled(0), freed.List(Recycled(h))[0])
  {
    hide BinFree, HeapFree, Hands, GivesUp;
    var h := w.OwnerOf(SuperblockOf(ptr));
    if BinFree(w, ptr).List(Recycled(h)) != [] {
      FreeHands(w, fix, ptr, Recycled(h));
    }
  }

  /** The emptiest class that any bin of heap `h` holds is `e`, and `b` the first bin there. */
  predicate FirstEmptiest(w: World, h: nat, b: nat, e: nat) {
    && 0 < e < NUM_EMPTINESS_CLASSES && b < NUM_SIZE_BINS && w.List(InBin(h, b, e)) != []
    && (forall c, f :: 0 <= c < NUM_SIZE_BINS && e < f < NUM_EMPTINESS_CLASSES ==> w.List(InBin(h, c, f)) == [])
    && (forall c :: 0 <= c < b ==> w.List(InBin(h, c, e)) == [])
  }

  /** The search finds the first bin of the emptiest class, and there is only one such. */
  lemma SearchIsFirst(w: World, h: nat, b: nat, e: nat)
    ensures FindEmptiest(w, h) == Some((b, e)) <==> FirstEmptiest(w, h, b, e)
  {
    var found := FindEmptiest(w, h);
    if FirstEmptiest(w, h, b, e) {
      assert w.List(InBin(h, b, e)) != [];
      assert found.Some? && w.List(InBin(h, found.value.0, found.value.1)) != [];
    }
  }

  /** Or else the head of that list. */
  lemma FreeHandsEmptiest(w: World, fix: Repairs, ptr: nat, b: nat, e: nat)
    requires GivesUp(w, ptr)
    ensures var h := w.OwnerOf(SuperblockOf(ptr)); var freed := BinFree(w, ptr);
            freed.List(Recycled(h)) == [] && FirstEmptiest(freed, h, b, e) ==>
              Hands(freed, HeapFree(w, fix, ptr), InBin(h, b, e), InBin(0, b, e), freed.List(InBin(h, b, e))[0])
  {
    hide BinFree, HeapFree, Hands, GivesUp, FindEmptiest, FirstEmptiest;
    var h := w.OwnerOf(SuperblockOf(ptr));
    var freed := BinFree(w, ptr);
    if freed.List(Recycled(h)) == [] && FirstEmptiest(freed, h, b, e) {
      SearchIsFirst(freed, h, b, e);
      FreeHands(w, fix, ptr, InBin(h, b, e));
    }
  }

  /** When all blocks of its superblock have been handed out once, a block that is freed is the
      next that the superblock hands out. */
  lemma FreedIsNext(w: World, fix: Repairs, ptr: nat)
    requires WellFiled(w) && LiveAt(w, ptr)
    ensures var a := SuperblockOf(ptr);
            w.SbAt(a).carved == w.SbAt(a).Total() ==> NextAddress(a, HeapFree(w, fix, ptr).SbAt(a)) == ptr
  {
    hide WellFiled, BinFree, Settle, SuperblockOf, SlotAt, Sound, Filed, ChangedAt;
    var a := SuperblockOf(ptr);
    BinFreeFiles(w, ptr);
    SettleKeepsBlocks(BinFree(w, ptr), fix, w.OwnerOf(a), BlockSizeAt(w, ptr));
    assert HeapFree(w, fix, ptr).SbAt(a) == BinFree(w, ptr).SbAt(a);
  }
}
