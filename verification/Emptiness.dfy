// The emptiness invariant of the thread heaps (src/heap.c, is_empty_enough): a heap may be
// empty enough only in the middle of an operation, and then has a superblock to give away.
module Emptiness {
  import opened Layout
  import opened SizeTables
  import opened SuperblockModel
  import opened Worlds
  import opened Filing
  import opened Steps
  import opened Counters

  /** Thread heap `h` holds at most K superblocks more than it uses, or uses at least 3/4. */
  ghost predicate NotTooEmpty(w: World, h: nat) {
    && h < |w.inUse| && h < |w.alloced|
    && !EmptyEnough(w.inUse[h], w.alloced[h])
  }

  // ---------- pigeonhole ----------

  ghost predicate AllFull(w: World, h: nat) {
    forall a :: a in w.sbs && w.OwnerOf(a) == h ==> w.SbAt(a).NumFree() == 0
  }

  /** Full superblocks use more than 7/8 of their size each. */
  lemma FullHeapUsage(w: World, h: nat)
    requires Sound(w) && AllFull(w, h)
    ensures MIN_PAYLOAD * Owned(w, h) <= TotalUsed(w, h)
  {
    var m := UsedMap(w, h);
    forall a | a in m
      ensures MIN_PAYLOAD <= m[a]
    {
      assert SoundAt(w, a);
      UsedBytesBounds(w.SbAt(a));
      FullPayload(w.SbAt(a).blockSize);
    }
    SumBounds(m, MIN_PAYLOAD);
  }

  /** A superblock of `h` that is in a list and is neither recycled nor in bins 1 to 4 is full. */
  lemma FullOutsideBins(w: World, h: nat, a: nat)
    requires WellFiled(w) && a in w.sbs && w.OwnerOf(a) == h && a !in Lost(w)
    requires w.List(Recycled(h)) == []
    requires forall e :: 1 <= e < NUM_EMPTINESS_CLASSES ==> w.List(InBin(h, BinOf(w.SbAt(a).blockSize), e)) == []
    ensures w.SbAt(a).NumFree() == 0
  {
    assert SoundAt(w, a);
    EidxRange(w.SbAt(a));
    assert a in w.List(w.Home(a));
  }

  ghost predicate LosesNone(w: World, h: nat) {
    forall a :: a in Lost(w) ==> w.OwnerOf(a) != h
  }

  lemma NoneFoundMeansFull(w: World, h: nat)
    requires WellFiled(w) && LosesNone(w, h) && w.List(Recycled(h)) == []
    requires FindEmptiest(w, h).None?
    ensures AllFull(w, h)
  {
    forall a | a in w.sbs && w.OwnerOf(a) == h
      ensures w.SbAt(a).NumFree() == 0
    {
      assert SoundAt(w, a);
      ClassRoundTrip(w.SbAt(a).blockSize);
      FullOutsideBins(w, h, a);
    }
  }

  lemma FoundIsEmptiest(w: World, h: nat, b: nat, e: nat)
    requires WellFiled(w) && w.List(Recycled(h)) == []
    requires FindEmptiest(w, h) == Some((b, e))
    ensures 0 < e < NUM_EMPTINESS_CLASSES && w.List(InBin(h, b, e)) != []
    ensures w.SbAt(w.List(InBin(h, b, e))[0]).NumFree() > 0
    ensures forall a :: a in w.sbs && a !in Lost(w) && w.OwnerOf(a) == h ==> w.SbAt(a).Eidx() <= e
  {
    InBinFacts(w, Lost(w), h, b, e, w.List(InBin(h, b, e))[0]);
    forall a | a in w.sbs && a !in Lost(w) && w.OwnerOf(a) == h
      ensures w.SbAt(a).Eidx() <= e
    {
      InEidx(w, h, a);
    }
  }

  /** A superblock in a bin accounts for that bin not being empty. */
  lemma InEidx(w: World, h: nat, a: nat)
    requires WellFiled(w) && w.List(Recycled(h)) == []
    requires a in w.sbs && a !in Lost(w) && w.OwnerOf(a) == h
    ensures var sb := w.SbAt(a);
            && BinOf(sb.blockSize) < NUM_SIZE_BINS && 0 <= sb.Eidx() < NUM_EMPTINESS_CLASSES
            && w.List(InBin(h, BinOf(sb.blockSize), sb.Eidx())) != []
  {
    assert SoundAt(w, a);
    EidxRange(w.SbAt(a));
    ClassRoundTrip(w.SbAt(a).blockSize);
    assert a in w.List(w.Home(a));
  }

  lemma FullIsNotEmpty(n: nat, u: int)
    requires MIN_PAYLOAD * n <= u
    ensures !EmptyEnough(u, SUPERBLOCK_SIZE * n)
  {
  }

  lemma FullHeapNotEmpty(w: World, h: nat)
    requires Sound(w) && Accounts(w) && 0 < h < |w.inUse| && AllFull(w, h)
    ensures NotTooEmpty(w, h)
  {
    FullHeapUsage(w, h);
    assert Excess(w, h) == 0 && Slack(w, h) >= 0;
    FullIsNotEmpty(Owned(w, h), w.inUse[h]);
  }

  /** A heap that is empty enough, has nothing to recycle and has lost nothing contains a
      superblock with a free block; the search finds one, of the emptiest class the heap has. */
  lemma TransferableExists(w: World, h: nat)
    requires WellFiled(w) && Accounts(w) && 0 < h < |w.inUse|
    requires EmptyEnough(w.inUse[h], w.alloced[h])
    requires w.List(Recycled(h)) == [] && LosesNone(w, h)
    ensures FindEmptiest(w, h).Some?
    ensures var (b, e) := FindEmptiest(w, h).value;
            && 0 < e < NUM_EMPTINESS_CLASSES && w.List(InBin(h, b, e)) != []
            && w.SbAt(w.List(InBin(h, b, e))[0]).NumFree() > 0
            && forall a :: a in w.sbs && w.OwnerOf(a) == h ==> w.SbAt(a).Eidx() <= e
  {
    if FindEmptiest(w, h).None? {
      NoneFoundMeansFull(w, h);
      FullHeapNotEmpty(w, h);
    }
    var (b, e) := FindEmptiest(w, h).value;
    FoundIsEmptiest(w, h, b, e);
  }

  /** Where free searches for a superblock to transfer, after the block is back and charged: the
      heap has nothing to recycle. The search finds a superblock with a free block, of the
      emptiest class the heap has; as written, too. */
  lemma SearchInFree(w: World, ptr: nat, bytes: nat)
    requires WellFiled(w) && LiveAt(w, ptr)
    ensures var h := w.OwnerOf(SuperblockOf(ptr)); var charged := BinFree(w, ptr).AddUsage(h, 0 - bytes);
            var found := FindEmptiest(charged, h);
            charged.List(Recycled(h)) == [] ==>
              && found.Some?
              && 0 < found.value.1 < NUM_EMPTINESS_CLASSES
              && charged.List(InBin(h, found.value.0, found.value.1)) != []
              && charged.SbAt(charged.List(InBin(h, found.value.0, found.value.1))[0]).NumFree() > 0
              && forall a :: a in charged.sbs && a !in Lost(charged) && charged.OwnerOf(a) == h ==> charged.SbAt(a).Eidx() <= found.value.1
  {
    hide BinFree, FindEmptiest, WellFiled, Lost, LiveAt, Sb.Eidx, Sb.NumFree;
    var h := w.OwnerOf(SuperblockOf(ptr));
    var freed := BinFree(w, ptr);
    var charged := freed.AddUsage(h, 0 - bytes);
    BinFreeKeepsFiling(w, ptr);
    UsageKeepsFiled(freed, charged);
    UsageKeepsTransfer(freed, h, h, 0 - bytes);
    if charged.List(Recycled(h)) == [] {
      var (b, e) := FindEmptiest(charged, h).value;
      FoundIsEmptiest(charged, h, b, e);
    }
  }

  // ---------- free ----------

  /** The counters alone: after one transfer a heap that was not too empty is so again. */
  lemma OneTransferIsEnough(u: int, a: int, bytes: int)
    requires !EmptyEnough(u, a) && 0 <= bytes <= HALF_SB
    ensures !EmptyEnough(u - bytes, a) || !EmptyEnough(u - bytes, a - SUPERBLOCK_SIZE)
  {
  }

  lemma SettleWithoutTransfer(w: World, fix: Repairs, h: nat, bytes: nat)
    requires h < |w.inUse| == |w.alloced| && !Transfers(w, h, bytes)
    ensures Settle(w, fix, h, bytes).alloced == w.alloced
    ensures Settle(w, fix, h, bytes).inUse == if h == 0 then w.inUse else w.inUse[h := w.inUse[h] - bytes]
  {
  }

  /** The used bytes that leave `in_use` with a superblock transferred when `ptr` is freed. */
  ghost function Taken(w: World, fix: Repairs, ptr: nat): int {
    var h := w.OwnerOf(SuperblockOf(ptr));
    if fix.exactUsage && TransferFrom(BinFree(w, ptr), h).Some? then
      BinFree(w, ptr).SbAt(Leaving(BinFree(w, ptr), h)).UsedBytes()
    else 0
  }

  /** What free does to the counters of a thread heap. */
  lemma FreeUsage(w: World, fix: Repairs, ptr: nat, g: nat)
    requires WellFiled(w) && LiveAt(w, ptr) && 0 < g < |w.inUse|
    ensures var after := HeapFree(w, fix, ptr);
            var bytes := if g == w.OwnerOf(SuperblockOf(ptr)) then BlockSizeAt(w, ptr) else 0;
            var transfer := bytes > 0 && EmptyEnough(w.inUse[g] - bytes, w.alloced[g]);
            && |after.inUse| == |after.alloced| == |w.inUse|
            && after.inUse[g] == w.inUse[g] - bytes - (if transfer then Taken(w, fix, ptr) else 0)
            && after.alloced[g] == w.alloced[g] - (if transfer then SUPERBLOCK_SIZE else 0)
            && 0 <= bytes <= HALF_SB
  {
    var a := SuperblockOf(ptr);
    var h, bytes := w.OwnerOf(a), BlockSizeAt(w, ptr);
    var freed := BinFree(w, ptr);
    assert SoundAt(w, a);
    BinFreeKeepsFiling(w, ptr);
    BinFreeUsage(w, ptr);
    if Transfers(freed, h, bytes) {
      SettledState(freed, fix, h, bytes, Leaving(freed, h), g);
    } else {
      SettleWithoutTransfer(freed, fix, h, bytes);
    }
  }

  /** Whether a free leaves its heap full enough, read off the counters before it: always, as
      written; with exact usage a transfer must not take too many used bytes off. */
  ghost predicate SettlesWell(w: World, fix: Repairs, ptr: nat) {
    var h, bytes := w.OwnerOf(SuperblockOf(ptr)), BlockSizeAt(w, ptr);
    var taken := Taken(w, fix, ptr);
    0 < h < |w.inUse| && h < |w.alloced| && fix.exactUsage && EmptyEnough(w.inUse[h] - bytes, w.alloced[h]) ==>
      || w.alloced[h] - w.inUse[h] <= (FREE_SB_THRESH + 1) * SUPERBLOCK_SIZE - bytes - taken
      || w.inUse[h] - bytes - taken >= 3 * (w.alloced[h] - SUPERBLOCK_SIZE) / 4
  }

  lemma LiveHasSize(w: World, ptr: nat)
    requires WellFiled(w) && LiveAt(w, ptr)
    ensures BlockSizeAt(w, ptr) > 0
  {
    assert SoundAt(w, SuperblockOf(ptr));
  }

  /** Free leaves a thread heap full enough that was so, exactly when it settles well. */
  lemma FreeKeepsFull(w: World, fix: Repairs, ptr: nat, g: nat)
    requires WellFiled(w) && LiveAt(w, ptr)
    requires 0 < g < |w.inUse| && NotTooEmpty(w, g)
    ensures NotTooEmpty(HeapFree(w, fix, ptr), g) <==> g != w.OwnerOf(SuperblockOf(ptr)) || SettlesWell(w, fix, ptr)
  {
    hide WellFiled, LiveAt, HeapFree, BinFree, BlockSizeAt, TransferFrom, Sb.UsedBytes;
    LiveHasSize(w, ptr);
    FreeUsage(w, fix, ptr, g);
    if !fix.exactUsage && g == w.OwnerOf(SuperblockOf(ptr)) {
      OneTransferIsEnough(w.inUse[g], w.alloced[g], BlockSizeAt(w, ptr));
    }
  }

  /** As written, free keeps every thread heap from being too empty, whatever classes are in
      use. */
  lemma FreeNotTooEmpty(w: World, fix: Repairs, ptr: nat, g: nat)
    requires WellFiled(w) && LiveAt(w, ptr) && !fix.exactUsage
    requires 0 < g < |w.inUse| && NotTooEmpty(w, g)
    ensures NotTooEmpty(HeapFree(w, fix, ptr), g)
  {
    FreeKeepsFull(w, fix, ptr, g);
  }

  // ---------- malloc ----------

  /** Growing a heap of `n` superblocks, all full: up to 24 the first bound holds, from 6 on
      the second. */
  lemma GrowthBounds(n: nat, u: int, added: int)
    requires MIN_PAYLOAD * n <= u && 0 <= added
    ensures !EmptyEnough(u + added, SUPERBLOCK_SIZE * (n + 1))
  {
  }

  /** All superblocks are cut for class `b`. */
  ghost predicate OneClass(w: World, b: nat) {
    forall a :: a in w.sbs ==> w.SbAt(a).blockSize == ClassOf(b)
  }

  /** When a heap with one class must take over or map a superblock, its own are all full. */
  lemma GrowsWhenFull(w: World, h: nat, b: nat, raw: Option<nat>)
    requires WellFiled(w) && OneClass(w, b) && LosesNone(w, h) && b < NUM_SIZE_BINS
    requires !SourceFor(w, h, b, raw).OwnBin? && !SourceFor(w, h, b, raw).OwnRecycled?
    ensures AllFull(w, h)
  {
    BinOfClass(b);
    forall a | a in w.sbs && w.OwnerOf(a) == h
      ensures w.SbAt(a).NumFree() == 0
    {
      FullOutsideBins(w, h, a);
    }
  }

  /** Memory is mapped only when it must be: with one size class and nothing lost, malloc turns
      to mmap only when all superblocks of its heap and of the global heap are full. */
  lemma MapsWhenFull(w: World, h: nat, b: nat, raw: Option<nat>)
    requires WellFiled(w) && OneClass(w, b) && Lost(w) == {} && b < NUM_SIZE_BINS
    requires SourceFor(w, h, b, raw).NewMapping? || SourceFor(w, h, b, raw).NoMemory?
    ensures AllFull(w, h) && AllFull(w, 0)
  {
    GrowsWhenFull(w, h, b, raw);
    CounterGuidesScan(w, Lost(w), 0, b);
    BinOfClass(b);
    forall a | a in w.sbs && w.OwnerOf(a) == 0
      ensures w.SbAt(a).NumFree() == 0
    {
      FullOutsideBins(w, 0, a);
    }
  }

  lemma OneClassFilesRight(w: World, fix: Repairs, h: nat, b: nat, raw: Option<nat>)
    requires WellFiled(w) && OneClass(w, b)
    ensures !Misfiles(w, fix, h, b, raw)
  {
    var src := SourceFor(w, h, b, raw);
    if src.GlobalRecycled? {
      RecycledFacts(w, Lost(w), 0, Chosen(w, h, b, src));
    }
  }

  /** Malloc adds a superblock to the requesting heap. */
  predicate Grows(src: Source) {
    Shared(src) || src.NewMapping?
  }

  /** What a request of class `b` adds to `in_use`: the class, charged even when there is no
      memory unless usage is exact, and the used bytes of an adopted superblock. */
  function Charge(w: World, fix: Repairs, h: nat, b: nat, src: Source): int {
    (if src.NoMemory? && fix.exactUsage then 0 else ClassOf(b)) + (if Shared(src) then w.SbAt(Chosen(w, h, b, src)).UsedBytes() else 0)
  }

  /** What malloc does to the counters of every heap, in any state. */
  lemma MallocUsage(w: World, fix: Repairs, h: nat, size: nat, raw: Option<nat>, g: nat)
    requires |w.inUse| == |w.alloced| && LegalMalloc(w, h, size, raw)
    requires g < |w.inUse|
    ensures var after := HeapAlloc(w, fix, h, size, raw).0; var b := BinOf(size);
            var src := SourceFor(w, h, b, raw);
            && |after.inUse| == |after.alloced| == |w.inUse|
            && after.inUse[g] == w.inUse[g] + (if g == h then Charge(w, fix, h, b, src) else 0)
            && after.alloced[g] == w.alloced[g] + (if g == h && Grows(src) then SUPERBLOCK_SIZE else 0)
  {
    BinHoldsRequest(size);
    var b := BinOf(size);
    var src := SourceFor(w, h, b, raw);
    if !src.NoMemory? {
      var a := Chosen(w, h, b, src);
      var w1 := Obtained(w, fix, h, b, src, a);
      ObtainedCounters(w, fix, h, b, src, a, g);
      ServeKeepsCounters(w1, h, b, a);
      assert BinAlloc(w, fix, h, b, ClassOf(b), raw).0 == Serve(w1, h, b, a);
    }
  }

  /** Whether a malloc leaves its heap full enough, read off the counters before it: if it adds
      a superblock, the heap must have at most 3S and the charge unused, or the grown heap be
      three quarters in use. */
  predicate GrowsWell(w: World, fix: Repairs, h: nat, size: nat, raw: Option<nat>) {
    var src := SourceFor(w, h, BinOf(size), raw);
    var charge := Charge(w, fix, h, BinOf(size), src);
    h < |w.inUse| && h < |w.alloced| && Grows(src) ==>
      || w.alloced[h] - w.inUse[h] <= (FREE_SB_THRESH - 1) * SUPERBLOCK_SIZE + charge
      || w.inUse[h] + charge >= 3 * (w.alloced[h] + SUPERBLOCK_SIZE) / 4
  }

  /** Malloc leaves a thread heap full enough that was so, exactly when it grows well: whatever
      classes are in use, whatever is lost or misfiled, and whatever is repaired. */
  lemma MallocKeepsFull(w: World, fix: Repairs, h: nat, size: nat, raw: Option<nat>, g: nat)
    requires |w.inUse| == |w.alloced| && LegalMalloc(w, h, size, raw)
    requires 0 < g < |w.inUse| && NotTooEmpty(w, g)
    ensures NotTooEmpty(HeapAlloc(w, fix, h, size, raw).0, g) <==> g != h || GrowsWell(w, fix, h, size, raw)
  {
    MallocUsage(w, fix, h, size, raw, g);
  }

  /** With one size class in use and nothing lost, every malloc grows well. */
  lemma OneClassGrowsWell(w: World, fix: Repairs, h: nat, size: nat, raw: Option<nat>)
    requires WellFiled(w) && Accounts(w) && LegalMalloc(w, h, size, raw)
    requires OneClass(w, BinOf(size)) && LosesNone(w, h)
    ensures GrowsWell(w, fix, h, size, raw)
  {
    BinHoldsRequest(size);
    var b := BinOf(size);
    var src := SourceFor(w, h, b, raw);
    if Grows(src) {
      GrowsWhenFull(w, h, b, raw);
      FullHeapUsage(w, h);
      assert Excess(w, h) == 0 && Slack(w, h) >= 0;
      ChargeNonnegative(w, fix, h, b, raw, src);
      GrowthBounds(Owned(w, h), w.inUse[h], Charge(w, fix, h, b, src));
    }
  }

  lemma ChargeNonnegative(w: World, fix: Repairs, h: nat, b: nat, raw: Option<nat>, src: Source)
    requires WellFiled(w) && 0 < h < |w.inUse| && b < NUM_SIZE_BINS && MapOk(w, raw)
    requires src == SourceFor(w, h, b, raw)
    ensures Charge(w, fix, h, b, src) >= 0
  {
    if Shared(src) {
      var a := Chosen(w, h, b, src);
      ChosenFacts(w, Lost(w), h, b, raw, src, a);
      assert SoundAt(w, a);
      UsedBytesBounds(w.SbAt(a));
    }
  }

  /** With one size class in use and nothing lost, malloc keeps every thread heap from being
      too empty. */
  lemma MallocNotTooEmpty(w: World, fix: Repairs, h: nat, size: nat, raw: Option<nat>, g: nat)
    requires WellFiled(w) && Accounts(w) && LegalMalloc(w, h, size, raw)
    requires OneClass(w, BinOf(size)) && LosesNone(w, h)
    requires 0 < g < |w.inUse| && NotTooEmpty(w, g)
    ensures NotTooEmpty(HeapAlloc(w, fix, h, size, raw).0, g)
  {
    OneClassGrowsWell(w, fix, h, size, raw);
    MallocKeepsFull(w, fix, h, size, raw, g);
  }

  lemma ServedOneClass(w: World, fix: Repairs, h: nat, b: nat, raw: Option<nat>, src: Source, a: nat)
    requires WellFiled(w) && OneClass(w, b) && Serves(w, h, b, raw, src, a)
    ensures OneClass(Serve(Obtained(w, fix, h, b, src, a), h, b, a), b)
  {
    hide Obtained, Serve, Sb.Eidx, Sb.NumFree, Sb.Valid, Counted, Distinct, Misfiles, SourceFor, Chosen;
    var w1 := Obtained(w, fix, h, b, src, a);
    assert ChangedAt(w, w1, a) && w1.SbAt(a).blockSize == ClassOf(b) by {
      OneClassFilesRight(w, fix, h, b, raw);
      ObtainedSound(w, fix, Lost(w), h, b, raw, src, a);
    }
    ObtainedReady(w, fix, Lost(w), h, b, raw, src, a);
    ServeFiled(w1, Lost(w) + Dropped(w, fix, h, src) + {a}, h, b, a);
    var after := Serve(w1, h, b, a);
    forall x | x in after.sbs
      ensures after.SbAt(x).blockSize == ClassOf(b)
    {
      assert x != a ==> after.SbAt(x) == w.SbAt(x);
    }
  }

  /** One class stays one class. */
  lemma MallocOneClass(w: World, fix: Repairs, h: nat, size: nat, raw: Option<nat>)
    requires WellFiled(w) && LegalMalloc(w, h, size, raw) && OneClass(w, BinOf(size))
    ensures OneClass(HeapAlloc(w, fix, h, size, raw).0, BinOf(size))
  {
    BinHoldsRequest(size);
    var b := BinOf(size);
    var src := SourceFor(w, h, b, raw);
    var after := HeapAlloc(w, fix, h, size, raw).0;
    if !src.NoMemory? {
      var a := Chosen(w, h, b, src);
      ServedOneClass(w, fix, h, b, raw, src, a);
      assert after.sbs == Serve(Obtained(w, fix, h, b, src, a), h, b, a).sbs;
    } else {
      assert after.sbs == w.sbs;
    }
  }

  lemma FreeOneClass(w: World, fix: Repairs, ptr: nat, b: nat)
    requires WellFiled(w) && LiveAt(w, ptr) && OneClass(w, b)
    ensures OneClass(HeapFree(w, fix, ptr), b)
  {
    var a := SuperblockOf(ptr);
    var freed := BinFree(w, ptr);
    BinFreeFiles(w, ptr);
    SettleKeepsBlocks(freed, fix, w.OwnerOf(a), w.SbAt(a).blockSize);
    forall x | x in freed.sbs
      ensures freed.SbAt(x).blockSize == ClassOf(b)
    {
      assert x != a ==> freed.SbAt(x) == w.SbAt(x);
    }
    assert HeapFree(w, fix, ptr).sbs == freed.sbs;
  }
}
