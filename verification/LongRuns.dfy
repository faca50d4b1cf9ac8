// Long runs of one size class on one heap, by counting: what each call does to the number of
// superblocks, of lost superblocks and of blocks held. They reach the states in which the
// emptiness invariant breaks.
module LongRuns {
  import opened Layout
  import opened SizeTables
  import opened SuperblockModel
  import opened Worlds
  import opened Filing
  import opened Steps
  import opened Safety
  import opened Counters
  import opened Emptiness
  import opened Runs

  const BLOCK: nat := 57552
  const BIN: nat := 20

  lemma FourBlocks()
    ensures ClassOf(BIN) == BLOCK <= ClassOf(NUM_SIZE_BINS - 1) && BinOf(BLOCK) == BIN && TotalBlocks(BLOCK) == 4
  {
    hide BinOf, IsClass;
    BinOfClass(BIN);
    assert ClassOf(BIN) == BLOCK <= ClassOf(22);
  }

  lemma BlockCounts(sb: Sb)
    requires sb.Valid() && sb.blockSize == BLOCK
    ensures 0 <= sb.NumFree() <= 4 && sb.UsedBytes() == BLOCK * (4 - sb.NumFree())
    ensures sb.Empty() <==> sb.NumFree() == 4
  {
    hide ClassOf, BinOf;
    FourBlocks();
    LiveCount(sb);
  }

  // ---------- one heap, one class ----------

  /** Heap 1, the only thread heap, owns every superblock, all of one class, and its counters
      are exact. */
  ghost predicate OneHeap(w: World) {
    && WellFiled(w) && Accounts(w) && OneClass(w, BIN)
    && |w.inUse| == |w.alloced| == 2 && Slack(w, 1) == 0
    && forall a :: a in w.sbs ==> w.OwnerOf(a) == 1
  }

  lemma BlockAt(w: World, a: nat)
    requires OneHeap(w) && a in w.sbs
    ensures var sb := w.SbAt(a);
            && sb.Valid() && sb.blockSize == BLOCK && w.OwnerOf(a) == 1
            && 0 <= sb.NumFree() <= 4 && sb.UsedBytes() == BLOCK * (4 - sb.NumFree())
            && (sb.Empty() <==> sb.NumFree() == 4)
            && (a in Lost(w) ==> sb.NumFree() == 4)
  {
    FourBlocks();
    assert SoundAt(w, a);
    BlockCounts(w.SbAt(a));
  }

  /** Where the values are 0 in `zero` and at most `v` elsewhere, their sum is at most `v` for
      each of the others, and reaches that only if all of them are `v`. */
  lemma {:induction false} SumCapped(m: map<nat, int>, zero: set<nat>, v: nat)
    requires zero <= m.Keys
    requires forall k :: k in m ==> if k in zero then m[k] == 0 else m[k] <= v
    ensures Sum(m) <= v * (|m| - |zero|)
    ensures Sum(m) == v * (|m| - |zero|) <==> forall k :: k in m && k !in zero ==> m[k] == v
    decreases |m|
  {
    if m == map[] {
    } else {
      var k :| k in m;
      SumRemove(m, k);
      MapSize(m, k);
      SumCapped(m - {k}, zero - {k}, v);
      OneLess(m, zero, k, v);
      assert forall j :: j in m <==> j == k || j in m - {k};
    }
  }

  lemma OneLess(m: map<nat, int>, zero: set<nat>, k: nat, v: nat)
    requires zero <= m.Keys && k in m
    ensures v * (|m| - |zero|) == v * (|m - {k}| - |zero - {k}|) + if k in zero then 0 else v
  {
    MapSize(m, k);
    var n := |m - {k}| - |zero - {k}|;
    if k in zero {
      assert |m| - |zero| == n;
    } else {
      assert zero - {k} == zero;
      assert v * (n + 1) == v * n + v;
    }
  }

  lemma AllUsed(w: World)
    requires OneHeap(w)
    ensures Owned(w, 1) == |w.sbs|
    ensures UsedMap(w, 1).Keys == w.sbs.Keys
    ensures forall a :: a in w.sbs ==> UsedMap(w, 1)[a] == BLOCK * (4 - w.SbAt(a).NumFree())
    ensures forall a :: a in w.sbs ==> 0 <= w.SbAt(a).NumFree() <= 4
    ensures forall a :: a in Lost(w) ==> w.SbAt(a).NumFree() == 4
  {
    forall a | a in w.sbs
      ensures w.OwnerOf(a) == 1 && w.SbAt(a).UsedBytes() == BLOCK * (4 - w.SbAt(a).NumFree())
      ensures 0 <= w.SbAt(a).NumFree() <= 4
      ensures a in Lost(w) ==> w.SbAt(a).NumFree() == 4
    {
      BlockAt(w, a);
    }
    assert UsedMap(w, 1).Keys == w.sbs.Keys;
  }

  /** The blocks the superblocks in lists can hold. */
  ghost function Capacity(w: World): int {
    4 * (|w.sbs| - |Lost(w)|)
  }

  ghost predicate ListedFull(w: World) {
    forall a :: a in w.sbs && a !in Lost(w) ==> w.SbAt(a).NumFree() == 0
  }

  /** The used bytes fill the capacity exactly when all superblocks in lists are full. */
  lemma UsedWithinCapacity(w: World)
    requires OneHeap(w)
    ensures w.inUse[1] <= BLOCK * Capacity(w)
    ensures w.inUse[1] == BLOCK * Capacity(w) <==> ListedFull(w)
    ensures w.alloced[1] == SUPERBLOCK_SIZE * |w.sbs|
  {
    hide WellFiled, OneClass, Lost;
    AllUsed(w);
    LostAreMapped(w);
    assert Excess(w, 1) == 0;
    SumCapped(UsedMap(w, 1), Lost(w), 4 * BLOCK);
  }

  lemma LostAreMapped(w: World)
    ensures Lost(w) <= w.sbs.Keys
  {
  }

  lemma ListedAtOne(w: World, p: Place, a: nat)
    requires OneHeap(w) && a in w.List(p)
    ensures p.heap == 1
  {
    hide Accounts, OneClass, Slack, Sound;
    assert a in w.sbs && p == w.Home(a);
  }

  /** Nothing is in the lists of the global heap. */
  lemma GlobalIsBare(w: World)
    requires OneHeap(w)
    ensures w.List(Recycled(0)) == [] && w.Nonfull(0, BIN) == 0
  {
    hide Accounts, OneClass, Slack, Sound;
    forall p: Place | p.heap == 0
      ensures w.List(p) == []
    {
      if w.List(p) != [] {
        ListedAtOne(w, p, w.List(p)[0]);
        assert false;
      }
    }
    assert Counted(w, 0, BIN);
  }

  lemma RoomIsListed(w: World, a: nat)
    requires OneHeap(w) && a in w.sbs && a !in Lost(w)
    ensures var p := w.Home(a);
            && a in w.List(p)
            && (if w.SbAt(a).NumFree() == 4 then p == Recycled(1)
                else p.InBin? && p.heap == 1 && p.bin == BIN && p.eidx < NUM_EMPTINESS_CLASSES && (p.eidx == 0 <==> w.SbAt(a).NumFree() == 0))
  {
    hide WellFiled, Accounts, OneClass, Slack, Sb.NumFree, Sb.Eidx, Sb.Empty, Sb.Valid, BinOf;
    FourBlocks();
    BlockAt(w, a);
    EidxRange(w.SbAt(a));
  }

  /** A superblock outside the recycling list that has a free block is in bins 1 to 4. */
  lemma RoomIsFound(w: World, a: nat)
    requires OneHeap(w) && w.List(Recycled(1)) == []
    requires a in w.sbs && a !in Lost(w) && w.SbAt(a).NumFree() > 0
    ensures FullestFrom(w, 1, BIN, 1).Some?
  {
    hide OneHeap, Sb.NumFree, Lost;
    RoomIsListed(w, a);
    assert w.Home(a).InBin? && w.List(InBin(1, BIN, w.Home(a).eidx)) != [];
  }

  lemma RoomInBins(w: World)
    requires OneHeap(w) && w.List(Recycled(1)) == []
    ensures FullestFrom(w, 1, BIN, 1).None? <==> ListedFull(w)
  {
    hide OneHeap, Sb.NumFree, Lost;
    forall a | a in w.sbs && a !in Lost(w)
      ensures w.SbAt(a).NumFree() <= 0 || FullestFrom(w, 1, BIN, 1).Some?
      ensures w.SbAt(a).NumFree() >= 0
    {
      BlockAt(w, a);
      if w.SbAt(a).NumFree() > 0 {
        RoomIsFound(w, a);
      }
    }
    var found := FullestFrom(w, 1, BIN, 1);
    if found.Some? {
      RoomAt(w, found.value, w.List(InBin(1, BIN, found.value))[0]);
    }
  }

  lemma RoomAt(w: World, e: nat, a: nat)
    requires OneHeap(w) && e > 0 && a in w.List(InBin(1, BIN, e))
    ensures a in w.sbs && a !in Lost(w) && w.SbAt(a).NumFree() > 0
  {
    hide Accounts, OneClass, Slack;
    InBinFacts(w, Lost(w), 1, BIN, e, a);
  }

  /** With nothing to recycle, malloc serves from the bins while there is room, and maps when
      there is none. */
  lemma SourceByRoom(w: World, raw: nat)
    requires OneHeap(w) && w.List(Recycled(1)) == []
    ensures var src := SourceFor(w, 1, BIN, Some(raw));
            if ListedFull(w) then src.NewMapping? else src.OwnBin?
  {
    hide OneHeap, ListedFull;
    GlobalIsBare(w);
    RoomInBins(w);
  }

  /** Somewhere in memory there is room for a mapping. */
  lemma RoomToMap(w: World) returns (raw: nat)
    ensures FreshRange(w, raw)
  {
    var top := Above(w.sbs.Keys);
    raw := top + SUPERBLOCK_SIZE;
  }

  lemma {:induction false} Above(s: set<nat>) returns (top: nat)
    ensures forall a :: a in s ==> a <= top
    decreases |s|
  {
    if s == {} {
      top := 0;
    } else {
      var a :| a in s;
      var rest := Above(s - {a});
      top := if rest < a then a else rest;
      assert forall x :: x in s ==> x == a || x in s - {a};
    }
  }

  // ---------- one malloc ----------

  /** The superblock that serves is the only one that changes, and heap 1 owns it after. */
  lemma ServedOwner(w: World, fix: Repairs, raw: Option<nat>, src: Source, a: nat)
    requires OneHeap(w) && Serves(w, 1, BIN, raw, src, a)
    ensures var after := Serve(Obtained(w, fix, 1, BIN, src, a), 1, BIN, a);
            && ChangedAt(w, after, a) && after.OwnerOf(a) == 1 && !after.SbAt(a).Empty()
  {
    hide Accounts, OneClass, Slack, Obtained, Serve, Sb.Empty, Sb.NumFree;
    var w1 := Obtained(w, fix, 1, BIN, src, a);
    ObtainedSound(w, fix, Lost(w), 1, BIN, raw, src, a);
    ObtainedReady(w, fix, Lost(w), 1, BIN, raw, src, a);
    ServeFiled(w1, Lost(w) + Dropped(w, fix, 1, src) + {a}, 1, BIN, a);
  }

  /** A malloc of this class that need not turn to the global heap: `a` serves it. */
  ghost predicate ServedHere(w: World, raw: nat, src: Source, a: nat) {
    && FreshRange(w, raw)
    && src == SourceFor(w, 1, BIN, Some(raw)) && (src.OwnBin? || src.OwnRecycled? || src.NewMapping?)
    && a == Chosen(w, 1, BIN, src)
  }

  lemma HereIsLegal(w: World, fix: Repairs, raw: nat, src: Source, a: nat)
    requires OneHeap(w) && ServedHere(w, raw, src, a)
    ensures LegalMalloc(w, 1, BLOCK, Some(raw)) && !Misfiles(w, fix, 1, BIN, Some(raw)) && BinOf(BLOCK) == BIN
    ensures Serves(w, 1, BIN, Some(raw), src, a)
  {
    hide WellFiled, Accounts, OneClass, Slack, SourceFor, Chosen, FreshRange, Misfiles, BinOf, ClassOf;
    FourBlocks();
    OneClassFilesRight(w, fix, 1, BIN, Some(raw));
  }

  lemma MallocBooks(w: World, fix: Repairs, raw: nat, src: Source, a: nat)
    requires OneHeap(w) && ServedHere(w, raw, src, a)
    ensures var (after, r) := HeapAlloc(w, fix, 1, BLOCK, Some(raw));
            && WellFiled(after) && Accounts(after) && OneClass(after, BIN)
            && |after.inUse| == 2 && Slack(after, 1) == 0
            && after.inUse[1] == w.inUse[1] + BLOCK
            && Lost(after) == Lost(w) + Dropped(w, fix, 1, src)
            && r.Some?
  {
    hide WellFiled, Accounts, OneClass, Slack, SourceFor, Chosen, HeapAlloc, Dropped, Misfiles, LegalMalloc, LiveAt, Lost, BinOf, ClassOf;
    FourBlocks();
    HereIsLegal(w, fix, raw, src, a);
    MallocFiles(w, fix, 1, BLOCK, Some(raw));
    MallocAccounts(w, fix, 1, BLOCK, Some(raw));
    MallocOneClass(w, fix, 1, BLOCK, Some(raw));
    MallocUsage(w, fix, 1, BLOCK, Some(raw), 1);
    MallocCounters(w, fix, 1, BLOCK, Some(raw), 1);
    MallocLive(w, fix, 1, BLOCK, Some(raw), 0);
  }

  lemma MallocBlocks(w: World, fix: Repairs, raw: nat, src: Source, a: nat)
    requires OneHeap(w) && ServedHere(w, raw, src, a)
    ensures var after := HeapAlloc(w, fix, 1, BLOCK, Some(raw)).0;
            && ChangedAt(w, after, a) && after.OwnerOf(a) == 1 && !after.SbAt(a).Empty()
            && |after.sbs| == |w.sbs| + (if src.NewMapping? then 1 else 0)
  {
    hide WellFiled, Accounts, OneClass, Slack, SourceFor, Chosen, HeapAlloc, Serve, Obtained, LegalMalloc, Serves, Sb.Empty, BinOf, ClassOf;
    FourBlocks();
    HereIsLegal(w, fix, raw, src, a);
    HeapAllocIs(w, fix, 1, BLOCK, Some(raw));
    ServedOwner(w, fix, Some(raw), src, a);
    ServedKeys(w, fix, 1, BIN, Some(raw), src, a);
    AddSize(w.sbs.Keys, a);
  }

  /** Heap 1 is all there is after the malloc, too. */
  lemma MallocHere(w: World, fix: Repairs, raw: nat, src: Source, a: nat)
    requires OneHeap(w) && ServedHere(w, raw, src, a)
    ensures OneHeap(HeapAlloc(w, fix, 1, BLOCK, Some(raw)).0)
  {
    hide WellFiled, Accounts, OneClass, Slack, HeapAlloc, ServedHere, Lost, Dropped;
    MallocBooks(w, fix, raw, src, a);
    MallocBlocks(w, fix, raw, src, a);
    var after := HeapAlloc(w, fix, 1, BLOCK, Some(raw)).0;
    forall x | x in after.sbs
      ensures after.OwnerOf(x) == 1
    {
      assert x != a ==> after.OwnerOf(x) == w.OwnerOf(x);
    }
  }

  lemma RecycledIsEmpty(w: World, x: nat)
    requires OneHeap(w)
    ensures x in w.List(Recycled(1)) <==> x in w.sbs && x !in Lost(w) && w.SbAt(x).Empty()
  {
    hide Accounts, OneClass, Slack, Sound;
    if x in w.List(Recycled(1)) {
      assert Recycled(1) == w.Home(x);
    }
    if x in w.sbs && x !in Lost(w) && w.SbAt(x).Empty() {
      assert w.Home(x) == Recycled(1);
    }
  }

  /** What is still to recycle after the malloc was so before, and is not the superblock that
      serves. */
  lemma RecycledAfter(w: World, fix: Repairs, raw: nat, src: Source, a: nat, x: nat)
    requires OneHeap(w) && ServedHere(w, raw, src, a)
    requires x in HeapAlloc(w, fix, 1, BLOCK, Some(raw)).0.List(Recycled(1))
    ensures x in w.List(Recycled(1)) && x != a && x !in Dropped(w, fix, 1, src)
  {
    hide OneHeap, HeapAlloc, ServedHere, Lost, Dropped, Sb.Empty, World.List;
    var after := HeapAlloc(w, fix, 1, BLOCK, Some(raw)).0;
    MallocBooks(w, fix, raw, src, a);
    MallocBlocks(w, fix, raw, src, a);
    MallocHere(w, fix, raw, src, a);
    RecycledIsEmpty(after, x);
    RecycledIsEmpty(w, x);
  }

  // ---------- states ----------

  /** What runs of this kind keep between calls: the books balance, and `in_use` counts the
      blocks held. */
  ghost predicate Local(s: State) {
    Good(s) && OneHeap(s.world) && s.world.inUse[1] == BLOCK * |s.held|
  }

  /** A legal run of one size class, without adoptions, reaches `s`. */
  ghost predicate Reached(fix: Repairs, s: State) {
    exists ops :: LegalRun(fix, Start(1), ops) && NeverAdopts(fix, Start(1), ops) && OneBin(ops, BIN) && Run(fix, Start(1), ops) == s
  }

  lemma ReachNext(fix: Repairs, s: State, op: Op)
    requires Reached(fix, s) && Legal(s, op) && !Adopts(fix, s, op)
    requires op.Malloc? ==> BinOf(op.size) == BIN
    ensures Reached(fix, Apply(fix, s, op))
  {
    hide Apply, Adopts, Legal, LegalRun, NeverAdopts, Run, BinOf;
    var ops :| LegalRun(fix, Start(1), ops) && NeverAdopts(fix, Start(1), ops) && OneBin(ops, BIN) && Run(fix, Start(1), ops) == s;
    RunAppend(fix, Start(1), ops, op);
    assert OneBin(ops + [op], BIN);
  }

  /** One malloc, from the bins, the recycling list or a new mapping. */
  lemma MallocNext(fix: Repairs, s: State, raw: nat, src: Source, a: nat) returns (t: State)
    requires Local(s) && Reached(fix, s) && ServedHere(s.world, raw, src, a)
    ensures t.world == HeapAlloc(s.world, fix, 1, BLOCK, Some(raw)).0
    ensures Local(t) && Reached(fix, t) && |t.held| == |s.held| + 1
  {
    hide OneHeap, HeapAlloc, ServedHere, Misfiles, LegalMalloc, Reached, WellFiled, Accounts, LiveAt, BlockSizeAt, BinOf;
    var op := Malloc(1, BLOCK, Some(raw));
    HereIsLegal(s.world, fix, raw, src, a);
    t := Apply(fix, s, op);
    MallocHere(s.world, fix, raw, src, a);
    MallocBooks(s.world, fix, raw, src, a);
    StepGood(fix, s, op);
    ReachNext(fix, s, op);
    MallocLive(s.world, fix, 1, BLOCK, Some(raw), 0);
  }

  // ---------- filling up ----------

  /** Nothing is to recycle, and there are no more superblocks in lists than the blocks held
      fill. */
  ghost predicate Packed(s: State) {
    && s.world.List(Recycled(1)) == []
    && |s.world.sbs| - |Lost(s.world)| == (|s.held| + 3) / 4
  }

  lemma HeldWithinCapacity(s: State)
    requires Local(s)
    ensures |s.held| <= Capacity(s.world)
    ensures |s.held| == Capacity(s.world) <==> ListedFull(s.world)
  {
    hide Good, OneHeap, Lost, ListedFull, Capacity;
    UsedWithinCapacity(s.world);
  }

  lemma NothingRecycled(w: World, fix: Repairs, raw: nat, src: Source, a: nat)
    requires OneHeap(w) && ServedHere(w, raw, src, a) && !src.OwnRecycled?
    requires w.List(Recycled(1)) == []
    ensures var after := HeapAlloc(w, fix, 1, BLOCK, Some(raw)).0;
            after.List(Recycled(1)) == [] && Lost(after) == Lost(w)
  {
    hide OneHeap, HeapAlloc, ServedHere, Lost, World.List;
    MallocBooks(w, fix, raw, src, a);
    var list := HeapAlloc(w, fix, 1, BLOCK, Some(raw)).0.List(Recycled(1));
    if list != [] {
      RecycledAfter(w, fix, raw, src, a, list[0]);
      assert false;
    }
  }

  /** A malloc maps a superblock when the blocks held fill those there are, and only then. */
  lemma MallocPacked(fix: Repairs, s: State) returns (t: State)
    requires Local(s) && Reached(fix, s) && Packed(s)
    ensures Local(t) && Reached(fix, t) && Packed(t)
    ensures |t.held| == |s.held| + 1 && Lost(t.world) == Lost(s.world)
  {
    hide OneHeap, HeapAlloc, Reached, Good, Chosen, SourceFor, FreshRange, Lost, ListedFull, World.List;
    var w := s.world;
    var raw := RoomToMap(w);
    var src := SourceFor(w, 1, BIN, Some(raw));
    var a := Chosen(w, 1, BIN, src);
    SourceByRoom(w, raw);
    HeldWithinCapacity(s);
    t := MallocNext(fix, s, raw, src, a);
    NothingRecycled(w, fix, raw, src, a);
    MallocBlocks(w, fix, raw, src, a);
  }

  lemma {:induction false} MallocMany(fix: Repairs, s: State, k: nat) returns (t: State)
    requires Local(s) && Reached(fix, s) && Packed(s)
    ensures Local(t) && Reached(fix, t) && Packed(t)
    ensures |t.held| == |s.held| + k && Lost(t.world) == Lost(s.world)
    decreases k
  {
    hide Local, Reached, Packed, Lost;
    t := s;
    if k > 0 {
      t := MallocPacked(fix, s);
      t := MallocMany(fix, t, k - 1);
    }
  }

  lemma StartIsPacked(fix: Repairs)
    ensures Local(Start(1)) && Reached(fix, Start(1)) && Packed(Start(1)) && Lost(Start(1).world) == {}
  {
    StartGood(1);
    var w := Start(1).world;
    assert UsedMap(w, 1) == map[];
    assert LegalRun(fix, Start(1), []) && NeverAdopts(fix, Start(1), []) && OneBin([], BIN) && Run(fix, Start(1), []) == Start(1);
  }

  // ---------- one free ----------

  /** A free that leaves the heap full enough to keep its superblocks. */
  ghost predicate KeptFree(w: World, p: nat) {
    LiveAt(w, p) && |w.inUse| == |w.alloced| == 2 && !EmptyEnough(w.inUse[1] - BLOCK, w.alloced[1])
  }

  lemma KeptSettles(freed: World, fix: Repairs)
    requires |freed.inUse| == |freed.alloced| == 2 && !Transfers(freed, 1, BLOCK)
    ensures var after := Settle(freed, fix, 1, BLOCK);
            && after.sbs == freed.sbs && after.owner == freed.owner
            && |after.inUse| == |after.alloced| == 2
  {
    hide Transfer, EmptyEnough;
  }

  lemma FreeSettles(w: World, fix: Repairs, p: nat)
    requires OneHeap(w) && KeptFree(w, p)
    ensures var freed := BinFree(w, p); var a := SuperblockOf(p);
            && a in w.sbs && BlockSizeAt(w, p) == BLOCK && w.OwnerOf(a) == 1
            && HeapFree(w, fix, p) == Settle(freed, fix, 1, BLOCK)
            && |freed.inUse| == |freed.alloced| == 2 && !Transfers(freed, 1, BLOCK)
  {
    hide WellFiled, Accounts, OneClass, Slack, BinFree, EmptyEnough, Settle, IsLive;
    BlockAt(w, SuperblockOf(p));
    BinFreeUsage(w, p);
  }

  lemma FreeBlocks(w: World, fix: Repairs, p: nat)
    requires OneHeap(w) && KeptFree(w, p)
    ensures var after := HeapFree(w, fix, p); var a := SuperblockOf(p);
            && a in w.sbs && BlockSizeAt(w, p) == BLOCK && w.OwnerOf(a) == 1
            && ChangedAt(w, after, a) && after.OwnerOf(a) == 1
            && after.SbAt(a) == w.SbAt(a).Release(SlotAt(a, BLOCK, p))
            && !Transfers(BinFree(w, p), 1, BLOCK)
  {
    hide WellFiled, Accounts, OneClass, Slack, BinFree, EmptyEnough, Sb.Release, LiveAt, Transfers, Settle, HeapFree, Sound, Filed;
    FreeSettles(w, fix, p);
    KeptSettles(BinFree(w, p), fix);
    BinFreeFiles(w, p);
  }

  lemma FreeBooks(w: World, fix: Repairs, p: nat)
    requires OneHeap(w) && KeptFree(w, p)
    ensures var after := HeapFree(w, fix, p);
            && WellFiled(after) && Accounts(after) && OneClass(after, BIN)
            && |after.inUse| == |after.alloced| == 2 && Slack(after, 1) == 0
            && Lost(after) == Lost(w)
            && after.inUse[1] == w.inUse[1] - BLOCK
  {
    hide WellFiled, Accounts, OneClass, Slack, BinFree, HeapFree, EmptyEnough, Transfers, ChangedAt, LiveAt, Lost;
    FreeBlocks(w, fix, p);
    FreeFiles(w, fix, p);
    FreeAccounts(w, fix, p);
    FreeOneClass(w, fix, p, BIN);
    FreeUsage(w, fix, p, 1);
    FreeCounters(w, fix, p, 1);
  }

  lemma FreeHere(w: World, fix: Repairs, p: nat)
    requires OneHeap(w) && KeptFree(w, p)
    ensures OneHeap(HeapFree(w, fix, p))
  {
    hide WellFiled, Accounts, OneClass, Slack, HeapFree, BinFree, Transfers, Sb.Release, KeptFree;
    FreeBlocks(w, fix, p);
    FreeBooks(w, fix, p);
    var after := HeapFree(w, fix, p);
    forall x | x in after.sbs
      ensures after.OwnerOf(x) == 1
    {
      assert x != SuperblockOf(p) ==> after.OwnerOf(x) == w.OwnerOf(x);
    }
  }

  lemma FreeNext(fix: Repairs, s: State, p: nat) returns (t: State)
    requires Local(s) && Reached(fix, s) && p in s.held && KeptFree(s.world, p)
    ensures t.world == HeapFree(s.world, fix, p)
    ensures Local(t) && Reached(fix, t) && t.held == s.held - {p} && |t.held| == |s.held| - 1
    ensures Lost(t.world) == Lost(s.world) && |t.world.sbs| == |s.world.sbs|
  {
    hide OneHeap, HeapFree, KeptFree, Reached, WellFiled, Accounts, LiveAt, BlockSizeAt, Lost, BinFree, Transfers;
    t := Apply(fix, s, Free(p));
    FreeHere(s.world, fix, p);
    FreeBooks(s.world, fix, p);
    FreeMaps(fix, s, p);
    StepGood(fix, s, Free(p));
    ReachNext(fix, s, Free(p));
    HeldLess(s.held, p);
  }

  lemma HeldLess(m: map<nat, nat>, p: nat)
    requires p in m
    ensures |m - {p}| == |m| - 1
  {
    assert (m - {p}).Keys == m.Keys - {p};
  }

  // ---------- a run that loses three superblocks ----------

  /** With at most four superblocks the heap is never empty enough: every block can be freed. */
  lemma FewAreKept(s: State, p: nat)
    requires Local(s) && p in s.held && |s.world.sbs| <= 4
    ensures KeptFree(s.world, p)
  {
    hide WellFiled, OneClass, Slack, LiveAt, BlockSizeAt, Lost, ListedFull;
    UsedWithinCapacity(s.world);
    HeldLess(s.held, p);
  }

  lemma {:induction false} FreeAll(fix: Repairs, s: State) returns (t: State)
    requires Local(s) && Reached(fix, s) && |s.world.sbs| <= 4
    ensures Local(t) && Reached(fix, t) && t.held == map[]
    ensures Lost(t.world) == Lost(s.world) && |t.world.sbs| == |s.world.sbs|
    decreases |s.held|
  {
    hide Local, Reached, Lost, KeptFree, HeapFree;
    t := s;
    if s.held != map[] {
      var p :| p in s.held;
      FewAreKept(s, p);
      t := FreeNext(fix, s, p);
      t := FreeAll(fix, t);
    }
  }

  lemma NoneHeld(s: State, a: nat)
    requires Local(s) && s.held == map[] && a in s.world.sbs
    ensures s.world.SbAt(a).Empty()
  {
    hide WellFiled, Accounts, OneHeap, Sb.Empty, Sb.Live, Sb.NumFree;
    var sb := s.world.SbAt(a);
    BlockAt(s.world, a);
    LiveCount(sb);
    if sb.Live() != {} {
      var i :| i in sb.Live();
      HeldSlot(s, a, i);
      assert false;
    }
  }

  /** A client holds every live slot. */
  lemma HeldSlot(s: State, a: nat, i: nat)
    requires Local(s) && a in s.world.sbs && i in s.world.SbAt(a).Live()
    ensures BlockAddr(a, BLOCK, i) in s.held && SuperblockOf(BlockAddr(a, BLOCK, i)) == a && SlotAt(a, BLOCK, BlockAddr(a, BLOCK, i)) == i
  {
    hide WellFiled, Accounts, OneHeap, LiveAt, Sb.Live, Sb.NumFree, BlockAddr, SuperblockOf, SlotAt, BlockSizeAt;
    BlockAt(s.world, a);
    SlotLives(s.world, a, i);
  }

  lemma SlotLives(w: World, a: nat, i: nat)
    requires OneHeap(w) && a in w.sbs && w.SbAt(a).blockSize == BLOCK && i in w.SbAt(a).Live()
    ensures LiveAt(w, BlockAddr(a, BLOCK, i))
    ensures SuperblockOf(BlockAddr(a, BLOCK, i)) == a && SlotAt(a, BLOCK, BlockAddr(a, BLOCK, i)) == i
  {
    hide Accounts, OneClass, Slack, LiveAt, BlockAddr, SuperblockOf, SlotAt;
    assert SoundAt(w, a);
    LiveSlot(w, a, i);
  }

  lemma AllRecycled(w: World)
    requires OneHeap(w) && Lost(w) == {} && |w.sbs| > 0
    requires forall a :: a in w.sbs ==> w.SbAt(a).Empty()
    ensures var list := w.List(Recycled(1));
            && NoDup(list) && Elements(list) == w.sbs.Keys && |list| == |w.sbs|
            && forall raw :: SourceFor(w, 1, BIN, Some(raw)) == OwnRecycled
  {
    hide WellFiled, Accounts, OneClass, Slack, Lost, Sb.Empty, Sb.NumFree, World.List;
    var list := w.List(Recycled(1));
    forall x
      ensures x in list <==> x in w.sbs
    {
      RecycledIsEmpty(w, x);
    }
    RecycledDistinct(w);
    NoDupSize(list);
    var found := FullestFrom(w, 1, BIN, 1);
    if found.Some? {
      BinnedIsUsed(w, found.value, w.List(InBin(1, BIN, found.value))[0]);
      assert false;
    }
  }

  lemma RecycledDistinct(w: World)
    requires OneHeap(w)
    ensures NoDup(w.List(Recycled(1)))
  {
    hide Accounts, OneClass, Slack, Sound;
    assert Distinct(w, Recycled(1));
  }

  lemma BinnedIsUsed(w: World, e: nat, a: nat)
    requires OneHeap(w) && a in w.List(InBin(1, BIN, e))
    ensures a in w.sbs && !w.SbAt(a).Empty()
  {
    hide Accounts, OneClass, Slack;
    InBinFacts(w, Lost(w), 1, BIN, e, a);
  }

  lemma TailSet(list: seq<nat>)
    requires NoDup(list) && |list| > 0
    ensures |Elements(list[1..])| == |list| - 1
    ensures forall x :: x in list && x != list[0] ==> x in Elements(list[1..])
  {
    NoDupSize(list[1..]);
    assert list == [list[0]] + list[1..];
  }

  /** When nothing is held, all superblocks wait to be recycled, and the next malloc drops all
      but one. */
  lemma MallocDrops(fix: Repairs, s: State) returns (t: State)
    requires Local(s) && Reached(fix, s) && s.held == map[] && Lost(s.world) == {}
    requires !fix.nextFirst && |s.world.sbs| > 0
    ensures Local(t) && Reached(fix, t) && Packed(t)
    ensures |t.held| == 1 && |Lost(t.world)| == |s.world.sbs| - 1
  {
    hide OneHeap, HeapAlloc, Reached, Good, SourceFor, FreshRange, Lost, Serves, Sb.Empty, World.List, Elements;
    var w := s.world;
    forall a | a in w.sbs
      ensures w.SbAt(a).Empty()
    {
      NoneHeld(s, a);
    }
    AllRecycled(w);
    var raw := RoomToMap(w);
    var list := w.List(Recycled(1));
    TailSet(list);
    t := MallocNext(fix, s, raw, OwnRecycled, list[0]);
    MallocBooks(w, fix, raw, OwnRecycled, list[0]);
    MallocBlocks(w, fix, raw, OwnRecycled, list[0]);
    if t.world.List(Recycled(1)) != [] {
      RecycledAfter(w, fix, raw, OwnRecycled, list[0], t.world.List(Recycled(1))[0]);
      assert false;
    }
  }

  /** One size class on one heap, and `next` read too late: a legal run that leaves the heap
      too empty. */
  lemma LossMakesTooEmpty(fix: Repairs)
    requires !fix.nextFirst
    ensures exists ops :: LegalRun(fix, Start(1), ops) && NeverAdopts(fix, Start(1), ops) && OneBin(ops, BIN)
                          && !NotTooEmpty(Run(fix, Start(1), ops).world, 1)
  {
    hide LegalRun, NeverAdopts, Run, OneBin, Good, Lost, WellFiled, Accounts, OneClass, Slack, ListedFull;
    StartIsPacked(fix);
    var s := MallocMany(fix, Start(1), 16);
    assert |s.world.sbs| == 4;
    s := FreeAll(fix, s);
    s := MallocDrops(fix, s);
    s := MallocMany(fix, s, 8);
    assert |s.world.sbs| == 6 && |s.held| == 9;
    UsedWithinCapacity(s.world);
    assert !NotTooEmpty(s.world, 1);
  }

  // ---------- a run that transfers too many used bytes ----------

  /** 18 superblocks, none lost, each with at most one free block. */
  ghost predicate NearlyFull(w: World) {
    && |w.sbs| == 18 && Lost(w) == {}
    && forall a :: a in w.sbs ==> w.SbAt(a).NumFree() <= 1
  }

  /** More than three blocks a superblock are held only if one is full. */
  lemma FullExists(s: State) returns (a: nat)
    requires Local(s) && NearlyFull(s.world) && |s.held| > 54
    ensures a in s.world.sbs && s.world.SbAt(a).NumFree() == 0
  {
    hide Good, OneHeap, Lost, Sb.NumFree;
    var w := s.world;
    if forall a :: a in w.sbs ==> w.SbAt(a).NumFree() != 0 {
      forall a | a in w.sbs
        ensures w.SbAt(a).NumFree() >= 1
      {
        BlockAt(w, a);
      }
      UsedByThrees(w);
      assert false;
    }
    a :| a in w.sbs && w.SbAt(a).NumFree() == 0;
  }

  lemma FullOne(s: State) returns (p: nat)
    requires Local(s) && NearlyFull(s.world) && |s.held| > 54
    ensures p in s.held && LiveAt(s.world, p) && SuperblockOf(p) in s.world.sbs && s.world.SbAt(SuperblockOf(p)).NumFree() == 0
  {
    hide WellFiled, OneHeap, NearlyFull, Accounts, LiveAt, Sb.NumFree, Sb.Live, BlockSizeAt, SlotAt, SuperblockOf;
    var a := FullExists(s);
    BlockAt(s.world, a);
    FullIsLive(s.world.SbAt(a));
    var i :| i in s.world.SbAt(a).Live();
    HeldSlot(s, a, i);
    p := BlockAddr(a, BLOCK, i);
  }

  lemma FullIsLive(sb: Sb)
    requires sb.Valid() && sb.blockSize == BLOCK && sb.NumFree() == 0
    ensures sb.Live() != {}
  {
    FourBlocks();
    LiveCount(sb);
  }

  lemma UsedByThrees(w: World)
    requires OneHeap(w) && |w.sbs| == 18
    requires forall a :: a in w.sbs ==> w.SbAt(a).NumFree() >= 1
    ensures w.inUse[1] <= BLOCK * 54
  {
    hide WellFiled, OneClass, Lost, Sb.NumFree;
    AllUsed(w);
    SumCapped(UsedMap(w, 1), {}, 3 * BLOCK);
  }

  /** The superblocks after a block of a full one is back. */
  lemma NearlyFullAfter(w: World, after: World, a: nat, i: nat)
    requires OneHeap(w) && NearlyFull(w) && a in w.sbs && w.SbAt(a).NumFree() == 0
    requires ChangedAt(w, after, a) && after.SbAt(a) == w.SbAt(a).Release(i)
    ensures |after.sbs| == 18
    ensures forall x :: x in after.sbs ==> after.SbAt(x).NumFree() <= 1 && after.SbAt(x).blockSize == BLOCK
  {
    hide WellFiled, Accounts, OneHeap, Lost, Sb.Valid;
    assert after.sbs.Keys == w.sbs.Keys;
    BlockAt(w, a);
    forall x | x in after.sbs && x != a
      ensures after.SbAt(x).NumFree() <= 1 && after.SbAt(x).blockSize == BLOCK
    {
      BlockAt(w, x);
      assert after.SbAt(x) == w.SbAt(x);
    }
  }

  lemma {:induction false} FreeFromFull(fix: Repairs, s: State, k: nat) returns (t: State)
    requires Local(s) && Reached(fix, s) && NearlyFull(s.world) && |s.held| == 62 + k
    ensures Local(t) && Reached(fix, t) && NearlyFull(t.world) && |t.held| == 62
    decreases k
  {
    hide WellFiled, Accounts, OneClass, Slack, Reached, LiveAt, Lost, Sb.NumFree, Sb.Release, HeapFree, Tracks, ListedFull, BinFree, Transfers;
    t := s;
    if k > 0 {
      var p := FullOne(s);
      UsedWithinCapacity(s.world);
      t := FreeNext(fix, s, p);
      FreeBlocks(s.world, fix, p);
      NearlyFullAfter(s.world, t.world, SuperblockOf(p), SlotAt(SuperblockOf(p), BLOCK, p));
      t := FreeFromFull(fix, t, k - 1);
    }
  }

  lemma FreedBlocks(w: World, p: nat)
    requires OneHeap(w) && NearlyFull(w) && LiveAt(w, p) && SuperblockOf(p) in w.sbs && w.SbAt(SuperblockOf(p)).NumFree() == 0
    ensures forall x :: x in BinFree(w, p).sbs ==> BinFree(w, p).SbAt(x).NumFree() <= 1 && BinFree(w, p).SbAt(x).blockSize == BLOCK
  {
    hide WellFiled, Accounts, OneHeap, NearlyFull, BinFree, Sb.NumFree, Sb.Release, Sb.Valid, LiveAt, Sound, Filed, SlotAt, SuperblockOf;
    var freed, a := BinFree(w, p), SuperblockOf(p);
    OneHeapFiled(w);
    BinFreeFiles(w, p);
    BlockAt(w, a);
    NearlyFullAfter(w, freed, a, SlotAt(a, BLOCK, p));
  }

  lemma OneHeapFiled(w: World)
    requires OneHeap(w)
    ensures WellFiled(w)
  {
  }

  /** The superblock that leaves has three blocks in use. */
  lemma LeavesThree(w: World, p: nat)
    requires OneHeap(w) && NearlyFull(w) && LiveAt(w, p) && SuperblockOf(p) in w.sbs && w.SbAt(SuperblockOf(p)).NumFree() == 0
    ensures var freed := BinFree(w, p);
            && TransferFrom(freed, 1).Some? && freed.SbAt(Leaving(freed, 1)).UsedBytes() == 3 * BLOCK
            && w.OwnerOf(SuperblockOf(p)) == 1 && BlockSizeAt(w, p) == BLOCK
  {
    hide WellFiled, OneHeap, NearlyFull, BinFree, TransferFrom, Sb.NumFree, Sb.UsedBytes, LiveAt;
    OneHeapFiled(w);
    BlockAt(w, SuperblockOf(p));
    BinFreeKeepsFiling(w, p);
    FreedBlocks(w, p);
    LeavingPart(BinFree(w, p));
  }

  lemma LeavingPart(w: World)
    requires WellFiled(w) && TransferFrom(w, 1).Some?
    requires forall a :: a in w.sbs ==> w.SbAt(a).NumFree() <= 1 && w.SbAt(a).blockSize == BLOCK
    ensures w.SbAt(Leaving(w, 1)).UsedBytes() == 3 * BLOCK
  {
    hide TransferFrom, Sb.NumFree, Sb.UsedBytes;
    var a := Leaving(w, 1);
    TransferredFacts(w, Lost(w), 1);
    assert SoundAt(w, a);
    BlockCounts(w.SbAt(a));
  }

  /** One size class on one heap, nothing lost, and exact usage: a legal run whose last free
      takes so many used bytes off that it leaves the heap too empty. */
  lemma ExactUsageTooEmpty(fix: Repairs)
    requires fix.exactUsage
    ensures exists ops :: LegalRun(fix, Start(1), ops) && NeverAdopts(fix, Start(1), ops) && OneBin(ops, BIN)
                          && Lost(Run(fix, Start(1), ops).world) == {} && !NotTooEmpty(Run(fix, Start(1), ops).world, 1)
  {
    hide LegalRun, NeverAdopts, Run, OneBin, WellFiled, Accounts, OneClass, Slack, Lost, LiveAt, BinFree, HeapFree, Sb.NumFree;
    StartIsPacked(fix);
    var s := MallocMany(fix, Start(1), 72);
    UsedWithinCapacity(s.world);
    assert NearlyFull(s.world);
    s := FreeFromFull(fix, s, 10);
    var p := FullOne(s);
    var w := s.world;
    UsedWithinCapacity(w);
    LeavesThree(w, p);
    FreeUsage(w, fix, p, 1);
    FreeFiles(w, fix, p);
    ReachNext(fix, s, Free(p));
  }
}
