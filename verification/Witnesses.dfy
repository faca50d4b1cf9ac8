// Runs on which a property fails, one for each departure of the program from its evident
// intent, and one that shows why the emptiness invariant speaks of a single size class.
module Witnesses {
  import opened Layout
  import opened SizeTables
  import opened SuperblockModel
  import opened Worlds
  import opened Filing
  import opened Steps
  import opened Counters
  import opened Emptiness
  import opened Runs

  /** A superblock with one block handed out. */
  function OneBlock(c: nat): Sb {
    Sb(c, 1, [])
  }

  /** A superblock whose one block is back. */
  function BackAgain(c: nat): Sb {
    Sb(c, 1, [0])
  }

  /** The emptiness class of a superblock of class `b` with one block handed out. */
  function FirstEidx(b: nat): nat {
    if OneBlock(ClassOf(b)).Eidx() < 0 then 0 else OneBlock(ClassOf(b)).Eidx()
  }

  lemma OneBlockFacts(b: nat)
    requires b < NUM_SIZE_BINS
    ensures Fresh(ClassOf(b)).Alloc() == OneBlock(ClassOf(b)) && Fresh(ClassOf(b)).NextSlot() == 0
    ensures !OneBlock(ClassOf(b)).Empty() && BackAgain(ClassOf(b)).Empty()
    ensures 0 < FirstEidx(b) < NUM_EMPTINESS_CLASSES
    ensures OneBlock(ClassOf(b)).Release(0) == BackAgain(ClassOf(b))
    ensures BinOf(ClassOf(b)) == b && ClassOf(b) > 0
  {
    BinOfClass(b);
    var c := ClassOf(b);
    TotalBlocksBounds(c);
    assert OneBlock(c).UsedBlocks() == 1;
    EidxRange(OneBlock(c));
  }

  // ---------- one block of each of the first classes ----------

  /** Where a request of heap `h` for bin `b` finds no superblock. */
  ghost predicate FindsNothing(w: World, h: nat, b: nat) {
    && (forall e :: 0 < e < NUM_EMPTINESS_CLASSES ==> w.List(InBin(h, b, e)) == [])
    && w.List(Recycled(h)) == [] && w.List(Recycled(0)) == [] && w.Nonfull(0, b) == 0
  }

  /** Heap `h` owns a superblock more, at `a`; no list holds it yet. */
  function Mapped(w: World, h: nat, a: nat, sb: Sb): World {
    w.SetSb(a, sb).SetOwner(a, h).AddAlloced(h, SUPERBLOCK_SIZE)
  }

  /** The state after such a request, with a superblock mapped at `a`. */
  function Grown(w: World, h: nat, b: nat, a: nat): World {
    Mapped(w, h, a, OneBlock(ClassOf(b))).Push(InBin(h, b, FirstEidx(b)), a).AddUsage(h, ClassOf(b))
  }

  lemma MappedAgain(w: World, h: nat, a: nat, sb: Sb, again: Sb)
    ensures Mapped(w, h, a, sb).SetSb(a, again) == Mapped(w, h, a, again)
    ensures Mapped(w, h, a, sb).SbAt(a) == sb
  {
    assert w.sbs[a := sb][a := again] == w.sbs[a := again];
  }

  /** The superblock just mapped serves its first block. */
  lemma FirstServe(w: World, h: nat, b: nat, a: nat)
    requires b < NUM_SIZE_BINS
    ensures var w1 := Mapped(w, h, a, Fresh(ClassOf(b)));
            && Serve(w1, h, b, a) == Mapped(w, h, a, OneBlock(ClassOf(b))).Push(InBin(h, b, FirstEidx(b)), a)
            && BlockAddr(a, w1.SbAt(a).blockSize, w1.SbAt(a).NextSlot()) == a + HEADER_SIZE
  {
    hide Sb.Eidx, Sb.Total, Sb.Alloc, Sb.NextSlot, ClassOf, World.Push, World.SbAt, World.SetSb, Mapped;
    OneBlockFacts(b);
    MappedAgain(w, h, a, Fresh(ClassOf(b)), OneBlock(ClassOf(b)));
  }

  lemma MapsAt(w: World, h: nat, b: nat, a: nat)
    requires FindsNothing(w, h, b) && a % SUPERBLOCK_SIZE == 0
    ensures SourceFor(w, h, b, Some(a)) == NewMapping(a)
  {
  }

  lemma GrowByMapping(w: World, fix: Repairs, h: nat, b: nat, a: nat)
    requires b < NUM_SIZE_BINS && FindsNothing(w, h, b) && a % SUPERBLOCK_SIZE == 0
    ensures HeapAlloc(w, fix, h, ClassOf(b), Some(a)) == (Grown(w, h, b, a), Some(a + HEADER_SIZE))
  {
    hide Serve, BlockAddr, ClassOf, World.Push, World.SbAt, Sb.NextSlot, FindsNothing, SourceFor;
    BinOfClass(b);
    MapsAt(w, h, b, a);
    FirstServe(w, h, b, a);
  }

  /** Where the superblock for class `b` is mapped. */
  function Addr(b: nat): nat {
    (2 * b + 1) * SUPERBLOCK_SIZE
  }

  /** Heap 1, the only thread heap, has served one block of each of the first `k` classes. */
  function Spread(k: nat): World {
    if k == 0 then Initial(1) else Grown(Spread(k - 1), 1, k - 1, Addr(k - 1))
  }

  function SpreadUsage(k: nat): nat {
    if k == 0 then 0 else SpreadUsage(k - 1) + ClassOf(k - 1)
  }

  ghost predicate SpreadAt(w: World, k: nat, p: Place) {
    w.List(p) == if p.InBin? && p.heap == 1 && p.bin < k && p.eidx == FirstEidx(p.bin) then [Addr(p.bin)] else []
  }

  lemma GrownFacts(w: World, h: nat, b: nat, a: nat)
    requires b < NUM_SIZE_BINS && h < |w.inUse| == |w.alloced|
    ensures var after := Grown(w, h, b, a); var p := InBin(h, b, FirstEidx(b));
            && after.sbs == w.sbs[a := OneBlock(ClassOf(b))] && after.owner == w.owner[a := h]
            && after.List(p) == [a] + w.List(p)
            && (forall q :: q != p ==> after.List(q) == w.List(q))
            && (forall g, c :: g != h ==> after.Nonfull(g, c) == w.Nonfull(g, c))
            && after.inUse == w.inUse[h := w.inUse[h] + ClassOf(b)]
            && after.alloced == w.alloced[h := w.alloced[h] + SUPERBLOCK_SIZE]
  {
    hide FirstEidx, ClassOf;
  }

  ghost predicate SpreadBlock(w: World, i: nat) {
    Addr(i) in w.sbs && w.SbAt(Addr(i)) == OneBlock(ClassOf(i)) && w.OwnerOf(Addr(i)) == 1
  }

  lemma {:induction false} SpreadLists(k: nat)
    requires k <= NUM_SIZE_BINS
    ensures var w := Spread(k);
            && (forall p :: SpreadAt(w, k, p))
            && (forall b :: w.Nonfull(0, b) == 0)
            && w.inUse == [0, SpreadUsage(k)] && w.alloced == [0, SUPERBLOCK_SIZE * k]
  {
    hide FirstEidx, ClassOf, Grown;
    if k == 0 {
    } else {
      var j := k - 1;
      SpreadLists(j);
      GrownFacts(Spread(j), 1, j, Addr(j));
      forall p
        ensures SpreadAt(Spread(k), k, p)
      {
        assert SpreadAt(Spread(j), j, p);
      }
    }
  }

  lemma {:induction false} SpreadBlocks(k: nat)
    requires k <= NUM_SIZE_BINS
    ensures var w := Spread(k);
            && (forall i :: 0 <= i < k ==> SpreadBlock(w, i))
            && (forall a :: a in w.sbs ==> a + SUPERBLOCK_SIZE <= Addr(k))
  {
    hide FirstEidx, ClassOf, Grown;
    if k == 0 {
    } else {
      var j := k - 1;
      SpreadBlocks(j);
      SpreadLists(j);
      GrownFacts(Spread(j), 1, j, Addr(j));
      forall i | 0 <= i < k
        ensures SpreadBlock(Spread(k), i)
      {
        assert i < j ==> SpreadBlock(Spread(j), i);
      }
    }
  }

  // ---------- runs that reach these states ----------

  function SpreadOp(i: nat): Op {
    Malloc(1, ClassOf(i), Some(Addr(i)))
  }

  function SpreadOps(k: nat): seq<Op> {
    if k == 0 then [] else SpreadOps(k - 1) + [SpreadOp(k - 1)]
  }

  function SpreadHeld(k: nat): map<nat, nat> {
    if k == 0 then map[] else SpreadHeld(k - 1)[Addr(k - 1) + HEADER_SIZE := ClassOf(k - 1)]
  }

  lemma SpreadFindsNothing(k: nat, b: nat)
    requires k <= b < NUM_SIZE_BINS
    ensures FindsNothing(Spread(k), 1, b)
  {
    hide Spread, FirstEidx;
    var w := Spread(k);
    SpreadLists(k);
    assert SpreadAt(w, k, Recycled(0)) && SpreadAt(w, k, Recycled(1));
    forall e | 0 < e < NUM_EMPTINESS_CLASSES
      ensures w.List(InBin(1, b, e)) == []
    {
      assert SpreadAt(w, k, InBin(1, b, e));
    }
  }

  lemma SpreadLegal(k: nat)
    requires k < NUM_SIZE_BINS
    ensures LegalMalloc(Spread(k), 1, ClassOf(k), Some(Addr(k)))
  {
    hide Spread;
    SpreadLists(k);
    SpreadBlocks(k);
    ClassesIncrease();
  }

  lemma AddrAligned(k: nat)
    ensures Addr(k) % SUPERBLOCK_SIZE == 0
  {
    assert Addr(k) == SUPERBLOCK_SIZE * (2 * k + 1);
    assert Addr(k) / SUPERBLOCK_SIZE == 2 * k + 1;
  }

  lemma ApplyMalloc(fix: Repairs, s: State, h: nat, size: nat, raw: Option<nat>, w: World, p: nat)
    requires HeapAlloc(s.world, fix, h, size, raw) == (w, Some(p))
    ensures Apply(fix, s, Malloc(h, size, raw)) == State(w, s.held[p := size])
  {
    hide HeapAlloc;
  }

  lemma SpreadMay(fix: Repairs, k: nat)
    requires k < NUM_SIZE_BINS
    ensures var s := State(Spread(k), SpreadHeld(k)); Legal(s, SpreadOp(k)) && !Adopts(fix, s, SpreadOp(k))
  {
    hide ClassOf, LegalMalloc, Addr, Spread, SpreadHeld;
    SpreadLegal(k);
    SpreadFindsNothing(k, k);
    BinOfClass(k);
    assert SourceFor(Spread(k), 1, k, Some(Addr(k))).NewMapping?;
  }

  lemma SpreadStep(fix: Repairs, k: nat)
    requires k < NUM_SIZE_BINS
    ensures var s := State(Spread(k), SpreadHeld(k));
            Apply(fix, s, SpreadOp(k)) == State(Spread(k + 1), SpreadHeld(k + 1))
  {
    hide ClassOf, Grown, HeapAlloc, Addr, Apply, FindsNothing;
    SpreadFindsNothing(k, k);
    AddrAligned(k);
    GrowByMapping(Spread(k), fix, 1, k, Addr(k));
    ApplyMalloc(fix, State(Spread(k), SpreadHeld(k)), 1, ClassOf(k), Some(Addr(k)), Spread(k + 1), Addr(k) + HEADER_SIZE);
  }

  lemma SpreadStart()
    ensures Start(1) == State(Spread(0), SpreadHeld(0))
  {
  }

  lemma {:induction false} SpreadRun(fix: Repairs, k: nat)
    requires k <= NUM_SIZE_BINS
    ensures Run(fix, Start(1), SpreadOps(k)) == State(Spread(k), SpreadHeld(k))
    ensures LegalRun(fix, Start(1), SpreadOps(k)) && NeverAdopts(fix, Start(1), SpreadOps(k))
  {
    hide Spread, SpreadHeld, Apply, Adopts, Legal;
    if k == 0 {
      SpreadStart();
    } else {
      SpreadRun(fix, k - 1);
      SpreadMay(fix, k - 1);
      SpreadStep(fix, k - 1);
      RunAppend(fix, Start(1), SpreadOps(k - 1), SpreadOp(k - 1));
    }
  }

  // ---------- emptiness and several size classes ----------

  /** Five requests of five classes leave a thread heap too empty, whatever is repaired: the
      invariant needs runs of one size class. */
  lemma MixedClassesTooEmpty(fix: Repairs)
    ensures LegalRun(fix, Start(1), SpreadOps(5)) && NeverAdopts(fix, Start(1), SpreadOps(5))
    ensures !NotTooEmpty(Run(fix, Start(1), SpreadOps(5)).world, 1)
  {
    hide Spread, SpreadHeld, SpreadOps, LegalRun, NeverAdopts, Run;
    SpreadRun(fix, 5);
    SpreadLists(5);
    SpreadUsageFive();
  }

  lemma SpreadUsageFive()
    ensures SpreadUsage(5) == 256
  {
    assert SpreadUsage(3) == 96;
  }

  // ---------- giving a block back ----------

  /** Heap `h` has one superblock in bin `b`, at `a`, with its first block handed out. */
  ghost predicate HoldsOne(w: World, h: nat, b: nat, a: nat) {
    && b < NUM_SIZE_BINS && a in w.sbs && a % SUPERBLOCK_SIZE == 0
    && w.SbAt(a) == OneBlock(ClassOf(b)) && w.OwnerOf(a) == h
    && w.List(InBin(h, b, FirstEidx(b))) == [a]
  }

  /** The state after that block is back. */
  function GivenBack(w: World, h: nat, b: nat, a: nat): World {
    w.Take(InBin(h, b, FirstEidx(b)), a).SetSb(a, BackAgain(ClassOf(b))).Push(Recycled(h), a)
  }

  lemma FirstSlot(a: nat, c: nat)
    requires a % SUPERBLOCK_SIZE == 0
    ensures SuperblockOf(a + HEADER_SIZE) == a && SlotAt(a, c, a + HEADER_SIZE) == 0
  {
  }

  lemma HomeOfOne(w: World, h: nat, b: nat, a: nat)
    requires HoldsOne(w, h, b, a)
    ensures w.Home(a) == InBin(h, b, FirstEidx(b))
  {
    hide Sb.Eidx, Sb.Total, Sb.Empty, ClassOf;
    OneBlockFacts(b);
  }

  lemma GiveBack(w: World, h: nat, b: nat, a: nat)
    requires HoldsOne(w, h, b, a)
    ensures BinFree(w, a + HEADER_SIZE) == GivenBack(w, h, b, a)
  {
    hide Sb.Eidx, Sb.Total, Sb.Release, Sb.Empty, ClassOf, World.Push, World.Take, FirstEidx, SlotAt, SuperblockOf;
    OneBlockFacts(b);
    FirstSlot(a, ClassOf(b));
    var p := InBin(h, b, FirstEidx(b));
    HomeOfOne(w, h, b, a);
    TakeKeeps(w, p, a);
    var after := w.Take(p, a).SetSb(a, BackAgain(ClassOf(b)));
    assert after.owner == w.owner && after.SbAt(a) == BackAgain(ClassOf(b));
    assert after.Home(a) == Recycled(h);
  }

  lemma GivenBackFacts(w: World, h: nat, b: nat, a: nat)
    requires HoldsOne(w, h, b, a)
    ensures var after := GivenBack(w, h, b, a); var p := InBin(h, b, FirstEidx(b));
            && after.sbs == w.sbs[a := BackAgain(ClassOf(b))] && after.owner == w.owner
            && after.List(p) == [] && after.List(Recycled(h)) == [a] + w.List(Recycled(h))
            && (forall q :: q != p && q != Recycled(h) ==> after.List(q) == w.List(q))
            && (forall g, d :: g != h ==> after.Nonfull(g, d) == w.Nonfull(g, d))
            && after.inUse == w.inUse && after.alloced == w.alloced
  {
    hide FirstEidx, ClassOf;
  }

  /** Freeing the block of such a superblock when that leaves the heap full enough. */
  lemma FreeKept(w: World, fix: Repairs, h: nat, b: nat, a: nat)
    requires HoldsOne(w, h, b, a) && 0 < h < |w.inUse| == |w.alloced|
    requires !EmptyEnough(w.inUse[h] - ClassOf(b), w.alloced[h])
    ensures HeapFree(w, fix, a + HEADER_SIZE) == GivenBack(w, h, b, a).AddUsage(h, 0 - ClassOf(b))
  {
    hide ClassOf, GivenBack, FirstEidx, SuperblockOf, BinFree;
    GiveBack(w, h, b, a);
    FirstSlot(a, ClassOf(b));
    GivenBackFacts(w, h, b, a);
  }

  // ---------- next read too late ----------

  function RecycleOps(): seq<Op> {
    SpreadOps(2) + [Free(Addr(0) + HEADER_SIZE)] + [Free(Addr(1) + HEADER_SIZE)]
  }

  /** Heap 1 after two superblocks became empty. */
  function TwoRecycled(): World {
    GivenBack(GivenBack(Spread(2), 1, 0, Addr(0)).AddUsage(1, 0 - ClassOf(0)), 1, 1, Addr(1)).AddUsage(1, 0 - ClassOf(1))
  }

  lemma SpreadHoldsOne(k: nat, i: nat)
    requires i < k <= NUM_SIZE_BINS
    ensures HoldsOne(Spread(k), 1, i, Addr(i))
  {
    hide Spread, FirstEidx, ClassOf;
    SpreadLists(k);
    SpreadBlocks(k);
    AddrAligned(i);
    assert SpreadAt(Spread(k), k, InBin(1, i, FirstEidx(i)));
    assert SpreadBlock(Spread(k), i);
  }

  lemma StillHoldsOne(w: World, h: nat, b: nat, a: nat, c: nat, x: nat, bytes: int)
    requires HoldsOne(w, h, b, a) && HoldsOne(w, h, c, x) && b != c && a != x
    ensures HoldsOne(GivenBack(w, h, b, a).AddUsage(h, bytes), h, c, x)
  {
    hide GivenBack, FirstEidx, ClassOf;
    GivenBackFacts(w, h, b, a);
  }

  lemma TwoFrees(fix: Repairs)
    ensures var w := GivenBack(Spread(2), 1, 0, Addr(0)).AddUsage(1, 0 - ClassOf(0));
            && HeapFree(Spread(2), fix, Addr(0) + HEADER_SIZE) == w
            && HeapFree(w, fix, Addr(1) + HEADER_SIZE) == TwoRecycled()
    ensures TwoRecycled().List(Recycled(1)) == [Addr(1), Addr(0)]
    ensures forall e :: TwoRecycled().List(InBin(1, 0, e)) == []
  {
    hide Spread, GivenBack, HoldsOne, FirstEidx, HeapFree;
    var w2 := Spread(2);
    var w := GivenBack(w2, 1, 0, Addr(0)).AddUsage(1, 0 - ClassOf(0));
    SpreadLists(2);
    assert SpreadUsage(2) == 48;
    SpreadHoldsOne(2, 0);
    SpreadHoldsOne(2, 1);
    GivenBackFacts(w2, 1, 0, Addr(0));
    FreeKept(w2, fix, 1, 0, Addr(0));
    StillHoldsOne(w2, 1, 0, Addr(0), 1, Addr(1), 0 - ClassOf(0));
    GivenBackFacts(w, 1, 1, Addr(1));
    FreeKept(w, fix, 1, 1, Addr(1));
    assert SpreadAt(w2, 2, Recycled(1));
    forall e
      ensures TwoRecycled().List(InBin(1, 0, e)) == []
    {
      var p := InBin(1, 0, e);
      assert SpreadAt(w2, 2, p);
      assert GivenBack(w2, 1, 0, Addr(0)).List(p) == [];
      assert GivenBack(w, 1, 1, Addr(1)).List(p) == w.List(p);
    }
  }

  lemma {:induction false} SpreadIsHeld(k: nat, i: nat)
    requires i < k
    ensures Addr(i) + HEADER_SIZE in SpreadHeld(k)
  {
    if i < k - 1 {
      SpreadIsHeld(k - 1, i);
    }
  }

  lemma ApplyFree(fix: Repairs, s: State, p: nat, w: World)
    requires HeapFree(s.world, fix, p) == w
    ensures Apply(fix, s, Free(p)) == State(w, s.held - {p}) && !Adopts(fix, s, Free(p))
  {
  }

  lemma AddrsDiffer()
    ensures Addr(0) != Addr(1)
  {
  }

  lemma RecycleRun(fix: Repairs)
    ensures LegalRun(fix, Start(1), RecycleOps()) && NeverAdopts(fix, Start(1), RecycleOps())
    ensures Run(fix, Start(1), RecycleOps()).world == TwoRecycled()
  {
    hide Spread, SpreadOps, SpreadHeld, LegalRun, NeverAdopts, Run, Apply, Adopts, HeapFree, GivenBack, TwoRecycled, Addr;
    var p, q := Addr(0) + HEADER_SIZE, Addr(1) + HEADER_SIZE;
    var s2 := State(Spread(2), SpreadHeld(2));
    var w := GivenBack(Spread(2), 1, 0, Addr(0)).AddUsage(1, 0 - ClassOf(0));
    SpreadRun(fix, 2);
    SpreadIsHeld(2, 0);
    SpreadIsHeld(2, 1);
    TwoFrees(fix);
    RunAppend(fix, Start(1), SpreadOps(2), Free(p));
    ApplyFree(fix, s2, p, w);
    AddrsDiffer();
    RunAppend(fix, Start(1), SpreadOps(2) + [Free(p)], Free(q));
    ApplyFree(fix, State(w, SpreadHeld(2) - {p}), q, TwoRecycled());
  }

  lemma RecycledServes(w: World, x: nat, y: nat)
    requires w.List(Recycled(1)) == [x, y] && forall e :: w.List(InBin(1, 0, e)) == []
    ensures BinOf(16) == 0 && SourceFor(w, 1, 0, None) == OwnRecycled
    ensures forall fix: Repairs :: !fix.nextFirst ==> y in Dropped(w, fix, 1, OwnRecycled)
  {
    assert FullestFrom(w, 1, 0, 1).None?;
    assert [x, y][1..] == [y];
  }

  lemma RestIsDropped(fix: Repairs, s: State, x: nat, y: nat)
    requires Good(s) && |s.world.inUse| == 2 && !fix.nextFirst
    requires s.world.List(Recycled(1)) == [x, y] && forall e :: s.world.List(InBin(1, 0, e)) == []
    ensures var op := Malloc(1, 16, None); Legal(s, op) && !Adopts(fix, s, op) && y in Lost(Apply(fix, s, op).world)
  {
    hide Good, Apply, Dropped, SourceFor;
    var op := Malloc(1, 16, None);
    RecycledServes(s.world, x, y);
    ClassesIncrease();
    assert Legal(s, op) && !Adopts(fix, s, op);
    assert y in Drops(fix, s, op);
    StepLost(fix, s, op);
  }

  /** Two superblocks are recycled; the next request takes one, and unless `next` is read
      first the other is in no list any more. */
  lemma NextIsLost(fix: Repairs)
    requires !fix.nextFirst
    ensures var ops := RecycleOps() + [Malloc(1, 16, None)];
            && LegalRun(fix, Start(1), ops) && NeverAdopts(fix, Start(1), ops)
            && Addr(0) in Lost(Run(fix, Start(1), ops).world)
  {
    hide RecycleOps, LegalRun, NeverAdopts, Run, Apply, TwoRecycled, Good, Adopts, Legal, Lost, Addr;
    StartGood(1);
    RecycleRun(fix);
    RunGood(fix, Start(1), RecycleOps());
    TwoFrees(fix);
    RunLengths(fix, Start(1), RecycleOps());
    RestIsDropped(fix, Run(fix, Start(1), RecycleOps()), Addr(1), Addr(0));
    RunAppend(fix, Start(1), RecycleOps(), Malloc(1, 16, None));
  }

  // ---------- adopted without a reset ----------

  /** The only superblock at which a request of heap `h` for bin `b` can be served lies, empty,
      in the global recycling list. */
  ghost predicate OnlyShared(w: World, h: nat, b: nat, a: nat) {
    && h > 0 && b < NUM_SIZE_BINS
    && (forall e :: 0 < e < NUM_EMPTINESS_CLASSES ==> w.List(InBin(h, b, e)) == [])
    && w.List(Recycled(h)) == [] && w.Nonfull(0, b) == 0 && w.List(Recycled(0)) == [a]
  }

  lemma SharedIsSource(w: World, h: nat, b: nat, a: nat, raw: Option<nat>)
    requires OnlyShared(w, h, b, a)
    ensures SourceFor(w, h, b, raw) == GlobalRecycled
  {
  }

  lemma ServeAt(w: World, h: nat, b: nat, a: nat)
    ensures Serve(w, h, b, a).SbAt(a) == w.SbAt(a).Alloc()
  {
    hide Sb.Alloc, Sb.Eidx;
  }

  /** Without the reset the request is served in blocks of the old size. */
  lemma ServedInOldSize(w: World, fix: Repairs, h: nat, b: nat, a: nat, raw: Option<nat>)
    requires OnlyShared(w, h, b, a) && !fix.resetAdopted
    ensures var (after, r) := HeapAlloc(w, fix, h, ClassOf(b), raw); var sb := w.SbAt(a);
            && r == Some(BlockAddr(a, sb.blockSize, sb.NextSlot()))
            && after.SbAt(a) == sb.Alloc()
  {
    hide ClassOf, World.Push, Serve, SourceFor, Sb.Alloc, Sb.NextSlot, BlockAddr, Sb.UsedBytes, Sb.Eidx;
    BinOfClass(b);
    var src := SourceFor(w, h, b, raw);
    SharedIsSource(w, h, b, a, raw);
    assert Chosen(w, h, b, src) == a;
    var w1 := Prepare(TakeOut(w, fix, h, b, src), fix, h, ClassOf(b), src, a);
    assert w1.sbs == w.sbs;
    ServeAt(w1, h, b, a);
  }

  /** Freeing the block of such a superblock when that leaves the heap empty enough: the
      superblock goes to the global recycling list. */
  lemma FreeAndShare(w: World, fix: Repairs, h: nat, b: nat, a: nat)
    requires HoldsOne(w, h, b, a) && 0 < h < |w.inUse| == |w.alloced|
    requires EmptyEnough(w.inUse[h] - ClassOf(b), w.alloced[h])
    requires w.List(Recycled(h)) == [] && w.List(Recycled(0)) == []
    ensures var after := HeapFree(w, fix, a + HEADER_SIZE);
            && after.sbs == w.sbs[a := BackAgain(ClassOf(b))]
            && after.List(Recycled(h)) == [] && after.List(Recycled(0)) == [a]
            && (forall p: Place :: p.InBin? && p != InBin(h, b, FirstEidx(b)) ==> after.List(p) == w.List(p))
            && (forall d :: after.Nonfull(0, d) == w.Nonfull(0, d))
            && |after.inUse| == |w.inUse|
  {
    hide ClassOf, GivenBack, FirstEidx, SuperblockOf, BinFree, Sb.UsedBytes;
    GiveBack(w, h, b, a);
    FirstSlot(a, ClassOf(b));
    GivenBackFacts(w, h, b, a);
    GivesAway(GivenBack(w, h, b, a), fix, h, a, ClassOf(b));
  }

  lemma GivesAway(w: World, fix: Repairs, h: nat, a: nat, bytes: nat)
    requires 0 < h < |w.inUse| == |w.alloced|
    requires EmptyEnough(w.inUse[h] - bytes, w.alloced[h])
    requires w.List(Recycled(h)) == [a] && w.List(Recycled(0)) == []
    ensures var after := Settle(w, fix, h, bytes);
            && after.sbs == w.sbs
            && after.List(Recycled(h)) == [] && after.List(Recycled(0)) == [a]
            && (forall p: Place :: p.InBin? ==> after.List(p) == w.List(p))
            && (forall d :: after.Nonfull(0, d) == w.Nonfull(0, d))
            && |after.inUse| == |w.inUse|
  {
    hide EmptyEnough, Sb.UsedBytes;
    var charged := w.AddUsage(h, 0 - bytes);
    var moved := MoveToGlobal(charged, Recycled(h), a);
    assert TransferFrom(charged, h) == Some(Recycled(h));
    assert charged.List(Recycled(h))[0] == a;
    assert moved.sbs == w.sbs && moved.nonfull == w.nonfull;
    assert moved.List(Recycled(h)) == [] && moved.List(Recycled(0)) == [a];
  }

  function ShareOps(): seq<Op> {
    SpreadOps(5) + [Free(Addr(0) + HEADER_SIZE)]
  }

  /** What freeing one of the five blocks leaves behind. */
  lemma ShareRun(fix: Repairs)
    ensures LegalRun(fix, Start(1), ShareOps()) && NeverAdopts(fix, Start(1), ShareOps())
    ensures var w := Run(fix, Start(1), ShareOps()).world;
            && OnlyShared(w, 1, 22, Addr(0)) && w.SbAt(Addr(0)) == BackAgain(16) && |w.inUse| == 2
  {
    hide Spread, SpreadOps, SpreadHeld, LegalRun, NeverAdopts, Run, Apply, Adopts, HeapFree, Addr, OnlyShared;
    var p := Addr(0) + HEADER_SIZE;
    SpreadRun(fix, 5);
    SpreadIsHeld(5, 0);
    FreeOneOfFive(fix);
    RunAppend(fix, Start(1), SpreadOps(5), Free(p));
    ApplyFree(fix, State(Spread(5), SpreadHeld(5)), p, HeapFree(Spread(5), fix, p));
  }

  lemma FreeOneOfFive(fix: Repairs)
    ensures var w := HeapFree(Spread(5), fix, Addr(0) + HEADER_SIZE);
            && OnlyShared(w, 1, 22, Addr(0)) && w.SbAt(Addr(0)) == BackAgain(16) && |w.inUse| == 2
  {
    hide Spread, FirstEidx, HeapFree, Addr, HoldsOne;
    var w := Spread(5);
    SpreadLists(5);
    SpreadUsageFive();
    SpreadHoldsOne(5, 0);
    assert SpreadAt(w, 5, Recycled(0)) && SpreadAt(w, 5, Recycled(1));
    FreeAndShare(w, fix, 1, 0, Addr(0));
    forall e | 0 < e < NUM_EMPTINESS_CLASSES
      ensures HeapFree(w, fix, Addr(0) + HEADER_SIZE).List(InBin(1, 22, e)) == []
    {
      assert SpreadAt(w, 5, InBin(1, 22, e));
    }
  }

  lemma BigRequest(fix: Repairs, s: State, a: nat)
    requires OnlyShared(s.world, 1, 22, a) && s.world.SbAt(a) == BackAgain(16) && |s.world.inUse| == 2
    requires !fix.resetAdopted && a % SUPERBLOCK_SIZE == 0
    ensures var op := Malloc(1, 129472, None); var after := Apply(fix, s, op); var p := a + HEADER_SIZE + 16;
            && Legal(s, op)
            && p in after.held && after.held[p] == 129472 && BlockSizeAt(after.world, p) == 16
  {
    hide OnlyShared, HeapAlloc, World.SbAt;
    assert ClassOf(22) == 129472;
    ServedInOldSize(s.world, fix, 1, 22, a, None);
    assert BackAgain(16).NextSlot() == 1 && BackAgain(16).Alloc().blockSize == 16;
    assert SuperblockOf(a + HEADER_SIZE + 16) == a;
  }

  /** Unless an adopted superblock is reset, a run can hand out a 16-byte block to a client
      that asked for 129472 bytes. */
  lemma TooSmallABlock(fix: Repairs)
    requires !fix.resetAdopted
    ensures var ops := ShareOps() + [Malloc(1, 129472, None)]; var s := Run(fix, Start(1), ops); var p := Addr(0) + HEADER_SIZE + 16;
            && LegalRun(fix, Start(1), ops)
            && p in s.held && s.held[p] == 129472 && BlockSizeAt(s.world, p) == 16
  {
    hide ShareOps, LegalRun, NeverAdopts, Run, Apply, Legal, Adopts, OnlyShared, BlockSizeAt, World.SbAt;
    ShareRun(fix);
    BigRequest(fix, Run(fix, Start(1), ShareOps()), Addr(0));
    RunAppend(fix, Start(1), ShareOps(), Malloc(1, 129472, None));
  }

  lemma BigIs(w: World, fix: Repairs, a: nat)
    requires OnlyShared(w, 1, 22, a) && !fix.resetAdopted
    ensures HeapAlloc(w, fix, 1, 129472, None).0 == Serve(Adopt(w.Take(Recycled(0), a), 1, a), 1, 22, a).AddUsage(1, 129472)
  {
    hide SourceFor, Adopt, Serve, World.Take, BinOf, ClassOf;
    BigClass();
    SharedIsSource(w, 1, 22, a, None);
  }

  /** After such a request the superblock is the only one in the bin, in its emptiest class. */
  lemma BinAfterBig(w: World, fix: Repairs, a: nat)
    requires OnlyShared(w, 1, 22, a) && w.SbAt(a) == BackAgain(16) && !fix.resetAdopted
    ensures var after := HeapAlloc(w, fix, 1, 129472, None).0;
            && after.SbAt(a) == Sb(16, 2, [0])
            && after.List(InBin(1, 22, 4)) == [a]
            && forall e :: 0 < e < 4 ==> after.List(InBin(1, 22, e)) == []
  {
    hide HeapAlloc, Adopt, Serve, World.Take, ListIn;
    BigIs(w, fix, a);
    AdoptedServes(w, a);
  }

  lemma BigClass()
    ensures ClassOf(22) == 129472 && BinOf(129472) == 22
  {
    hide BinOf;
    assert ClassOf(22) == 129472;
    BinOfClass(22);
  }

  lemma TwiceUsed()
    ensures BackAgain(16).Alloc() == Sb(16, 2, [0]) && Sb(16, 2, [0]).Eidx() == 4 && Sb(16, 2, [0]).NextSlot() == 2
  {
    assert Sb(16, 2, [0]).UsedBlocks() == 1;
  }

  lemma AdoptedServes(w: World, a: nat)
    requires w.SbAt(a) == BackAgain(16)
    ensures var after := Serve(Adopt(w.Take(Recycled(0), a), 1, a), 1, 22, a);
            && after.SbAt(a) == Sb(16, 2, [0])
            && after.List(InBin(1, 22, 4)) == [a] + w.List(InBin(1, 22, 4))
            && forall e :: 0 < e < 4 ==> after.List(InBin(1, 22, e)) == w.List(InBin(1, 22, e))
  {
    hide Sb.Eidx, Sb.Alloc, Sb.UsedBytes;
    TwiceUsed();
  }

  /** The next such request is served from that bin. */
  lemma SecondBig(fix: Repairs, s: State, a: nat)
    requires s.world.SbAt(a) == Sb(16, 2, [0]) && s.world.List(InBin(1, 22, 4)) == [a] && |s.world.inUse| == 2
    requires forall e :: 0 < e < 4 ==> s.world.List(InBin(1, 22, e)) == []
    ensures var op := Malloc(1, 129472, None); var q := a + HEADER_SIZE + 32;
            && Legal(s, op) && Apply(fix, s, op).held == s.held[q := 129472]
  {
    hide Serve, TakeOut, World.List, World.AddUsage, BinOf, Sb.NextSlot;
    BigClass();
    TwiceUsed();
    assert FullestFrom(s.world, 1, 22, 1) == Some(4);
    assert SourceFor(s.world, 1, 22, None) == OwnBin(4);
    TakeOutKeeps(s.world, fix, 1, 22, OwnBin(4));
    assert TakeOut(s.world, fix, 1, 22, OwnBin(4)).SbAt(a) == Sb(16, 2, [0]);
  }

  /** And the one after it gets a block inside the first: what two clients hold overlaps. */
  lemma HeldBlocksOverlap(fix: Repairs)
    requires !fix.resetAdopted
    ensures var big := Malloc(1, 129472, None); var ops := ShareOps() + [big] + [big];
            var s := Run(fix, Start(1), ops); var p := Addr(0) + HEADER_SIZE + 16; var q := p + 16;
            && LegalRun(fix, Start(1), ops)
            && p in s.held && q in s.held && p < q < p + s.held[p]
  {
    hide ShareOps, LegalRun, NeverAdopts, Run, Apply, Legal, Adopts, OnlyShared, BlockSizeAt, World.SbAt, HeapAlloc, World.List;
    var big := Malloc(1, 129472, None);
    var s1 := Run(fix, Start(1), ShareOps());
    ShareRun(fix);
    BigRequest(fix, s1, Addr(0));
    BinAfterBig(s1.world, fix, Addr(0));
    RunAppend(fix, Start(1), ShareOps(), big);
    ApplyWorld(fix, s1, 1, 129472, None);
    SecondBig(fix, Apply(fix, s1, big), Addr(0));
    RunAppend(fix, Start(1), ShareOps() + [big], big);
  }

  lemma ApplyWorld(fix: Repairs, s: State, h: nat, size: nat, raw: Option<nat>)
    ensures Apply(fix, s, Malloc(h, size, raw)).world == HeapAlloc(s.world, fix, h, size, raw).0
    ensures |HeapAlloc(s.world, fix, h, size, raw).0.inUse| == |s.world.inUse|
  {
    hide HeapAlloc;
    MallocLengths(s.world, fix, h, size, raw);
  }

  // ---------- failed requests ----------

  /** Unless the usage of failed requests is left out, one failed request leaves `in_use` above
      the bytes of the used blocks. */
  lemma FailureIsCharged(fix: Repairs)
    requires !fix.exactUsage
    ensures var ops := [Malloc(1, 16, None)]; var w := Run(fix, Start(1), ops).world;
            && LegalRun(fix, Start(1), ops)
            && w.inUse == [0, 16] && TotalUsed(w, 1) == 0
  {
    var w := Initial(1);
    assert BinOf(16) == 0;
    assert SourceFor(w, 1, 0, None) == NoMemory;
    assert HeapAlloc(w, fix, 1, 16, None) == (w.AddUsage(1, 16), None);
    assert UsedMap(w.AddUsage(1, 16), 1) == map[];
  }

  /** As written, a run can lose a superblock, hand out too small a block, and leave `in_use`
      above the used bytes. */
  lemma AsWritten()
    ensures exists ops, a :: LegalRun(AS_WRITTEN, Start(1), ops) && a in Lost(Run(AS_WRITTEN, Start(1), ops).world)
    ensures exists ops, p :: LegalRun(AS_WRITTEN, Start(1), ops) && p in Run(AS_WRITTEN, Start(1), ops).held
                             && BlockSizeAt(Run(AS_WRITTEN, Start(1), ops).world, p) < Run(AS_WRITTEN, Start(1), ops).held[p]
    ensures exists ops :: LegalRun(AS_WRITTEN, Start(1), ops)
                          && |Run(AS_WRITTEN, Start(1), ops).world.inUse| == 2
                          && TotalUsed(Run(AS_WRITTEN, Start(1), ops).world, 1) < Run(AS_WRITTEN, Start(1), ops).world.inUse[1]
  {
    hide LegalRun, Run, Lost, RecycleOps, ShareOps, BlockSizeAt, Addr, TotalUsed, NeverAdopts;
    NextIsLost(AS_WRITTEN);
    TooSmallABlock(AS_WRITTEN);
    FailureIsCharged(AS_WRITTEN);
  }
}
