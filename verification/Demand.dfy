// How much memory the allocator maps: with one thread heap and one size class, no more
// superblocks than the blocks held at the peak fill.
module Demand {
  import opened Layout
  import opened SizeTables
  import opened SuperblockModel
  import opened Worlds
  import opened Filing
  import opened Steps
  import opened Safety
  import opened Counters
  import opened Emptiness
  import opened Runs

  // ---------- counting held blocks ----------

  /** The pointers held into the superblocks of `some`. */
  ghost function HeldIn(held: set<nat>, some: set<nat>): set<nat> {
    set p | p in held && SuperblockOf(p) in some
  }

  ghost function Addresses(a: nat, c: nat, n: nat): set<nat> {
    if n == 0 then {} else Addresses(a, c, n - 1) + {BlockAddr(a, c, n - 1)}
  }

  lemma {:induction false} AddressesCount(a: nat, c: nat, n: nat)
    requires c > 0
    ensures |Addresses(a, c, n)| == n
    ensures forall p :: p in Addresses(a, c, n) ==> exists i :: 0 <= i < n && p == BlockAddr(a, c, i)
    ensures forall p :: p in Addresses(a, c, n) ==> p < BlockAddr(a, c, n)
  {
    if n > 0 {
      AddressesCount(a, c, n - 1);
      BlockAddrNext(a, c, n - 1);
    }
  }

  /** All blocks of a full superblock are held. */
  lemma FullIsHeld(s: State, c: nat, a: nat)
    requires Good(s) && a in s.world.sbs && s.world.SbAt(a).blockSize == c && s.world.SbAt(a).NumFree() == 0
    ensures c > 0
    ensures forall i :: 0 <= i < TotalBlocks(c) ==> BlockAddr(a, c, i) in s.held && SuperblockOf(BlockAddr(a, c, i)) == a
  {
    hide Accounts, LiveAt, BlockAddr, SuperblockOf, BlockSizeAt;
    var sb := s.world.SbAt(a);
    assert SoundAt(s.world, a);
    forall i | 0 <= i < TotalBlocks(c)
      ensures BlockAddr(a, c, i) in s.held && SuperblockOf(BlockAddr(a, c, i)) == a
    {
      assert i in sb.Live();
      LiveSlot(s.world, a, i);
    }
  }

  lemma FullShare(s: State, c: nat, a: nat)
    requires Good(s) && a in s.world.sbs && s.world.SbAt(a).blockSize == c && s.world.SbAt(a).NumFree() == 0
    ensures |HeldIn(s.held.Keys, {a})| >= TotalBlocks(c)
  {
    hide Good, BlockAddr, SuperblockOf, Addresses;
    FullIsHeld(s, c, a);
    AddressesCount(a, c, TotalBlocks(c));
    assert Addresses(a, c, TotalBlocks(c)) <= HeldIn(s.held.Keys, {a});
    SmallerSet(Addresses(a, c, TotalBlocks(c)), HeldIn(s.held.Keys, {a}));
  }

  lemma SmallerSet(s: set<nat>, t: set<nat>)
    requires s <= t
    ensures |s| <= |t|
  {
    assert t == s + (t - s);
  }

  /** Full superblocks hold at least so many blocks together. */
  lemma {:induction false} FullCount(s: State, c: nat, some: set<nat>)
    requires Good(s) && some <= s.world.sbs.Keys
    requires forall a :: a in some ==> s.world.SbAt(a).blockSize == c && s.world.SbAt(a).NumFree() == 0
    ensures TotalBlocks(c) * |some| <= |HeldIn(s.held.Keys, some)|
    decreases |some|
  {
    hide Good, SuperblockOf, Sb.NumFree;
    if some != {} {
      var a :| a in some;
      var rest := some - {a};
      FullCount(s, c, rest);
      FullShare(s, c, a);
      assert HeldIn(s.held.Keys, some) == HeldIn(s.held.Keys, rest) + HeldIn(s.held.Keys, {a});
      assert TotalBlocks(c) * |some| == TotalBlocks(c) * |rest| + TotalBlocks(c);
    }
  }

  // ---------- runs ----------

  /** The most blocks held at any boundary of a run. */
  function Peak(fix: Repairs, s: State, ops: seq<Op>): nat
    decreases |ops|
  {
    if ops == [] then |s.held|
    else
      var later := Peak(fix, Apply(fix, s, ops[0]), ops[1..]);
      if |s.held| < later then later else |s.held|
  }

  /** One thread heap, one size class, nothing lost. */
  ghost predicate Alone(s: State, b: nat) {
    Good(s) && |s.world.inUse| == 2 && b < NUM_SIZE_BINS && OneClass(s.world, b) && Lost(s.world) == {}
  }

  /** When a malloc maps a superblock, the blocks held fill all there are. */
  lemma MapsAtCapacity(s: State, b: nat, raw: Option<nat>)
    requires Alone(s, b) && SourceFor(s.world, 1, b, raw).NewMapping?
    ensures TotalBlocks(ClassOf(b)) * |s.world.sbs| <= |s.held|
  {
    hide Accounts, Tracks, SourceFor, ClassOf, Sb.NumFree, Lost;
    var w := s.world;
    MapsWhenFull(w, 1, b, raw);
    forall a | a in w.sbs
      ensures w.SbAt(a).NumFree() == 0
    {
      assert SoundAt(w, a);
    }
    FullCount(s, ClassOf(b), w.sbs.Keys);
    SmallerSet(HeldIn(s.held.Keys, w.sbs.Keys), s.held.Keys);
  }

  lemma StepAlone(fix: Repairs, s: State, op: Op, b: nat)
    requires Alone(s, b) && Legal(s, op) && fix.nextFirst
    requires op.Malloc? ==> BinOf(op.size) == b
    ensures Alone(Apply(fix, s, op), b)
  {
    hide HeapAlloc, HeapFree, WellFiled, Accounts, OneClass, LegalMalloc, Lost, LiveAt, BlockSizeAt;
    match op {
      case Malloc(h, size, raw) =>
        OneClassFilesRight(s.world, fix, h, b, raw);
        MallocOneClass(s.world, fix, h, size, raw);
        MallocLengths(s.world, fix, h, size, raw);
      case Free(ptr) =>
        FreeOneClass(s.world, fix, ptr, b);
        FreeLengths(s.world, fix, ptr);
    }
    StepGood(fix, s, op);
    StepLost(fix, s, op);
  }

  /** A malloc that maps a superblock adds one superblock and one held block. */
  lemma StepCounts(fix: Repairs, s: State, op: Op, b: nat)
    requires Alone(s, b) && Legal(s, op)
    requires op.Malloc? ==> BinOf(op.size) == b
    ensures |Apply(fix, s, op).world.sbs| == |s.world.sbs| + Maps(s, op) && Maps(s, op) <= 1
    ensures Maps(s, op) == 1 ==> TotalBlocks(ClassOf(b)) * |s.world.sbs| < |Apply(fix, s, op).held|
  {
    hide HeapAlloc, HeapFree, WellFiled, Accounts, OneClass, Lost, LiveAt, BlockSizeAt, SourceFor, ClassOf, TotalBlocks, BinOf;
    match op
    case Malloc(h, size, raw) =>
      MallocMaps(fix, s, h, size, raw);
      MallocLive(s.world, fix, h, size, raw, 0);
      if SourceFor(s.world, h, b, raw).NewMapping? {
        MapsAtCapacity(s, b, raw);
      }
    case Free(ptr) => FreeMaps(fix, s, ptr);
  }

  lemma {:induction false} RunDemand(fix: Repairs, s: State, ops: seq<Op>, b: nat, peak: nat)
    requires Alone(s, b) && LegalRun(fix, s, ops) && OneBin(ops, b) && fix.nextFirst
    requires Peak(fix, s, ops) <= peak
    requires TotalBlocks(ClassOf(b)) * |s.world.sbs| < peak + TotalBlocks(ClassOf(b))
    ensures TotalBlocks(ClassOf(b)) * (|s.world.sbs| + TotalMaps(fix, s, ops)) < peak + TotalBlocks(ClassOf(b))
    decreases |ops|
  {
    hide Alone, Apply, Legal, Maps, ClassOf, TotalBlocks;
    if ops != [] {
      var next, t := Apply(fix, s, ops[0]), TotalBlocks(ClassOf(b));
      StepAlone(fix, s, ops[0], b);
      StepCounts(fix, s, ops[0], b);
      PeakHere(fix, next, ops[1..]);
      assert t * (|s.world.sbs| + 1) == t * |s.world.sbs| + t;
      assert OneBin(ops[1..], b);
      RunDemand(fix, next, ops[1..], b, peak);
    }
  }

  lemma PeakHere(fix: Repairs, s: State, ops: seq<Op>)
    ensures |s.held| <= Peak(fix, s, ops)
  {
  }

  lemma StartAlone(b: nat)
    requires b < NUM_SIZE_BINS
    ensures Alone(Start(1), b) && |Start(1).world.sbs| == 0
    ensures TotalBlocks(ClassOf(b)) >= 2
  {
    hide ClassOf, TotalBlocks, BinOf, IsClass;
    StartGood(1);
    assert Lost(Start(1).world) == {};
    BinOfClass(b);
    TotalBlocksBounds(ClassOf(b));
  }

  lemma TimesGrows(t: nat, m: nat, n: nat)
    requires m <= n
    ensures t * m <= t * n
  {
  }

  lemma RoundedUp(t: nat, n: nat, peak: nat)
    requires t > 0 && t * n < peak + t
    ensures n <= (peak + t - 1) / t
  {
    var q := (peak + t - 1) / t;
    assert peak + t - 1 < t * (q + 1);
    if n > q {
      TimesGrows(t, q + 1, n);
      assert false;
    }
  }

  /** With one thread heap, one size class and `next` read first, a run maps at most as many
      superblocks as its peak of held blocks fills, rounded up. */
  lemma MappedOnDemand(fix: Repairs, ops: seq<Op>, b: nat)
    requires LegalRun(fix, Start(1), ops) && OneBin(ops, b) && b < NUM_SIZE_BINS && fix.nextFirst
    ensures var t := TotalBlocks(ClassOf(b));
            t >= 2 && TotalMaps(fix, Start(1), ops) <= (Peak(fix, Start(1), ops) + t - 1) / t
  {
    hide Alone, LegalRun, TotalMaps, Peak, OneBin, ClassOf, TotalBlocks, Start;
    StartAlone(b);
    RunDemand(fix, Start(1), ops, b, Peak(fix, Start(1), ops));
    RoundedUp(TotalBlocks(ClassOf(b)), TotalMaps(fix, Start(1), ops), Peak(fix, Start(1), ops));
  }
}
