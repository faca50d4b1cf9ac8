// Whole runs of the allocator: any sequence of mallocs and frees by any number of threads,
// each taken as one step, with what the clients hold kept beside the state.
module Runs {
  import opened Layout
  import opened SizeTables
  import opened SuperblockModel
  import opened Worlds
  import opened Filing
  import opened Steps
  import opened Safety
  import opened Counters
  import opened Emptiness

  /** One call. `raw` is what mmap returns if the call maps memory. */
  datatype Op = Malloc(heap: nat, size: nat, raw: Option<nat>) | Free(ptr: nat)

  /** The allocator, and the pointers clients hold with the sizes they asked for. */
  datatype State = State(world: World, held: map<nat, nat>)

  function Start(n: nat): State {
    State(Initial(n), map[])
  }

  /** Clients ask for sizes the table holds and free only what they hold. */
  ghost predicate Legal(s: State, op: Op) {
    match op
    case Malloc(h, size, raw) => LegalMalloc(s.world, h, size, raw)
    case Free(ptr) => ptr in s.held
  }

  function Apply(fix: Repairs, s: State, op: Op): State {
    match op
    case Malloc(h, size, raw) =>
      var (w, r) := HeapAlloc(s.world, fix, h, size, raw);
      State(w, if r.Some? then s.held[r.value := size] else s.held)
    case Free(ptr) => State(HeapFree(s.world, fix, ptr), s.held - {ptr})
  }

  ghost predicate LegalRun(fix: Repairs, s: State, ops: seq<Op>)
    decreases |ops|
  {
    ops != [] ==> Legal(s, ops[0]) && LegalRun(fix, Apply(fix, s, ops[0]), ops[1..])
  }

  function Run(fix: Repairs, s: State, ops: seq<Op>): State
    decreases |ops|
  {
    if ops == [] then s else Run(fix, Apply(fix, s, ops[0]), ops[1..])
  }

  /** The call adopts a recycled superblock of another block size without resetting it. */
  predicate Adopts(fix: Repairs, s: State, op: Op) {
    op.Malloc? && Misfiles(s.world, fix, op.heap, BinOf(op.size), op.raw)
  }

  predicate NeverAdopts(fix: Repairs, s: State, ops: seq<Op>)
    decreases |ops|
  {
    ops != [] ==> !Adopts(fix, s, ops[0]) && NeverAdopts(fix, Apply(fix, s, ops[0]), ops[1..])
  }

  /** What holds between operations. */
  ghost predicate Good(s: State) {
    && WellFiled(s.world)
    && Accounts(s.world)
    && Tracks(s)
  }

  /** Clients hold exactly the live blocks, and each is as large as was asked. */
  ghost predicate Tracks(s: State) {
    && (forall p :: p in s.held <==> LiveAt(s.world, p))
    && (forall p :: p in s.held ==> 1 <= s.held[p] <= BlockSizeAt(s.world, p))
  }

  // ---------- one step ----------

  lemma StartGood(n: nat)
    ensures Good(Start(n))
  {
    var w := Initial(n);
    assert Lost(w) == {};
    forall h | 0 < h < |w.inUse|
      ensures Excess(w, h) == 0 && Slack(w, h) == 0
    {
      assert UsedMap(w, h) == map[];
    }
  }

  lemma RightlyServedFits(w: World, fix: Repairs, h: nat, size: nat, raw: Option<nat>)
    requires size <= ClassOf(NUM_SIZE_BINS - 1)
    ensures !Misfiles(w, fix, h, BinOf(size), raw) ==> size <= ServedSize(w, fix, h, BinOf(size), raw)
    ensures SourceFor(w, h, BinOf(size), raw).NoMemory? ==> !Misfiles(w, fix, h, BinOf(size), raw)
  {
    BinHoldsRequest(size);
  }

  /** After a malloc clients hold exactly the live blocks, each as large as was asked, exactly
      when the request is not served from an adopted superblock of too small a block size. */
  lemma MallocTracksExactly(fix: Repairs, s: State, h: nat, size: nat, raw: Option<nat>)
    requires Good(s) && LegalMalloc(s.world, h, size, raw)
    ensures Tracks(Apply(fix, s, Malloc(h, size, raw))) <==>
            (Misfiles(s.world, fix, h, BinOf(size), raw) ==> size <= ServedSize(s.world, fix, h, BinOf(size), raw))
  {
    hide HeapAlloc, Misfiles, ServedSize, LiveAt, BlockSizeAt, SourceFor, BinOf, WellFiled, Accounts, ClassOf;
    var after := Apply(fix, s, Malloc(h, size, raw));
    RightlyServedFits(s.world, fix, h, size, raw);
    MallocLive(s.world, fix, h, size, raw, 0);
    forall p
      ensures p in after.held <==> LiveAt(after.world, p)
      ensures p in s.held ==> BlockSizeAt(after.world, p) == BlockSizeAt(s.world, p)
    {
      MallocLive(s.world, fix, h, size, raw, p);
    }
    var r := HeapAlloc(s.world, fix, h, size, raw).1;
    if r.Some? {
      assert r.value in after.held && r.value !in s.held;
    }
  }

  lemma MallocTracks(fix: Repairs, s: State, h: nat, size: nat, raw: Option<nat>)
    requires Good(s) && LegalMalloc(s.world, h, size, raw)
    requires !Misfiles(s.world, fix, h, BinOf(size), raw)
    ensures Tracks(Apply(fix, s, Malloc(h, size, raw)))
  {
    MallocTracksExactly(fix, s, h, size, raw);
  }

  lemma FreeTracks(fix: Repairs, s: State, ptr: nat)
    requires Good(s) && ptr in s.held
    ensures Tracks(Apply(fix, s, Free(ptr)))
  {
    var after := Apply(fix, s, Free(ptr));
    forall p
      ensures p in after.held <==> LiveAt(after.world, p)
      ensures p in after.held ==> 1 <= after.held[p] <= BlockSizeAt(after.world, p)
    {
      FreeLive(s.world, fix, ptr, p);
    }
  }

  /** A step keeps the invariant exactly when it does not adopt a superblock of another block
      size: with the reset it always does. */
  lemma StepGood(fix: Repairs, s: State, op: Op)
    requires Good(s) && Legal(s, op)
    ensures Good(Apply(fix, s, op)) <==> !Adopts(fix, s, op)
    ensures fix.resetAdopted ==> Good(Apply(fix, s, op))
  {
    match op
    case Malloc(h, size, raw) =>
      MallocFiles(s.world, fix, h, size, raw);
      if !Adopts(fix, s, op) {
        MallocAccounts(s.world, fix, h, size, raw);
        MallocTracks(fix, s, h, size, raw);
      }
    case Free(ptr) =>
      FreeFiles(s.world, fix, ptr);
      FreeAccounts(s.world, fix, ptr);
      FreeTracks(fix, s, ptr);
  }

  // ---------- whole runs ----------

  lemma {:induction false} RunGood(fix: Repairs, s: State, ops: seq<Op>)
    requires Good(s) && LegalRun(fix, s, ops) && NeverAdopts(fix, s, ops)
    ensures Good(Run(fix, s, ops))
    decreases |ops|
  {
    if ops == [] {
    } else {
      StepGood(fix, s, ops[0]);
      RunGood(fix, Apply(fix, s, ops[0]), ops[1..]);
    }
  }

  ghost predicate AlwaysGood(fix: Repairs, s: State, ops: seq<Op>)
    decreases |ops|
  {
    && Good(s)
    && (ops != [] ==> AlwaysGood(fix, Apply(fix, s, ops[0]), ops[1..]))
  }

  /** The invariant holds at every boundary of a run exactly when the run never adopts a
      superblock of another block size. */
  lemma {:induction false} RunGoodExactly(fix: Repairs, s: State, ops: seq<Op>)
    requires Good(s) && LegalRun(fix, s, ops)
    ensures AlwaysGood(fix, s, ops) <==> NeverAdopts(fix, s, ops)
    decreases |ops|
  {
    hide Good, Adopts, Apply, Legal;
    if ops != [] {
      StepGood(fix, s, ops[0]);
      if !Adopts(fix, s, ops[0]) {
        RunGoodExactly(fix, Apply(fix, s, ops[0]), ops[1..]);
      }
    }
  }

  /** A run with one more call at its end. */
  lemma {:induction false} RunAppend(fix: Repairs, s: State, ops: seq<Op>, op: Op)
    ensures var last := Run(fix, s, ops);
            && Run(fix, s, ops + [op]) == Apply(fix, last, op)
            && (LegalRun(fix, s, ops + [op]) <==> LegalRun(fix, s, ops) && Legal(last, op))
            && (NeverAdopts(fix, s, ops + [op]) <==> NeverAdopts(fix, s, ops) && !Adopts(fix, last, op))
    decreases |ops|
  {
    hide Apply, Adopts, Legal;
    if ops == [] {
      assert ops + [op] == [op];
      assert [op][1..] == [];
    } else {
      assert (ops + [op])[1..] == ops[1..] + [op];
      RunAppend(fix, Apply(fix, s, ops[0]), ops[1..], op);
    }
  }

  lemma {:induction false} ResetNeverAdopts(fix: Repairs, s: State, ops: seq<Op>)
    requires fix.resetAdopted
    ensures NeverAdopts(fix, s, ops)
    decreases |ops|
  {
    if ops == [] {
    } else {
      ResetNeverAdopts(fix, Apply(fix, s, ops[0]), ops[1..]);
    }
  }

  /** In every run that never adopts a superblock of another block size, and so in every run
      once adopted superblocks are reset: what clients hold is aligned, as large as was asked,
      inside one superblock's buffer, and disjoint from everything else that is held. */
  lemma BlocksAreSafe(n: nat, fix: Repairs, ops: seq<Op>, p: nat, q: nat)
    requires LegalRun(fix, Start(n), ops)
    requires fix.resetAdopted || NeverAdopts(fix, Start(n), ops)
    ensures var s := Run(fix, Start(n), ops); var a := SuperblockOf(p);
            p in s.held ==>
            && p % MIN_BLOCK_SIZE == 0
            && s.held[p] <= BlockSizeAt(s.world, p)
            && a in s.world.sbs && a + HEADER_SIZE <= p && p + BlockSizeAt(s.world, p) <= a + SUPERBLOCK_SIZE
            && (q in s.held && q != p ==> p + BlockSizeAt(s.world, p) <= q || q + BlockSizeAt(s.world, q) <= p)
  {
    var s := Run(fix, Start(n), ops);
    StartGood(n);
    if fix.resetAdopted {
      ResetNeverAdopts(fix, Start(n), ops);
    }
    RunGood(fix, Start(n), ops);
    if p in s.held {
      LiveBlockPlaced(s.world, p);
      if q in s.held && p < q {
        LiveBlocksDisjoint(s.world, p, q);
      } else if q in s.held && q < p {
        LiveBlocksDisjoint(s.world, q, p);
      }
    }
  }

  /** After every such run, no malloc returns a pointer that a client still holds. */
  lemma NeverHandedOutTwice(n: nat, fix: Repairs, ops: seq<Op>, h: nat, size: nat, raw: Option<nat>)
    requires LegalRun(fix, Start(n), ops)
    requires fix.resetAdopted || NeverAdopts(fix, Start(n), ops)
    ensures var s := Run(fix, Start(n), ops); var r := HeapAlloc(s.world, fix, h, size, raw).1;
            LegalMalloc(s.world, h, size, raw) && r.Some? ==> r.value !in s.held
  {
    var s := Run(fix, Start(n), ops);
    StartGood(n);
    if fix.resetAdopted {
      ResetNeverAdopts(fix, Start(n), ops);
    }
    RunGood(fix, Start(n), ops);
    if LegalMalloc(s.world, h, size, raw) {
      MallocLive(s.world, fix, h, size, raw, 0);
    }
  }

  // ---------- losing superblocks ----------

  /** The superblocks a call drops. */
  ghost function Drops(fix: Repairs, s: State, op: Op): set<nat> {
    if op.Malloc? then Dropped(s.world, fix, op.heap, SourceFor(s.world, op.heap, BinOf(op.size), op.raw)) else {}
  }

  ghost function AllDropped(fix: Repairs, s: State, ops: seq<Op>): set<nat>
    decreases |ops|
  {
    if ops == [] then {} else Drops(fix, s, ops[0]) + AllDropped(fix, Apply(fix, s, ops[0]), ops[1..])
  }

  /** The superblocks that are in no list after a run are exactly those its calls dropped. */
  lemma {:induction false} LostIsDropped(fix: Repairs, s: State, ops: seq<Op>)
    requires Good(s) && LegalRun(fix, s, ops) && NeverAdopts(fix, s, ops)
    ensures Lost(Run(fix, s, ops).world) == Lost(s.world) + AllDropped(fix, s, ops)
    decreases |ops|
  {
    if ops == [] {
    } else {
      StepGood(fix, s, ops[0]);
      StepLost(fix, s, ops[0]);
      LostIsDropped(fix, Apply(fix, s, ops[0]), ops[1..]);
    }
  }

  lemma StepLost(fix: Repairs, s: State, op: Op)
    requires Good(s) && Legal(s, op) && !Adopts(fix, s, op)
    ensures Lost(Apply(fix, s, op).world) == Lost(s.world) + Drops(fix, s, op)
  {
    match op
    case Malloc(h, size, raw) => MallocFiles(s.world, fix, h, size, raw);
    case Free(ptr) => FreeFiles(s.world, fix, ptr);
  }

  lemma {:induction false} NextFirstDropsNone(fix: Repairs, s: State, ops: seq<Op>)
    requires fix.nextFirst
    ensures AllDropped(fix, s, ops) == {}
    decreases |ops|
  {
    if ops == [] {
    } else {
      NextFirstDropsNone(fix, Apply(fix, s, ops[0]), ops[1..]);
    }
  }

  /** With both repairs, after every run every superblock ever mapped is in exactly one list:
      the bin its owner, block size and fullness determine, or, if it has no live block, its
      owner's recycling list. The cached counters agree with the lists. */
  lemma ExactlyOnePlace(n: nat, fix: Repairs, ops: seq<Op>, a: nat, p: Place)
    requires fix.nextFirst && fix.resetAdopted && LegalRun(fix, Start(n), ops)
    ensures var w := Run(fix, Start(n), ops).world;
            && (a in w.sbs ==> (a in w.List(p) <==> p == w.Home(a)))
            && (a in w.sbs ==> (w.Home(a).Recycled? <==> w.SbAt(a).Live() == {}))
            && NoDup(w.List(p))
            && forall h, b :: w.Nonfull(h, b) == CountNonfull(w, h, b)
  {
    var s := Run(fix, Start(n), ops);
    StartGood(n);
    ResetNeverAdopts(fix, Start(n), ops);
    RunGood(fix, Start(n), ops);
    LostIsDropped(fix, Start(n), ops);
    NextFirstDropsNone(fix, Start(n), ops);
    assert Lost(Start(n).world) == {};
    if a in s.world.sbs {
      assert SoundAt(s.world, a);
      LiveCount(s.world.SbAt(a));
    }
    assert Distinct(s.world, p);
    forall h, b
      ensures s.world.Nonfull(h, b) == CountNonfull(s.world, h, b)
    {
      assert Counted(s.world, h, b);
    }
  }

  // ---------- the usage counters ----------

  ghost function Drift(fix: Repairs, s: State, op: Op, g: nat): int {
    match op
    case Malloc(h, size, raw) => MallocDrift(s.world, fix, h, size, raw, g)
    case Free(ptr) => FreeDrift(s.world, fix, ptr, g)
  }

  ghost function TotalDrift(fix: Repairs, s: State, ops: seq<Op>, g: nat): int
    decreases |ops|
  {
    if ops == [] then 0 else Drift(fix, s, ops[0], g) + TotalDrift(fix, Apply(fix, s, ops[0]), ops[1..], g)
  }

  lemma StepSlack(fix: Repairs, s: State, op: Op, g: nat)
    requires Good(s) && Legal(s, op) && !Adopts(fix, s, op) && 0 < g < |s.world.inUse|
    ensures |Apply(fix, s, op).world.inUse| == |s.world.inUse|
    ensures Slack(Apply(fix, s, op).world, g) == Slack(s.world, g) + Drift(fix, s, op, g)
    ensures Drift(fix, s, op, g) >= 0
    ensures fix.exactUsage ==> Drift(fix, s, op, g) == 0
  {
    match op
    case Malloc(h, size, raw) => MallocCounters(s.world, fix, h, size, raw, g);
    case Free(ptr) => FreeCounters(s.world, fix, ptr, g);
  }

  /** `in_use` exceeds the used bytes by exactly what failed requests and transfers of partly
      used superblocks have added, over any run; with exact usage, by nothing. */
  lemma {:induction false} RunSlack(fix: Repairs, s: State, ops: seq<Op>, g: nat)
    requires Good(s) && LegalRun(fix, s, ops) && NeverAdopts(fix, s, ops) && 0 < g < |s.world.inUse|
    ensures |Run(fix, s, ops).world.inUse| == |s.world.inUse|
    ensures Slack(Run(fix, s, ops).world, g) == Slack(s.world, g) + TotalDrift(fix, s, ops, g)
    ensures TotalDrift(fix, s, ops, g) >= 0
    ensures fix.exactUsage ==> TotalDrift(fix, s, ops, g) == 0
    decreases |ops|
  {
    if ops == [] {
    } else {
      StepGood(fix, s, ops[0]);
      StepSlack(fix, s, ops[0], g);
      RunSlack(fix, Apply(fix, s, ops[0]), ops[1..], g);
    }
  }

  /** After every run of the repaired allocator the counters of a thread heap are exact. */
  lemma CountersExact(n: nat, fix: Repairs, ops: seq<Op>, g: nat)
    requires fix.resetAdopted && fix.exactUsage && LegalRun(fix, Start(n), ops) && 0 < g <= n
    ensures var w := Run(fix, Start(n), ops).world;
            && |w.inUse| == |w.alloced| == n + 1
            && w.alloced[g] == SUPERBLOCK_SIZE * Owned(w, g)
            && w.inUse[g] == TotalUsed(w, g)
  {
    StartGood(n);
    ResetNeverAdopts(fix, Start(n), ops);
    RunGood(fix, Start(n), ops);
    RunSlack(fix, Start(n), ops, g);
    assert UsedMap(Start(n).world, g) == map[];
    assert Excess(Run(fix, Start(n), ops).world, g) == 0;
  }

  // ---------- superblocks mapped and owned ----------

  function Maps(s: State, op: Op): nat {
    if op.Malloc? && SourceFor(s.world, op.heap, BinOf(op.size), op.raw).NewMapping? then 1 else 0
  }

  function TotalMaps(fix: Repairs, s: State, ops: seq<Op>): nat
    decreases |ops|
  {
    if ops == [] then 0 else Maps(s, ops[0]) + TotalMaps(fix, Apply(fix, s, ops[0]), ops[1..])
  }

  ghost function OwnedByFirst(w: World, n: nat): nat {
    if n == 0 then 0 else OwnedByFirst(w, n - 1) + Owned(w, n - 1)
  }

  ghost function OwnedBelow(w: World, n: nat): set<nat> {
    set a | a in w.sbs && w.OwnerOf(a) < n
  }

  ghost function OwnedSet(w: World, h: nat): set<nat> {
    set a | a in w.sbs && w.OwnerOf(a) == h
  }

  lemma OwnedIsSet(w: World, h: nat)
    ensures Owned(w, h) == |OwnedSet(w, h)|
  {
    assert UsedMap(w, h).Keys == OwnedSet(w, h);
  }

  lemma {:induction false} CountOwned(w: World, n: nat)
    ensures OwnedByFirst(w, n) == |OwnedBelow(w, n)|
  {
    if n == 0 {
      assert OwnedBelow(w, 0) == {};
    } else {
      var m: nat := n - 1;
      assert OwnedByFirst(w, n) == OwnedByFirst(w, m) + Owned(w, m);
      CountOwned(w, m);
      OwnedIsSet(w, m);
      SplitOwned(w, m);
    }
  }

  lemma SplitOwned(w: World, n: nat)
    ensures |OwnedBelow(w, n + 1)| == |OwnedBelow(w, n)| + |OwnedSet(w, n)|
  {
    assert OwnedBelow(w, n + 1) == OwnedBelow(w, n) + OwnedSet(w, n);
    assert OwnedBelow(w, n) !! OwnedSet(w, n);
  }

  lemma ServeKeys(w: World, h: nat, b: nat, a: nat)
    ensures Serve(w, h, b, a).sbs.Keys == w.sbs.Keys + {a}
  {
  }

  lemma ServedKeys(w: World, fix: Repairs, h: nat, b: nat, raw: Option<nat>, src: Source, a: nat)
    requires WellFiled(w) && Serves(w, h, b, raw, src, a)
    ensures Serve(Obtained(w, fix, h, b, src, a), h, b, a).sbs.Keys == w.sbs.Keys + {a}
    ensures src.NewMapping? <==> a !in w.sbs
  {
    ChosenFacts(w, Lost(w), h, b, raw, src, a);
    ObtainedSound(w, fix, Lost(w), h, b, raw, src, a);
    ServeKeys(Obtained(w, fix, h, b, src, a), h, b, a);
  }

  lemma AddSize(s: set<nat>, a: nat)
    ensures |s + {a}| == |s| + if a in s then 0 else 1
  {
    assert a in s ==> s + {a} == s;
  }

  lemma MallocMaps(fix: Repairs, s: State, h: nat, size: nat, raw: Option<nat>)
    requires Good(s) && LegalMalloc(s.world, h, size, raw)
    ensures |HeapAlloc(s.world, fix, h, size, raw).0.sbs.Keys| == |s.world.sbs.Keys| + Maps(s, Malloc(h, size, raw))
  {
    BinHoldsRequest(size);
    var w, b := s.world, BinOf(size);
    var src := SourceFor(w, h, b, raw);
    HeapAllocIs(w, fix, h, size, raw);
    if !src.NoMemory? {
      var a := Chosen(w, h, b, src);
      ServedKeys(w, fix, h, b, raw, src, a);
      AddSize(w.sbs.Keys, a);
    }
  }

  lemma FreeMaps(fix: Repairs, s: State, ptr: nat)
    requires Good(s) && ptr in s.held
    ensures HeapFree(s.world, fix, ptr).sbs.Keys == s.world.sbs.Keys
  {
    BinFreeFiles(s.world, ptr);
    SettleKeepsBlocks(BinFree(s.world, ptr), fix, s.world.OwnerOf(SuperblockOf(ptr)), BlockSizeAt(s.world, ptr));
  }

  lemma {:induction false} RunMaps(fix: Repairs, s: State, ops: seq<Op>)
    requires Good(s) && LegalRun(fix, s, ops) && NeverAdopts(fix, s, ops)
    ensures |Run(fix, s, ops).world.sbs.Keys| == |s.world.sbs.Keys| + TotalMaps(fix, s, ops)
    decreases |ops|
  {
    if ops == [] {
    } else {
      StepGood(fix, s, ops[0]);
      match ops[0] {
        case Malloc(h, size, raw) => MallocMaps(fix, s, h, size, raw);
        case Free(ptr) => FreeMaps(fix, s, ptr);
      }
      RunMaps(fix, Apply(fix, s, ops[0]), ops[1..]);
    }
  }

  /** Superblocks are conserved: as many were mapped in a run as the heaps, the global heap
      among them, own at its end. */
  lemma SuperblocksConserved(n: nat, fix: Repairs, ops: seq<Op>)
    requires fix.resetAdopted || NeverAdopts(fix, Start(n), ops)
    requires LegalRun(fix, Start(n), ops)
    ensures TotalMaps(fix, Start(n), ops) == OwnedByFirst(Run(fix, Start(n), ops).world, |Run(fix, Start(n), ops).world.inUse|)
  {
    var w := Run(fix, Start(n), ops).world;
    StartGood(n);
    if fix.resetAdopted {
      ResetNeverAdopts(fix, Start(n), ops);
    }
    RunGood(fix, Start(n), ops);
    RunMaps(fix, Start(n), ops);
    CountOwned(w, |w.inUse|);
    forall a | a in w.sbs
      ensures w.OwnerOf(a) < |w.inUse|
    {
      assert SoundAt(w, a);
    }
    assert OwnedBelow(w, |w.inUse|) == w.sbs.Keys;
  }

  // ---------- emptiness ----------

  /** Every request is for bin `b`. */
  predicate OneBin(ops: seq<Op>, b: nat) {
    forall i :: 0 <= i < |ops| ==> ops[i].Malloc? ==> BinOf(ops[i].size) == b
  }

  ghost predicate NoneTooEmpty(w: World) {
    forall g :: 0 < g < |w.inUse| ==> NotTooEmpty(w, g)
  }

  /** The condition, on the state before a call, under which no heap becomes too empty. */
  ghost predicate Fills(fix: Repairs, s: State, op: Op) {
    match op
    case Malloc(h, size, raw) => GrowsWell(s.world, fix, h, size, raw)
    case Free(ptr) => SettlesWell(s.world, fix, ptr)
  }

  ghost predicate AllFill(fix: Repairs, s: State, ops: seq<Op>)
    decreases |ops|
  {
    ops != [] ==> Fills(fix, s, ops[0]) && AllFill(fix, Apply(fix, s, ops[0]), ops[1..])
  }

  /** No thread heap is too empty at any operation boundary of a run. */
  ghost predicate NeverTooEmpty(fix: Repairs, s: State, ops: seq<Op>)
    decreases |ops|
  {
    && NoneTooEmpty(s.world)
    && (ops != [] ==> NeverTooEmpty(fix, Apply(fix, s, ops[0]), ops[1..]))
  }

  lemma MallocFills(w: World, fix: Repairs, h: nat, size: nat, raw: Option<nat>)
    requires |w.inUse| == |w.alloced| && LegalMalloc(w, h, size, raw) && NoneTooEmpty(w)
    ensures NoneTooEmpty(HeapAlloc(w, fix, h, size, raw).0) <==> GrowsWell(w, fix, h, size, raw)
  {
    hide HeapAlloc, GrowsWell, NotTooEmpty, MapOk;
    MallocLengths(w, fix, h, size, raw);
    forall g | 0 < g < |w.inUse|
      ensures NotTooEmpty(HeapAlloc(w, fix, h, size, raw).0, g) <==> g != h || GrowsWell(w, fix, h, size, raw)
    {
      MallocKeepsFull(w, fix, h, size, raw, g);
    }
    assert NotTooEmpty(HeapAlloc(w, fix, h, size, raw).0, h) <==> GrowsWell(w, fix, h, size, raw);
  }

  lemma FreeFills(w: World, fix: Repairs, ptr: nat)
    requires WellFiled(w) && LiveAt(w, ptr) && NoneTooEmpty(w)
    ensures NoneTooEmpty(HeapFree(w, fix, ptr)) <==> SettlesWell(w, fix, ptr)
  {
    hide HeapFree, SettlesWell, NotTooEmpty, WellFiled;
    var h := w.OwnerOf(SuperblockOf(ptr));
    OwnerInRange(w, fix, ptr);
    FreeLengths(w, fix, ptr);
    forall g | 0 < g < |w.inUse|
      ensures NotTooEmpty(HeapFree(w, fix, ptr), g) <==> g != h || SettlesWell(w, fix, ptr)
    {
      FreeKeepsFull(w, fix, ptr, g);
    }
    assert h > 0 ==> (NotTooEmpty(HeapFree(w, fix, ptr), h) <==> SettlesWell(w, fix, ptr));
  }

  lemma OwnerInRange(w: World, fix: Repairs, ptr: nat)
    requires WellFiled(w) && LiveAt(w, ptr)
    ensures w.OwnerOf(SuperblockOf(ptr)) < |w.inUse|
    ensures w.OwnerOf(SuperblockOf(ptr)) == 0 ==> SettlesWell(w, fix, ptr)
  {
    assert SoundAt(w, SuperblockOf(ptr));
  }

  lemma StepFills(fix: Repairs, s: State, op: Op)
    requires Good(s) && Legal(s, op) && NoneTooEmpty(s.world)
    ensures NoneTooEmpty(Apply(fix, s, op).world) <==> Fills(fix, s, op)
  {
    hide HeapAlloc, HeapFree, NoneTooEmpty, GrowsWell, SettlesWell, LegalMalloc, LiveAt, Accounts;
    match op
    case Malloc(h, size, raw) => MallocFills(s.world, fix, h, size, raw);
    case Free(ptr) => FreeFills(s.world, fix, ptr);
  }

  /** The emptiness invariant holds throughout a run exactly when every call that adds a
      superblock to a heap, or takes used bytes off it, meets its condition. */
  lemma {:induction false} RunFills(fix: Repairs, s: State, ops: seq<Op>)
    requires Good(s) && LegalRun(fix, s, ops) && NeverAdopts(fix, s, ops) && NoneTooEmpty(s.world)
    ensures NeverTooEmpty(fix, s, ops) <==> AllFill(fix, s, ops)
    decreases |ops|
  {
    if ops != [] {
      var next := Apply(fix, s, ops[0]);
      StepGood(fix, s, ops[0]);
      StepFills(fix, s, ops[0]);
      if NoneTooEmpty(next.world) {
        RunFills(fix, next, ops[1..]);
      }
    }
  }

  /** The same from the start, for any heaps and any mix of size classes. */
  lemma EmptinessExactly(n: nat, fix: Repairs, ops: seq<Op>)
    requires LegalRun(fix, Start(n), ops)
    requires fix.resetAdopted || NeverAdopts(fix, Start(n), ops)
    ensures NeverTooEmpty(fix, Start(n), ops) <==> AllFill(fix, Start(n), ops)
  {
    StartGood(n);
    if fix.resetAdopted {
      ResetNeverAdopts(fix, Start(n), ops);
    }
    RunFills(fix, Start(n), ops);
  }

  lemma StepNotTooEmpty(fix: Repairs, s: State, op: Op, b: nat)
    requires Good(s) && Legal(s, op) && OneClass(s.world, b) && OneBin([op], b)
    requires Lost(s.world) == {} && NoneTooEmpty(s.world) && !fix.exactUsage
    ensures !Adopts(fix, s, op)
    ensures OneClass(Apply(fix, s, op).world, b) && NoneTooEmpty(Apply(fix, s, op).world)
  {
    var after := Apply(fix, s, op).world;
    match op
    case Malloc(h, size, raw) =>
      assert [op][0] == op;
      BinHoldsRequest(size);
      OneClassFilesRight(s.world, fix, h, b, raw);
      MallocOneClass(s.world, fix, h, size, raw);
      MallocUsage(s.world, fix, h, size, raw, h);
      forall g | 0 < g < |after.inUse|
        ensures NotTooEmpty(after, g)
      {
        MallocNotTooEmpty(s.world, fix, h, size, raw, g);
      }
    case Free(ptr) =>
      FreeOneClass(s.world, fix, ptr, b);
      FreeLengths(s.world, fix, ptr);
      forall g | 0 < g < |after.inUse|
        ensures NotTooEmpty(after, g)
      {
        FreeNotTooEmpty(s.world, fix, ptr, g);
      }
  }

  lemma {:induction false} RunNotTooEmpty(fix: Repairs, s: State, ops: seq<Op>, b: nat)
    requires Good(s) && LegalRun(fix, s, ops) && OneClass(s.world, b) && OneBin(ops, b)
    requires Lost(s.world) == {} && AllDropped(fix, s, ops) == {} && NoneTooEmpty(s.world) && !fix.exactUsage
    ensures NoneTooEmpty(Run(fix, s, ops).world)
    decreases |ops|
  {
    if ops == [] {
    } else {
      assert OneBin([ops[0]], b) && OneBin(ops[1..], b);
      StepNotTooEmpty(fix, s, ops[0], b);
      StepGood(fix, s, ops[0]);
      StepLost(fix, s, ops[0]);
      RunNotTooEmpty(fix, Apply(fix, s, ops[0]), ops[1..], b);
    }
  }

  /** The emptiness invariant, at every operation boundary of every run on any number of heaps
      that uses one size class and drops no superblock: always, once `next` is read first. */
  lemma EmptinessInvariant(n: nat, fix: Repairs, ops: seq<Op>, b: nat, g: nat)
    requires LegalRun(fix, Start(n), ops) && OneBin(ops, b) && !fix.exactUsage
    requires fix.nextFirst || AllDropped(fix, Start(n), ops) == {}
    requires 0 < g <= n
    ensures var w := Run(fix, Start(n), ops).world;
            && |w.inUse| == |w.alloced| == n + 1
            && (w.inUse[g] + FREE_SB_THRESH * SUPERBLOCK_SIZE >= w.alloced[g] || w.inUse[g] >= 3 * w.alloced[g] / 4)
  {
    var s := Start(n);
    StartGood(n);
    if fix.nextFirst {
      NextFirstDropsNone(fix, s, ops);
    }
    assert Lost(s.world) == {};
    RunNotTooEmpty(fix, s, ops, b);
    RunLengths(fix, s, ops);
    assert NotTooEmpty(Run(fix, s, ops).world, g);
  }

  lemma {:induction false} RunLengths(fix: Repairs, s: State, ops: seq<Op>)
    ensures |Run(fix, s, ops).world.inUse| == |s.world.inUse| && |Run(fix, s, ops).world.alloced| == |s.world.alloced|
    decreases |ops|
  {
    if ops == [] {
    } else {
      match ops[0] {
        case Malloc(h, size, raw) => MallocLengths(s.world, fix, h, size, raw);
        case Free(ptr) => FreeLengths(s.world, fix, ptr);
      }
      RunLengths(fix, Apply(fix, s, ops[0]), ops[1..]);
    }
  }

  lemma MallocLengths(w: World, fix: Repairs, h: nat, size: nat, raw: Option<nat>)
    ensures var after := HeapAlloc(w, fix, h, size, raw).0;
            |after.inUse| == |w.inUse| && |after.alloced| == |w.alloced|
  {
    var b := BinOf(size);
    var src := SourceFor(w, h, b, raw);
    var a := Chosen(w, h, b, src);
    var taken := TakeOut(w, fix, h, b, src);
    TakeOutKeeps(w, fix, h, b, src);
    PrepareLengths(taken, fix, h, ClassOf(b), src, a);
    ServeKeepsCounters(Prepare(taken, fix, h, ClassOf(b), src, a), h, b, a);
  }

  lemma PrepareLengths(w: World, fix: Repairs, h: nat, c: nat, src: Source, a: nat)
    ensures var after := Prepare(w, fix, h, c, src, a);
            |after.inUse| == |w.inUse| && |after.alloced| == |w.alloced|
  {
  }

  /** In every state that a run with both repairs reaches, a thread heap that is empty enough
      and has nothing to recycle has a superblock to transfer, and the search finds one in the
      emptiest class of that heap. */
  lemma TransferablePresent(n: nat, fix: Repairs, ops: seq<Op>, h: nat)
    requires fix.nextFirst && fix.resetAdopted && LegalRun(fix, Start(n), ops)
    requires 0 < h <= n
    ensures var w := Run(fix, Start(n), ops).world; var found := FindEmptiest(w, h);
            && |w.inUse| == |w.alloced| == n + 1
            && (EmptyEnough(w.inUse[h], w.alloced[h]) && w.List(Recycled(h)) == [] ==>
                  && found.Some?
                  && 0 < found.value.1 < NUM_EMPTINESS_CLASSES
                  && w.List(InBin(h, found.value.0, found.value.1)) != []
                  && forall a :: a in w.sbs && w.OwnerOf(a) == h ==> w.SbAt(a).Eidx() <= found.value.1)
  {
    StartGood(n);
    ResetNeverAdopts(fix, Start(n), ops);
    RunGood(fix, Start(n), ops);
    LostIsDropped(fix, Start(n), ops);
    NextFirstDropsNone(fix, Start(n), ops);
    assert Lost(Start(n).world) == {};
    var w := Run(fix, Start(n), ops).world;
    RunLengths(fix, Start(n), ops);
    if EmptyEnough(w.inUse[h], w.alloced[h]) && w.List(Recycled(h)) == [] {
      TransferableExists(w, h);
    }
  }

  /** At the point of a free where a superblock to transfer is searched, after any such run,
      there is one. */
  lemma FreeFindsTransfer(n: nat, fix: Repairs, ops: seq<Op>, ptr: nat, bytes: nat)
    requires LegalRun(fix, Start(n), ops)
    requires fix.resetAdopted || NeverAdopts(fix, Start(n), ops)
    ensures var s := Run(fix, Start(n), ops); var h := s.world.OwnerOf(SuperblockOf(ptr));
            ptr in s.held ==> TransferFrom(BinFree(s.world, ptr).AddUsage(h, 0 - bytes), h).Some?
  {
    hide BinFree, TransferFrom, WellFiled, Accounts, LiveAt, Run, World.AddUsage;
    var s := Run(fix, Start(n), ops);
    StartGood(n);
    if fix.resetAdopted {
      ResetNeverAdopts(fix, Start(n), ops);
    }
    RunGood(fix, Start(n), ops);
    if ptr in s.held {
      var h := s.world.OwnerOf(SuperblockOf(ptr));
      BinFreeKeepsFiling(s.world, ptr);
      UsageKeepsTransfer(BinFree(s.world, ptr), h, h, 0 - bytes);
    }
  }
}
