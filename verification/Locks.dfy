// The locking of heap_alloc and heap_free (src/heap.c), step by step, for any number of
// threads over any number of superblocks and heaps: no deadlock, and every operation that
// keeps being scheduled finishes.
module Locks {
  datatype Lock = SbLock(sb: nat) | HeapLock(heap: nat) | GlobalLock

  /** Locks are taken in this order. */
  function Rank(l: Lock): nat {
    match l
    case SbLock(_) => 0
    case HeapLock(_) => 1
    case GlobalLock => 2
  }

  /** The lock of heap `h`; heap 0 is the global heap. */
  function LockOf(h: nat): Lock {
    if h == 0 then GlobalLock else HeapLock(h)
  }

  /** Where a thread is in its operation. */
  datatype Thread =
    | Idle
    | AllocStart(h: nat)             // about to lock its heap
    | AllocInHeap(h: nat)
    | AllocWantGlobal(h: nat)        // get_sb_from_global
    | AllocInGlobal(h: nat)
    | AllocLeaving(h: nat)
    | FreeStart(sb: nat)             // about to lock the superblock
    | FreeInSb(sb: nat)
    | FreeWantHeap(sb: nat, h: nat)  // has read the owner
    | FreeInHeap(sb: nat, h: nat)
    | FreeWantGlobal(sb: nat, h: nat) // transfer_sb_to_global
    | FreeInGlobal(sb: nat, h: nat)
    | FreeLeavingHeap(sb: nat, h: nat)
    | FreeLeavingSb(sb: nat)

  datatype Action = Acquire(lock: Lock) | Release(lock: Lock) | Local

  /** One step of one thread. Which owner a free reads, whether malloc turns to the global
      heap, and whether free transfers a superblock are left open; a transfer happens only
      from a thread heap. */
  ghost predicate ThreadStep(t: Thread, act: Action, after: Thread) {
    match t
    case Idle => act.Local? && ((after.AllocStart? && after.h > 0) || after.FreeStart?)
    case AllocStart(h) => act == Acquire(LockOf(h)) && after == AllocInHeap(h)
    case AllocInHeap(h) =>
      || (act.Local? && after == AllocWantGlobal(h))
      || (act == Release(LockOf(h)) && after == Idle)
    case AllocWantGlobal(h) => act == Acquire(GlobalLock) && after == AllocInGlobal(h)
    case AllocInGlobal(h) => act == Release(GlobalLock) && after == AllocLeaving(h)
    case AllocLeaving(h) => act == Release(LockOf(h)) && after == Idle
    case FreeStart(sb) => act == Acquire(SbLock(sb)) && after == FreeInSb(sb)
    case FreeInSb(sb) => act.Local? && after.FreeWantHeap? && after.sb == sb
    case FreeWantHeap(sb, h) => act == Acquire(LockOf(h)) && after == FreeInHeap(sb, h)
    case FreeInHeap(sb, h) =>
      || (h > 0 && act.Local? && after == FreeWantGlobal(sb, h))
      || (act == Release(LockOf(h)) && after == FreeLeavingSb(sb))
    case FreeWantGlobal(sb, h) => act == Acquire(GlobalLock) && after == FreeInGlobal(sb, h)
    case FreeInGlobal(sb, h) => act == Release(GlobalLock) && after == FreeLeavingHeap(sb, h)
    case FreeLeavingHeap(sb, h) => act == Release(LockOf(h)) && after == FreeLeavingSb(sb)
    case FreeLeavingSb(sb) => act == Release(SbLock(sb)) && after == Idle
  }

  /** Threads, and which thread holds each locked mutex. */
  datatype System = System(threads: seq<Thread>, holder: map<Lock, nat>)

  function StartSystem(n: nat): System {
    System(seq(n, i => Idle), map[])
  }

  /** What a mutex allows: only a free one is acquired. */
  ghost predicate Allowed(s: System, act: Action) {
    act.Acquire? ==> act.lock !in s.holder
  }

  function Effect(holder: map<Lock, nat>, act: Action, i: nat): map<Lock, nat> {
    match act
    case Acquire(l) => holder[l := i]
    case Release(l) => holder - {l}
    case Local => holder
  }

  ghost predicate Step(s: System, i: nat, act: Action, t: Thread, after: System) {
    && i < |s.threads|
    && ThreadStep(s.threads[i], act, t)
    && Allowed(s, act)
    && after == System(s.threads[i := t], Effect(s.holder, act, i))
  }

  ghost predicate CanStep(s: System, i: nat) {
    exists act, t, after :: Step(s, i, act, t, after)
  }

  /** Some thread takes a step. */
  ghost predicate Succeeds(s: System, after: System) {
    exists i: nat, act, t :: Step(s, i, act, t, after)
  }

  /** The states of a run, from one where all threads are idle and no mutex is locked. */
  ghost predicate IsRun(states: seq<System>) {
    && |states| > 0
    && states[0] == StartSystem(|states[0].threads|)
    && forall k :: 0 <= k < |states| - 1 ==> Succeeds(states[k], states[k + 1])
  }

  // ---------- the locks of one operation ----------

  /** `acts` takes a thread at `t` through the rest of its operation. */
  ghost predicate Performs(t: Thread, acts: seq<Action>)
    decreases |acts|
  {
    if t.Idle? then acts == []
    else acts != [] && exists after :: ThreadStep(t, acts[0], after) && Performs(after, acts[1..])
  }

  lemma SplitFirst(acts: seq<Action>, act: Action, rest: seq<Action>)
    ensures acts == [act] + rest <==> acts != [] && acts[0] == act && acts[1..] == rest
  {
    if acts != [] {
      assert acts == [acts[0]] + acts[1..];
      assert ([act] + rest)[1..] == rest;
    }
  }

  /** The step from `t` is fixed. */
  lemma OneWay(t: Thread, act: Action, next: Thread, acts: seq<Action>, rest: seq<Action>)
    requires !t.Idle? && forall a, n :: ThreadStep(t, a, n) <==> a == act && n == next
    requires acts != [] ==> (Performs(next, acts[1..]) <==> acts[1..] == rest)
    ensures Performs(t, acts) <==> acts == [act] + rest
  {
    hide ThreadStep;
    SplitFirst(acts, act, rest);
    assert ThreadStep(t, act, next);
  }

  /** There are two steps from `t`. */
  lemma TwoWays(t: Thread, act: Action, next: Thread, rest: seq<Action>, act': Action, next': Thread, rest': seq<Action>, acts: seq<Action>)
    requires !t.Idle? && forall a, n :: ThreadStep(t, a, n) <==> (a == act && n == next) || (a == act' && n == next')
    requires acts != [] ==> (Performs(next, acts[1..]) <==> acts[1..] == rest) && (Performs(next', acts[1..]) <==> acts[1..] == rest')
    ensures Performs(t, acts) <==> acts == [act] + rest || acts == [act'] + rest'
  {
    hide ThreadStep;
    SplitFirst(acts, act, rest);
    SplitFirst(acts, act', rest');
    assert ThreadStep(t, act, next) && ThreadStep(t, act', next');
  }

  lemma IdlePerforms(acts: seq<Action>)
    ensures Performs(Idle, acts) <==> acts == []
  {
  }

  lemma AllocLeavingActs(h: nat, acts: seq<Action>)
    ensures Performs(AllocLeaving(h), acts) <==> acts == [Release(LockOf(h))]
  {
    if acts != [] {
      IdlePerforms(acts[1..]);
    }
    OneWay(AllocLeaving(h), Release(LockOf(h)), Idle, acts, []);
  }

  lemma AllocInGlobalActs(h: nat, acts: seq<Action>)
    ensures Performs(AllocInGlobal(h), acts) <==> acts == [Release(GlobalLock), Release(LockOf(h))]
  {
    if acts != [] {
      AllocLeavingActs(h, acts[1..]);
    }
    OneWay(AllocInGlobal(h), Release(GlobalLock), AllocLeaving(h), acts, [Release(LockOf(h))]);
  }

  lemma AllocWantGlobalActs(h: nat, acts: seq<Action>)
    ensures Performs(AllocWantGlobal(h), acts) <==> acts == [Acquire(GlobalLock), Release(GlobalLock), Release(LockOf(h))]
  {
    if acts != [] {
      AllocInGlobalActs(h, acts[1..]);
    }
    OneWay(AllocWantGlobal(h), Acquire(GlobalLock), AllocInGlobal(h), acts, [Release(GlobalLock), Release(LockOf(h))]);
  }

  /** A malloc of heap `h` takes and releases the heap's lock, and inside may take and release
      the global one: exactly these two ways. */
  lemma MallocLocks(h: nat, acts: seq<Action>)
    requires h > 0
    ensures Performs(AllocStart(h), acts) <==>
            || acts == [Acquire(HeapLock(h)), Release(HeapLock(h))]
            || acts == [Acquire(HeapLock(h)), Local, Acquire(GlobalLock), Release(GlobalLock), Release(HeapLock(h))]
  {
    var l := HeapLock(h);
    var shared := [Acquire(GlobalLock), Release(GlobalLock), Release(l)];
    if acts != [] {
      var inside := acts[1..];
      if inside != [] {
        IdlePerforms(inside[1..]);
        AllocWantGlobalActs(h, inside[1..]);
      }
      TwoWays(AllocInHeap(h), Local, AllocWantGlobal(h), shared, Release(l), Idle, [], inside);
      assert acts == [acts[0]] + inside;
      assert Performs(AllocStart(h), acts) <==> acts[0] == Acquire(l) && Performs(AllocInHeap(h), inside);
    }
  }

  lemma FreeLeavingSbActs(sb: nat, acts: seq<Action>)
    ensures Performs(FreeLeavingSb(sb), acts) <==> acts == [Release(SbLock(sb))]
  {
    if acts != [] {
      IdlePerforms(acts[1..]);
    }
    OneWay(FreeLeavingSb(sb), Release(SbLock(sb)), Idle, acts, []);
  }

  lemma FreeLeavingHeapActs(sb: nat, h: nat, acts: seq<Action>)
    ensures Performs(FreeLeavingHeap(sb, h), acts) <==> acts == [Release(LockOf(h)), Release(SbLock(sb))]
  {
    if acts != [] {
      FreeLeavingSbActs(sb, acts[1..]);
    }
    OneWay(FreeLeavingHeap(sb, h), Release(LockOf(h)), FreeLeavingSb(sb), acts, [Release(SbLock(sb))]);
  }

  lemma FreeInGlobalActs(sb: nat, h: nat, acts: seq<Action>)
    ensures Performs(FreeInGlobal(sb, h), acts) <==> acts == [Release(GlobalLock), Release(LockOf(h)), Release(SbLock(sb))]
  {
    if acts != [] {
      FreeLeavingHeapActs(sb, h, acts[1..]);
    }
    OneWay(FreeInGlobal(sb, h), Release(GlobalLock), FreeLeavingHeap(sb, h), acts, [Release(LockOf(h)), Release(SbLock(sb))]);
  }

  lemma FreeWantGlobalActs(sb: nat, h: nat, acts: seq<Action>)
    ensures Performs(FreeWantGlobal(sb, h), acts) <==>
            acts == [Acquire(GlobalLock), Release(GlobalLock), Release(LockOf(h)), Release(SbLock(sb))]
  {
    if acts != [] {
      FreeInGlobalActs(sb, h, acts[1..]);
    }
    OneWay(FreeWantGlobal(sb, h), Acquire(GlobalLock), FreeInGlobal(sb, h), acts, [Release(GlobalLock), Release(LockOf(h)), Release(SbLock(sb))]);
  }

  /** From inside the owner's lock: release it and the superblock's, or, in a thread heap, turn
      to the global heap before. */
  lemma FreeInHeapActs(sb: nat, h: nat, acts: seq<Action>)
    ensures Performs(FreeInHeap(sb, h), acts) <==>
            || acts == [Release(LockOf(h)), Release(SbLock(sb))]
            || (h > 0 && acts == [Local, Acquire(GlobalLock), Release(GlobalLock), Release(LockOf(h)), Release(SbLock(sb))])
  {
    var l, s := LockOf(h), SbLock(sb);
    if acts != [] {
      FreeLeavingSbActs(sb, acts[1..]);
      FreeWantGlobalActs(sb, h, acts[1..]);
    }
    if h > 0 {
      TwoWays(FreeInHeap(sb, h), Local, FreeWantGlobal(sb, h), [Acquire(GlobalLock), Release(GlobalLock), Release(l), Release(s)],
              Release(l), FreeLeavingSb(sb), [Release(s)], acts);
    } else {
      OneWay(FreeInHeap(sb, h), Release(l), FreeLeavingSb(sb), acts, [Release(s)]);
    }
  }

  /** The ways to free a block of superblock `sb` when its owner is read as heap `h`. */
  predicate FreeWays(sb: nat, h: nat, acts: seq<Action>) {
    var l, s := LockOf(h), SbLock(sb);
    || acts == [Acquire(s), Local, Acquire(l), Release(l), Release(s)]
    || (h > 0 && acts == [Acquire(s), Local, Acquire(l), Local, Acquire(GlobalLock), Release(GlobalLock), Release(l), Release(s)])
  }

  lemma FreeOwnerActs(sb: nat, h: nat, acts: seq<Action>)
    ensures Performs(FreeWantHeap(sb, h), acts) <==> FreeWays(sb, h, [Acquire(SbLock(sb)), Local] + acts)
  {
    var l, s := LockOf(h), SbLock(sb);
    var short, long := [Release(l), Release(s)], [Local, Acquire(GlobalLock), Release(GlobalLock), Release(l), Release(s)];
    SplitFirst(acts, Acquire(l), short);
    SplitFirst(acts, Acquire(l), long);
    if acts != [] {
      FreeInHeapActs(sb, h, acts[1..]);
      assert Performs(FreeWantHeap(sb, h), acts) <==> acts[0] == Acquire(l) && Performs(FreeInHeap(sb, h), acts[1..]);
    }
    assert FreeWays(sb, h, [Acquire(s), Local] + acts) <==> acts == [Acquire(l)] + short || (h > 0 && acts == [Acquire(l)] + long) by {
      var all := [Acquire(s), Local] + acts;
      assert all[2..] == acts;
      assert ([Acquire(s), Local] + ([Acquire(l)] + short)) == [Acquire(s), Local, Acquire(l), Release(l), Release(s)];
      assert ([Acquire(s), Local] + ([Acquire(l)] + long)) == [Acquire(s), Local, Acquire(l), Local, Acquire(GlobalLock), Release(GlobalLock), Release(l), Release(s)];
    }
  }

  /** A free in superblock `sb` takes the superblock's lock, then that of the owner it reads, and
      inside, if the owner is a thread heap, may take the global one: exactly these ways. */
  lemma FreeLocks(sb: nat, acts: seq<Action>)
    ensures Performs(FreeStart(sb), acts) <==> exists h: nat :: FreeWays(sb, h, acts)
  {
    if Performs(FreeStart(sb), acts) {
      var inside := acts[1..];
      assert acts[0] == Acquire(SbLock(sb)) && Performs(FreeInSb(sb), inside);
      var after :| ThreadStep(FreeInSb(sb), inside[0], after) && Performs(after, inside[1..]);
      FreeOwnerActs(sb, after.h, inside[1..]);
      assert acts == [Acquire(SbLock(sb)), Local] + inside[1..];
    }
    if exists h: nat :: FreeWays(sb, h, acts) {
      var h: nat :| FreeWays(sb, h, acts);
      var inside := acts[1..];
      FreeOwnerActs(sb, h, inside[1..]);
      assert acts == [Acquire(SbLock(sb)), Local] + inside[1..];
      assert ThreadStep(FreeInSb(sb), Local, FreeWantHeap(sb, h));
      assert Performs(FreeInSb(sb), inside);
      assert ThreadStep(FreeStart(sb), Acquire(SbLock(sb)), FreeInSb(sb));
    }
  }

  // ---------- what a thread holds ----------

  /** The locks held at each point of the code. */
  function Holds(t: Thread): set<Lock> {
    match t
    case Idle => {}
    case AllocStart(_) => {}
    case AllocInHeap(h) => {LockOf(h)}
    case AllocWantGlobal(h) => {LockOf(h)}
    case AllocInGlobal(h) => {LockOf(h), GlobalLock}
    case AllocLeaving(h) => {LockOf(h)}
    case FreeStart(_) => {}
    case FreeInSb(sb) => {SbLock(sb)}
    case FreeWantHeap(sb, _) => {SbLock(sb)}
    case FreeInHeap(sb, h) => {SbLock(sb), LockOf(h)}
    case FreeWantGlobal(sb, h) => {SbLock(sb), LockOf(h)}
    case FreeInGlobal(sb, h) => {SbLock(sb), LockOf(h), GlobalLock}
    case FreeLeavingHeap(sb, h) => {SbLock(sb), LockOf(h)}
    case FreeLeavingSb(sb) => {SbLock(sb)}
  }

  /** Only thread heaps are left for the global one. */
  predicate WellPlaced(t: Thread) {
    (t.AllocStart? || t.AllocInHeap? || t.AllocWantGlobal? || t.AllocInGlobal? || t.AllocLeaving?
     || t.FreeWantGlobal? || t.FreeInGlobal? || t.FreeLeavingHeap?) ==> t.h > 0
  }

  /** A mutex is locked by a thread exactly when the thread is at a point that holds it. */
  ghost predicate Consistent(s: System) {
    && (forall i :: 0 <= i < |s.threads| ==> WellPlaced(s.threads[i]))
    && (forall l :: l in s.holder ==> s.holder[l] < |s.threads|)
    && (forall i, l :: 0 <= i < |s.threads| ==> (l in Holds(s.threads[i]) <==> l in s.holder && s.holder[l] == i))
  }

  /** Every lock is acquired above everything the thread already holds. */
  lemma AcquiresAscend(t: Thread, l: Lock, after: Thread, held: Lock)
    requires WellPlaced(t) && ThreadStep(t, Acquire(l), after) && held in Holds(t)
    ensures Rank(held) < Rank(l)
  {
  }

  lemma ThreadStepHolds(t: Thread, act: Action, after: Thread)
    requires WellPlaced(t) && ThreadStep(t, act, after)
    ensures WellPlaced(after)
    ensures match act
            case Acquire(l) => l !in Holds(t) && Holds(after) == Holds(t) + {l}
            case Release(l) => l in Holds(t) && Holds(after) == Holds(t) - {l}
            case Local => Holds(after) == Holds(t)
  {
  }

  lemma StepConsistent(s: System, i: nat, act: Action, t: Thread, after: System)
    requires Consistent(s) && Step(s, i, act, t, after)
    ensures Consistent(after)
  {
    ThreadStepHolds(s.threads[i], act, t);
    forall j, l | 0 <= j < |after.threads|
      ensures l in Holds(after.threads[j]) <==> l in after.holder && after.holder[l] == j
    {
      assert l in Holds(s.threads[j]) <==> l in s.holder && s.holder[l] == j;
    }
  }

  lemma {:induction false} RunConsistent(states: seq<System>, k: nat)
    requires IsRun(states) && k < |states|
    ensures Consistent(states[k])
  {
    if k == 0 {
    } else {
      RunConsistent(states, k - 1);
      assert Succeeds(states[k - 1], states[k - 1 + 1]);
      var i: nat, act, t :| Step(states[k - 1], i, act, t, states[k]);
      StepConsistent(states[k - 1], i, act, t, states[k]);
    }
  }

  /** At any point of any run at most one thread is at a point that holds a given lock. */
  lemma MutualExclusion(states: seq<System>, k: nat, i: nat, j: nat, l: Lock)
    requires IsRun(states) && k < |states|
    requires i < |states[k].threads| && j < |states[k].threads|
    requires l in Holds(states[k].threads[i]) && l in Holds(states[k].threads[j])
    ensures i == j
  {
    RunConsistent(states, k);
    OneHolder(states[k], i, j, l);
  }

  lemma OneHolder(s: System, i: nat, j: nat, l: Lock)
    requires Consistent(s) && i < |s.threads| && j < |s.threads|
    requires l in Holds(s.threads[i]) && l in Holds(s.threads[j])
    ensures i == j
  {
    assert s.holder[l] == i;
  }

  // ---------- every point is reached ----------

  /** A point from which `t` is one step away; meant for threads in an operation. */
  function Before(t: Thread): Thread {
    match t
    case Idle => Idle
    case AllocStart(_) => Idle
    case AllocInHeap(h) => AllocStart(h)
    case AllocWantGlobal(h) => AllocInHeap(h)
    case AllocInGlobal(h) => AllocWantGlobal(h)
    case AllocLeaving(h) => AllocInGlobal(h)
    case FreeStart(_) => Idle
    case FreeInSb(sb) => FreeStart(sb)
    case FreeWantHeap(sb, _) => FreeInSb(sb)
    case FreeInHeap(sb, h) => FreeWantHeap(sb, h)
    case FreeWantGlobal(sb, h) => FreeInHeap(sb, h)
    case FreeInGlobal(sb, h) => FreeWantGlobal(sb, h)
    case FreeLeavingHeap(sb, h) => FreeInGlobal(sb, h)
    case FreeLeavingSb(sb) => FreeInHeap(sb, 1)
  }

  function StepsBefore(t: Thread): nat {
    match t
    case Idle => 0
    case AllocStart(_) => 1
    case AllocInHeap(_) => 2
    case AllocWantGlobal(_) => 3
    case AllocInGlobal(_) => 4
    case AllocLeaving(_) => 5
    case FreeStart(_) => 1
    case FreeInSb(_) => 2
    case FreeWantHeap(_, _) => 3
    case FreeInHeap(_, _) => 4
    case FreeWantGlobal(_, _) => 5
    case FreeInGlobal(_, _) => 6
    case FreeLeavingHeap(_, _) => 7
    case FreeLeavingSb(_) => 5
  }

  function ActBefore(t: Thread): Action {
    match t
    case AllocInHeap(h) => Acquire(LockOf(h))
    case AllocInGlobal(_) => Acquire(GlobalLock)
    case AllocLeaving(_) => Release(GlobalLock)
    case FreeInSb(sb) => Acquire(SbLock(sb))
    case FreeInHeap(_, h) => Acquire(LockOf(h))
    case FreeInGlobal(_, _) => Acquire(GlobalLock)
    case FreeLeavingHeap(_, _) => Release(GlobalLock)
    case FreeLeavingSb(_) => Release(HeapLock(1))
    case _ => Local
  }

  lemma StepFromBefore(t: Thread)
    requires WellPlaced(t) && !t.Idle?
    ensures ThreadStep(Before(t), ActBefore(t), t) && WellPlaced(Before(t)) && StepsBefore(Before(t)) < StepsBefore(t)
  {
  }

  /** `states` is a run of a single thread that ends at `t`. */
  ghost predicate RunTo(states: seq<System>, t: Thread) {
    IsRun(states) && states[|states| - 1].threads == [t]
  }

  lemma {:induction false} WayTo(t: Thread) returns (states: seq<System>)
    requires WellPlaced(t)
    ensures RunTo(states, t)
    decreases StepsBefore(t)
  {
    if t.Idle? {
      states := [StartSystem(1)];
      assert states[0].threads == [Idle];
    } else {
      StepFromBefore(t);
      states := WayTo(Before(t));
      states := OneMore(states, Before(t), ActBefore(t), t);
    }
  }

  lemma OneMore(states: seq<System>, t: Thread, act: Action, next: Thread) returns (longer: seq<System>)
    requires RunTo(states, t) && ThreadStep(t, act, next)
    ensures RunTo(longer, next)
  {
    var last := states[|states| - 1];
    RunConsistent(states, |states| - 1);
    if act.Acquire? && act.lock in last.holder {
      assert act.lock in Holds(last.threads[0]);
      AcquiresAscend(t, act.lock, next, act.lock);
      assert false;
    }
    var after := System(last.threads[0 := next], Effect(last.holder, act, 0));
    assert Step(last, 0, act, next, after);
    longer := states + [after];
    forall k | 0 <= k < |longer| - 1
      ensures Succeeds(longer[k], longer[k + 1])
    {
      if k < |states| - 1 {
        assert Succeeds(states[k], states[k + 1]);
      }
    }
  }

  /** The points that a run of one thread reaches are exactly those of the two skeletons, with the
      turn to the global heap from thread heaps only. */
  lemma PointsReached(t: Thread)
    ensures (exists states: seq<System> :: RunTo(states, t)) <==> WellPlaced(t)
  {
    if WellPlaced(t) {
      var states := WayTo(t);
    }
    if exists states: seq<System> :: RunTo(states, t) {
      var states: seq<System> :| RunTo(states, t);
      RunConsistent(states, |states| - 1);
      assert states[|states| - 1].threads[0] == t;
    }
  }

  // ---------- progress ----------

  /** A step an unfinished thread can take next; it takes the shorter way where there are two. */
  function NextAction(t: Thread): Action {
    match t
    case Idle => Local
    case AllocStart(h) => Acquire(LockOf(h))
    case AllocInHeap(h) => Release(LockOf(h))
    case AllocWantGlobal(_) => Acquire(GlobalLock)
    case AllocInGlobal(_) => Release(GlobalLock)
    case AllocLeaving(h) => Release(LockOf(h))
    case FreeStart(sb) => Acquire(SbLock(sb))
    case FreeInSb(_) => Local
    case FreeWantHeap(_, h) => Acquire(LockOf(h))
    case FreeInHeap(_, h) => Release(LockOf(h))
    case FreeWantGlobal(_, _) => Acquire(GlobalLock)
    case FreeInGlobal(_, _) => Release(GlobalLock)
    case FreeLeavingHeap(_, h) => Release(LockOf(h))
    case FreeLeavingSb(sb) => Release(SbLock(sb))
  }

  function NextPoint(t: Thread): Thread {
    match t
    case Idle => FreeStart(0)
    case AllocStart(h) => AllocInHeap(h)
    case AllocInHeap(_) => Idle
    case AllocWantGlobal(h) => AllocInGlobal(h)
    case AllocInGlobal(h) => AllocLeaving(h)
    case AllocLeaving(_) => Idle
    case FreeStart(sb) => FreeInSb(sb)
    case FreeInSb(sb) => FreeWantHeap(sb, 0)
    case FreeWantHeap(sb, h) => FreeInHeap(sb, h)
    case FreeInHeap(sb, _) => FreeLeavingSb(sb)
    case FreeWantGlobal(sb, h) => FreeInGlobal(sb, h)
    case FreeInGlobal(sb, h) => FreeLeavingHeap(sb, h)
    case FreeLeavingHeap(sb, _) => FreeLeavingSb(sb)
    case FreeLeavingSb(_) => Idle
  }

  /** Follows the holders of locks upwards from a thread until one can step: the rank of the
      lock waited for grows each time, so three threads at most are visited. */
  lemma {:induction false} Unblocked(s: System, i: nat) returns (j: nat)
    requires Consistent(s) && i < |s.threads| && !s.threads[i].Idle?
    ensures j < |s.threads| && !s.threads[j].Idle? && CanStep(s, j)
    decreases if NextAction(s.threads[i]).Acquire? then 3 - Rank(NextAction(s.threads[i]).lock) else 0
  {
    var t := s.threads[i];
    var act := NextAction(t);
    if act.Acquire? && act.lock in s.holder {
      var k := s.holder[act.lock];
      assert act.lock in Holds(s.threads[k]);
      var above := NextAction(s.threads[k]);
      if above.Acquire? {
        AcquiresAscend(s.threads[k], above.lock, NextPoint(s.threads[k]), act.lock);
      }
      if above.Acquire? && above.lock in s.holder {
        j := Unblocked(s, k);
      } else {
        j := k;
        StepsAhead(s, k);
      }
    } else {
      j := i;
      StepsAhead(s, i);
    }
  }

  lemma StepsAhead(s: System, i: nat)
    requires i < |s.threads|
    requires NextAction(s.threads[i]).Acquire? ==> NextAction(s.threads[i]).lock !in s.holder
    ensures CanStep(s, i)
  {
    var act, t := NextAction(s.threads[i]), NextPoint(s.threads[i]);
    assert ThreadStep(s.threads[i], act, t);
    assert Step(s, i, act, t, System(s.threads[i := t], Effect(s.holder, act, i)));
  }

  /** Deadlock freedom: in every state of every run in which some operation is unfinished,
      a thread with an unfinished operation can step. */
  lemma DeadlockFree(states: seq<System>, k: nat, i: nat)
    requires IsRun(states) && k < |states|
    requires i < |states[k].threads| && !states[k].threads[i].Idle?
    ensures exists j :: 0 <= j < |states[k].threads| && !states[k].threads[j].Idle? && CanStep(states[k], j)
  {
    RunConsistent(states, k);
    var j := Unblocked(states[k], i);
  }

  // ---------- every operation finishes ----------

  /** An upper bound on the steps a thread still needs. */
  function Remaining(t: Thread): nat {
    match t
    case Idle => 0
    case AllocStart(_) => 5
    case AllocInHeap(_) => 4
    case AllocWantGlobal(_) => 3
    case AllocInGlobal(_) => 2
    case AllocLeaving(_) => 1
    case FreeStart(_) => 8
    case FreeInSb(_) => 7
    case FreeWantHeap(_, _) => 6
    case FreeInHeap(_, _) => 5
    case FreeWantGlobal(_, _) => 4
    case FreeInGlobal(_, _) => 3
    case FreeLeavingHeap(_, _) => 2
    case FreeLeavingSb(_) => 1
  }

  function Work(threads: seq<Thread>): nat {
    if threads == [] then 0 else Remaining(threads[0]) + Work(threads[1..])
  }

  lemma {:induction false} WorkAfter(threads: seq<Thread>, i: nat, t: Thread)
    requires i < |threads|
    ensures Work(threads[i := t]) == Work(threads) - Remaining(threads[i]) + Remaining(t)
  {
    if i == 0 {
      assert threads[0 := t][1..] == threads[1..];
    } else {
      WorkAfter(threads[1..], i - 1, t);
      assert threads[i := t][1..] == threads[1..][i - 1 := t];
    }
  }

  /** Every step of an unfinished operation, whichever way it goes, lowers the work left. */
  lemma StepLowersWork(s: System, i: nat, act: Action, t: Thread, after: System)
    requires Step(s, i, act, t, after) && !s.threads[i].Idle?
    ensures Work(after.threads) < Work(s.threads)
  {
    WorkAfter(s.threads, i, t);
  }

  lemma {:induction false} NoWorkMeansIdle(threads: seq<Thread>, i: nat)
    requires Work(threads) == 0 && i < |threads|
    ensures threads[i].Idle?
  {
    if i == 0 {
    } else {
      NoWorkMeansIdle(threads[1..], i - 1);
    }
  }

  /** A thread with an unfinished operation takes a step. */
  ghost predicate Continues(s: System, after: System) {
    exists i: nat, act, t :: Step(s, i, act, t, after) && !s.threads[i].Idle?
  }

  /** The states of a continuation in which no operation is begun. */
  ghost predicate Finishing(states: seq<System>) {
    && |states| > 0
    && forall k :: 0 <= k < |states| - 1 ==> Continues(states[k], states[k + 1])
  }

  /** However threads are scheduled, unfinished operations take no more steps than the work
      left; with deadlock freedom, they all finish. */
  lemma {:induction false} FinishingIsBounded(states: seq<System>)
    requires Finishing(states)
    ensures |states| - 1 <= Work(states[0].threads)
    decreases |states|
  {
    if |states| > 1 {
      assert Continues(states[0], states[0 + 1]);
      var i: nat, act, t :| Step(states[0], i, act, t, states[1]) && !states[0].threads[i].Idle?;
      StepLowersWork(states[0], i, act, t, states[1]);
      var rest := states[1..];
      forall k | 0 <= k < |rest| - 1
        ensures Continues(rest[k], rest[k + 1])
      {
        assert Continues(states[k + 1], states[k + 1 + 1]);
      }
      FinishingIsBounded(rest);
    }
  }

  /** A finishing continuation that cannot be extended ends with every thread idle. */
  lemma StuckMeansDone(s: System, i: nat)
    requires Consistent(s) && i < |s.threads|
    requires forall j :: 0 <= j < |s.threads| && !s.threads[j].Idle? ==> !CanStep(s, j)
    ensures s.threads[i].Idle?
  {
    if !s.threads[i].Idle? {
      var j := Unblocked(s, i);
    }
  }
}
