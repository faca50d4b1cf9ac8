// The bins of one size class (src/binmanager.c): per emptiness class a circular doubly
// linked list that runs through the headers of the superblocks, and a cached count of the
// superblocks that are not full.
module BinManagers {
  import opened Layout
  import opened SuperblockModel
  import opened Superblocks

  /** `s` without its first occurrence of `x`. */
  function Without<T(==)>(s: seq<T>, x: T): seq<T> {
    if s == [] then []
    else if s[0] == x then s[1..]
    else [s[0]] + Without(s[1..], x)
  }

  lemma {:induction false} WithoutAt<T>(s: seq<T>, k: nat)
    requires k < |s| && forall i :: 0 <= i < k ==> s[i] != s[k]
    ensures Without(s, s[k]) == s[..k] + s[k + 1..]
  {
    if k == 0 {
    } else {
      var rest := s[1..];
      assert rest[k - 1] == s[k];
      WithoutAt(rest, k - 1);
      assert s[..k] == [s[0]] + rest[..k - 1];
      assert s[k + 1..] == rest[k..];
    }
  }

  /** The links of `s` form a ring with first element `head`. */
  ghost predicate Ring(head: Superblock?, s: seq<Superblock>)
    reads (set x | x in s)`prev, (set x | x in s)`next
  {
    && NoDup(s)
    && (head == null <==> s == [])
    && (s != [] ==> head == s[0])
    && (forall i {:trigger s[i].next} :: 0 <= i < |s| ==> s[i].next == s[Succ(s, i)])
    && (forall i {:trigger s[i].prev} :: 0 <= i < |s| ==> s[i].prev == s[Pred(s, i)])
  }

  function Succ<T>(s: seq<T>, i: nat): (j: nat)
    requires i < |s|
    ensures j < |s|
  {
    if i + 1 < |s| then i + 1 else 0
  }

  function Pred<T>(s: seq<T>, i: nat): (j: nat)
    requires i < |s|
    ensures j < |s|
  {
    if i == 0 then |s| - 1 else i - 1
  }

  /** The superblock `n` steps along the `next` links from `x`. */
  ghost function Walk(s: seq<Superblock>, x: Superblock?, n: nat): Superblock?
    reads (set y | y in s)`next
  {
    if n == 0 then x else if x in s then Walk(s, x.next, n - 1) else null
  }

  /** In a ring `prev` undoes `next` and `next` undoes `prev`. */
  lemma RingInverse(head: Superblock?, s: seq<Superblock>, i: nat)
    requires Ring(head, s) && i < |s|
    ensures s[i].next in s && s[i].next.prev == s[i]
    ensures s[i].prev in s && s[i].prev.next == s[i]
  {
    var j, k := Succ(s, i), Pred(s, i);
    assert s[i].next == s[j] && s[i].prev == s[k];
    assert s[j].prev == s[Pred(s, j)] && s[k].next == s[Succ(s, k)];
    assert Pred(s, j) == i && Succ(s, k) == i;
  }

  /** The links lead from any element through those after it back to the head. */
  lemma {:induction false} RingCycles(head: Superblock?, s: seq<Superblock>, i: nat, n: nat)
    requires Ring(head, s) && i < |s| && i + n <= |s|
    ensures Walk(s, s[i], n) == if i + n < |s| then s[i + n] else head
    decreases n
  {
    if n > 0 {
      assert s[i].next == s[Succ(s, i)];
      if i + 1 < |s| {
        RingCycles(head, s, i + 1, n - 1);
      } else {
        assert n == 1 && Walk(s, s[0], 0) == head;
      }
    }
  }

  /** Who stands next to element `i` of a ring from which element `k` was taken. */
  lemma NeighboursWithout<T>(s: seq<T>, k: nat, i: nat)
    requires k < |s| && i < |s| - 1
    ensures var rest := s[..k] + s[k + 1..]; var j := if i < k then i else i + 1;
            && rest[i] == s[j]
            && rest[Succ(rest, i)] == (if j == Pred(s, k) then s[Succ(s, k)] else s[Succ(s, j)])
            && rest[Pred(rest, i)] == (if j == Succ(s, k) then s[Pred(s, k)] else s[Pred(s, j)])
  {
  }

  /** Rewires the links so that `superblock` comes before the head; `list` is the ring before. */
  method LinkBeforeHead(head: Superblock?, superblock: Superblock, ghost list: seq<Superblock>)
    requires Ring(head, list) && superblock !in list
    modifies (set x | x in list)`prev, (set x | x in list)`next, superblock`prev, superblock`next
    ensures Ring(superblock, [superblock] + list)
  {
    if head == null {
      superblock.prev := superblock;
      superblock.next := superblock;
    } else {
      var tail := head.prev;
      assert tail == list[|list| - 1];
      tail.next := superblock;
      superblock.prev := tail;
      superblock.next := head;
      head.prev := superblock;
      ghost var longer := [superblock] + list;
      forall i | 0 <= i < |longer|
        ensures longer[i].next == longer[Succ(longer, i)] && longer[i].prev == longer[Pred(longer, i)]
      {
        assert i > 0 ==> longer[i] == list[i - 1];
      }
    }
  }

  /** Takes element `k` out of the ring `list` and returns the new head. */
  method Unlink(head: Superblock?, superblock: Superblock, ghost list: seq<Superblock>, ghost k: nat)
    returns (newHead: Superblock?)
    requires Ring(head, list) && k < |list| && list[k] == superblock
    modifies (set x | x in list)`prev, (set x | x in list)`next
    ensures Ring(newHead, list[..k] + list[k + 1..])
  {
    newHead := head;
    if superblock.prev == superblock {
      newHead := null;
    } else {
      var prevSb, nextSb := superblock.prev, superblock.next;
      ghost var before, after := Pred(list, k), Succ(list, k);
      assert prevSb == list[before] && nextSb == list[after];
      prevSb.next := nextSb;
      nextSb.prev := prevSb;
      if head == superblock {
        newHead := nextSb;
      }
      ghost var rest := list[..k] + list[k + 1..];
      forall i | 0 <= i < |rest|
        ensures rest[i].next == rest[Succ(rest, i)] && rest[i].prev == rest[Pred(rest, i)]
      {
        var j := if i < k then i else i + 1;
        NeighboursWithout(list, k, i);
        assert j != before ==> rest[i].next == list[Succ(list, j)];
        assert j != after ==> rest[i].prev == list[Pred(list, j)];
      }
      assert NoDup(rest);
    }
  }

  ghost predicate Apart(s: seq<Superblock>, t: seq<Superblock>) {
    forall x :: x in s ==> x !in t
  }

  class BinManager {
    var emptinessBins: seq<Superblock?>
    var numNonfullSuperblocks: nat
    ghost var Lists: seq<seq<Superblock>>  // what each emptiness bin holds, head first

    ghost function Members(): set<Superblock>
      reads `Lists
    {
      set e, i | 0 <= e < |Lists| && 0 <= i < |Lists[e]| :: Lists[e][i]
    }

    ghost predicate Valid()
      reads this, Members()`prev, Members()`next
    {
      && |emptinessBins| == |Lists| == NUM_EMPTINESS_CLASSES
      && (forall e :: 0 <= e < |Lists| ==> Ring(emptinessBins[e], Lists[e]))
      && (forall e, f :: 0 <= e < |Lists| && 0 <= f < |Lists| && e != f ==> Apart(Lists[e], Lists[f]))
      && numNonfullSuperblocks == |Lists[1]| + |Lists[2]| + |Lists[3]| + |Lists[4]|
    }

    constructor ()
      ensures Valid() && Lists == seq(NUM_EMPTINESS_CLASSES, e => [])
      ensures numNonfullSuperblocks == 0
    {
      emptinessBins := seq(NUM_EMPTINESS_CLASSES, e => null);
      numNonfullSuperblocks := 0;
      Lists := seq(NUM_EMPTINESS_CLASSES, e => []);
    }

    /** Replacing bin `eidx` by another ring, whose members come from that bin or from no bin,
        keeps the manager valid. */
    twostate lemma ReplacedBin(eidx: nat)
      requires old(Valid()) && eidx < NUM_EMPTINESS_CLASSES
      requires |emptinessBins| == |Lists| == NUM_EMPTINESS_CLASSES
      requires emptinessBins == old(emptinessBins)[eidx := emptinessBins[eidx]]
      requires Lists == old(Lists)[eidx := Lists[eidx]]
      requires Ring(emptinessBins[eidx], Lists[eidx])
      requires forall x :: x in Lists[eidx] ==> x in old(Lists[eidx]) || x !in old(Members())
      requires forall x :: x in old(Members()) && x !in old(Lists[eidx]) ==> unchanged(x`prev) && unchanged(x`next)
      requires numNonfullSuperblocks == old(numNonfullSuperblocks) + (if eidx == 0 then 0 else |Lists[eidx]| - |old(Lists[eidx])|)
      ensures Valid()
    {
      ghost var before := old(Lists);
      forall e | 0 <= e < |before| && e != eidx
        ensures Ring(emptinessBins[e], Lists[e]) && Apart(Lists[e], Lists[eidx]) && Apart(Lists[eidx], Lists[e])
      {
        assert old(Ring(emptinessBins[e], Lists[e]));
        assert Apart(before[e], before[eidx]) && Apart(before[eidx], before[e]);
        assert forall x :: x in before[e] ==> x in old(Members());
      }
    }

    /** Makes `superblock` the new head of bin `eidx`. */
    method PushIntoBin(eidx: nat, superblock: Superblock)
      requires Valid() && eidx < NUM_EMPTINESS_CLASSES
      requires superblock !in Members()
      modifies this, (set x | x in Lists[eidx])`prev, (set x | x in Lists[eidx])`next
      modifies superblock`prev, superblock`next
      ensures Valid()
      ensures Lists == old(Lists[eidx := [superblock] + Lists[eidx]])
    {
      ghost var list := Lists[eidx];
      assert forall x :: x in list ==> x in Members();
      LinkBeforeHead(emptinessBins[eidx], superblock, list);
      emptinessBins := emptinessBins[eidx := superblock];
      if eidx > 0 {
        numNonfullSuperblocks := numNonfullSuperblocks + 1;
      }
      Lists := Lists[eidx := [superblock] + list];
      ReplacedBin(eidx);
    }

    /** Takes `superblock` out of bin `eidx`, which holds it. */
    method DeleteFromBin(eidx: nat, superblock: Superblock)
      requires Valid() && eidx < NUM_EMPTINESS_CLASSES
      requires superblock in Lists[eidx]
      modifies this, (set x | x in Lists[eidx])`prev, (set x | x in Lists[eidx])`next
      ensures Valid()
      ensures Lists == old(Lists[eidx := Without(Lists[eidx], superblock)])
    {
      ghost var list := Lists[eidx];
      ghost var k :| 0 <= k < |list| && list[k] == superblock;
      ghost var rest := Without(list, superblock);
      assert rest == list[..k] + list[k + 1..] by {
        WithoutAt(list, k);
      }
      var newHead := Unlink(emptinessBins[eidx], superblock, list, k);
      emptinessBins := emptinessBins[eidx := newHead];
      if eidx > 0 {
        numNonfullSuperblocks := numNonfullSuperblocks - 1;
      }
      Lists := Lists[eidx := rest];
      ReplacedBin(eidx);
    }
  }
}
