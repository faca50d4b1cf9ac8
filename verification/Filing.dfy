// Every superblock is in exactly one list, the one its owner, block size and fullness
// determine; the cached counters agree with the lists.
module Filing {
  import opened Layout
  import opened SizeTables
  import opened SuperblockModel
  import opened BinManagers
  import opened Worlds

  /** Each recorded superblock is well formed and has an owner among the heaps. */
  ghost predicate Sound(w: World) {
    && |w.inUse| == |w.alloced| > 0
    && w.owner.Keys == w.sbs.Keys
    && forall a :: a in w.sbs ==> SoundAt(w, a)
  }

  ghost predicate SoundAt(w: World, a: nat) {
    && a > 0 && a % SUPERBLOCK_SIZE == 0
    && w.SbAt(a).Valid() && IsClass(w.SbAt(a).blockSize)
    && w.OwnerOf(a) < |w.inUse|
  }

  /** The superblocks outside `out` are each in their home list and in no other; those in
      `out` are in no list; no list has repetitions; the counters count bins 1 to 4. */
  ghost predicate Filed(w: World, out: set<nat>) {
    && (forall p, a :: a in w.List(p) ==> a in w.sbs && a !in out && p == w.Home(a))
    && (forall a :: a in w.sbs && a !in out ==> a in w.List(w.Home(a)))
    && (forall p :: Distinct(w, p))
    && (forall h, b :: Counted(w, h, b))
  }

  ghost predicate Distinct(w: World, p: Place) {
    NoDup(w.List(p))
  }

  ghost predicate Counted(w: World, h: nat, b: nat) {
    w.Nonfull(h, b) == CountNonfull(w, h, b)
  }

  function CountNonfull(w: World, h: nat, b: nat): nat {
    |w.List(InBin(h, b, 1))| + |w.List(InBin(h, b, 2))| + |w.List(InBin(h, b, 3))| + |w.List(InBin(h, b, 4))|
  }

  /** The superblocks that no list holds. */
  ghost function Lost(w: World): set<nat> {
    set a | a in w.sbs && a !in w.List(w.Home(a))
  }

  lemma LostIsOut(w: World, out: set<nat>)
    requires Filed(w, out) && out <= w.sbs.Keys
    ensures Lost(w) == out
  {
  }

  // ---------- sequences without repetition ----------

  lemma {:induction false} WithoutMembers(s: seq<nat>, x: nat)
    requires NoDup(s) && x in s
    ensures NoDup(Without(s, x)) && |Without(s, x)| == |s| - 1
    ensures forall y :: y in Without(s, x) <==> y in s && y != x
  {
    var k :| 0 <= k < |s| && s[k] == x;
    WithoutAt(s, k);
    forall y
      ensures y in Without(s, x) <==> y in s && y != x
    {
      if y in s && y != x {
        var j :| 0 <= j < |s| && s[j] == y;
        assert Without(s, x)[if j < k then j else j - 1] == y;
      }
    }
  }

  // ---------- elementary changes ----------

  /** `after` differs from `w` in list `p`, which is now `list`, and in the counters. */
  ghost predicate ListReplaced(w: World, after: World, p: Place, list: seq<nat>) {
    && after.sbs == w.sbs && after.owner == w.owner
    && after.List(p) == list
    && (forall q :: q != p ==> after.List(q) == w.List(q))
    && (forall h, b :: after.Nonfull(h, b) == w.Nonfull(h, b) + CountChange(w, p, list, h, b))
  }

  function CountChange(w: World, p: Place, list: seq<nat>, h: nat, b: nat): int {
    if p.InBin? && p.eidx > 0 && p.heap == h && p.bin == b then |list| - |w.List(p)| else 0
  }

  lemma ReplaceCounted(w: World, after: World, p: Place, list: seq<nat>, h: nat, b: nat)
    requires ListReplaced(w, after, p, list) && Counted(w, h, b)
    requires p.InBin? ==> p.eidx < NUM_EMPTINESS_CLASSES
    ensures Counted(after, h, b)
  {
  }

  /** Replacing the list at `p` by one that holds the same superblocks, except that those of
      `gone` have left it and those of `come` were in no list and belong there. */
  lemma ReplaceFiled(w: World, after: World, p: Place, list: seq<nat>, out: set<nat>, gone: set<nat>, come: set<nat>)
    requires Filed(w, out) && ListReplaced(w, after, p, list)
    requires p.InBin? ==> p.eidx < NUM_EMPTINESS_CLASSES
    requires NoDup(list)
    requires forall x :: x in list <==> (x in w.List(p) && x !in gone) || x in come
    requires forall x :: x in gone ==> x in w.List(p)
    requires come !! gone && come <= out
    requires forall x :: x in come ==> x in w.sbs && w.Home(x) == p
    ensures Filed(after, out + gone - come)
  {
    var out' := out + gone - come;
    forall q, x | x in after.List(q)
      ensures x in after.sbs && x !in out' && q == after.Home(x)
    {
      assert after.Home(x) == w.Home(x);
      assert q != p ==> x in w.List(q);
      assert x in gone ==> p == w.Home(x);
    }
    forall x | x in after.sbs && x !in out'
      ensures x in after.List(after.Home(x))
    {
      assert after.Home(x) == w.Home(x);
    }
    forall q
      ensures Distinct(after, q)
    {
      assert Distinct(w, q);
    }
    forall h, b
      ensures Counted(after, h, b)
    {
      assert Counted(w, h, b);
      ReplaceCounted(w, after, p, list, h, b);
    }
  }

  /** Taking a superblock out of the list that holds it. */
  lemma TakeFiled(w: World, out: set<nat>, p: Place, a: nat)
    requires Filed(w, out) && a in w.List(p)
    requires p.InBin? ==> p.eidx < NUM_EMPTINESS_CLASSES
    ensures Filed(w.Take(p, a), out + {a})
  {
    assert Distinct(w, p);
    WithoutMembers(w.List(p), a);
    assert ListReplaced(w, w.Take(p, a), p, Without(w.List(p), a));
    ReplaceFiled(w, w.Take(p, a), p, Without(w.List(p), a), out, {a}, {});
    assert out + {a} - {} == out + {a};
  }

  /** Putting a superblock that is in no list into its home list. */
  lemma PushFiled(w: World, out: set<nat>, p: Place, a: nat)
    requires Filed(w, out) && a in out && a in w.sbs && p == w.Home(a)
    requires p.InBin? ==> p.eidx < NUM_EMPTINESS_CLASSES
    ensures Filed(w.Push(p, a), out - {a})
  {
    assert Distinct(w, p);
    assert ListReplaced(w, w.Push(p, a), p, [a] + w.List(p));
    ReplaceFiled(w, w.Push(p, a), p, [a] + w.List(p), out, {}, {a});
    assert out + {} - {a} == out - {a};
  }

  /** Dropping a whole list of recycled superblocks. */
  lemma ClearFiled(w: World, out: set<nat>, h: nat)
    requires Filed(w, out)
    ensures Filed(w.Clear(Recycled(h)), out + Elements(w.List(Recycled(h))))
  {
    var p := Recycled(h);
    var gone := Elements(w.List(p));
    ReplaceFiled(w, w.Clear(p), p, [], out, gone, {});
    assert out + gone - {} == out + gone;
  }

  /** What happens to superblocks in no list does not disturb the filing of the others. */
  lemma ChangeFiled(w: World, after: World, out: set<nat>, out': set<nat>)
    requires Filed(w, out) && out <= out'
    requires after.lists == w.lists && after.nonfull == w.nonfull
    requires w.sbs.Keys <= after.sbs.Keys <= w.sbs.Keys + out'
    requires out' - out !! w.sbs.Keys
    requires forall a :: a in w.sbs && a !in out ==> after.SbAt(a) == w.SbAt(a) && after.OwnerOf(a) == w.OwnerOf(a)
    ensures Filed(after, out')
  {
    forall q
      ensures after.List(q) == w.List(q) && Distinct(after, q)
    {
      assert Distinct(w, q);
    }
    forall q, x | x in after.List(q)
      ensures x in after.sbs && x !in out' && q == after.Home(x)
    {
      assert x in w.List(q);
      assert after.Home(x) == w.Home(x);
    }
    forall h, b
      ensures Counted(after, h, b)
    {
      assert Counted(w, h, b);
    }
  }
}
