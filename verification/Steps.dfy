// What one malloc and one free do to the filing of the superblocks.
module Steps {
  import opened Layout
  import opened Mapping
  import opened SizeTables
  import opened SuperblockModel
  import opened Worlds
  import opened Filing

  /** The filing invariant: superblocks in no list have no live block. */
  ghost predicate WellFiled(w: World) {
    && Sound(w)
    && Filed(w, Lost(w))
    && forall a :: a in Lost(w) ==> w.SbAt(a).Empty()
  }

  /** What mmap promises: the 2S bytes at `raw` overlap no superblock. */
  ghost predicate FreshRange(w: World, raw: nat) {
    && raw > 0
    && forall a :: a in w.sbs ==> a + SUPERBLOCK_SIZE <= raw || raw + 2 * SUPERBLOCK_SIZE <= a
  }

  ghost predicate MapOk(w: World, raw: Option<nat>) {
    raw.Some? ==> FreshRange(w, raw.value)
  }

  /** The superblocks that bin_alloc drops when it nulls `next` before reading it. */
  ghost function Dropped(w: World, fix: Repairs, h: nat, src: Source): set<nat> {
    if src.OwnRecycled? && !fix.nextFirst && w.List(Recycled(h)) != [] then Elements(w.List(Recycled(h))[1..])
    else {}
  }

  /** The request is served by a superblock of another block size, adopted without a reset. */
  predicate Misfiles(w: World, fix: Repairs, h: nat, b: nat, raw: Option<nat>) {
    var src := SourceFor(w, h, b, raw);
    src.GlobalRecycled? && !fix.resetAdopted && w.SbAt(Chosen(w, h, b, src)).blockSize != ClassOf(b)
  }

  /** A superblock in a bin of class `b` has that class, and is not full outside bin 0. */
  lemma InBinFacts(w: World, out: set<nat>, h: nat, b: nat, e: nat, a: nat)
    requires Sound(w) && Filed(w, out)
    requires a in w.List(InBin(h, b, e))
    ensures a in w.sbs && w.OwnerOf(a) == h && w.SbAt(a).Eidx() == e < NUM_EMPTINESS_CLASSES
    ensures !w.SbAt(a).Empty()
    ensures b < NUM_SIZE_BINS && w.SbAt(a).blockSize == ClassOf(b)
    ensures e > 0 <==> w.SbAt(a).NumFree() > 0
    ensures a !in out && InBin(h, b, e) == w.Home(a)
  {
    assert SoundAt(w, a);
    EidxRange(w.SbAt(a));
    LiveCount(w.SbAt(a));
    ClassRoundTrip(w.SbAt(a).blockSize);
  }

  lemma RecycledFacts(w: World, out: set<nat>, h: nat, a: nat)
    requires Sound(w) && Filed(w, out)
    requires a in w.List(Recycled(h))
    ensures a in w.sbs && w.OwnerOf(a) == h && w.SbAt(a).Empty() && w.SbAt(a).NumFree() > 0
    ensures w.SbAt(a).UsedBytes() == 0
    ensures a !in out && Recycled(h) == w.Home(a)
  {
    assert SoundAt(w, a);
    TotalBlocksBounds(w.SbAt(a).blockSize);
  }

  /** The counter is positive exactly when the scan of bins 1 to 4 finds a superblock. */
  lemma CounterGuidesScan(w: World, out: set<nat>, h: nat, b: nat)
    requires Filed(w, out)
    ensures w.Nonfull(h, b) > 0 <==> FullestFrom(w, h, b, 1).Some?
  {
    assert Counted(w, h, b);
    var r := FullestFrom(w, h, b, 1);
    assert r.Some? ==> r.value == 1 || r.value == 2 || r.value == 3 || r.value == 4;
  }

  /** `a` is the superblock that serves a request of heap `h` for bin `b`, found at `src`. */
  ghost predicate Serves(w: World, h: nat, b: nat, raw: Option<nat>, src: Source, a: nat) {
    && 0 < h < |w.inUse| && b < NUM_SIZE_BINS
    && MapOk(w, raw)
    && src == SourceFor(w, h, b, raw) && !src.NoMemory?
    && a == Chosen(w, h, b, src)
  }

  lemma ChosenIsListed(w: World, h: nat, b: nat, raw: Option<nat>, src: Source, a: nat)
    requires Serves(w, h, b, raw, src, a)
    ensures if src.NewMapping? then raw.Some? && src.base == a == AlignUp(raw.value) else a in w.List(PlaceOf(h, b, src))
    ensures src.OwnBin? || src.GlobalBin? ==> 0 < src.eidx < NUM_EMPTINESS_CLASSES
  {
    hide World.List, MapOk;
  }

  lemma MappingIsNew(w: World, raw: nat)
    requires FreshRange(w, raw)
    ensures AlignUp(raw) > 0 && AlignUp(raw) % SUPERBLOCK_SIZE == 0 && AlignUp(raw) !in w.sbs
  {
    hide AlignUp;
  }

  /** What is known of the serving superblock before it is taken out. */
  lemma ChosenFacts(w: World, out: set<nat>, h: nat, b: nat, raw: Option<nat>, src: Source, a: nat)
    requires Sound(w) && Filed(w, out) && Serves(w, h, b, raw, src, a)
    ensures a > 0 && a % SUPERBLOCK_SIZE == 0
    ensures src.NewMapping? <==> a !in w.sbs
    ensures a in w.sbs ==>
              var p := PlaceOf(h, b, src);
              && a in w.List(p) && a !in out && w.SbAt(a).NumFree() > 0 && p == w.Home(a)
              && (p.InBin? ==> p.eidx < NUM_EMPTINESS_CLASSES && w.SbAt(a).blockSize == ClassOf(b))
              && w.OwnerOf(a) == (if src.OwnBin? || src.OwnRecycled? then h else 0)
  {
    hide SourceFor, Chosen, AlignUp, FreshRange, World.List, Filed, Sb.Eidx, Sb.NumFree, Sb.Empty, Sb.Valid, World.Home, Distinct, Counted;
    ChosenIsListed(w, h, b, raw, src, a);
    match src
    case OwnBin(e) => InBinFacts(w, out, h, b, e, a);
    case OwnRecycled => RecycledFacts(w, out, h, a);
    case GlobalBin(e) => InBinFacts(w, out, 0, b, e, a);
    case GlobalRecycled => RecycledFacts(w, out, 0, a);
    case NewMapping(_) => MappingIsNew(w, raw.value);
  }

  /** `after` differs from `w` at superblock `a` only, lists aside. */
  ghost predicate ChangedAt(w: World, after: World, a: nat) {
    && after.sbs.Keys == w.sbs.Keys + {a}
    && (w.owner.Keys == w.sbs.Keys ==> after.owner.Keys == after.sbs.Keys)
    && |after.inUse| == |w.inUse| && |after.alloced| == |w.alloced|
    && forall x :: x in w.sbs && x != a ==> after.SbAt(x) == w.SbAt(x) && after.OwnerOf(x) == w.OwnerOf(x)
  }

  lemma SoundAfter(w: World, after: World, a: nat)
    requires Sound(w) && ChangedAt(w, after, a) && SoundAt(after, a)
    ensures Sound(after)
  {
    forall x | x in after.sbs
      ensures SoundAt(after, x)
    {
      assert x != a ==> SoundAt(w, x);
    }
  }

  lemma AdoptEffect(w: World, h: nat, a: nat)
    requires a in w.sbs
    ensures var after := Adopt(w, h, a);
            && ChangedAt(w, after, a)
            && after.lists == w.lists && after.nonfull == w.nonfull
            && after.SbAt(a) == w.SbAt(a) && after.OwnerOf(a) == h
  {
  }

  /** The superblock is reset to the requested class. */
  predicate Resets(fix: Repairs, src: Source) {
    src.OwnRecycled? || src.NewMapping? || (src.GlobalRecycled? && fix.resetAdopted)
  }

  lemma PrepareEffect(w: World, fix: Repairs, h: nat, c: nat, src: Source, a: nat)
    requires src.NewMapping? || a in w.sbs
    ensures var after := Prepare(w, fix, h, c, src, a);
            && ChangedAt(w, after, a)
            && after.lists == w.lists && after.nonfull == w.nonfull
            && after.SbAt(a) == (if Resets(fix, src) then Fresh(c) else w.SbAt(a))
            && after.OwnerOf(a) == (if src.OwnBin? || src.OwnRecycled? || src.NoMemory? then w.OwnerOf(a) else h)
  {
    if src.GlobalBin? || src.GlobalRecycled? {
      AdoptEffect(w, h, a);
      assert Prepare(w, fix, h, c, src, a) ==
             if Resets(fix, src) then Adopt(w, h, a).SetSb(a, Fresh(c)) else Adopt(w, h, a);
    }
  }

  /** Clearing a recycling list that starts with `a` puts `a` and the rest in no list. */
  lemma ClearRecycledFiled(w: World, out: set<nat>, h: nat)
    requires Sound(w) && Filed(w, out) && w.List(Recycled(h)) != []
    ensures var list := w.List(Recycled(h)); var rest := Elements(list[1..]);
            && Filed(w.Clear(Recycled(h)), out + rest + {list[0]})
            && list[0] !in rest
            && (forall x :: x in rest ==> x in w.sbs && x !in out && w.SbAt(x).Empty())
  {
    var list := w.List(Recycled(h));
    var rest := Elements(list[1..]);
    assert list == [list[0]] + list[1..];
    assert Distinct(w, Recycled(h));
    assert list[0] !in list[1..];
    ClearFiled(w, out, h);
    assert out + Elements(list) == out + rest + {list[0]};
    forall x | x in rest
      ensures x in w.sbs && x !in out && w.SbAt(x).Empty()
    {
      assert x in list;
      RecycledFacts(w, out, h, x);
    }
  }

  /** After the chosen superblock is taken out, it and those dropped are in no list. */
  lemma TakeOutFiled(w: World, fix: Repairs, out: set<nat>, h: nat, b: nat, raw: Option<nat>, src: Source, a: nat)
    requires Sound(w) && Filed(w, out) && Serves(w, h, b, raw, src, a)
    ensures var dropped := Dropped(w, fix, h, src);
            && Filed(TakeOut(w, fix, h, b, src), out + dropped + if a in w.sbs then {a} else {})
            && a !in dropped
            && (forall x :: x in dropped ==> x in w.sbs && x !in out && w.SbAt(x).Empty())
  {
    var dropped := Dropped(w, fix, h, src);
    ChosenFacts(w, out, h, b, raw, src, a);
    if src.NewMapping? {
      assert out + dropped + {} == out;
    } else if src.OwnRecycled? && !fix.nextFirst {
      ClearRecycledFiled(w, out, h);
    } else {
      TakeFiled(w, out, PlaceOf(h, b, src), a);
      assert out + dropped + {a} == out + {a};
    }
  }

  /** Superblock `a` is in no list, belongs to heap `h`, and can serve a block. */
  ghost predicate Ready(w: World, out: set<nat>, h: nat, a: nat) {
    && Sound(w) && Filed(w, out)
    && a in out && a in w.sbs && w.OwnerOf(a) == h && w.SbAt(a).NumFree() > 0
  }

  /** The superblock that serves the request, once it is taken out and prepared. */
  ghost function Obtained(w: World, fix: Repairs, h: nat, b: nat, src: Source, a: nat): World {
    Prepare(TakeOut(w, fix, h, b, src), fix, h, ClassOf(b), src, a)
  }

  lemma TakeOutKeeps(w: World, fix: Repairs, h: nat, b: nat, src: Source)
    ensures var taken := TakeOut(w, fix, h, b, src);
            && taken.sbs == w.sbs && taken.owner == w.owner
            && taken.inUse == w.inUse && taken.alloced == w.alloced
  {
  }

  /** The prepared superblock is sound and owned by the requesting heap; it has the requested
      block size exactly when the request is not misfiled. */
  lemma ObtainedSound(w: World, fix: Repairs, out: set<nat>, h: nat, b: nat, raw: Option<nat>, src: Source, a: nat)
    requires Sound(w) && Filed(w, out) && Serves(w, h, b, raw, src, a)
    ensures var w1 := Obtained(w, fix, h, b, src, a);
            && Sound(w1) && ChangedAt(w, w1, a)
            && w1.OwnerOf(a) == h && w1.SbAt(a).NumFree() > 0
            && (w1.SbAt(a).blockSize == ClassOf(b) <==> !Misfiles(w, fix, h, b, raw))
  {
    var w1 := Obtained(w, fix, h, b, src, a);
    ChosenFacts(w, out, h, b, raw, src, a);
    TakeOutKeeps(w, fix, h, b, src);
    PrepareEffect(TakeOut(w, fix, h, b, src), fix, h, ClassOf(b), src, a);
    assert Fresh(ClassOf(b)).Valid() && Fresh(ClassOf(b)).NumFree() > 0 && IsClass(ClassOf(b)) by {
      BinOfClass(b);
      FreshValid(ClassOf(b));
    }
    assert a in w.sbs ==> SoundAt(w, a);
    assert SoundAt(w1, a);
    SoundAfter(w, w1, a);
  }

  lemma ObtainedReady(w: World, fix: Repairs, out: set<nat>, h: nat, b: nat, raw: Option<nat>, src: Source, a: nat)
    requires Sound(w) && Filed(w, out) && out <= w.sbs.Keys && Serves(w, h, b, raw, src, a)
    ensures a !in out
    ensures Ready(Obtained(w, fix, h, b, src, a), out + Dropped(w, fix, h, src) + {a}, h, a)
  {
    var taken := TakeOut(w, fix, h, b, src);
    var dropped := Dropped(w, fix, h, src);
    var before := out + dropped + if a in w.sbs then {a} else {};
    ChosenFacts(w, out, h, b, raw, src, a);
    TakeOutFiled(w, fix, out, h, b, raw, src, a);
    TakeOutKeeps(w, fix, h, b, src);
    PrepareEffect(taken, fix, h, ClassOf(b), src, a);
    ObtainedSound(w, fix, out, h, b, raw, src, a);
    ChangeFiled(taken, Obtained(w, fix, h, b, src, a), before, out + dropped + {a});
  }

  lemma PushKeeps(w: World, p: Place, a: nat)
    ensures var after := w.Push(p, a);
            && after.sbs == w.sbs && after.owner == w.owner
            && after.inUse == w.inUse && after.alloced == w.alloced
            && a in after.List(p)
  {
  }

  /** Serving a block from a ready superblock files it, and files it right exactly when its
      block size is that of the bin. */
  lemma ServeFiled(w: World, out: set<nat>, h: nat, b: nat, a: nat)
    requires Ready(w, out, h, a) && b < NUM_SIZE_BINS
    ensures var after := Serve(w, h, b, a);
            && Sound(after) && ChangedAt(w, after, a)
            && after.OwnerOf(a) == h && after.SbAt(a) == w.SbAt(a).Alloc() && !after.SbAt(a).Empty()
            && (w.SbAt(a).blockSize == ClassOf(b) ==> Filed(after, out - {a}))
            && (w.SbAt(a).blockSize != ClassOf(b) ==> !Filed(after, Lost(after)))
  {
    assert SoundAt(w, a);
    var sb := w.SbAt(a).Alloc();
    var served := w.SetSb(a, sb);
    AllocTakesOne(w.SbAt(a));
    AllocUsed(w.SbAt(a));
    EidxRange(sb);
    var p := InBin(h, b, sb.Eidx());
    var after := Serve(w, h, b, a);
    assert after == served.Push(p, a);
    PushKeeps(served, p, a);
    assert SoundAt(served, a);
    SoundAfter(w, served, a);
    SoundAfter(served, after, a);
    ClassRoundTrip(sb.blockSize);
    if sb.blockSize == ClassOf(b) {
      ChangeFiled(w, served, out, out);
      BinOfClass(b);
      PushFiled(served, out, p, a);
    } else {
      assert a in after.List(p) && p != after.Home(a);
    }
  }

  /** Filing does not depend on the usage counters. */
  lemma UsageKeepsFiled(w: World, after: World)
    requires after.sbs == w.sbs && after.owner == w.owner
    requires after.lists == w.lists && after.nonfull == w.nonfull
    requires |after.inUse| == |w.inUse| && |after.alloced| == |w.alloced|
    ensures WellFiled(after) <==> WellFiled(w)
    ensures Lost(after) == Lost(w)
  {
    if Sound(w) {
      assert forall a :: a in w.sbs && SoundAt(w, a) ==> SoundAt(after, a);
    }
    if Sound(after) {
      assert forall a :: a in w.sbs && SoundAt(after, a) ==> SoundAt(w, a);
    }
    assert Lost(after) == Lost(w);
    if Filed(w, Lost(w)) {
      ChangeFiled(w, after, Lost(w), Lost(w));
    }
    if Filed(after, Lost(w)) {
      ChangeFiled(after, w, Lost(w), Lost(w));
    }
  }

  lemma AddRemove(s: set<nat>, a: nat)
    requires a !in s
    ensures s + {a} - {a} == s
  {
  }

  lemma BinAllocFiles(w: World, fix: Repairs, h: nat, b: nat, raw: Option<nat>, src: Source, a: nat)
    requires WellFiled(w) && Serves(w, h, b, raw, src, a)
    ensures var served := Serve(Obtained(w, fix, h, b, src, a), h, b, a);
            var out := Lost(w) + Dropped(w, fix, h, src);
            && Sound(served)
            && (!Misfiles(w, fix, h, b, raw) ==> Filed(served, out) && out <= served.sbs.Keys)
            && (Misfiles(w, fix, h, b, raw) ==> !Filed(served, Lost(served)))
            && forall x :: x in out ==> served.SbAt(x).Empty()
  {
    hide Serve, Obtained, Sb.Eidx, Sb.NumFree, Sb.Empty, Counted, Distinct;
    var lost := Lost(w);
    var out := lost + Dropped(w, fix, h, src);
    var w1 := Obtained(w, fix, h, b, src, a);
    var served := Serve(w1, h, b, a);
    ObtainedReady(w, fix, lost, h, b, raw, src, a);
    ObtainedSound(w, fix, lost, h, b, raw, src, a);
    TakeOutFiled(w, fix, lost, h, b, raw, src, a);
    ServeFiled(w1, out + {a}, h, b, a);
    AddRemove(out, a);
    forall x | x in out
      ensures x in served.sbs && served.SbAt(x).Empty()
    {
      assert x != a && x in w.sbs;
      assert w.SbAt(x).Empty();
    }
  }

  /** The state after bin_alloc served the request, if it could. */
  ghost function Served(w: World, fix: Repairs, h: nat, b: nat, src: Source): World {
    if src.NoMemory? then w
    else Serve(Obtained(w, fix, h, b, src, Chosen(w, h, b, src)), h, b, Chosen(w, h, b, src))
  }

  /** A malloc is serving and charging. */
  lemma HeapAllocIs(w: World, fix: Repairs, h: nat, size: nat, raw: Option<nat>)
    ensures var b := BinOf(size); var src := SourceFor(w, h, b, raw); var served := Served(w, fix, h, b, src);
            var after := HeapAlloc(w, fix, h, size, raw).0;
            && after == served.AddUsage(h, if src.NoMemory? && fix.exactUsage then 0 else ClassOf(b))
            && after.sbs == served.sbs && after.owner == served.owner
            && after.lists == served.lists && after.nonfull == served.nonfull
            && |after.inUse| == |served.inUse| && after.alloced == served.alloced
  {
    assert forall i :: 0 <= i < |w.inUse| ==> w.inUse[i := w.inUse[i] + 0] == w.inUse;
  }

  /** A legal malloc: a thread heap, a size the table holds, and what mmap would return. */
  ghost predicate LegalMalloc(w: World, h: nat, size: nat, raw: Option<nat>) {
    && 0 < h < |w.inUse|
    && 1 <= size <= ClassOf(NUM_SIZE_BINS - 1)
    && MapOk(w, raw)
  }

  /** Malloc keeps every superblock in the one list it belongs in exactly when it does not
      adopt a recycled superblock of another block size without resetting it; the
      superblocks it loses are exactly those it drops. */
  lemma MallocFiles(w: World, fix: Repairs, h: nat, size: nat, raw: Option<nat>)
    requires WellFiled(w) && LegalMalloc(w, h, size, raw)
    ensures var after := HeapAlloc(w, fix, h, size, raw).0;
            var b := BinOf(size);
            && (WellFiled(after) <==> !Misfiles(w, fix, h, b, raw))
            && (WellFiled(after) ==> Lost(after) == Lost(w) + Dropped(w, fix, h, SourceFor(w, h, b, raw)))
  {
    BinHoldsRequest(size);
    var b := BinOf(size);
    var src := SourceFor(w, h, b, raw);
    var served := Served(w, fix, h, b, src);
    HeapAllocIs(w, fix, h, size, raw);
    UsageKeepsFiled(served, HeapAlloc(w, fix, h, size, raw).0);
    if src.NoMemory? {
      assert Lost(w) + {} == Lost(w);
    } else {
      BinAllocFiles(w, fix, h, b, raw, src, Chosen(w, h, b, src));
      if !Misfiles(w, fix, h, b, raw) {
        LostIsOut(served, Lost(w) + Dropped(w, fix, h, src));
      }
    }
  }

  // ---------- free ----------

  /** `ptr` is the address of a block in the hands of a client. */
  ghost predicate LiveAt(w: World, ptr: nat) {
    && SuperblockOf(ptr) in w.sbs
    && IsLive(SuperblockOf(ptr), w.SbAt(SuperblockOf(ptr)), ptr)
  }

  /** The size of the block at `ptr`. */
  function BlockSizeAt(w: World, ptr: nat): nat {
    w.SbAt(SuperblockOf(ptr)).blockSize
  }

  /** Moving superblock `a` from list `p` to its home after a change to `a` alone. */
  lemma MoveFiled(w: World, changed: World, out: set<nat>, p: Place, a: nat)
    requires Sound(w) && Filed(w, out) && a in w.List(p) && out <= w.sbs.Keys
    requires changed.lists == w.Take(p, a).lists && changed.nonfull == w.Take(p, a).nonfull
    requires ChangedAt(w, changed, a) && SoundAt(changed, a)
    ensures var after := changed.Push(changed.Home(a), a);
            && Sound(after) && Filed(after, out) && ChangedAt(w, after, a)
            && after.SbAt(a) == changed.SbAt(a) && after.OwnerOf(a) == changed.OwnerOf(a)
            && a in after.List(after.Home(a))
  {
    assert a in w.sbs && a !in out && p == w.Home(a);
    assert SoundAt(w, a);
    EidxRange(w.SbAt(a));
    EidxRange(changed.SbAt(a));
    TakeFiled(w, out, p, a);
    ChangeFiled(w.Take(p, a), changed, out + {a}, out + {a});
    PushFiled(changed, out + {a}, changed.Home(a), a);
    AddRemove(out, a);
    PushKeeps(changed, changed.Home(a), a);
    var after := changed.Push(changed.Home(a), a);
    assert SoundAt(after, a);
    SoundAfter(w, after, a);
  }

  /** The superblock of a live block is in one of its owner's bins. */
  lemma LiveInBin(w: World, ptr: nat)
    requires WellFiled(w) && LiveAt(w, ptr)
    ensures var a := SuperblockOf(ptr); var sb := w.SbAt(a);
            && SoundAt(w, a) && !sb.Empty() && 0 <= sb.Eidx() < NUM_EMPTINESS_CLASSES
            && a in w.List(w.Home(a)) && a !in Lost(w)
            && w.Home(a) == InBin(w.OwnerOf(a), BinOf(sb.blockSize), sb.Eidx())
  {
    var a := SuperblockOf(ptr);
    assert SoundAt(w, a);
    ReleaseUsed(w.SbAt(a), SlotAt(a, w.SbAt(a).blockSize, ptr));
    EidxRange(w.SbAt(a));
  }

  lemma TakeKeeps(w: World, p: Place, a: nat)
    ensures var after := w.Take(p, a);
            && after.sbs == w.sbs && after.owner == w.owner
            && after.inUse == w.inUse && after.alloced == w.alloced
  {
  }

  /** Freeing a block keeps the filing; the superblock ends in a bin other than bin 0, or,
      once empty, in its owner's recycling list. */
  lemma BinFreeFiles(w: World, ptr: nat)
    requires WellFiled(w) && LiveAt(w, ptr)
    ensures var after := BinFree(w, ptr); var a := SuperblockOf(ptr);
            && Sound(after) && Filed(after, Lost(w)) && ChangedAt(w, after, a)
            && after.SbAt(a) == w.SbAt(a).Release(SlotAt(a, w.SbAt(a).blockSize, ptr))
            && after.SbAt(a).NumFree() > 0
            && after.OwnerOf(a) == w.OwnerOf(a) && a in after.List(after.Home(a))
            && after.inUse == w.inUse && after.alloced == w.alloced
  {
    var a := SuperblockOf(ptr);
    var before := w.SbAt(a);
    var released := before.Release(SlotAt(a, before.blockSize, ptr));
    LiveInBin(w, ptr);
    assert released.Valid() && released.NumFree() > 0 by {
      ReleaseReturnsOne(before, SlotAt(a, before.blockSize, ptr));
    }
    var p := w.Home(a);
    var changed := w.Take(p, a).SetSb(a, released);
    TakeKeeps(w, p, a);
    assert SoundAt(changed, a);
    MoveFiled(w, changed, Lost(w), p, a);
    PushKeeps(changed, changed.Home(a), a);
  }

  /** A heap that owns a listed superblock with a free block always has one to transfer. */
  lemma TransferExists(w: World, out: set<nat>, a: nat)
    requires Sound(w) && Filed(w, out)
    requires a in w.sbs && a !in out && w.SbAt(a).NumFree() > 0
    ensures TransferFrom(w, w.OwnerOf(a)).Some?
  {
    assert SoundAt(w, a);
    EidxRange(w.SbAt(a));
    ClassRoundTrip(w.SbAt(a).blockSize);
    assert a in w.List(w.Home(a));
  }

  /** What is known of the superblock a transfer takes. */
  lemma TransferredFacts(w: World, out: set<nat>, h: nat)
    requires Sound(w) && Filed(w, out)
    requires TransferFrom(w, h).Some?
    ensures var from := TransferFrom(w, h).value; var a := w.List(from)[0];
            && a in w.List(from) && from == w.Home(a)
            && a in w.sbs && w.OwnerOf(a) == h && w.SbAt(a).NumFree() > 0
  {
    var from := TransferFrom(w, h).value;
    var a := w.List(from)[0];
    assert a in w.List(from);
    match from {
      case InBin(_, b, e) => InBinFacts(w, out, h, b, e, a);
      case Recycled(_) => RecycledFacts(w, out, h, a);
    }
  }

  /** The transferred superblock is filed in the global heap as it was in its own. */
  lemma MoveToGlobalFiles(w: World, out: set<nat>, h: nat, a: nat)
    requires Sound(w) && Filed(w, out) && out <= w.sbs.Keys && h < |w.inUse|
    requires TransferFrom(w, h).Some? && a == w.List(TransferFrom(w, h).value)[0]
    ensures var after := MoveToGlobal(w, TransferFrom(w, h).value, a);
            && Sound(after) && Filed(after, out) && ChangedAt(w, after, a)
            && after.SbAt(a) == w.SbAt(a) && after.OwnerOf(a) == 0
            && after.inUse == w.inUse && after.alloced == w.alloced
  {
    var from := TransferFrom(w, h).value;
    TransferredFacts(w, out, h);
    assert SoundAt(w, a);
    EidxRange(w.SbAt(a));
    var changed := w.Take(from, a).SetOwner(a, 0);
    TakeKeeps(w, from, a);
    assert SoundAt(changed, a);
    MoveFiled(w, changed, out, from, a);
    assert changed.Home(a) == InGlobal(from);
    PushKeeps(changed, changed.Home(a), a);
  }

  lemma TransferFiles(w: World, fix: Repairs, h: nat)
    requires WellFiled(w) && h < |w.inUse| && TransferFrom(w, h).Some?
    ensures WellFiled(Transfer(w, fix, h)) && Lost(Transfer(w, fix, h)) == Lost(w)
    ensures |Transfer(w, fix, h).inUse| == |w.inUse|
  {
    var from := TransferFrom(w, h).value;
    var a := w.List(from)[0];
    var moved := MoveToGlobal(w, from, a);
    MoveToGlobalFiles(w, Lost(w), h, a);
    LostIsOut(moved, Lost(w));
    forall x | x in Lost(w)
      ensures moved.SbAt(x).Empty()
    {
      assert x != a ==> moved.SbAt(x) == w.SbAt(x);
    }
    UsageKeepsFiled(moved, Transfer(w, fix, h));
  }

  lemma BinFreeKeepsFiling(w: World, ptr: nat)
    requires WellFiled(w) && LiveAt(w, ptr)
    ensures WellFiled(BinFree(w, ptr)) && Lost(BinFree(w, ptr)) == Lost(w)
    ensures TransferFrom(BinFree(w, ptr), w.OwnerOf(SuperblockOf(ptr))).Some?
    ensures |BinFree(w, ptr).inUse| == |w.inUse|
  {
    var a := SuperblockOf(ptr);
    var freed := BinFree(w, ptr);
    LiveInBin(w, ptr);
    BinFreeFiles(w, ptr);
    LostIsOut(freed, Lost(w));
    forall x | x in Lost(w)
      ensures freed.SbAt(x).Empty()
    {
      assert x != a;
    }
    TransferExists(freed, Lost(w), a);
  }

  lemma UsageKeepsTransfer(w: World, h: nat, g: nat, bytes: int)
    ensures TransferFrom(w.AddUsage(h, bytes), g) == TransferFrom(w, g)
  {
    EmptiestSame(w, w.AddUsage(h, bytes), g, NUM_EMPTINESS_CLASSES - 1);
  }

  lemma {:induction false} EmptiestSame(w: World, after: World, h: nat, e: nat)
    requires after.lists == w.lists
    ensures EmptiestUpTo(after, h, e) == EmptiestUpTo(w, h, e)
  {
    if e != 0 {
      FirstBinSame(w, after, h, e, 0);
      EmptiestSame(w, after, h, e - 1);
    }
  }

  lemma {:induction false} FirstBinSame(w: World, after: World, h: nat, e: nat, b: nat)
    requires after.lists == w.lists
    ensures FirstBinFrom(after, h, e, b) == FirstBinFrom(w, h, e, b)
    decreases NUM_SIZE_BINS - b
  {
    assert after.List(InBin(h, b, e)) == w.List(InBin(h, b, e));
    if b < NUM_SIZE_BINS {
      FirstBinSame(w, after, h, e, b + 1);
    }
  }

  /** A transfer moves a superblock without touching its blocks. */
  lemma TransferKeepsBlocks(w: World, fix: Repairs, h: nat)
    ensures var after := Transfer(w, fix, h);
            after.sbs == w.sbs && |after.inUse| == |w.inUse| && after.alloced == w.alloced
  {
    var from := TransferFrom(w, h);
    if from.Some? {
      var a := w.List(from.value)[0];
      TakeKeeps(w, from.value, a);
      PushKeeps(w.Take(from.value, a).SetOwner(a, 0), InGlobal(from.value), a);
    }
  }

  lemma SettleKeepsBlocks(w: World, fix: Repairs, h: nat, bytes: nat)
    ensures Settle(w, fix, h, bytes).sbs == w.sbs
    ensures |Settle(w, fix, h, bytes).inUse| == |w.inUse| && |Settle(w, fix, h, bytes).alloced| == |w.alloced|
  {
    var charged := w.AddUsage(h, 0 - bytes);
    assert charged.sbs == w.sbs && |charged.inUse| == |w.inUse| && charged.alloced == w.alloced;
    TransferKeepsBlocks(charged, fix, h);
  }

  lemma SettleFiles(w: World, fix: Repairs, h: nat, bytes: nat)
    requires WellFiled(w) && h < |w.inUse| && TransferFrom(w, h).Some?
    ensures WellFiled(Settle(w, fix, h, bytes)) && Lost(Settle(w, fix, h, bytes)) == Lost(w)
  {
    if h != 0 {
      var charged := w.AddUsage(h, 0 - bytes);
      UsageKeepsFiled(w, charged);
      UsageKeepsTransfer(w, h, h, 0 - bytes);
      if EmptyEnough(charged.inUse[h], charged.alloced[h]) {
        TransferFiles(charged, fix, h);
        UsageKeepsFiled(Transfer(charged, fix, h), Settle(w, fix, h, bytes));
      }
    }
  }

  /** Freeing a block keeps every superblock in its place and loses none; nothing is asked of
      the repairs. */
  lemma FreeFiles(w: World, fix: Repairs, ptr: nat)
    requires WellFiled(w) && LiveAt(w, ptr)
    ensures WellFiled(HeapFree(w, fix, ptr))
    ensures Lost(HeapFree(w, fix, ptr)) == Lost(w)
  {
    BinFreeKeepsFiling(w, ptr);
    assert SoundAt(w, SuperblockOf(ptr));
    SettleFiles(BinFree(w, ptr), fix, w.OwnerOf(SuperblockOf(ptr)), w.SbAt(SuperblockOf(ptr)).blockSize);
  }
}
