// The usage counters of the thread heaps (src/heap.c): `alloced` is exactly the bytes of the
// superblocks a heap owns; `in_use` is the bytes of its used blocks plus a slack that only
// grows, and by how much each operation makes it grow.
module Counters {
  import opened Layout
  import opened SizeTables
  import opened SuperblockModel
  import opened Worlds
  import opened Filing
  import opened Steps

  // ---------- sums over maps ----------

  ghost function Sum(m: map<nat, int>): int
    decreases |m|
  {
    if m == map[] then 0
    else
      var k :| k in m;
      m[k] + Sum(m - {k})
  }

  lemma {:induction false} SumRemove(m: map<nat, int>, k: nat)
    requires k in m
    ensures Sum(m) == m[k] + Sum(m - {k})
    decreases |m|
  {
    var j :| j in m && Sum(m) == m[j] + Sum(m - {j});
    if j != k {
      SumRemove(m - {j}, k);
      SumRemove(m - {k}, j);
      assert m - {j} - {k} == m - {k} - {j};
    }
  }

  lemma SumSplit(m: map<nat, int>, k: nat)
    ensures Sum(m) == Sum(m - {k}) + if k in m then m[k] else 0
    ensures |m| == |m - {k}| + if k in m then 1 else 0
  {
    if k in m {
      SumRemove(m, k);
      MapSize(m, k);
    } else {
      assert m - {k} == m;
    }
  }

  lemma MapSize(m: map<nat, int>, k: nat)
    requires k in m
    ensures |m - {k}| == |m| - 1
  {
    assert (m - {k}).Keys == m.Keys - {k};
  }

  lemma {:induction false} SumBounds(m: map<nat, int>, low: int)
    requires forall k :: k in m ==> low <= m[k]
    ensures low * |m| <= Sum(m)
    decreases |m|
  {
    if m == map[] {
    } else {
      var k :| k in m;
      SumRemove(m, k);
      SumBounds(m - {k}, low);
      MapSize(m, k);
      assert low * |m| == low * (|m| - 1) + low;
    }
  }

  // ---------- what a heap owns ----------

  /** The superblocks heap `h` owns, with their used bytes. */
  ghost function UsedMap(w: World, h: nat): map<nat, int> {
    map a | a in w.sbs && w.OwnerOf(a) == h :: w.SbAt(a).UsedBytes()
  }

  ghost function Owned(w: World, h: nat): nat {
    |UsedMap(w, h)|
  }

  ghost function TotalUsed(w: World, h: nat): int {
    Sum(UsedMap(w, h))
  }

  /** How far `in_use` exceeds the bytes of the used blocks. */
  ghost function Slack(w: World, h: nat): int
    requires h < |w.inUse|
  {
    w.inUse[h] - TotalUsed(w, h)
  }

  /** How far `alloced` exceeds the size of the superblocks the heap owns. */
  ghost function Excess(w: World, h: nat): int
    requires h < |w.alloced|
  {
    w.alloced[h] - SUPERBLOCK_SIZE * Owned(w, h)
  }

  /** `alloced` is exact, and `in_use` is an upper bound, for every thread heap. */
  ghost predicate Accounts(w: World) {
    && |w.inUse| == |w.alloced|
    && forall h :: 0 < h < |w.inUse| ==> Excess(w, h) == 0 && Slack(w, h) >= 0
  }

  predicate OwnedBy(w: World, a: nat, h: nat) {
    a in w.sbs && w.OwnerOf(a) == h
  }

  /** What superblock `a` contributes to the used bytes of heap `h`. */
  function Share(w: World, a: nat, h: nat): int {
    if OwnedBy(w, a, h) then w.SbAt(a).UsedBytes() else 0
  }

  function One(b: bool): int {
    if b then 1 else 0
  }

  lemma SplitTotals(w: World, a: nat, h: nat)
    ensures var others := UsedMap(w, h) - {a};
            && TotalUsed(w, h) == Sum(others) + Share(w, a, h)
            && Owned(w, h) == |others| + One(OwnedBy(w, a, h))
  {
    SumSplit(UsedMap(w, h), a);
  }

  lemma OthersSame(w: World, after: World, a: nat, h: nat)
    requires ChangedAt(w, after, a)
    ensures UsedMap(w, h) - {a} == UsedMap(after, h) - {a}
  {
    forall x | x != a
      ensures x in UsedMap(w, h) <==> x in UsedMap(after, h)
      ensures x in UsedMap(w, h) ==> UsedMap(w, h)[x] == UsedMap(after, h)[x]
    {
      assert x in w.sbs ==> after.SbAt(x) == w.SbAt(x);
    }
  }

  /** A change to superblock `a` alone moves the totals by what `a` contributes. */
  lemma TotalsAfter(w: World, after: World, a: nat, h: nat)
    requires ChangedAt(w, after, a)
    ensures TotalUsed(after, h) == TotalUsed(w, h) - Share(w, a, h) + Share(after, a, h)
    ensures Owned(after, h) == Owned(w, h) - One(OwnedBy(w, a, h)) + One(OwnedBy(after, a, h))
  {
    SplitTotals(w, a, h);
    SplitTotals(after, a, h);
    OthersSame(w, after, a, h);
  }

  /** When the counters move as the contribution of `a` does, they stay as exact as they were. */
  lemma BalanceKept(w: World, after: World, a: nat, g: nat, extra: int)
    requires ChangedAt(w, after, a)
    requires g < |w.inUse| && g < |w.alloced|
    requires after.inUse[g] - w.inUse[g] == Share(after, a, g) - Share(w, a, g) + extra
    requires after.alloced[g] - w.alloced[g] == SUPERBLOCK_SIZE * (One(OwnedBy(after, a, g)) - One(OwnedBy(w, a, g)))
    ensures Excess(after, g) == Excess(w, g)
    ensures Slack(after, g) == Slack(w, g) + extra
  {
    TotalsAfter(w, after, a, g);
  }

  /** The totals depend only on the superblocks and their owners. */
  lemma TotalsSame(w: World, after: World, h: nat)
    requires after.sbs == w.sbs && after.owner == w.owner
    ensures TotalUsed(after, h) == TotalUsed(w, h) && Owned(after, h) == Owned(w, h)
  {
    assert UsedMap(after, h) == UsedMap(w, h);
  }

  // ---------- malloc ----------

  predicate Shared(src: Source) {
    src.GlobalBin? || src.GlobalRecycled?
  }

  /** The counters after the chosen superblock is taken out and prepared. */
  lemma ObtainedCounters(w: World, fix: Repairs, h: nat, b: nat, src: Source, a: nat, g: nat)
    requires 0 < h < |w.inUse| == |w.alloced| && g < |w.inUse|
    ensures var w1 := Obtained(w, fix, h, b, src, a);
            && |w1.inUse| == |w1.alloced| == |w.inUse|
            && w1.inUse[g] == w.inUse[g] + (if g == h && Shared(src) then w.SbAt(a).UsedBytes() else 0)
            && w1.alloced[g] == w.alloced[g] + (if g == h && (Shared(src) || src.NewMapping?) then SUPERBLOCK_SIZE else 0)
  {
    var taken := TakeOut(w, fix, h, b, src);
    TakeOutKeeps(w, fix, h, b, src);
    PrepareCounters(taken, fix, h, ClassOf(b), src, a, g);
    assert taken.SbAt(a) == w.SbAt(a);
  }

  lemma PrepareCounters(w: World, fix: Repairs, h: nat, c: nat, src: Source, a: nat, g: nat)
    requires 0 < h < |w.inUse| == |w.alloced| && g < |w.inUse|
    ensures var w1 := Prepare(w, fix, h, c, src, a);
            && |w1.inUse| == |w1.alloced| == |w.inUse|
            && w1.inUse[g] == w.inUse[g] + (if g == h && Shared(src) then w.SbAt(a).UsedBytes() else 0)
            && w1.alloced[g] == w.alloced[g] + (if g == h && (Shared(src) || src.NewMapping?) then SUPERBLOCK_SIZE else 0)
  {
  }

  /** What the chosen superblock contributes, before and after. */
  lemma ObtainedShare(w: World, fix: Repairs, out: set<nat>, h: nat, b: nat, raw: Option<nat>, src: Source, a: nat)
    requires Sound(w) && Filed(w, out) && Serves(w, h, b, raw, src, a)
    ensures var w1 := Obtained(w, fix, h, b, src, a);
            && w1.SbAt(a).UsedBytes() == (if a in w.sbs then w.SbAt(a).UsedBytes() else 0)
            && (a in w.sbs ==> w.OwnerOf(a) == if Shared(src) then 0 else h)
  {
    ChosenFacts(w, out, h, b, raw, src, a);
    TakeOutKeeps(w, fix, h, b, src);
    PrepareEffect(TakeOut(w, fix, h, b, src), fix, h, ClassOf(b), src, a);
    FreshUnused(ClassOf(b));
    if src.OwnRecycled? || src.GlobalRecycled? {
      RecycledFacts(w, out, if src.OwnRecycled? then h else 0, a);
    }
  }

  lemma FreshUnused(c: nat)
    ensures Fresh(c).UsedBytes() == 0
  {
    assert Fresh(c).UsedBlocks() == 0;
  }

  /** Taking over the chosen superblock keeps `alloced` exact and the slack as it is. */
  lemma ObtainedBalance(w: World, fix: Repairs, h: nat, b: nat, raw: Option<nat>, src: Source, a: nat, g: nat)
    requires WellFiled(w) && Serves(w, h, b, raw, src, a) && 0 < g < |w.inUse|
    ensures var w1 := Obtained(w, fix, h, b, src, a);
            && |w1.inUse| == |w1.alloced| == |w.inUse|
            && Excess(w1, g) == Excess(w, g)
            && Slack(w1, g) == Slack(w, g)
  {
    var w1 := Obtained(w, fix, h, b, src, a);
    assert ChangedAt(w, w1, a) && OwnedBy(w1, a, h) by {
      ObtainedSound(w, fix, Lost(w), h, b, raw, src, a);
    }
    assert src.NewMapping? <==> a !in w.sbs by {
      ChosenFacts(w, Lost(w), h, b, raw, src, a);
    }
    ObtainedShare(w, fix, Lost(w), h, b, raw, src, a);
    ObtainedCounters(w, fix, h, b, src, a, g);
    assert Share(w1, a, g) - Share(w, a, g) == if g == h && Shared(src) then w.SbAt(a).UsedBytes() else 0;
    BalanceKept(w, w1, a, g, 0);
  }

  /** Serving adds one block to the used bytes of the heap, charged later. */
  lemma ServeBalance(w: World, out: set<nat>, h: nat, b: nat, a: nat, g: nat)
    requires Ready(w, out, h, a) && b < NUM_SIZE_BINS && 0 < g < |w.inUse|
    ensures var after := Serve(w, h, b, a);
            && |after.inUse| == |w.inUse| && |after.alloced| == |w.alloced|
            && Excess(after, g) == Excess(w, g)
            && Slack(after, g) == Slack(w, g) - if g == h then w.SbAt(a).blockSize else 0
  {
    var after := Serve(w, h, b, a);
    assert SoundAt(w, a);
    AllocUsed(w.SbAt(a));
    ServeFiled(w, out, h, b, a);
    ServeKeepsCounters(w, h, b, a);
    BalanceKept(w, after, a, g, if g == h then 0 - w.SbAt(a).blockSize else 0);
  }

  /** A served request adds one block of its class to the usage of its heap. */
  lemma ServedCounters(w: World, fix: Repairs, h: nat, b: nat, raw: Option<nat>, src: Source, a: nat, g: nat)
    requires WellFiled(w) && Serves(w, h, b, raw, src, a) && 0 < g < |w.inUse|
    requires !Misfiles(w, fix, h, b, raw)
    ensures var after := Serve(Obtained(w, fix, h, b, src, a), h, b, a);
            && |after.inUse| == |after.alloced| == |w.inUse|
            && Excess(after, g) == Excess(w, g)
            && Slack(after, g) == Slack(w, g) - if g == h then ClassOf(b) else 0
  {
    var w1 := Obtained(w, fix, h, b, src, a);
    var out := Lost(w) + Dropped(w, fix, h, src) + {a};
    ObtainedBalance(w, fix, h, b, raw, src, a, g);
    assert Ready(w1, out, h, a) by {
      ObtainedReady(w, fix, Lost(w), h, b, raw, src, a);
    }
    assert w1.SbAt(a).blockSize == ClassOf(b) by {
      ObtainedSound(w, fix, Lost(w), h, b, raw, src, a);
    }
    ServeBalance(w1, out, h, b, a, g);
  }

  lemma ServeKeepsCounters(w: World, h: nat, b: nat, a: nat)
    ensures var after := Serve(w, h, b, a);
            after.inUse == w.inUse && after.alloced == w.alloced
  {
  }

  /** How much the slack of heap `g` grows when heap `h` allocates: by the class of a failed
      request, unless failed requests are not charged. */
  function MallocDrift(w: World, fix: Repairs, h: nat, size: nat, raw: Option<nat>, g: nat): nat {
    if g == h && !fix.exactUsage && SourceFor(w, h, BinOf(size), raw).NoMemory? then ClassOf(BinOf(size)) else 0
  }

  /** Malloc keeps `alloced` exact and changes the slack by the drift alone. */
  lemma MallocCounters(w: World, fix: Repairs, h: nat, size: nat, raw: Option<nat>, g: nat)
    requires WellFiled(w) && LegalMalloc(w, h, size, raw) && 0 < g < |w.inUse|
    requires !Misfiles(w, fix, h, BinOf(size), raw)
    ensures var after := HeapAlloc(w, fix, h, size, raw).0;
            && |after.inUse| == |after.alloced| == |w.inUse|
            && Excess(after, g) == Excess(w, g)
            && Slack(after, g) == Slack(w, g) + MallocDrift(w, fix, h, size, raw, g)
  {
    BinHoldsRequest(size);
    var b := BinOf(size);
    var src := SourceFor(w, h, b, raw);
    var served := Served(w, fix, h, b, src);
    if !src.NoMemory? {
      ServedCounters(w, fix, h, b, raw, src, Chosen(w, h, b, src), g);
    }
    HeapAllocIs(w, fix, h, size, raw);
    ChargeBalance(served, h, if src.NoMemory? && fix.exactUsage then 0 else ClassOf(b), g);
  }

  lemma ChargeBalance(w: World, h: nat, bytes: nat, g: nat)
    requires g < |w.inUse| == |w.alloced|
    ensures var after := w.AddUsage(h, bytes);
            && |after.inUse| == |after.alloced| == |w.inUse|
            && Excess(after, g) == Excess(w, g)
            && Slack(after, g) == Slack(w, g) + if g == h then bytes else 0
  {
    TotalsSame(w, w.AddUsage(h, bytes), g);
  }

  // ---------- free ----------

  lemma BinFreeCounters(w: World, ptr: nat, g: nat)
    requires WellFiled(w) && LiveAt(w, ptr)
    ensures var after := BinFree(w, ptr); var a := SuperblockOf(ptr);
            && Owned(after, g) == Owned(w, g)
            && TotalUsed(after, g) == TotalUsed(w, g) - if g == w.OwnerOf(a) then w.SbAt(a).blockSize else 0
  {
    var a := SuperblockOf(ptr);
    BinFreeFiles(w, ptr);
    assert SoundAt(w, a);
    ReleaseUsed(w.SbAt(a), SlotAt(a, w.SbAt(a).blockSize, ptr));
    TotalsAfter(w, BinFree(w, ptr), a, g);
  }

  /** Settling after a free in heap `h` transfers a superblock. */
  predicate Transfers(w: World, h: nat, bytes: nat) {
    0 < h < |w.inUse| && h < |w.alloced| && EmptyEnough(w.inUse[h] - bytes, w.alloced[h])
  }

  /** How much settling lets the slack of heap `g` grow: by the used bytes of the superblock
      that is transferred, unless they are taken off as well. */
  ghost function SettleDrift(w: World, fix: Repairs, h: nat, bytes: nat, g: nat): int {
    if g == h && !fix.exactUsage && Transfers(w, h, bytes) && TransferFrom(w, h).Some? then
      w.SbAt(Leaving(w, h)).UsedBytes()
    else 0
  }

  lemma SettleCounters(w: World, fix: Repairs, h: nat, bytes: nat, g: nat)
    requires WellFiled(w) && h < |w.inUse| && TransferFrom(w, h).Some? && 0 < g < |w.inUse|
    ensures var after := Settle(w, fix, h, bytes);
            && |after.inUse| == |after.alloced| == |w.inUse|
            && Excess(after, g) == Excess(w, g)
            && Slack(after, g) == Slack(w, g) - (if g == h then bytes else 0) + SettleDrift(w, fix, h, bytes, g)
            && SettleDrift(w, fix, h, bytes, g) >= 0
  {
    var after := Settle(w, fix, h, bytes);
    if Transfers(w, h, bytes) {
      SettleByTransfer(w, fix, h, bytes, g);
    } else {
      TotalsSame(w, after, g);
      assert after.alloced == w.alloced && |after.inUse| == |w.inUse|;
      assert after.inUse[g] == w.inUse[g] - if g == h then bytes else 0;
    }
  }

  /** The superblock a transfer from heap `h` takes. */
  ghost function Leaving(w: World, h: nat): nat
    requires TransferFrom(w, h).Some?
  {
    w.List(TransferFrom(w, h).value)[0]
  }

  /** A transfer in numbers: the counters of the heap and the superblock that leaves it. */
  lemma SettleByTransfer(w: World, fix: Repairs, h: nat, bytes: nat, g: nat)
    requires WellFiled(w) && TransferFrom(w, h).Some? && 0 < g < |w.inUse|
    requires Transfers(w, h, bytes)
    ensures var after := Settle(w, fix, h, bytes);
            && |after.inUse| == |after.alloced| == |w.inUse|
            && Excess(after, g) == Excess(w, g)
            && Slack(after, g) == Slack(w, g) - (if g == h then bytes else 0)
                                  + if g == h && !fix.exactUsage then w.SbAt(Leaving(w, h)).UsedBytes() else 0
    ensures w.SbAt(Leaving(w, h)).UsedBytes() >= 0
  {
    var a := Leaving(w, h);
    var used := w.SbAt(a).UsedBytes();
    var after := Settle(w, fix, h, bytes);
    assert used >= 0 && OwnedBy(w, a, h) by {
      TransferredFacts(w, Lost(w), h);
      assert SoundAt(w, a);
      UsedBytesBounds(w.SbAt(a));
    }
    SettledState(w, fix, h, bytes, a, g);
    BalanceKept(w, after, a, g, if g != h then 0 else if fix.exactUsage then 0 - bytes else used - bytes);
  }

  lemma SettledState(w: World, fix: Repairs, h: nat, bytes: nat, a: nat, g: nat)
    requires WellFiled(w) && TransferFrom(w, h).Some? && a == Leaving(w, h)
    requires Transfers(w, h, bytes) && g < |w.inUse|
    ensures var after := Settle(w, fix, h, bytes);
            && ChangedAt(w, after, a) && after.SbAt(a) == w.SbAt(a) && after.OwnerOf(a) == 0
            && after.inUse[g] == w.inUse[g] - (if g == h then bytes else 0)
                                 - (if g == h && fix.exactUsage then w.SbAt(a).UsedBytes() else 0)
            && after.alloced[g] == w.alloced[g] - (if g == h then SUPERBLOCK_SIZE else 0)
  {
    var charged := w.AddUsage(h, 0 - bytes);
    assert WellFiled(charged) by {
      UsageKeepsFiled(w, charged);
    }
    assert TransferFrom(charged, h).Some? && a == Leaving(charged, h) by {
      SameTransfer(w, h, bytes);
    }
    TransferState(charged, fix, h, a, g);
    SettleIsTransfer(w, fix, h, bytes);
  }

  lemma SettleIsTransfer(w: World, fix: Repairs, h: nat, bytes: nat)
    requires Transfers(w, h, bytes)
    ensures var moved := Transfer(w.AddUsage(h, 0 - bytes), fix, h);
            Settle(w, fix, h, bytes) == moved.AddAlloced(h, 0 - SUPERBLOCK_SIZE)
  {
  }

  lemma TransferState(w: World, fix: Repairs, h: nat, a: nat, g: nat)
    requires WellFiled(w) && h < |w.inUse| && TransferFrom(w, h).Some? && a == Leaving(w, h)
    requires g < |w.inUse|
    ensures var after := Transfer(w, fix, h);
            && ChangedAt(w, after, a) && after.SbAt(a) == w.SbAt(a) && after.OwnerOf(a) == 0
            && after.inUse[g] == w.inUse[g] - (if g == h && fix.exactUsage then w.SbAt(a).UsedBytes() else 0)
            && after.alloced == w.alloced
  {
    MoveToGlobalFiles(w, Lost(w), h, a);
  }

  lemma SameTransfer(w: World, h: nat, bytes: int)
    requires TransferFrom(w, h).Some?
    ensures var charged := w.AddUsage(h, 0 - bytes);
            && TransferFrom(charged, h) == TransferFrom(w, h)
            && charged.List(TransferFrom(w, h).value) == w.List(TransferFrom(w, h).value)
            && charged.sbs == w.sbs
  {
    UsageKeepsTransfer(w, h, h, 0 - bytes);
  }

  /** How much the slack of heap `g` grows when `ptr` is freed. */
  ghost function FreeDrift(w: World, fix: Repairs, ptr: nat, g: nat): int {
    SettleDrift(BinFree(w, ptr), fix, w.OwnerOf(SuperblockOf(ptr)), BlockSizeAt(w, ptr), g)
  }

  /** Free keeps `alloced` exact and changes the slack by the drift alone. */
  lemma FreeCounters(w: World, fix: Repairs, ptr: nat, g: nat)
    requires WellFiled(w) && LiveAt(w, ptr) && 0 < g < |w.inUse|
    ensures var after := HeapFree(w, fix, ptr);
            && |after.inUse| == |after.alloced| == |w.inUse|
            && Excess(after, g) == Excess(w, g)
            && Slack(after, g) == Slack(w, g) + FreeDrift(w, fix, ptr, g)
            && FreeDrift(w, fix, ptr, g) >= 0
  {
    var a := SuperblockOf(ptr);
    var freed := BinFree(w, ptr);
    assert SoundAt(w, a);
    BinFreeKeepsFiling(w, ptr);
    BinFreeCounters(w, ptr, g);
    BinFreeUsage(w, ptr);
    SettleCounters(freed, fix, w.OwnerOf(a), BlockSizeAt(w, ptr), g);
  }

  lemma BinFreeUsage(w: World, ptr: nat)
    ensures BinFree(w, ptr).inUse == w.inUse && BinFree(w, ptr).alloced == w.alloced
  {
  }

  /** What free takes off `in_use` is there: the counter never wraps below zero. */
  lemma FreeDoesNotUnderflow(w: World, ptr: nat)
    requires WellFiled(w) && Accounts(w) && LiveAt(w, ptr)
    requires w.OwnerOf(SuperblockOf(ptr)) != 0
    ensures var h := w.OwnerOf(SuperblockOf(ptr));
            h < |w.inUse| && BlockSizeAt(w, ptr) <= w.inUse[h] && SUPERBLOCK_SIZE <= w.alloced[h]
  {
    var a := SuperblockOf(ptr);
    var h := w.OwnerOf(a);
    assert SoundAt(w, a);
    assert BlockSizeAt(w, ptr) <= Share(w, a, h) by {
      LiveInBin(w, ptr);
      UsedBytesBounds(w.SbAt(a));
    }
    SplitTotals(w, a, h);
    TotalNonnegative(w, h, UsedMap(w, h) - {a});
    assert Excess(w, h) == 0 && Slack(w, h) >= 0;
    assert Owned(w, h) >= 1;
  }

  lemma TotalNonnegative(w: World, h: nat, some: map<nat, int>)
    requires Sound(w) && some.Keys <= UsedMap(w, h).Keys
    requires forall a :: a in some ==> some[a] == UsedMap(w, h)[a]
    ensures 0 <= Sum(some)
  {
    forall a | a in some
      ensures 0 <= some[a]
    {
      assert SoundAt(w, a);
      UsedBytesBounds(w.SbAt(a));
    }
    SumBounds(some, 0);
  }

  /** Malloc keeps the counters sound. */
  lemma MallocAccounts(w: World, fix: Repairs, h: nat, size: nat, raw: Option<nat>)
    requires WellFiled(w) && Accounts(w) && LegalMalloc(w, h, size, raw)
    requires !Misfiles(w, fix, h, BinOf(size), raw)
    ensures Accounts(HeapAlloc(w, fix, h, size, raw).0)
  {
    MallocCounters(w, fix, h, size, raw, h);
    var after := HeapAlloc(w, fix, h, size, raw).0;
    forall g | 0 < g < |after.inUse|
      ensures Excess(after, g) == 0 && Slack(after, g) >= 0
    {
      assert Excess(w, g) == 0 && Slack(w, g) >= 0;
      MallocCounters(w, fix, h, size, raw, g);
    }
  }

  /** Free keeps the counters sound. */
  lemma FreeAccounts(w: World, fix: Repairs, ptr: nat)
    requires WellFiled(w) && Accounts(w) && LiveAt(w, ptr)
    ensures Accounts(HeapFree(w, fix, ptr))
  {
    var after := HeapFree(w, fix, ptr);
    FreeLengths(w, fix, ptr);
    forall g | 0 < g < |after.inUse|
      ensures Excess(after, g) == 0 && Slack(after, g) >= 0
    {
      assert Excess(w, g) == 0 && Slack(w, g) >= 0;
      FreeCounters(w, fix, ptr, g);
    }
  }

  lemma FreeLengths(w: World, fix: Repairs, ptr: nat)
    ensures |HeapFree(w, fix, ptr).inUse| == |w.inUse| && |HeapFree(w, fix, ptr).alloced| == |w.alloced|
  {
    BinFreeUsage(w, ptr);
    SettleKeepsBlocks(BinFree(w, ptr), fix, w.OwnerOf(SuperblockOf(ptr)), w.SbAt(SuperblockOf(ptr)).blockSize);
  }
}
