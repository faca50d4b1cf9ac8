// The table of block sizes (src/binmanager.c): its construction, for any
// half-superblock size, and the binary search that maps a request to a bin.
module SizeTables {
  import opened Layout

  // ---------- the table as a value ----------

  function AlignDown(n: nat): nat {
    n - n % MIN_BLOCK_SIZE
  }

  /** The size after `sz`: one and a half times `sz`, aligned down, then raised in steps
      of the minimum block until it exceeds `sz`. */
  function NextSize(sz: nat): (next: nat)
    ensures sz < next
  {
    Raise(AlignDown(3 * sz / 2), sz)
  }

  function Raise(n: nat, sz: nat): (r: nat)
    ensures n <= r && sz < r
    ensures r % MIN_BLOCK_SIZE == n % MIN_BLOCK_SIZE
    decreases sz + 1 - n
  {
    if n <= sz then Raise(n + MIN_BLOCK_SIZE, sz) else n
  }

  /** Four fifths of the half superblock, rounded down. */
  function Threshold(half: nat): nat {
    4 * half / 5
  }

  function TableFrom(sz: nat, half: nat): (table: seq<nat>)
    requires sz <= half
    ensures |table| > 0 && table[0] == sz
    decreases half - sz
  {
    if NextSize(sz) <= half then [sz] + TableFrom(NextSize(sz), half)
    else if sz < Threshold(half) then [sz, half]
    else [sz]
  }

  function BuildTable(half: nat): seq<nat>
    requires MIN_BLOCK_SIZE <= half
  {
    TableFrom(MIN_BLOCK_SIZE, half)
  }

  ghost predicate StrictlyIncreasing(table: seq<nat>) {
    forall i, j :: 0 <= i < j < |table| ==> table[i] < table[j]
  }

  /** The least index whose class holds `size`; the length of the table when none does. */
  function LookUp(table: seq<nat>, size: nat): (i: nat)
    ensures i <= |table|
    ensures i < |table| ==> size <= table[i]
    ensures forall k :: 0 <= k < i ==> table[k] < size
  {
    if table == [] || size <= table[0] then 0
    else
      var rest := LookUp(table[1..], size);
      assert forall k :: 0 < k < 1 + rest ==> table[k] == table[1..][k - 1];
      1 + rest
  }

  // ---------- shape of the table ----------

  /** Counted in units of the minimum block, the next size is half as large again, rounded
      down, except that one unit becomes two. */
  lemma NextSizeInUnits(k: nat)
    requires k > 0
    ensures NextSize(16 * k) == 16 * (if k == 1 then 2 else 3 * k / 2)
  {
    if k == 1 {
      assert Raise(16, 16) == Raise(32, 16) == 32;
    } else {
      AlignUnits(k);
      assert k < 3 * k / 2;
    }
  }

  lemma AlignUnits(k: nat)
    ensures AlignDown(3 * (16 * k) / 2) == 16 * (3 * k / 2)
  {
    assert 3 * (16 * k) / 2 == 24 * k;
    var half := 3 * k / 2;
    assert 24 * k == 16 * half + (if k % 2 == 0 then 0 else 8);
  }

  lemma UnitStep(k: nat)
    requires k > 0
    ensures var next := if k == 1 then 2 else 3 * k / 2; 2 * next <= 3 * k || next == k + 1
  {
  }

  lemma NextSizeBounds(sz: nat)
    requires sz > 0 && sz % MIN_BLOCK_SIZE == 0
    ensures NextSize(sz) % MIN_BLOCK_SIZE == 0
    ensures 2 * NextSize(sz) <= 3 * sz || NextSize(sz) == sz + MIN_BLOCK_SIZE
  {
    hide NextSize;
    var k := sz / MIN_BLOCK_SIZE;
    NextSizeInUnits(k);
    UnitStep(k);
  }

  /** Two steps of the construction at least double the size. */
  lemma TwoStepsDouble(sz: nat)
    requires sz > 0 && sz % MIN_BLOCK_SIZE == 0
    ensures 2 * sz <= NextSize(NextSize(sz))
  {
    var k := sz / MIN_BLOCK_SIZE;
    var next := if k == 1 then 2 else 3 * k / 2;
    NextSizeInUnits(k);
    NextSizeInUnits(next);
  }

  /** The table increases strictly from its first entry and never exceeds the half superblock;
      every entry but an appended last one is a multiple of 16; the last entry reaches the
      threshold. */
  lemma {:induction false} TableShape(sz: nat, half: nat)
    requires 0 < sz <= half && sz % MIN_BLOCK_SIZE == 0
    ensures var t := TableFrom(sz, half);
            && StrictlyIncreasing(t)
            && (forall i :: 0 <= i < |t| ==> sz <= t[i] <= half)
            && (forall i :: 0 <= i < |t| - 1 ==> t[i] % MIN_BLOCK_SIZE == 0)
            && (t[|t| - 1] % MIN_BLOCK_SIZE == 0 || t[|t| - 1] == half)
            && 4 * half / 5 <= t[|t| - 1]
    decreases half - sz
  {
    NextSizeBounds(sz);
    if NextSize(sz) <= half {
      TableShape(NextSize(sz), half);
      var rest := TableFrom(NextSize(sz), half);
      var t := TableFrom(sz, half);
      assert t == [sz] + rest;
      assert forall i :: 0 < i < |t| ==> t[i] == rest[i - 1];
    }
  }

  /** The size after a multiple of 16, in figures: half as large again, in whole units of 16. */
  function Following(sz: nat): nat {
    16 * (if sz / 16 == 1 then 2 else 3 * (sz / 16) / 2)
  }

  /** The table entry by entry: each follows the one before, up to the first whose follower exceeds
      the half superblock; the half superblock itself is appended exactly when that entry is below
      four fifths of it. */
  lemma {:induction false} TableSteps(sz: nat, half: nat) returns (m: nat)
    requires 0 < sz <= half && sz % MIN_BLOCK_SIZE == 0
    ensures var t := TableFrom(sz, half);
            && m < |t| && t[0] == sz
            && (forall i :: 0 <= i < m ==> t[i + 1] == Following(t[i]))
            && half < Following(t[m])
            && t[m + 1..] == if t[m] < 4 * half / 5 then [half] else []
    decreases half - sz
  {
    hide Following;
    FollowingIsNext(sz);
    NextSizeBounds(sz);
    var t := TableFrom(sz, half);
    if NextSize(sz) <= half {
      m := TableSteps(NextSize(sz), half);
      var rest := TableFrom(NextSize(sz), half);
      assert t == [sz] + rest;
      m := m + 1;
      assert forall i :: 0 <= i < |rest| ==> t[i + 1] == rest[i];
      assert t[m + 1..] == rest[m..];
      forall i | 0 <= i < m
        ensures t[i + 1] == Following(t[i])
      {
        assert i > 0 ==> t[i] == rest[i - 1];
      }
    } else {
      m := 0;
      assert t[1..] == if sz < 4 * half / 5 then [half] else [];
    }
  }

  /** The whole table, from its first entry, 16. */
  lemma TableIs(half: nat) returns (m: nat)
    requires MIN_BLOCK_SIZE <= half
    ensures var t := BuildTable(half);
            && m < |t| && t[0] == 16
            && (forall i :: 0 <= i < m ==> t[i + 1] == Following(t[i]))
            && half < Following(t[m])
            && t[m + 1..] == if t[m] < 4 * half / 5 then [half] else []
  {
    m := TableSteps(MIN_BLOCK_SIZE, half);
  }

  lemma FollowingIsNext(sz: nat)
    requires sz > 0 && sz % MIN_BLOCK_SIZE == 0
    ensures NextSize(sz) == Following(sz)
  {
    NextSizeInUnits(sz / MIN_BLOCK_SIZE);
  }

  function Pow2(n: nat): (p: nat)
    ensures p > 0
  {
    if n == 0 then 1 else 2 * Pow2(n - 1)
  }

  lemma {:induction false} Pow2Splits(m: nat, n: nat)
    ensures Pow2(m + n) == Pow2(m) * Pow2(n)
  {
    if m == 0 {
    } else {
      Pow2Splits(m - 1, n);
      assert Pow2(m + n) == 2 * Pow2((m - 1) + n);
      assert 2 * (Pow2(m - 1) * Pow2(n)) == (2 * Pow2(m - 1)) * Pow2(n);
    }
  }

  lemma DoublingShrinksExponent(sz: nat, after: nat, n: nat)
    requires n > 0 && 2 * sz <= after
    ensures sz * Pow2(n) <= after * Pow2(n - 1)
  {
    var p := Pow2(n - 1);
    assert sz * (2 * p) == (2 * sz) * p <= after * p;
  }

  /** A table that starts at `sz` and stays below `sz * 2^n` has at most 2n + 1 entries. */
  lemma {:induction false} TableLength(sz: nat, half: nat, n: nat)
    requires 0 < sz <= half < sz * Pow2(n) && sz % MIN_BLOCK_SIZE == 0
    ensures |TableFrom(sz, half)| <= 2 * n + 1
    decreases n
  {
    assert sz * Pow2(0) == sz;
    assert n > 0;
    var next := NextSize(sz);
    if next <= half {
      NextSizeBounds(sz);
      var after := NextSize(next);
      if after <= half {
        NextSizeBounds(next);
        TwoStepsDouble(sz);
        DoublingShrinksExponent(sz, after, n);
        TableLength(after, half, n - 1);
      }
    }
  }

  /** Up to a half superblock of 2^63 bytes, no index reaches MAX_NUM_BINS. */
  lemma TableFits(half: nat)
    requires MIN_BLOCK_SIZE <= half <= 0x8000_0000_0000_0000
    ensures |BuildTable(half)| < MAX_NUM_BINS
  {
    assert 0x8000_0000_0000_0000 < MIN_BLOCK_SIZE * Pow2(60) by {
      Pow2Splits(30, 30);
      assert Pow2(10) == 1024;
      Pow2Splits(10, 10);
      Pow2Splits(10, 20);
    }
    TableLength(MIN_BLOCK_SIZE, half, 60);
  }

  // ---------- look-up ----------

  /** Looking up a class finds its own bin: free recomputes the bin malloc used. */
  lemma LookUpOfClass(table: seq<nat>, i: nat)
    requires StrictlyIncreasing(table) && i < |table|
    ensures LookUp(table, table[i]) == i
  {
  }

  /** In a table that starts at `sz`, the class found for a request is less than half as
      large again, or less than 16 bytes larger; the appended last class included. */
  lemma {:induction false} RoundingWaste(sz: nat, half: nat, size: nat)
    requires 0 < sz <= half && sz % MIN_BLOCK_SIZE == 0
    requires sz < size
    ensures var t := TableFrom(sz, half); var i := LookUp(t, size);
            i < |t| ==> 2 * t[i] < 3 * size || t[i] < size + MIN_BLOCK_SIZE
    decreases half - sz
  {
    NextSizeBounds(sz);
    var next := NextSize(sz);
    var t := TableFrom(sz, half);
    assert LookUp(t, size) == 1 + LookUp(t[1..], size);
    if next <= half {
      assert t[1..] == TableFrom(next, half);
      if next < size {
        RoundingWaste(next, half, size);
      }
    }
  }

  /** For the whole table: every request that has a class wastes less than half of itself or
      less than 16 bytes. */
  lemma RequestWaste(half: nat, size: nat)
    requires MIN_BLOCK_SIZE <= half && 1 <= size
    ensures var t := BuildTable(half); var i := LookUp(t, size);
            i < |t| ==> 2 * t[i] < 3 * size || t[i] < size + MIN_BLOCK_SIZE
  {
    if MIN_BLOCK_SIZE < size {
      RoundingWaste(MIN_BLOCK_SIZE, half, size);
    }
  }

  // ---------- the static table ----------

  class SizeTable {
    const sizes: array<nat>
    var numSizeBins: nat
    var maxBlockSize: nat
    var initialized: bool

    constructor ()
      ensures fresh(sizes) && sizes.Length == MAX_NUM_BINS
      ensures !initialized && numSizeBins == 0
    {
      sizes := new nat[MAX_NUM_BINS];
      numSizeBins, maxBlockSize, initialized := 0, 0, false;
    }

    ghost predicate Holds(table: seq<nat>)
      reads this, sizes
    {
      && numSizeBins <= sizes.Length
      && sizes[..numSizeBins] == table
      && |table| > 0
      && maxBlockSize == table[|table| - 1]
    }

    /** Fills the table; the index never leaves the array. */
    method InitSizeTable(half: nat)
      requires sizes.Length == MAX_NUM_BINS
      requires MIN_BLOCK_SIZE <= half <= 0x8000_0000_0000_0000
      modifies this, sizes
      ensures initialized && Holds(BuildTable(half))
    {
      ghost var table := BuildTable(half);
      TableFits(half);
      var sz, idx := MIN_BLOCK_SIZE, 0;
      while true
        invariant idx < |table|
        invariant 0 < sz <= half && sz % MIN_BLOCK_SIZE == 0
        invariant table[idx..] == TableFrom(sz, half)
        invariant sizes[..idx] == table[..idx]
        decreases half - sz
      {
        sizes[idx] := sz;
        var newSz := 3 * sz / 2;
        newSz := newSz - newSz % MIN_BLOCK_SIZE;
        while newSz <= sz
          invariant Raise(newSz, sz) == NextSize(sz)
          decreases sz + 1 - newSz
        {
          newSz := newSz + MIN_BLOCK_SIZE;
        }
        NextSizeBounds(sz);
        assert table[idx] == table[idx..][0] == sz;
        assert sizes[..idx + 1] == table[..idx + 1];
        if newSz > half {
          assert table[idx..] == if sz < Threshold(half) then [sz, half] else [sz];
          break;
        }
        assert table[idx + 1..] == table[idx..][1..];
        sz := newSz;
        idx := idx + 1;
      }
      var threshold := 4 * half / 5;
      assert table == table[..idx + 1] + (if sz < threshold then [half] else []);
      if sz < threshold {
        sz := half;
        idx := idx + 1;
        sizes[idx] := sz;
      }
      numSizeBins := idx + 1;
      maxBlockSize := sz;
      initialized := true;
    }

    /** The binary search, for any request: the least index whose class holds it. */
    method Size2Idx(size: nat) returns (j: nat)
      requires numSizeBins <= sizes.Length
      requires StrictlyIncreasing(sizes[..numSizeBins])
      ensures j == LookUp(sizes[..numSizeBins], size)
    {
      ghost var table := sizes[..numSizeBins];
      ghost var answer := LookUp(table, size);
      var i := 0;
      j := numSizeBins;
      while i < j
        invariant i <= answer <= j <= numSizeBins
      {
        var s := i + (j - i) / 2;
        assert sizes[s] == table[s];
        if size > sizes[s] {
          assert forall k :: 0 <= k < s ==> table[k] < table[s];
          i := s + 1;
        } else {
          j := s;
        }
      }
    }
  }

  // ---------- the table of this allocator ----------

  const SIZE_CLASSES: seq<nat> :=
    [16, 32, 48, 64, 96, 144, 208, 304, 448, 672, 1008, 1504, 2256, 3376, 5056, 7584,
     11376, 17056, 25584, 38368, 57552, 86320, 129472]

  const NUM_SIZE_BINS: nat := 23

  /** The bin of a request. */
  function BinOf(size: nat): (b: nat)
    ensures b <= NUM_SIZE_BINS
  {
    LookUp(SIZE_CLASSES, size)
  }

  /** The block size of a bin. */
  function ClassOf(b: nat): nat {
    if b < NUM_SIZE_BINS then SIZE_CLASSES[b] else 0
  }

  lemma SuccessorClass(i: nat)
    requires i < |SIZE_CLASSES|
    ensures SIZE_CLASSES[i] % MIN_BLOCK_SIZE == 0
    ensures NextSize(SIZE_CLASSES[i]) == if i + 1 < |SIZE_CLASSES| then SIZE_CLASSES[i + 1] else 194208
  {
    hide NextSize;
    var k := SIZE_CLASSES[i] / MIN_BLOCK_SIZE;
    assert SIZE_CLASSES[i] == 16 * k;
    NextSizeInUnits(k);
  }

  lemma {:induction false} ConcreteTableFrom(i: nat)
    requires i < |SIZE_CLASSES|
    ensures SIZE_CLASSES[i] <= HALF_SB
    ensures TableFrom(SIZE_CLASSES[i], HALF_SB) == SIZE_CLASSES[i..]
    decreases |SIZE_CLASSES| - i
  {
    SuccessorClass(i);
    if i + 1 < |SIZE_CLASSES| {
      ConcreteTableFrom(i + 1);
    }
  }

  /** For the 64-bit layout the construction yields the 23 classes from 16 to 129472. */
  lemma ConcreteTable()
    ensures BuildTable(HALF_SB) == SIZE_CLASSES
  {
    ConcreteTableFrom(0);
  }

  /** A block size of the table. */
  ghost predicate IsClass(c: nat) {
    exists b :: 0 <= b < NUM_SIZE_BINS && ClassOf(b) == c
  }

  lemma ClassesIncrease()
    ensures StrictlyIncreasing(SIZE_CLASSES)
    ensures forall b :: 0 <= b < NUM_SIZE_BINS ==> MIN_BLOCK_SIZE <= ClassOf(b) <= HALF_SB && ClassOf(b) % MIN_BLOCK_SIZE == 0
  {
    ConcreteTable();
    TableShape(MIN_BLOCK_SIZE, HALF_SB);
    forall b | 0 <= b < NUM_SIZE_BINS
      ensures MIN_BLOCK_SIZE <= ClassOf(b) <= HALF_SB && ClassOf(b) % MIN_BLOCK_SIZE == 0
    {
      SuccessorClass(b);
    }
  }

  /** The bin of a class is the bin it came from: free recomputes the bin malloc used. */
  lemma BinOfClass(b: nat)
    requires b < NUM_SIZE_BINS
    ensures BinOf(ClassOf(b)) == b && IsClass(ClassOf(b))
    ensures MIN_BLOCK_SIZE <= ClassOf(b) <= HALF_SB && ClassOf(b) % MIN_BLOCK_SIZE == 0
  {
    ClassesIncrease();
    LookUpOfClass(SIZE_CLASSES, b);
  }

  lemma ClassRoundTrip(c: nat)
    requires IsClass(c)
    ensures BinOf(c) < NUM_SIZE_BINS && ClassOf(BinOf(c)) == c
    ensures MIN_BLOCK_SIZE <= c <= HALF_SB && c % MIN_BLOCK_SIZE == 0
  {
    var b :| 0 <= b < NUM_SIZE_BINS && ClassOf(b) == c;
    BinOfClass(b);
  }

  /** A request that is not too large has a class that holds it, and the least such. */
  lemma BinHoldsRequest(size: nat)
    requires size <= ClassOf(NUM_SIZE_BINS - 1)
    ensures BinOf(size) < NUM_SIZE_BINS
    ensures size <= ClassOf(BinOf(size))
    ensures forall b :: 0 <= b < BinOf(size) ==> ClassOf(b) < size
  {
  }

  /** The least payload of a full superblock, reached by classes 38368 and 57552. */
  const MIN_PAYLOAD: nat := 230208

  /** A superblock full of blocks of one class carries more than 7/8 of its size. */
  lemma FullPayload(c: nat)
    requires IsClass(c)
    ensures MIN_PAYLOAD <= TotalBlocks(c) * c
    ensures 7 * SUPERBLOCK_SIZE <= 8 * MIN_PAYLOAD
  {
  }
}
