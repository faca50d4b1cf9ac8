// A superblock (src/superblock.c): blocks are handed out first by a bump cursor and
// then from a LIFO free list threaded through the free blocks themselves.
module SuperblockModel {
  import opened Layout

  ghost predicate NoDup<T>(s: seq<T>) {
    forall i, j :: 0 <= i < j < |s| ==> s[i] != s[j]
  }

  /** What the size table guarantees of every block size. */
  predicate BlockSizeOk(c: nat) {
    MIN_BLOCK_SIZE <= c <= HALF_SB && c % MIN_BLOCK_SIZE == 0
  }

  /** What a superblock's fields and free list stand for: slots 0 .. carved - 1 have been
      handed out at least once, and `free` lists the slots on the free list, head first. */
  datatype Sb = Sb(blockSize: nat, carved: nat, free: seq<nat>) {

    function Total(): nat {
      TotalBlocks(blockSize)
    }

    ghost predicate Valid() {
      && BlockSizeOk(blockSize)
      && carved <= Total()
      && NoDup(free)
      && forall i :: 0 <= i < |free| ==> free[i] < carved
    }

    /** Slots never handed out, and slots given back. */
    function NumFree(): int {
      Total() - carved + |free|
    }

    /** The slots in the hands of clients. */
    function Live(): set<nat> {
      set i | 0 <= i < carved && i !in free
    }

    predicate Empty() {
      NumFree() == Total()
    }

    function UsedBlocks(): int {
      Total() - NumFree()
    }

    function UsedBytes(): int {
      UsedBlocks() * blockSize
    }

    /** The slot the next allocation returns; meant for a superblock with a free block. */
    function NextSlot(): nat {
      if carved < Total() || free == [] then carved else free[0]
    }

    function Alloc(): Sb {
      if carved < Total() then this.(carved := carved + 1)
      else if free == [] then this
      else this.(free := free[1..])
    }

    function Release(i: nat): Sb {
      this.(free := [i] + free)
    }

    /** Emptiness class: 4 minus the number of full quarters; 0 when full. */
    function Eidx(): int {
      if Total() == 0 then 0
      else NUM_EMPTINESS_CLASSES - 1 - UsedBlocks() * (NUM_EMPTINESS_CLASSES - 1) / Total()
    }
  }

  /** A superblock just reset for a block size: nothing handed out. */
  function Fresh(blockSize: nat): Sb {
    Sb(blockSize, 0, [])
  }

  lemma FreshValid(c: nat)
    requires BlockSizeOk(c)
    ensures Fresh(c).Valid() && Fresh(c).Empty() && Fresh(c).Live() == {}
    ensures 2 <= Fresh(c).Total()
  {
    TotalBlocksBounds(c);
  }

  // ---------- free and live blocks partition the slots ----------

  function Below(n: nat): (s: set<nat>)
    ensures forall i :: i in s <==> 0 <= i < n
    ensures |s| == n
  {
    if n == 0 then {} else Below(n - 1) + {n - 1}
  }

  function Elements<T(==,!new)>(s: seq<T>): (r: set<T>)
    ensures forall x :: x in r <==> x in s
  {
    set x | x in s
  }

  lemma {:induction false} NoDupSize<T(!new)>(s: seq<T>)
    requires NoDup(s)
    ensures |Elements(s)| == |s|
  {
    if s == [] {
    } else {
      NoDupSize(s[1..]);
      assert s == [s[0]] + s[1..];
      assert s[0] !in s[1..];
      assert Elements(s) == {s[0]} + Elements(s[1..]);
    }
  }

  /** The live blocks are exactly the slots that the free counter does not count. */
  lemma LiveCount(sb: Sb)
    requires sb.Valid()
    ensures |sb.Live()| == sb.UsedBlocks()
    ensures 0 <= sb.UsedBlocks() <= sb.Total()
    ensures sb.Empty() <==> sb.Live() == {}
  {
    var handedOut := Below(sb.carved);
    var given := Elements(sb.free);
    NoDupSize(sb.free);
    assert given <= handedOut;
    assert sb.Live() == handedOut - given;
    assert |handedOut - given| == |handedOut| - |given|;
  }

  /** Allocation returns a slot that was free and makes exactly that slot live. */
  lemma AllocTakesOne(sb: Sb)
    requires sb.Valid() && sb.NumFree() > 0
    ensures sb.Alloc().Valid()
    ensures sb.NextSlot() < sb.Total() && sb.NextSlot() !in sb.Live()
    ensures sb.Alloc().Live() == sb.Live() + {sb.NextSlot()}
    ensures sb.Alloc().NumFree() == sb.NumFree() - 1
  {
    var after := sb.Alloc();
    if sb.carved < sb.Total() {
      assert sb.carved !in sb.free;
    } else {
      LiveCount(sb);
      assert sb.free == [sb.free[0]] + sb.free[1..];
      assert sb.free[0] !in sb.free[1..];
    }
  }

  /** Freeing a live slot makes exactly that slot free. */
  lemma ReleaseReturnsOne(sb: Sb, i: nat)
    requires sb.Valid() && i in sb.Live()
    ensures sb.Release(i).Valid()
    ensures sb.Release(i).Live() == sb.Live() - {i}
    ensures sb.Release(i).NumFree() == sb.NumFree() + 1
    ensures sb.Release(i).NumFree() > 0
  {
    LiveCount(sb);
  }

  /** Blocks never handed out go first, in address order. */
  lemma CarvesFirst(sb: Sb)
    requires sb.Valid() && sb.carved < sb.Total()
    ensures sb.NextSlot() == sb.carved
    ensures sb.Alloc() == sb.(carved := sb.carved + 1)
  {
  }

  /** When all blocks have been handed out once, the block freed last goes first, and handing it
      out undoes the free. */
  lemma LastFreedFirst(sb: Sb, i: nat)
    requires sb.Valid() && i in sb.Live() && sb.carved == sb.Total()
    ensures sb.Release(i).NextSlot() == i
    ensures sb.Release(i).Alloc() == sb
  {
  }

  // ---------- any sequence of operations ----------

  datatype SbOp = AllocBlock | FreeBlock(slot: nat)

  /** Allocate only while a block is free; free only live blocks. */
  ghost predicate LegalOps(sb: Sb, ops: seq<SbOp>)
    requires sb.Valid()
    decreases |ops|
  {
    if ops == [] then true
    else match ops[0]
      case AllocBlock =>
        && sb.NumFree() > 0
        && (AllocTakesOne(sb); LegalOps(sb.Alloc(), ops[1..]))
      case FreeBlock(i) =>
        && i in sb.Live()
        && (ReleaseReturnsOne(sb, i); LegalOps(sb.Release(i), ops[1..]))
  }

  ghost function RunOps(sb: Sb, ops: seq<SbOp>): Sb
    requires sb.Valid() && LegalOps(sb, ops)
    decreases |ops|
  {
    if ops == [] then sb
    else match ops[0]
      case AllocBlock => AllocTakesOne(sb); RunOps(sb.Alloc(), ops[1..])
      case FreeBlock(i) => ReleaseReturnsOne(sb, i); RunOps(sb.Release(i), ops[1..])
  }

  function CountAllocs(ops: seq<SbOp>): nat {
    if ops == [] then 0 else (if ops[0].AllocBlock? then 1 else 0) + CountAllocs(ops[1..])
  }

  /** After any legal sequence the free list is still duplicate-free below the cursor, free
      and live slots partition the slots, and the number of live slots is allocations
      minus frees. */
  lemma {:induction false} RunPartitions(sb: Sb, ops: seq<SbOp>)
    requires sb.Valid() && LegalOps(sb, ops)
    ensures var r := RunOps(sb, ops);
            && r.Valid() && r.blockSize == sb.blockSize
            && |r.Live()| + r.NumFree() == r.Total()
            && |r.Live()| == |sb.Live()| + CountAllocs(ops) - (|ops| - CountAllocs(ops))
    decreases |ops|
  {
    LiveCount(sb);
    if ops == [] {
    } else {
      match ops[0]
      case AllocBlock =>
        AllocTakesOne(sb);
        LiveCount(sb.Alloc());
        RunPartitions(sb.Alloc(), ops[1..]);
      case FreeBlock(i) =>
        ReleaseReturnsOne(sb, i);
        LiveCount(sb.Release(i));
        RunPartitions(sb.Release(i), ops[1..]);
    }
  }

  /** `ptr` is the address of a live slot of the superblock at `base`. */
  ghost predicate IsLive(base: nat, sb: Sb, ptr: nat) {
    && SlotAt(base, sb.blockSize, ptr) in sb.Live()
    && ptr == BlockAddr(base, sb.blockSize, SlotAt(base, sb.blockSize, ptr))
  }

  // ---------- emptiness classes ----------

  lemma Quarters(u: int, t: int)
    requires 0 <= u <= t && 0 < t
    ensures 0 <= u * 4 / t <= 4
    ensures u * 4 / t == 4 <==> u == t
  {
    var q := u * 4 / t;
    assert q * t <= u * 4 < (q + 1) * t;
    assert q < 5 || 5 * t <= q * t;
    assert 0 <= q || (q + 1) * t <= 0;
  }

  /** The class is one of the five; it is 0 exactly when the superblock is full. */
  lemma EidxRange(sb: Sb)
    requires sb.Valid()
    ensures 0 <= sb.Eidx() < NUM_EMPTINESS_CLASSES
    ensures sb.Eidx() == 0 <==> sb.NumFree() == 0
  {
    LiveCount(sb);
    TotalBlocksBounds(sb.blockSize);
    Quarters(sb.UsedBlocks(), sb.Total());
  }

  /** The class counts quarters: class e means that at least 4 - e quarters of the blocks, and
      less than 5 - e, are in use. */
  lemma EidxQuarters(sb: Sb)
    requires sb.Valid()
    ensures (4 - sb.Eidx()) * sb.Total() <= 4 * sb.UsedBlocks() < (5 - sb.Eidx()) * sb.Total()
  {
    TotalBlocksBounds(sb.blockSize);
    QuartersHold(4 * sb.UsedBlocks(), sb.Total());
  }

  lemma QuartersHold(u: int, t: int)
    requires t > 0
    ensures u / t * t <= u < (u / t + 1) * t
  {
  }

  /** A superblock of the same or a fuller class is less than a quarter emptier. */
  lemma FullerByClass(x: Sb, y: Sb)
    requires x.Valid() && y.Valid() && x.Eidx() <= y.Eidx()
    ensures 4 * y.UsedBlocks() * x.Total() < (4 * x.UsedBlocks() + x.Total()) * y.Total()
  {
    EidxQuarters(x);
    EidxQuarters(y);
    TotalBlocksBounds(x.blockSize);
    TotalBlocksBounds(y.blockSize);
    QuartersCompare(x.UsedBlocks(), x.Total(), x.Eidx(), y.UsedBlocks(), y.Total(), y.Eidx());
  }

  lemma QuartersCompare(u: int, t: int, e: int, v: int, s: int, f: int)
    requires t > 0 && s > 0 && e <= f
    requires (4 - e) * t <= 4 * u && 4 * v < (5 - f) * s
    ensures 4 * v * t < (4 * u + t) * s
  {
    calc {
      4 * v * t;
    <
      (5 - f) * s * t;
    <= { assert (5 - f) * (s * t) <= (5 - e) * (s * t); }
      (5 - e) * s * t;
    ==
      ((4 - e) * t + t) * s;
    <=
      (4 * u + t) * s;
    }
  }

  lemma UsedBytesBounds(sb: Sb)
    requires sb.Valid()
    ensures 0 <= sb.UsedBytes() <= BUFFER_SIZE
    ensures sb.Empty() ==> sb.UsedBytes() == 0
    ensures !sb.Empty() ==> sb.blockSize <= sb.UsedBytes()
    ensures sb.NumFree() == 0 ==> sb.UsedBytes() == TotalBlocks(sb.blockSize) * sb.blockSize
  {
    var u, t, c := sb.UsedBlocks(), sb.Total(), sb.blockSize;
    assert 0 <= u <= t by {
      LiveCount(sb);
    }
    assert t * c <= BUFFER_SIZE by {
      TotalBlocksBounds(c);
    }
    ProductBounds(u, t, c);
  }

  lemma ProductBounds(u: nat, t: nat, c: nat)
    requires u <= t
    ensures 0 <= u * c <= t * c
    ensures 0 < u ==> c <= u * c
  {
    if 0 < u {
      assert u * c == c + (u - 1) * c;
    }
  }

  lemma AllocUsed(sb: Sb)
    requires sb.Valid() && sb.NumFree() > 0
    ensures sb.Alloc().UsedBytes() == sb.UsedBytes() + sb.blockSize
    ensures !sb.Alloc().Empty()
  {
    AllocTakesOne(sb);
    LiveCount(sb);
    assert (sb.UsedBlocks() + 1) * sb.blockSize == sb.UsedBlocks() * sb.blockSize + sb.blockSize;
  }

  lemma ReleaseUsed(sb: Sb, i: nat)
    requires sb.Valid() && i in sb.Live()
    ensures sb.Release(i).UsedBytes() == sb.UsedBytes() - sb.blockSize
    ensures !sb.Empty()
  {
    ReleaseReturnsOne(sb, i);
    LiveCount(sb);
    assert (sb.UsedBlocks() - 1) * sb.blockSize == sb.UsedBlocks() * sb.blockSize - sb.blockSize;
  }
}

// The superblock as the program holds it: header fields and a buffer whose free blocks
// carry the links of the free list.
module Superblocks {
  import opened Layout
  import opened SuperblockModel

  /** Where in the buffer, counted in words, slot `i` starts. */
  function WordAt(blockSize: nat, i: nat): nat {
    i * blockSize / WORD_SIZE
  }

  /** The word index that the code computes from a block's address. */
  lemma WordOfAddress(base: nat, blockSize: nat, i: nat)
    requires BlockSizeOk(blockSize)
    ensures blockSize % WORD_SIZE == 0 && WORD_SIZE <= blockSize
    ensures (BlockAddr(base, blockSize, i) - (base + HEADER_SIZE)) / WORD_SIZE == WordAt(blockSize, i)
  {
  }

  lemma WordInBuffer(blockSize: nat, i: nat, k: nat)
    requires blockSize % WORD_SIZE == 0
    requires i < TotalBlocks(blockSize) && (k + 1) * WORD_SIZE <= blockSize
    ensures WordAt(blockSize, i) + k < BUFFER_SIZE / WORD_SIZE
  {
    SlotInBuffer(0, blockSize, i);
    WordExact(blockSize, i);
  }

  lemma WordExact(blockSize: nat, i: nat)
    requires blockSize % WORD_SIZE == 0
    ensures WordAt(blockSize, i) * WORD_SIZE == i * blockSize
  {
    var k := blockSize / WORD_SIZE;
    assert i * blockSize == WORD_SIZE * (i * k);
  }

  /** A word of one slot is never the first word of another slot. */
  lemma WordsApart(blockSize: nat, i: nat, k: nat, j: nat)
    requires blockSize % WORD_SIZE == 0 && i != j
    requires (k + 1) * WORD_SIZE <= blockSize
    ensures WordAt(blockSize, i) + k != WordAt(blockSize, j)
  {
    WordExact(blockSize, i);
    WordExact(blockSize, j);
    if i < j {
      SlotsDisjoint(0, blockSize, i, j);
    } else {
      SlotsDisjoint(0, blockSize, j, i);
    }
  }

  /** The addresses of word `k` of a slot are those that fall in it. */
  lemma AddressInWord(base: nat, blockSize: nat, i: nat, k: nat, addr: nat)
    requires blockSize % WORD_SIZE == 0 && base + HEADER_SIZE <= addr
    ensures (addr - base - HEADER_SIZE) / WORD_SIZE == WordAt(blockSize, i) + k <==>
            BlockAddr(base, blockSize, i) + k * WORD_SIZE <= addr < BlockAddr(base, blockSize, i) + k * WORD_SIZE + WORD_SIZE
  {
    WordExact(blockSize, i);
  }

  class Superblock {
    const base: nat
    const buf: array<nat>
    var owner: nat
    var blockSize: nat
    var totalBlocks: nat
    var prev: Superblock?
    var next: Superblock?
    var reapableBlocks: nat
    var numFreeBlocks: nat
    var freeList: nat
    var bufferStart: nat
    var reapPosition: nat
    ghost var Free: seq<nat>  // the slots on the free list, head first

    ghost predicate Valid()
      reads `blockSize, `totalBlocks, `reapableBlocks, `numFreeBlocks, `freeList, `bufferStart, `reapPosition, `Free, buf
    {
      && base > 0 && base % SUPERBLOCK_SIZE == 0
      && buf.Length == BUFFER_SIZE / WORD_SIZE
      && reapableBlocks <= totalBlocks == TotalBlocks(blockSize)
      && View().Valid()
      && numFreeBlocks == reapableBlocks + |Free|
      && bufferStart == base + HEADER_SIZE
      && reapPosition == BlockAddr(base, blockSize, totalBlocks - reapableBlocks)
      && freeList == Link(0)
      && Threaded()
    }

    /** The value the fields stand for. */
    ghost function View(): Sb
      reads `blockSize, `totalBlocks, `reapableBlocks, `Free
    {
      Sb(blockSize, if reapableBlocks <= totalBlocks then totalBlocks - reapableBlocks else 0, Free)
    }

    /** The address of the k-th free block; NULL past the end. */
    ghost function Link(k: nat): nat
      reads `blockSize, `Free
    {
      if k < |Free| then BlockAddr(base, blockSize, Free[k]) else 0
    }

    /** The first word of each free block holds the address of the next one. */
    ghost predicate Threaded()
      reads `blockSize, `Free, buf
    {
      forall k :: 0 <= k < |Free| ==>
        WordAt(blockSize, Free[k]) < buf.Length && buf[WordAt(blockSize, Free[k])] == Link(k + 1)
    }

    /** `ptr` is the address of a block in the hands of a client. */
    ghost predicate HoldsLive(ptr: nat)
      reads `blockSize, `totalBlocks, `reapableBlocks, `Free
    {
      IsLive(base, View(), ptr)
    }

    lemma WholeWords()
      requires Valid()
      ensures blockSize % WORD_SIZE == 0 && base % SUPERBLOCK_SIZE == 0 && View().Valid()
    {
      hide Threaded;
      WordOfAddress(base, blockSize, 0);
    }

    constructor (base: nat, blockSize: nat)
      requires base > 0 && base % SUPERBLOCK_SIZE == 0 && BlockSizeOk(blockSize)
      ensures Valid() && View() == Fresh(blockSize)
      ensures this.base == base && fresh(buf)
    {
      this.base := base;
      this.buf := new nat[BUFFER_SIZE / WORD_SIZE];
      new;
      Reset(blockSize);
    }

    method Reset(blockSize: nat)
      requires base > 0 && base % SUPERBLOCK_SIZE == 0 && buf.Length == BUFFER_SIZE / WORD_SIZE
      requires BlockSizeOk(blockSize)
      modifies `blockSize, `totalBlocks, `prev, `next, `reapableBlocks, `numFreeBlocks, `freeList, `bufferStart, `reapPosition, `Free
      ensures Valid() && View() == Fresh(blockSize)
      ensures prev == null && next == null
    {
      this.blockSize := blockSize;
      totalBlocks := BUFFER_SIZE / blockSize;
      prev, next := null, null;
      reapableBlocks, numFreeBlocks := totalBlocks, totalBlocks;
      freeList := 0;
      bufferStart := base + HEADER_SIZE;
      reapPosition := bufferStart;
      Free := [];
    }

    method Alloc() returns (ptr: nat)
      requires Valid() && numFreeBlocks > 0
      modifies `reapPosition, `reapableBlocks, `freeList, `numFreeBlocks, `Free
      ensures Valid()
      ensures View() == old(View()).Alloc()
      ensures ptr == BlockAddr(base, blockSize, old(View()).NextSlot())
      ensures ptr == if old(reapableBlocks) > 0 then old(reapPosition) else old(freeList)
    {
      assert View().Alloc().Valid() by {
        AllocTakesOne(View());
      }
      assert View().NextSlot() == if reapableBlocks > 0 then totalBlocks - reapableBlocks else Free[0];
      if reapableBlocks > 0 {
        ptr := reapPosition;
        BlockAddrNext(base, blockSize, totalBlocks - reapableBlocks);
        reapPosition := reapPosition + blockSize;
        reapableBlocks := reapableBlocks - 1;
      } else {
        ptr := freeList;
        WordOfAddress(base, blockSize, Free[0]);
        freeList := buf[(freeList - bufferStart) / WORD_SIZE];
        Free := Free[1..];
      }
      numFreeBlocks := numFreeBlocks - 1;
    }

    /** A misaligned pointer is ignored. Of the buffer only the first word of the freed block is
        written. */
    method Release(ptr: nat)
      requires Valid()
      requires ptr % MIN_BLOCK_SIZE == 0 ==> HoldsLive(ptr)
      modifies `freeList, `numFreeBlocks, `Free, buf
      ensures Valid()
      ensures View() == if ptr % MIN_BLOCK_SIZE != 0 then old(View())
                        else old(View()).Release(SlotAt(base, blockSize, ptr))
      ensures ptr % MIN_BLOCK_SIZE != 0 ==> unchanged(buf)
      ensures forall w :: 0 <= w < buf.Length && w != WordAt(blockSize, SlotAt(base, blockSize, ptr)) ==> buf[w] == old(buf[w])
    {
      if ptr % MIN_BLOCK_SIZE != 0 {
        return;
      }
      ghost var i := SlotAt(base, blockSize, ptr);
      assert View().Release(i).Valid() && i < TotalBlocks(blockSize) by {
        ReleaseReturnsOne(View(), i);
      }
      WordOfAddress(base, blockSize, i);
      assert WordAt(blockSize, i) < buf.Length by {
        WordInBuffer(blockSize, i, 0);
      }
      forall k | 0 <= k < |Free|
        ensures WordAt(blockSize, Free[k]) != WordAt(blockSize, i)
      {
        WordsApart(blockSize, i, 0, Free[k]);
      }
      buf[(ptr - bufferStart) / WORD_SIZE] := freeList;
      freeList := ptr;
      Free := [i] + Free;
      numFreeBlocks := numFreeBlocks + 1;
    }

    /** Whatever a client stores into the words of a block it holds, the free list in the
        buffer stays as it is. */
    method ClientWrite(ptr: nat, k: nat, value: nat)
      requires Valid() && HoldsLive(ptr)
      requires (k + 1) * WORD_SIZE <= blockSize
      modifies buf
      ensures Valid()
      ensures WordAt(blockSize, SlotAt(base, blockSize, ptr)) + k < buf.Length
      ensures buf[WordAt(blockSize, SlotAt(base, blockSize, ptr)) + k] == value
      ensures forall w :: 0 <= w < buf.Length && w != WordAt(blockSize, SlotAt(base, blockSize, ptr)) + k ==> buf[w] == old(buf[w])
    {
      ghost var i := SlotAt(base, blockSize, ptr);
      WordOfAddress(base, blockSize, i);
      WordInBuffer(blockSize, i, k);
      forall j | 0 <= j < |Free|
        ensures WordAt(blockSize, Free[j]) != WordAt(blockSize, i) + k
      {
        WordsApart(blockSize, i, k, Free[j]);
      }
      buf[(ptr - bufferStart) / WORD_SIZE + k] := value;
    }

    method IsEmpty() returns (empty: bool)
      requires Valid()
      ensures empty == View().Empty()
    {
      empty := numFreeBlocks == totalBlocks;
    }

    method UsedBytes() returns (bytes: nat)
      requires Valid()
      ensures bytes == View().UsedBytes()
    {
      LiveCount(View());
      UsedBytesBounds(View());
      bytes := (totalBlocks - numFreeBlocks) * blockSize;
    }

    method GetEidx() returns (eidx: nat)
      requires Valid()
      ensures eidx == View().Eidx() < NUM_EMPTINESS_CLASSES
    {
      LiveCount(View());
      EidxRange(View());
      TotalBlocksBounds(blockSize);
      var numFullBlocks := totalBlocks - numFreeBlocks;
      var fullness := numFullBlocks * (NUM_EMPTINESS_CLASSES - 1) / totalBlocks;
      eidx := NUM_EMPTINESS_CLASSES - 1 - fullness;
    }
  }
}
