// Constants of the allocator, and the address arithmetic of a superblock.
//
// Addresses are natural numbers; 0 is NULL. The header size is that of the
// 64-bit Linux layout with a 40-byte pthread mutex.
module Layout {
  const SUPERBLOCK_SIZE: nat := 262144
  const HEADER_SIZE: nat := 128
  const BUFFER_SIZE: nat := SUPERBLOCK_SIZE - HEADER_SIZE
  const HALF_SB: nat := BUFFER_SIZE / 2
  const MIN_BLOCK_SIZE: nat := 16
  const WORD_SIZE: nat := 8
  const MAX_NUM_BINS: nat := 128
  const NUM_EMPTINESS_CLASSES: nat := 5
  const FREE_SB_THRESH: nat := 4

  datatype Option<+T> = None | Some(value: T)

  /** The start of the superblock an address lies in: the address with its low
      18 bits cleared. */
  function SuperblockOf(ptr: nat): nat {
    ptr - ptr % SUPERBLOCK_SIZE
  }

  /** The address of slot `i` of the superblock at `base`. */
  function BlockAddr(base: nat, blockSize: nat, i: nat): nat {
    base + HEADER_SIZE + i * blockSize
  }

  /** The number of blocks a superblock is cut into. */
  function TotalBlocks(blockSize: nat): nat {
    if blockSize == 0 then 0 else BUFFER_SIZE / blockSize
  }

  lemma TotalBlocksBounds(blockSize: nat)
    requires MIN_BLOCK_SIZE <= blockSize <= HALF_SB
    ensures 2 <= TotalBlocks(blockSize)
    ensures TotalBlocks(blockSize) * blockSize <= BUFFER_SIZE
  {
    var t := TotalBlocks(blockSize);
    assert t == BUFFER_SIZE / blockSize;
    assert BUFFER_SIZE < (t + 1) * blockSize;
    assert 1 < t || (t + 1) * blockSize <= 2 * blockSize;
  }

  /** A superblock is cut into as many blocks as fit. */
  lemma BlocksFill(blockSize: nat)
    requires 0 < blockSize
    ensures TotalBlocks(blockSize) * blockSize <= BUFFER_SIZE < (TotalBlocks(blockSize) + 1) * blockSize
  {
  }

  /** On 64-bit words, masking with ~(SUPERBLOCK_SIZE - 1) is subtracting the remainder. */
  lemma MaskClearsRemainder(x: bv64)
    ensures x & !(0x40000 - 1) == x - x % 0x40000
  {
  }

  /** Slot `i` lies inside the buffer of its superblock. */
  lemma SlotInBuffer(base: nat, blockSize: nat, i: nat)
    requires i < TotalBlocks(blockSize)
    ensures base + HEADER_SIZE <= BlockAddr(base, blockSize, i)
    ensures BlockAddr(base, blockSize, i) + blockSize <= base + SUPERBLOCK_SIZE
  {
    var t := TotalBlocks(blockSize);
    assert t * blockSize <= BUFFER_SIZE;
    assert (i + 1) * blockSize <= t * blockSize;
    assert (i + 1) * blockSize == i * blockSize + blockSize;
  }

  /** Clearing the low bits of any address within a slot recovers the superblock. */
  lemma MaskRecoversSuperblock(base: nat, blockSize: nat, i: nat, ptr: nat)
    requires base % SUPERBLOCK_SIZE == 0
    requires i < TotalBlocks(blockSize)
    requires BlockAddr(base, blockSize, i) <= ptr < BlockAddr(base, blockSize, i) + blockSize
    ensures SuperblockOf(ptr) == base
  {
    SlotInBuffer(base, blockSize, i);
  }

  /** Two different slots of one superblock do not overlap. */
  lemma SlotsDisjoint(base: nat, blockSize: nat, i: nat, j: nat)
    requires i < j
    ensures BlockAddr(base, blockSize, i) + blockSize <= BlockAddr(base, blockSize, j)
  {
    assert (i + 1) * blockSize <= j * blockSize;
    assert (i + 1) * blockSize == i * blockSize + blockSize;
  }

  lemma BlockAddrNext(base: nat, blockSize: nat, i: nat)
    ensures BlockAddr(base, blockSize, i + 1) == BlockAddr(base, blockSize, i) + blockSize
  {
    assert (i + 1) * blockSize == i * blockSize + blockSize;
  }

  /** The slot number of a block address. */
  function SlotAt(base: nat, blockSize: nat, ptr: nat): nat {
    if blockSize == 0 || ptr < base + HEADER_SIZE then 0 else (ptr - base - HEADER_SIZE) / blockSize
  }

  lemma SlotAtBlockAddr(base: nat, blockSize: nat, i: nat)
    requires 0 < blockSize
    ensures SlotAt(base, blockSize, BlockAddr(base, blockSize, i)) == i
  {
    var q := i * blockSize / blockSize;
    assert q * blockSize <= i * blockSize < (q + 1) * blockSize;
    assert q == i;
  }

  /** Blocks of an aligned superblock with an aligned block size are aligned. */
  lemma BlockAligned(base: nat, blockSize: nat, i: nat)
    requires base % SUPERBLOCK_SIZE == 0 && blockSize % MIN_BLOCK_SIZE == 0
    ensures BlockAddr(base, blockSize, i) % MIN_BLOCK_SIZE == 0
  {
    var k := blockSize / MIN_BLOCK_SIZE;
    assert i * blockSize == MIN_BLOCK_SIZE * (i * k);
    assert base % MIN_BLOCK_SIZE == 0;
  }
}
