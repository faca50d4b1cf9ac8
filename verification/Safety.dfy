// What a client may rely on: the blocks it holds are aligned, large enough, inside a
// superblock's buffer and pairwise disjoint, over every run.
module Safety {
  import opened Layout
  import opened SizeTables
  import opened SuperblockModel
  import opened Worlds
  import opened Filing
  import opened Steps

  /** Blocks in use are 16-aligned and lie inside the buffer of one superblock. */
  lemma LiveBlockPlaced(w: World, ptr: nat)
    requires Sound(w) && LiveAt(w, ptr)
    ensures ptr % MIN_BLOCK_SIZE == 0
    ensures var a := SuperblockOf(ptr);
            a + HEADER_SIZE <= ptr && ptr + BlockSizeAt(w, ptr) <= a + SUPERBLOCK_SIZE
  {
    var a := SuperblockOf(ptr);
    var sb := w.SbAt(a);
    assert SoundAt(w, a);
    var i := SlotAt(a, sb.blockSize, ptr);
    SlotInBuffer(a, sb.blockSize, i);
    BlockAligned(a, sb.blockSize, i);
  }

  /** Any two blocks in use, of whatever heaps, are disjoint. */
  lemma LiveBlocksDisjoint(w: World, p: nat, q: nat)
    requires Sound(w) && LiveAt(w, p) && LiveAt(w, q) && p < q
    ensures p + BlockSizeAt(w, p) <= q
  {
    var a, c := SuperblockOf(p), SuperblockOf(q);
    LiveBlockPlaced(w, p);
    LiveBlockPlaced(w, q);
    if a == c {
      var bs := w.SbAt(a).blockSize;
      var i, j := SlotAt(a, bs, p), SlotAt(a, bs, q);
      if j < i {
        SlotsDisjoint(a, bs, j, i);
      } else if i < j {
        SlotsDisjoint(a, bs, i, j);
      }
    } else {
      AlignedApart(a, c);
    }
  }

  lemma AlignedApart(a: nat, c: nat)
    requires a % SUPERBLOCK_SIZE == 0 && c % SUPERBLOCK_SIZE == 0 && a != c
    ensures a + SUPERBLOCK_SIZE <= c || c + SUPERBLOCK_SIZE <= a
  {
    var i, j := a / SUPERBLOCK_SIZE, c / SUPERBLOCK_SIZE;
    assert i != j;
  }

  /** Slot `i` of superblock `a` is live exactly when its address is. */
  lemma LiveSlot(w: World, a: nat, i: nat)
    requires a in w.sbs && SoundAt(w, a) && i < w.SbAt(a).Total()
    ensures var ptr := BlockAddr(a, w.SbAt(a).blockSize, i);
            && SuperblockOf(ptr) == a
            && SlotAt(a, w.SbAt(a).blockSize, ptr) == i
            && (LiveAt(w, ptr) <==> i in w.SbAt(a).Live())
  {
    var bs := w.SbAt(a).blockSize;
    MaskRecoversSuperblock(a, bs, i, BlockAddr(a, bs, i));
    SlotAtBlockAddr(a, bs, i);
  }

  // ---------- malloc ----------

  /** Changing a superblock that has no live block before or after changes no live block. */
  lemma NoneLive(w: World, after: World, a: nat, p: nat)
    requires ChangedAt(w, after, a)
    requires (after.SbAt(a) == w.SbAt(a) && a in w.sbs) || after.SbAt(a).Live() == w.SbAt(a).Live() == {}
    ensures LiveAt(after, p) <==> LiveAt(w, p)
    ensures LiveAt(w, p) ==> BlockSizeAt(after, p) == BlockSizeAt(w, p)
  {
  }

  /** Until it serves, the chosen superblock neither gains nor loses a live block. */
  lemma ObtainedLive(w: World, fix: Repairs, out: set<nat>, h: nat, b: nat, raw: Option<nat>, src: Source, a: nat, p: nat)
    requires Sound(w) && Filed(w, out) && Serves(w, h, b, raw, src, a)
    ensures LiveAt(Obtained(w, fix, h, b, src, a), p) <==> LiveAt(w, p)
    ensures LiveAt(w, p) ==> BlockSizeAt(Obtained(w, fix, h, b, src, a), p) == BlockSizeAt(w, p)
  {
    var w1 := Obtained(w, fix, h, b, src, a);
    ChosenFacts(w, out, h, b, raw, src, a);
    TakeOutKeeps(w, fix, h, b, src);
    PrepareEffect(TakeOut(w, fix, h, b, src), fix, h, ClassOf(b), src, a);
    if src.OwnRecycled? || src.GlobalRecycled? {
      assert SoundAt(w, a);
      RecycledFacts(w, out, if src.OwnRecycled? then h else 0, a);
      LiveCount(w.SbAt(a));
      assert Fresh(ClassOf(b)).Live() == {};
    } else if src.NewMapping? {
      assert w1.SbAt(a).Live() == w.SbAt(a).Live() == {};
    }
    NoneLive(w, w1, a, p);
  }

  /** Serving makes one block live that was not, and leaves the others. */
  lemma ServeLive(w: World, out: set<nat>, h: nat, b: nat, a: nat, p: nat)
    requires Ready(w, out, h, a)
    ensures var ptr := BlockAddr(a, w.SbAt(a).blockSize, w.SbAt(a).NextSlot()); var after := Serve(w, h, b, a);
            && !LiveAt(w, ptr) && LiveAt(after, ptr)
            && BlockSizeAt(after, p) == BlockSizeAt(w, p)
            && SuperblockOf(ptr) == a
            && (p != ptr ==> (LiveAt(after, p) <==> LiveAt(w, p)))
  {
    var sb := w.SbAt(a);
    var after := Serve(w, h, b, a);
    assert SoundAt(w, a);
    AllocTakesOne(sb);
    assert after.SbAt(a) == sb.Alloc() && after.sbs.Keys == w.sbs.Keys;
    LiveSlot(w, a, sb.NextSlot());
    var ptr := BlockAddr(a, sb.blockSize, sb.NextSlot());
    if p != ptr && SuperblockOf(p) == a {
      assert SlotAt(a, sb.blockSize, p) == sb.NextSlot() ==> p != BlockAddr(a, sb.blockSize, SlotAt(a, sb.blockSize, p));
    }
  }

  /** The block size of the block that malloc returns. */
  function ServedSize(w: World, fix: Repairs, h: nat, b: nat, raw: Option<nat>): nat {
    if Misfiles(w, fix, h, b, raw) then w.SbAt(Chosen(w, h, b, SourceFor(w, h, b, raw))).blockSize
    else ClassOf(b)
  }

  lemma ObtainedSize(w: World, fix: Repairs, h: nat, b: nat, raw: Option<nat>, src: Source, a: nat)
    requires WellFiled(w) && Serves(w, h, b, raw, src, a)
    ensures Obtained(w, fix, h, b, src, a).SbAt(a).blockSize == ServedSize(w, fix, h, b, raw)
  {
    ChosenFacts(w, Lost(w), h, b, raw, src, a);
    TakeOutKeeps(w, fix, h, b, src);
    PrepareEffect(TakeOut(w, fix, h, b, src), fix, h, ClassOf(b), src, a);
  }

  lemma BinAllocLive(w: World, fix: Repairs, h: nat, b: nat, raw: Option<nat>, src: Source, a: nat, p: nat)
    requires WellFiled(w) && Serves(w, h, b, raw, src, a)
    ensures var w1 := Obtained(w, fix, h, b, src, a);
            var r := BlockAddr(a, w1.SbAt(a).blockSize, w1.SbAt(a).NextSlot());
            var after := Serve(w1, h, b, a);
            && !LiveAt(w, r) && LiveAt(after, r)
            && BlockSizeAt(after, r) == ServedSize(w, fix, h, b, raw)
            && (p != r ==> (LiveAt(after, p) <==> LiveAt(w, p)))
            && (LiveAt(w, p) ==> BlockSizeAt(after, p) == BlockSizeAt(w, p))
  {
    var lost := Lost(w);
    var w1 := Obtained(w, fix, h, b, src, a);
    var r := BlockAddr(a, w1.SbAt(a).blockSize, w1.SbAt(a).NextSlot());
    ObtainedReady(w, fix, lost, h, b, raw, src, a);
    ObtainedSize(w, fix, h, b, raw, src, a);
    ServeLive(w1, lost + Dropped(w, fix, h, src) + {a}, h, b, a, p);
    ServeLive(w1, lost + Dropped(w, fix, h, src) + {a}, h, b, a, r);
    ObtainedLive(w, fix, lost, h, b, raw, src, a, p);
    ObtainedLive(w, fix, lost, h, b, raw, src, a, r);
  }

  /** Malloc fails exactly when no list can serve the request and nothing can be mapped. When
      it succeeds the result was not in use before and is now; no other block changes. */
  lemma MallocLive(w: World, fix: Repairs, h: nat, size: nat, raw: Option<nat>, p: nat)
    requires WellFiled(w) && LegalMalloc(w, h, size, raw)
    ensures var (after, r) := HeapAlloc(w, fix, h, size, raw); var b := BinOf(size);
            && (r.None? <==> SourceFor(w, h, b, raw).NoMemory?)
            && (r.Some? ==> !LiveAt(w, r.value) && LiveAt(after, r.value)
                            && BlockSizeAt(after, r.value) == ServedSize(w, fix, h, b, raw))
            && (r != Some(p) ==> (LiveAt(after, p) <==> LiveAt(w, p)))
            && (LiveAt(w, p) ==> BlockSizeAt(after, p) == BlockSizeAt(w, p))
  {
    BinHoldsRequest(size);
    var b := BinOf(size);
    var src := SourceFor(w, h, b, raw);
    if !src.NoMemory? {
      var a := Chosen(w, h, b, src);
      BinAllocLive(w, fix, h, b, raw, src, a, p);
      assert BinAlloc(w, fix, h, b, ClassOf(b), raw).0 == Serve(Obtained(w, fix, h, b, src, a), h, b, a);
    }
  }

  // ---------- free ----------

  lemma ReleaseLive(a: nat, sb: Sb, ptr: nat, p: nat)
    requires sb.Valid() && IsLive(a, sb, ptr)
    ensures IsLive(a, sb.Release(SlotAt(a, sb.blockSize, ptr)), p) <==> IsLive(a, sb, p) && p != ptr
  {
    ReleaseReturnsOne(sb, SlotAt(a, sb.blockSize, ptr));
  }

  lemma BinFreeLive(w: World, ptr: nat, p: nat)
    requires WellFiled(w) && LiveAt(w, ptr)
    ensures LiveAt(BinFree(w, ptr), p) <==> LiveAt(w, p) && p != ptr
    ensures BlockSizeAt(BinFree(w, ptr), p) == BlockSizeAt(w, p)
  {
    var a := SuperblockOf(ptr);
    BinFreeFiles(w, ptr);
    assert SoundAt(w, a);
    ReleaseLive(a, w.SbAt(a), ptr, p);
  }

  /** Free ends the use of its block and of no other. */
  lemma FreeLive(w: World, fix: Repairs, ptr: nat, p: nat)
    requires WellFiled(w) && LiveAt(w, ptr)
    ensures var after := HeapFree(w, fix, ptr);
            && (LiveAt(after, p) <==> LiveAt(w, p) && p != ptr)
            && BlockSizeAt(after, p) == BlockSizeAt(w, p)
  {
    var a := SuperblockOf(ptr);
    BinFreeLive(w, ptr, p);
    SettleKeepsBlocks(BinFree(w, ptr), fix, w.OwnerOf(a), w.SbAt(a).blockSize);
    SameBlocks(BinFree(w, ptr), HeapFree(w, fix, ptr), p);
  }

  lemma SameBlocks(w: World, after: World, p: nat)
    requires after.sbs == w.sbs
    ensures LiveAt(after, p) <==> LiveAt(w, p)
    ensures BlockSizeAt(after, p) == BlockSizeAt(w, p)
  {
  }
}
