// The whole allocator as a value, and what malloc and free do to it (src/heap.c): the
// specification that the classes of the heap refine. Superblocks are named by their
// addresses, heaps by numbers; heap 0 is the global heap.
module Worlds {
  import opened Layout
  import opened Mapping
  import opened SizeTables
  import opened SuperblockModel
  import opened BinManagers

  /** A list a superblock can be in. */
  datatype Place = InBin(heap: nat, bin: nat, eidx: nat) | Recycled(heap: nat)

  /** Which departures of the program from its evident intent are repaired.
      nextFirst: bin_alloc reads a recycled superblock's `next` before resetting it.
      resetAdopted: a superblock from the global recycling list is reset to the new class.
      exactUsage: a transfer takes the superblock's used bytes off `in_use`, and a failed
      allocation is not charged. */
  datatype Repairs = Repairs(nextFirst: bool, resetAdopted: bool, exactUsage: bool)

  const AS_WRITTEN: Repairs := Repairs(false, false, false)

  function ListIn(lists: map<Place, seq<nat>>, p: Place): seq<nat> {
    if p in lists then lists[p] else []
  }

  function CountIn(nonfull: map<(nat, nat), int>, h: nat, b: nat): int {
    if (h, b) in nonfull then nonfull[(h, b)] else 0
  }

  datatype World = World(
    sbs: map<nat, Sb>,             // the superblocks ever mapped
    owner: map<nat, nat>,
    lists: map<Place, seq<nat>>,   // absent means empty
    nonfull: map<(nat, nat), int>, // the cached counters, by heap and bin; absent means 0
    inUse: seq<int>,
    alloced: seq<int>)
  {
    function List(p: Place): seq<nat> {
      ListIn(lists, p)
    }

    function Nonfull(h: nat, b: nat): int {
      CountIn(nonfull, h, b)
    }

    function SbAt(a: nat): Sb {
      if a in sbs then sbs[a] else Fresh(0)
    }

    function OwnerOf(a: nat): nat {
      if a in owner then owner[a] else 0
    }

    /** The one list superblock `a` belongs in. */
    function Home(a: nat): Place {
      if SbAt(a).Empty() then Recycled(OwnerOf(a))
      else InBin(OwnerOf(a), BinOf(SbAt(a).blockSize), if SbAt(a).Eidx() < 0 then 0 else SbAt(a).Eidx())
    }

    // ----- elementary changes -----

    function Count(p: Place, change: int): World {
      if p.InBin? && p.eidx > 0 then
        this.(nonfull := nonfull[(p.heap, p.bin) := Nonfull(p.heap, p.bin) + change])
      else this
    }

    function Push(p: Place, a: nat): World {
      this.(lists := lists[p := [a] + List(p)]).Count(p, 1)
    }

    function Take(p: Place, a: nat): World {
      this.(lists := lists[p := Without(List(p), a)]).Count(p, -1)
    }

    function Clear(p: Place): World {
      this.(lists := lists[p := []])
    }

    function SetSb(a: nat, sb: Sb): World {
      this.(sbs := sbs[a := sb])
    }

    function SetOwner(a: nat, h: nat): World {
      this.(owner := owner[a := h])
    }

    function AddUsage(h: nat, bytes: int): World {
      if h < |inUse| then this.(inUse := inUse[h := inUse[h] + bytes]) else this
    }

    function AddAlloced(h: nat, bytes: int): World {
      if h < |alloced| then this.(alloced := alloced[h := alloced[h] + bytes]) else this
    }
  }

  /** `n` thread heaps and the global heap, all empty. */
  function Initial(n: nat): World {
    World(map[], map[], map[], map[], seq(n + 1, i => 0), seq(n + 1, i => 0))
  }

  // ---------- malloc ----------

  /** The least emptiness class from `e` on with a superblock in it. */
  function FullestFrom(w: World, h: nat, b: nat, e: nat): (r: Option<nat>)
    ensures r.Some? ==> e <= r.value < NUM_EMPTINESS_CLASSES && w.List(InBin(h, b, r.value)) != []
    ensures forall f :: e <= f < (if r.Some? then r.value else NUM_EMPTINESS_CLASSES) ==> w.List(InBin(h, b, f)) == []
    decreases NUM_EMPTINESS_CLASSES - e
  {
    if e >= NUM_EMPTINESS_CLASSES then None
    else if w.List(InBin(h, b, e)) != [] then Some(e)
    else FullestFrom(w, h, b, e + 1)
  }

  /** Where the superblock that serves a request comes from. */
  datatype Source =
    | OwnBin(eidx: nat)
    | OwnRecycled
    | GlobalBin(eidx: nat)
    | GlobalRecycled
    | NewMapping(base: nat)
    | NoMemory

  /** `raw` is what mmap returns if it is called. */
  function SourceFor(w: World, h: nat, b: nat, raw: Option<nat>): Source {
    var own := FullestFrom(w, h, b, 1);
    if own.Some? then OwnBin(own.value)
    else if w.List(Recycled(h)) != [] then OwnRecycled
    else
      var shared := FullestFrom(w, 0, b, 1);
      if w.Nonfull(0, b) > 0 && shared.Some? then GlobalBin(shared.value)
      else if w.Nonfull(0, b) <= 0 && w.List(Recycled(0)) != [] then GlobalRecycled
      else if raw.Some? then NewMapping(AlignUp(raw.value))
      else NoMemory
  }

  function PlaceOf(h: nat, b: nat, src: Source): Place {
    match src
    case OwnBin(e) => InBin(h, b, e)
    case OwnRecycled => Recycled(h)
    case GlobalBin(e) => InBin(0, b, e)
    case _ => Recycled(0)
  }

  /** The superblock that serves the request. */
  function Chosen(w: World, h: nat, b: nat, src: Source): nat {
    if src.NewMapping? then src.base
    else
      var list := w.List(PlaceOf(h, b, src));
      if list == [] then 0 else list[0]
  }

  /** Takes the chosen superblock out of its list; unrepaired, the local recycling list is
      left empty. */
  function TakeOut(w: World, fix: Repairs, h: nat, b: nat, src: Source): World {
    var p := PlaceOf(h, b, src);
    if src.NewMapping? || src.NoMemory? then w
    else if src.OwnRecycled? && !fix.nextFirst then w.Clear(p)
    else w.Take(p, Chosen(w, h, b, src))
  }

  /** Makes the chosen superblock `a`, now in no list, ready to serve class `c` for heap `h`. */
  function Prepare(w: World, fix: Repairs, h: nat, c: nat, src: Source, a: nat): World {
    match src
    case OwnBin(_) => w
    case OwnRecycled => w.SetSb(a, Fresh(c))
    case GlobalBin(_) => Adopt(w, h, a)
    case GlobalRecycled => if fix.resetAdopted then Adopt(w, h, a).SetSb(a, Fresh(c)) else Adopt(w, h, a)
    case NewMapping(_) => w.SetSb(a, Fresh(c)).SetOwner(a, h).AddAlloced(h, SUPERBLOCK_SIZE)
    case NoMemory => w
  }

  /** Hands superblock `a` of the global heap to heap `h`. */
  function Adopt(w: World, h: nat, a: nat): World {
    w.SetOwner(a, h).AddUsage(h, w.SbAt(a).UsedBytes()).AddAlloced(h, SUPERBLOCK_SIZE)
  }

  /** Serves one block from superblock `a`, which is in no list, and files it under bin `b`. */
  function Serve(w: World, h: nat, b: nat, a: nat): World {
    var sb := w.SbAt(a).Alloc();
    w.SetSb(a, sb).Push(InBin(h, b, if sb.Eidx() < 0 then 0 else sb.Eidx()), a)
  }

  function BinAlloc(w: World, fix: Repairs, h: nat, b: nat, c: nat, raw: Option<nat>): (World, Option<nat>) {
    var src := SourceFor(w, h, b, raw);
    if src.NoMemory? then (w, None)
    else
      var a := Chosen(w, h, b, src);
      var w1 := Prepare(TakeOut(w, fix, h, b, src), fix, h, c, src, a);
      var sb := w1.SbAt(a);
      (Serve(w1, h, b, a), Some(BlockAddr(a, sb.blockSize, sb.NextSlot())))
  }

  /** The state after heap_alloc, and the block it returns. */
  function HeapAlloc(w: World, fix: Repairs, h: nat, size: nat, raw: Option<nat>): (World, Option<nat>) {
    var b := BinOf(size);
    var (w1, ptr) := BinAlloc(w, fix, h, b, ClassOf(b), raw);
    (if ptr.None? && fix.exactUsage then w1 else w1.AddUsage(h, ClassOf(b)), ptr)
  }

  // ---------- free ----------

  function BinFree(w: World, ptr: nat): World {
    var a := SuperblockOf(ptr);
    var before := w.SbAt(a);
    var after := before.Release(SlotAt(a, before.blockSize, ptr));
    var detached := w.Take(w.Home(a), a).SetSb(a, after);
    detached.Push(detached.Home(a), a)
  }

  predicate EmptyEnough(u: int, a: int) {
    u + FREE_SB_THRESH * SUPERBLOCK_SIZE < a && u < 3 * a / 4
  }

  /** The least bin from `b` on with a superblock in emptiness class `e`. */
  function FirstBinFrom(w: World, h: nat, e: nat, b: nat): (r: Option<nat>)
    ensures r.Some? ==> b <= r.value < NUM_SIZE_BINS && w.List(InBin(h, r.value, e)) != []
    ensures forall c :: b <= c < (if r.Some? then r.value else NUM_SIZE_BINS) ==> w.List(InBin(h, c, e)) == []
    decreases NUM_SIZE_BINS - b
  {
    if b >= NUM_SIZE_BINS then None
    else if w.List(InBin(h, b, e)) != [] then Some(b)
    else FirstBinFrom(w, h, e, b + 1)
  }

  /** Of the classes up to `e`, the emptiest that has a superblock, and the first bin there. */
  function EmptiestUpTo(w: World, h: nat, e: nat): (r: Option<(nat, nat)>)
    ensures r.Some? ==>
      && 0 < r.value.1 <= e && r.value.0 < NUM_SIZE_BINS
      && w.List(InBin(h, r.value.0, r.value.1)) != []
      && (forall b :: 0 <= b < r.value.0 ==> w.List(InBin(h, b, r.value.1)) == [])
    ensures forall b, f :: 0 <= b < NUM_SIZE_BINS && (if r.Some? then r.value.1 else 0) < f <= e ==> w.List(InBin(h, b, f)) == []
  {
    if e == 0 then None
    else
      var b := FirstBinFrom(w, h, e, 0);
      if b.Some? then Some((b.value, e)) else EmptiestUpTo(w, h, e - 1)
  }

  /** The emptiest class with a superblock in any bin of heap `h`, and the first bin there. */
  function FindEmptiest(w: World, h: nat): (r: Option<(nat, nat)>)
    ensures r.Some? ==>
      && 0 < r.value.1 < NUM_EMPTINESS_CLASSES && r.value.0 < NUM_SIZE_BINS
      && w.List(InBin(h, r.value.0, r.value.1)) != []
      && (forall b :: 0 <= b < r.value.0 ==> w.List(InBin(h, b, r.value.1)) == [])
    ensures forall b, f :: 0 <= b < NUM_SIZE_BINS && (if r.Some? then r.value.1 else 0) < f < NUM_EMPTINESS_CLASSES ==> w.List(InBin(h, b, f)) == []
  {
    EmptiestUpTo(w, h, NUM_EMPTINESS_CLASSES - 1)
  }

  /** The superblock a transfer hands to the global heap, by the list it is taken from. */
  function TransferFrom(w: World, h: nat): (r: Option<Place>)
    ensures r.Some? ==> w.List(r.value) != [] && r.value.heap == h
  {
    if w.List(Recycled(h)) != [] then Some(Recycled(h))
    else
      var found := FindEmptiest(w, h);
      if found.Some? then Some(InBin(h, found.value.0, found.value.1)) else None
  }

  function InGlobal(p: Place): Place {
    match p
    case InBin(_, b, e) => InBin(0, b, e)
    case Recycled(_) => Recycled(0)
  }

  /** Hands the head of list `from` to the global heap. */
  function MoveToGlobal(w: World, from: Place, a: nat): World {
    w.Take(from, a).SetOwner(a, 0).Push(InGlobal(from), a)
  }

  function Transfer(w: World, fix: Repairs, h: nat): World {
    var from := TransferFrom(w, h);
    if from.None? then w
    else
      var a := w.List(from.value)[0];
      var w1 := MoveToGlobal(w, from.value, a);
      if fix.exactUsage then w1.AddUsage(h, 0 - w.SbAt(a).UsedBytes()) else w1
  }

  /** After a block of `bytes` was freed in heap `h`: the usage of a thread heap goes down,
      and if that leaves the heap empty enough, one superblock goes to the global heap. */
  function Settle(w: World, fix: Repairs, h: nat, bytes: nat): World {
    if h == 0 || h >= |w.inUse| || h >= |w.alloced| then w
    else
      var charged := w.AddUsage(h, 0 - bytes);
      if EmptyEnough(charged.inUse[h], charged.alloced[h]) then
        Transfer(charged, fix, h).AddAlloced(h, 0 - SUPERBLOCK_SIZE)
      else charged
  }

  /** The state after heap_free of a block that a client holds. */
  function HeapFree(w: World, fix: Repairs, ptr: nat): World {
    var a := SuperblockOf(ptr);
    Settle(BinFree(w, ptr), fix, w.OwnerOf(a), w.SbAt(a).blockSize)
  }
}
