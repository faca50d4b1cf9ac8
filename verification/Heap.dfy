// The heaps as the program holds them (src/heap.c): superblocks linked into bins and
// recycling lists, updated in place. Every operation is proved to do to the program's
// objects what the specification does to the value they stand for.
module Heaps {
  import opened Layout
  import opened Mapping
  import opened SizeTables
  import opened SuperblockModel
  import opened Superblocks
  import opened BinManagers
  import opened Worlds
  import opened Filing
  import opened Steps
  import opened Safety
  import opened Counters

  class Heap {
    const sizeBins: seq<BinManager>
    var recycledSuperblock: Superblock?
    var inUse: nat
    var alloced: nat

    constructor (sizeBins: seq<BinManager>)
      ensures this.sizeBins == sizeBins
      ensures recycledSuperblock == null && inUse == 0 && alloced == 0
    {
      this.sizeBins := sizeBins;
      recycledSuperblock, inUse, alloced := null, 0, 0;
    }
  }

  ghost predicate EmptyBin(bin: BinManager)
    reads bin, bin.Members()`prev, bin.Members()`next
  {
    && bin.Valid() && bin.numNonfullSuperblocks == 0
    && forall e :: 0 <= e < NUM_EMPTINESS_CLASSES ==> bin.Lists[e] == []
  }

  ghost predicate EmptyHeap(heap: Heap)
    reads heap, heap.sizeBins, set b, x | 0 <= b < |heap.sizeBins| && x in heap.sizeBins[b].Members() :: x
  {
    && heap.recycledSuperblock == null && heap.inUse == 0 && heap.alloced == 0
    && |heap.sizeBins| == NUM_SIZE_BINS && NoDup(heap.sizeBins)
    && forall b :: 0 <= b < |heap.sizeBins| ==> EmptyBin(heap.sizeBins[b])
  }

  /** Empty heaps that share nothing. */
  ghost predicate AllEmpty(heaps: seq<Heap>)
    reads heaps, set h, b | 0 <= h < |heaps| && 0 <= b < |heaps[h].sizeBins| :: heaps[h].sizeBins[b]
    reads set h, b, x | 0 <= h < |heaps| && 0 <= b < |heaps[h].sizeBins| && x in heaps[h].sizeBins[b].Members() :: x
  {
    && NoDup(heaps)
    && (forall h :: 0 <= h < |heaps| ==> EmptyHeap(heaps[h]))
    && forall h, g, b, c :: 0 <= h < |heaps| && 0 <= g < |heaps| && h != g && 0 <= b < |heaps[h].sizeBins| && 0 <= c < |heaps[g].sizeBins| ==>
         heaps[h].sizeBins[b] != heaps[g].sizeBins[c]
  }

  method NewHeap() returns (heap: Heap)
    ensures fresh(heap) && EmptyHeap(heap)
    ensures forall b :: 0 <= b < |heap.sizeBins| ==> fresh(heap.sizeBins[b])
  {
    var bins: seq<BinManager> := [];
    while |bins| < NUM_SIZE_BINS
      invariant |bins| <= NUM_SIZE_BINS && NoDup(bins)
      invariant forall b :: 0 <= b < |bins| ==> fresh(bins[b]) && EmptyBin(bins[b])
    {
      var bin := new BinManager();
      bins := bins + [bin];
    }
    heap := new Heap(bins);
  }

  method NewHeaps(n: nat) returns (heaps: seq<Heap>, ghost objects: set<object>)
    ensures |heaps| == n && AllEmpty(heaps)
    ensures fresh(objects) && Among(heaps, objects)
  {
    heaps, objects := [], {};
    while |heaps| < n
      invariant |heaps| <= n && AllEmpty(heaps)
      invariant fresh(objects) && Among(heaps, objects)
    {
      var heap := NewHeap();
      OneMoreHeap(heaps, heap);
      heaps := heaps + [heap];
      objects := objects + {heap} + (set b | 0 <= b < |heap.sizeBins| :: heap.sizeBins[b]);
    }
  }

  ghost predicate Among(heaps: seq<Heap>, objects: set<object>) {
    forall h :: 0 <= h < |heaps| ==> heaps[h] in objects && forall b :: 0 <= b < |heaps[h].sizeBins| ==> heaps[h].sizeBins[b] in objects
  }

  lemma OneMoreHeap(heaps: seq<Heap>, heap: Heap)
    requires AllEmpty(heaps) && EmptyHeap(heap) && heap !in heaps
    requires forall h, b, c :: 0 <= h < |heaps| && 0 <= b < |heaps[h].sizeBins| && 0 <= c < |heap.sizeBins| ==>
               heaps[h].sizeBins[b] != heap.sizeBins[c]
    ensures AllEmpty(heaps + [heap])
  {
    hide EmptyHeap;
  }

  /** The mapped superblocks, by address. */
  type Registry = map<nat, Superblock>

  ghost predicate Known(reg: Registry, list: seq<nat>) {
    forall i :: 0 <= i < |list| ==> list[i] in reg
  }

  /** The superblocks at the given addresses. */
  ghost function At(reg: Registry, list: seq<nat>): seq<Superblock>
    requires Known(reg, list)
  {
    seq(|list|, i requires 0 <= i < |list| => reg[list[i]])
  }

  /** The links of `s` form a list that starts at `head` and ends with NULL. */
  ghost predicate Chain(head: Superblock?, s: seq<Superblock>)
    reads (set x | x in s)`next
  {
    && head == (if s == [] then null else s[0])
    && forall i {:trigger s[i].next} :: 0 <= i < |s| ==> s[i].next == if i + 1 < |s| then s[i + 1] else null
  }

  /** Superblock `s` is well formed, stands for `sb`, and is owned by heap `h`. */
  ghost predicate Stands(s: Superblock, sb: Sb, h: nat)
    reads s`owner, s`blockSize, s`totalBlocks, s`reapableBlocks, s`numFreeBlocks
    reads s`freeList, s`bufferStart, s`reapPosition, s`Free, s.buf
  {
    s.Valid() && s.View() == sb && s.owner == h
  }

  /** No superblock is in two lists or twice in one. */
  ghost predicate Disjoint(lists: map<Place, seq<nat>>) {
    && (forall p, q, a :: a in ListIn(lists, p) && a in ListIn(lists, q) ==> p == q)
    && forall p :: NoDup(ListIn(lists, p))
  }

  ghost predicate Loose(lists: map<Place, seq<nat>>, a: nat) {
    forall p :: a !in ListIn(lists, p)
  }

  lemma PushDisjoint(lists: map<Place, seq<nat>>, p: Place, a: nat)
    requires Disjoint(lists) && Loose(lists, a)
    ensures var after := lists[p := [a] + ListIn(lists, p)];
            Disjoint(after) && OnlyList(lists, after, p, a)
  {
    var after := lists[p := [a] + ListIn(lists, p)];
    forall q | q != p
      ensures ListKept(lists, after, p, a, q)
    {
    }
    forall q
      ensures NoDup(ListIn(after, q))
    {
      assert NoDup(ListIn(lists, q));
    }
    forall q, r, x | x in ListIn(after, q) && x in ListIn(after, r)
      ensures q == r
    {
      assert x != a ==> x in ListIn(lists, q) && x in ListIn(lists, r);
      assert x == a ==> a !in ListIn(lists, q) && a !in ListIn(lists, r);
    }
  }

  lemma TakeDisjoint(lists: map<Place, seq<nat>>, p: Place, a: nat)
    requires Disjoint(lists) && a in ListIn(lists, p)
    ensures var after := lists[p := Without(ListIn(lists, p), a)];
            && Disjoint(after) && OnlyList(lists, after, p, a) && Loose(after, a)
            && |ListIn(after, p)| == |ListIn(lists, p)| - 1
  {
    var after := lists[p := Without(ListIn(lists, p), a)];
    assert NoDup(ListIn(lists, p));
    WithoutMembers(ListIn(lists, p), a);
    forall q | q != p
      ensures ListKept(lists, after, p, a, q)
    {
    }
    forall q
      ensures NoDup(ListIn(after, q)) && a !in ListIn(after, q)
    {
      assert NoDup(ListIn(lists, q));
    }
    forall q, r, x | x in ListIn(after, q) && x in ListIn(after, r)
      ensures q == r
    {
      assert x in ListIn(lists, q) && x in ListIn(lists, r);
    }
  }

  lemma AtCons(reg: Registry, a: nat, list: seq<nat>)
    requires a in reg && Known(reg, list)
    ensures Known(reg, [a] + list) && At(reg, [a] + list) == [reg[a]] + At(reg, list)
  {
  }

  lemma {:induction false} AtWithout(reg: Registry, list: seq<nat>, a: nat)
    requires Known(reg, list) && a in reg
    requires forall x, y :: x in reg && y in reg && reg[x] == reg[y] ==> x == y
    ensures Known(reg, Without(list, a)) && At(reg, Without(list, a)) == Without(At(reg, list), reg[a])
  {
    if list == [] {
    } else {
      AtWithout(reg, list[1..], a);
      assert At(reg, list)[1..] == At(reg, list[1..]);
      if list[0] != a {
        AtCons(reg, list[0], Without(list[1..], a));
      }
    }
  }

  /** Every list but `p` is kept, and none of them holds `a`. */
  ghost predicate OnlyList(before: map<Place, seq<nat>>, after: map<Place, seq<nat>>, p: Place, a: nat) {
    forall q :: q != p ==> ListKept(before, after, p, a, q)
  }

  /** List `q` is not `p`, does not hold `a`, and is the same before and after. */
  ghost predicate ListKept(before: map<Place, seq<nat>>, after: map<Place, seq<nat>>, p: Place, a: nat, q: Place) {
    q != p && a !in ListIn(before, q) && ListIn(after, q) == ListIn(before, q)
  }

  /** The place is a list of bin (h, b). */
  predicate OfBin(p: Place, h: nat, b: nat) {
    p.InBin? && p.heap == h && p.bin == b
  }

  /** The static state of the program, with the value it stands for. */
  class Allocator {
    const repairs: Repairs
    const table: SizeTable
    const heaps: seq<Heap>     // heaps[0] is the global heap
    var registry: Registry     // what is mapped at each superblock address
    ghost var W: World
    ghost var Repr: set<object>

    /** `n` thread heaps and the global heap, all empty, over a filled size table. */
    constructor (repairs: Repairs, table: SizeTable, n: nat)
      requires table.Holds(SIZE_CLASSES)
      ensures Coupled() && W == Initial(n) && |heaps| == n + 1
      ensures this.repairs == repairs && this.table == table
      ensures fresh(Repr - {table, table.sizes})
    {
      hide AllEmpty, Coupled;
      var hs, objects := NewHeaps(n + 1);
      this.repairs := repairs;
      this.table := table;
      this.heaps := hs;
      registry := map[];
      W := Initial(n);
      Repr := {this, table, table.sizes} + objects;
      new;
      StartsCoupled(n);
    }

    lemma StartsCoupled(n: nat)
      requires |heaps| == n + 1 && W == Initial(n) && registry == map[]
      requires AllEmpty(heaps) && table.Holds(SIZE_CLASSES) && Framed()
      ensures Coupled()
    {
      assert At(registry, []) == [];
      forall h, b | 0 <= h < |heaps| && 0 <= b < |heaps[h].sizeBins|
        ensures BinCoupled(registry, W.lists, W.nonfull, h, b)
      {
        assert EmptyBin(heaps[h].sizeBins[b]);
        forall e | 0 <= e < NUM_EMPTINESS_CLASSES
          ensures ListCoupled(registry, W.lists, h, b, e)
        {
        }
      }
      MembersFollow();
    }

    function Bin(h: nat, b: nat): BinManager
      requires h < |heaps| && b < |heaps[h].sizeBins|
    {
      heaps[h].sizeBins[b]
    }

    /** What never changes: 23 bins in each heap, all objects distinct. */
    ghost predicate Shape() {
      && |heaps| > 0
      && (forall h :: 0 <= h < |heaps| ==> |heaps[h].sizeBins| == NUM_SIZE_BINS)
      && (forall h, g :: 0 <= h < |heaps| && 0 <= g < |heaps| && h != g ==> heaps[h] != heaps[g])
      && (forall h, b, g, c :: 0 <= h < |heaps| && 0 <= g < |heaps| && 0 <= b < NUM_SIZE_BINS && 0 <= c < NUM_SIZE_BINS && (h, b) != (g, c) ==> Bin(h, b) != Bin(g, c))
    }

    ghost predicate Registered(reg: Registry, sbs: map<nat, Sb>) {
      && reg.Keys == sbs.Keys
      && (forall a :: a in reg ==> reg[a].base == a)
      && (forall a, c :: a in reg && c in reg && a != c ==> reg[a].buf != reg[c].buf)
      && (forall a :: a in reg ==> reg[a].buf != table.sizes)
    }

    ghost predicate BlocksCoupled(reg: Registry, sbs: map<nat, Sb>, owner: map<nat, nat>)
      reads reg.Values`owner, reg.Values`blockSize, reg.Values`totalBlocks, reg.Values`reapableBlocks
      reads reg.Values`numFreeBlocks, reg.Values`freeList, reg.Values`bufferStart, reg.Values`reapPosition
      reads reg.Values`Free, set a | a in reg :: reg[a].buf
    {
      forall a :: a in reg ==> a in sbs && a in owner && Stands(reg[a], sbs[a], owner[a])
    }

    ghost predicate BinCoupled(reg: Registry, lists: map<Place, seq<nat>>, nonfull: map<(nat, nat), int>, h: nat, b: nat)
      requires h < |heaps| && b < |heaps[h].sizeBins|
      reads Bin(h, b), Bin(h, b).Members()`prev, Bin(h, b).Members()`next
    {
      && Bin(h, b).Valid()
      && (forall e :: 0 <= e < NUM_EMPTINESS_CLASSES ==> ListCoupled(reg, lists, h, b, e))
      && Bin(h, b).numNonfullSuperblocks == CountIn(nonfull, h, b)
    }

    ghost predicate ListCoupled(reg: Registry, lists: map<Place, seq<nat>>, h: nat, b: nat, e: nat)
      requires h < |heaps| && b < |heaps[h].sizeBins|
      reads Bin(h, b)`Lists
    {
      && e < |Bin(h, b).Lists|
      && Known(reg, ListIn(lists, InBin(h, b, e)))
      && Bin(h, b).Lists[e] == At(reg, ListIn(lists, InBin(h, b, e)))
    }

    ghost predicate BinsCoupled(reg: Registry, lists: map<Place, seq<nat>>, nonfull: map<(nat, nat), int>)
      reads set h, b | 0 <= h < |heaps| && 0 <= b < |heaps[h].sizeBins| :: Bin(h, b)
      reads (set h, b, x | 0 <= h < |heaps| && 0 <= b < |heaps[h].sizeBins| && x in Bin(h, b).Members() :: x)`prev
      reads (set h, b, x | 0 <= h < |heaps| && 0 <= b < |heaps[h].sizeBins| && x in Bin(h, b).Members() :: x)`next
    {
      forall h, b :: 0 <= h < |heaps| && 0 <= b < |heaps[h].sizeBins| ==> BinCoupled(reg, lists, nonfull, h, b)
    }

    ghost predicate ChainsCoupled(reg: Registry, lists: map<Place, seq<nat>>)
      reads heaps`recycledSuperblock, reg.Values`next
    {
      forall h :: 0 <= h < |heaps| ==> ChainCoupled(reg, lists, h)
    }

    ghost predicate ChainCoupled(reg: Registry, lists: map<Place, seq<nat>>, h: nat)
      requires h < |heaps|
      reads heaps`recycledSuperblock, reg.Values`next
    {
      && Known(reg, ListIn(lists, Recycled(h)))
      && Chain(heaps[h].recycledSuperblock, At(reg, ListIn(lists, Recycled(h))))
    }

    ghost predicate CountersCoupled(inUse: seq<int>, alloced: seq<int>)
      reads heaps`inUse, heaps`alloced
    {
      && |inUse| == |alloced| == |heaps|
      && forall h :: 0 <= h < |heaps| ==> heaps[h].inUse == inUse[h] && heaps[h].alloced == alloced[h]
    }

    ghost predicate Framed()
      reads `registry, `Repr
    {
      && this in Repr
      && (forall h :: 0 <= h < |heaps| ==> heaps[h] in Repr)
      && (forall h, b :: 0 <= h < |heaps| && 0 <= b < |heaps[h].sizeBins| ==> Bin(h, b) in Repr)
      && (forall a :: a in registry ==> registry[a] in Repr && registry[a].buf in Repr)
      && table in Repr && table.sizes in Repr
    }

    /** The arrays that hold the clients' data. */
    ghost function Buffers(): set<object>
      reads `registry
    {
      set a | a in registry :: registry[a].buf
    }

    /** The word of the clients' memory that holds address `addr`; 0 outside all buffers. */
    ghost function Memory(addr: nat): nat
      reads `registry, Buffers()
    {
      var a := SuperblockOf(addr);
      if a in registry && a + HEADER_SIZE <= addr && (addr - a - HEADER_SIZE) / WORD_SIZE < registry[a].buf.Length then
        registry[a].buf[(addr - a - HEADER_SIZE) / WORD_SIZE]
      else 0
    }

    /** The words of all buffers are as before, but for the one at `ptr`. */
    twostate predicate MemoryKeptBut(new ptr: nat)
      reads `registry, Buffers()
    {
      registry == old(registry) && forall addr: nat :: !(ptr <= addr < ptr + WORD_SIZE) ==> Memory(addr) == old(Memory(addr))
    }

    /** Word `k` of the block at `ptr`. */
    ghost function ClientWord(ptr: nat, k: nat): nat
      reads `registry, Buffers()
    {
      Memory(ptr + k * WORD_SIZE)
    }

    /** Every word of every block that clients held before and after a free of `ptr`, or of every
        block held before a malloc, where `ptr` is NULL, is as before. */
    twostate predicate ClientsKept(new ptr: nat)
      reads `registry, `W, Buffers()
    {
      forall p: nat, k: nat :: p != ptr && old(LiveAt(W, p)) && (k + 1) * WORD_SIZE <= old(BlockSizeAt(W, p)) ==>
        ClientWord(p, k) == old(ClientWord(p, k))
    }

    twostate lemma BuffersSame()
      requires registry == old(registry) && forall a :: a in registry ==> unchanged(registry[a].buf)
      ensures forall addr: nat :: Memory(addr) == old(Memory(addr))
    {
      hide SuperblockOf;
    }

    twostate lemma OthersKept(new ptr: nat)
      requires old(Coupled() && WellFiled(W) && LiveAt(W, ptr)) && MemoryKeptBut(ptr)
      ensures ClientsKept(ptr)
    {
      hide Coupled, WellFiled, LiveAt, BlockSizeAt, Memory;
      forall p: nat, k: nat | p != ptr && old(LiveAt(W, p)) && (k + 1) * WORD_SIZE <= old(BlockSizeAt(W, p))
        ensures ClientWord(p, k) == old(ClientWord(p, k))
      {
        WordsOfOthers(old(W), ptr, p, k);
      }
    }

    /** Mapping and filing write no buffer. */
    twostate lemma MallocWritesNone()
      requires old(Coupled() && WellFiled(W)) && StillMapped()
      requires forall a :: a in old(registry) ==> unchanged(registry[a].buf)
      ensures ClientsKept(0)
    {
      hide BlocksCoupled, BinsCoupled, ChainsCoupled, CountersCoupled, Disjoint, MembersKnown, BlockSizeAt, IsLive, SuperblockOf;
      forall p: nat, k: nat | p != 0 && old(LiveAt(W, p)) && (k + 1) * WORD_SIZE <= old(BlockSizeAt(W, p))
        ensures ClientWord(p, k) == old(ClientWord(p, k))
      {
        WordStays(old(W), p, k);
      }
    }

    /** What was mapped is mapped still. */
    twostate predicate StillMapped()
      reads `registry
    {
      forall a :: a in old(registry) ==> a in registry && registry[a] == old(registry[a])
    }

    twostate lemma BuffersStay()
      requires StillMapped()
      ensures old(Buffers()) <= Buffers()
    {
    }

    ghost predicate MembersKnown()
      reads `registry, set h, b | 0 <= h < |heaps| && 0 <= b < |heaps[h].sizeBins| :: Bin(h, b)
    {
      forall h, b, x :: 0 <= h < |heaps| && 0 <= b < |heaps[h].sizeBins| && x in Bin(h, b).Members() ==> x in registry.Values
    }

    lemma MemberInRepr(h: nat, b: nat, x: Superblock)
      requires Framed() && MembersKnown() && h < |heaps| && b < |heaps[h].sizeBins| && x in Bin(h, b).Members()
      ensures x in Repr
    {
      assert x in registry.Values;
    }

    lemma MembersInRepr()
      requires Framed() && MembersKnown()
      ensures forall h, b, x: Superblock :: 0 <= h < |heaps| && 0 <= b < |heaps[h].sizeBins| && x in Bin(h, b).Members() ==> x in Repr
    {
      forall h, b, x: Superblock | 0 <= h < |heaps| && 0 <= b < |heaps[h].sizeBins| && x in Bin(h, b).Members()
        ensures x in Repr
      {
        MemberInRepr(h, b, x);
      }
    }

    /** The objects stand for the value `W`. */
    ghost predicate Coupled()
      reads this, Repr
    {
      && Framed()
      && Shape()
      && table.Holds(SIZE_CLASSES)
      && Registered(registry, W.sbs)
      && Disjoint(W.lists)
      && CountersCoupled(W.inUse, W.alloced)
      && BlocksCoupled(registry, W.sbs, W.owner)
      && MembersKnown()
      && (MembersInRepr(); BinsCoupled(registry, W.lists, W.nonfull))
      && ChainsCoupled(registry, W.lists)
    }

    // ----- what a change leaves alone -----

    predicate InRange(h: nat, b: nat) {
      h < |heaps| && b < |heaps[h].sizeBins|
    }

    /** Nothing about the superblocks but their links changed. */
    twostate predicate BlockFieldsKept()
      reads `registry, registry.Values, set a | a in registry :: registry[a].buf
    {
      && registry == old(registry)
      && unchanged(registry.Values`owner, registry.Values`blockSize, registry.Values`totalBlocks, registry.Values`reapableBlocks)
      && unchanged(registry.Values`numFreeBlocks, registry.Values`freeList, registry.Values`bufferStart, registry.Values`reapPosition)
      && unchanged(registry.Values`Free)
      && unchanged(set a | a in registry :: registry[a].buf)
    }

    twostate lemma BlocksKept()
      requires BlockFieldsKept() && W.sbs == old(W.sbs) && W.owner == old(W.owner)
      requires old(BlocksCoupled(registry, W.sbs, W.owner))
      ensures BlocksCoupled(registry, W.sbs, W.owner)
    {
    }

    /** Only the superblock at `a` changed, in the program as in the value. */
    twostate lemma BlocksKeptBut(new a: nat)
      requires registry == old(registry) && a in registry
      requires old(Registered(registry, W.sbs)) && old(BlocksCoupled(registry, W.sbs, W.owner))
      requires W.sbs == old(W.sbs)[a := W.SbAt(a)] && W.owner == old(W.owner)[a := W.OwnerOf(a)]
      requires Stands(registry[a], W.SbAt(a), W.OwnerOf(a))
      requires forall x :: x in registry && registry[x] != registry[a] ==> unchanged(registry[x])
      requires forall x :: x in registry && registry[x].buf != registry[a].buf ==> unchanged(registry[x].buf)
      ensures BlocksCoupled(registry, W.sbs, W.owner) && Registered(registry, W.sbs)
    {
      forall x | x in registry && x != a
        ensures x in W.sbs && x in W.owner && Stands(registry[x], W.sbs[x], W.owner[x])
      {
        assert old(Stands(registry[x], W.sbs[x], W.owner[x]));
      }
    }

    twostate lemma CountersKept()
      requires W.inUse == old(W.inUse) && W.alloced == old(W.alloced)
      requires old(CountersCoupled(W.inUse, W.alloced))
      requires unchanged(heaps`inUse) && unchanged(heaps`alloced)
      ensures CountersCoupled(W.inUse, W.alloced)
    {
    }

    /** Only the links of the superblocks in list `p`, and of `a`, changed. */
    twostate predicate LinksKeptOutside(new p: Place, new a: nat)
      reads this, registry.Values
    {
      && registry == old(registry)
      && forall x: Superblock :: x in registry.Values && x.base != a && x.base !in ListIn(old(W.lists), p) ==>
           unchanged(x`prev) && unchanged(x`next)
    }

    /** Of a bin whose lists are not `p` and do not hold `a`, the lists stand. */
    twostate lemma ListsKept(new h: nat, new b: nat, new p: Place, new a: nat)
      requires InRange(h, b) && registry == old(registry) && unchanged(Bin(h, b))
      requires old(BinCoupled(registry, W.lists, W.nonfull, h, b))
      requires forall e :: 0 <= e < NUM_EMPTINESS_CLASSES ==> ListKept(old(W.lists), W.lists, p, a, InBin(h, b, e))
      ensures forall e :: 0 <= e < NUM_EMPTINESS_CLASSES ==> ListCoupled(registry, W.lists, h, b, e)
    {
      forall e | 0 <= e < NUM_EMPTINESS_CLASSES
        ensures ListCoupled(registry, W.lists, h, b, e)
      {
        assert ListKept(old(W.lists), W.lists, p, a, InBin(h, b, e));
        assert old(ListCoupled(registry, W.lists, h, b, e));
      }
    }

    /** ... and its members keep their links. */
    twostate lemma MembersKept(new h: nat, new b: nat, new p: Place, new a: nat)
      requires InRange(h, b) && LinksKeptOutside(p, a) && unchanged(Bin(h, b))
      requires old(Registered(registry, W.sbs)) && old(Disjoint(W.lists))
      requires old(BinCoupled(registry, W.lists, W.nonfull, h, b))
      requires forall e :: 0 <= e < NUM_EMPTINESS_CLASSES ==> ListKept(old(W.lists), W.lists, p, a, InBin(h, b, e))
      ensures unchanged(Bin(h, b).Members()`prev) && unchanged(Bin(h, b).Members()`next)
    {
      forall x | x in Bin(h, b).Members()
        ensures x in registry.Values && x.base != a && x.base !in ListIn(old(W.lists), p)
      {
        var e, i :| 0 <= e < |Bin(h, b).Lists| && 0 <= i < |Bin(h, b).Lists[e]| && Bin(h, b).Lists[e][i] == x;
        assert old(ListCoupled(registry, W.lists, h, b, e));
        assert ListKept(old(W.lists), W.lists, p, a, InBin(h, b, e));
        assert x.base in ListIn(old(W.lists), InBin(h, b, e));
      }
    }

    /** A bin whose lists are not `p` and do not hold `a` stays as it was. */
    twostate lemma BinKept(new h: nat, new b: nat, new p: Place, new a: nat)
      requires InRange(h, b) && LinksKeptOutside(p, a) && unchanged(Bin(h, b))
      requires old(Registered(registry, W.sbs)) && old(Disjoint(W.lists))
      requires old(BinCoupled(registry, W.lists, W.nonfull, h, b))
      requires forall e :: 0 <= e < NUM_EMPTINESS_CLASSES ==> ListKept(old(W.lists), W.lists, p, a, InBin(h, b, e))
      requires CountIn(W.nonfull, h, b) == CountIn(old(W.nonfull), h, b)
      ensures BinCoupled(registry, W.lists, W.nonfull, h, b)
    {
      ListsKept(h, b, p, a);
      MembersKept(h, b, p, a);
    }

    /** The bins other than that of list `p` stay as they were. */
    twostate lemma OtherBinsKept(new p: Place, new a: nat)
      requires LinksKeptOutside(p, a)
      requires old(Registered(registry, W.sbs)) && old(Disjoint(W.lists))
      requires old(BinsCoupled(registry, W.lists, W.nonfull))
      requires OnlyList(old(W.lists), W.lists, p, a)
      requires forall h, b :: 0 <= h < |heaps| && 0 <= b < |heaps[h].sizeBins| && !OfBin(p, h, b) ==>
                 unchanged(Bin(h, b)) && CountIn(W.nonfull, h, b) == CountIn(old(W.nonfull), h, b)
      ensures forall h, b :: 0 <= h < |heaps| && 0 <= b < |heaps[h].sizeBins| && !OfBin(p, h, b) ==>
                 BinCoupled(registry, W.lists, W.nonfull, h, b)
    {
      forall h, b | 0 <= h < |heaps| && 0 <= b < |heaps[h].sizeBins| && !OfBin(p, h, b)
        ensures BinCoupled(registry, W.lists, W.nonfull, h, b)
      {
        assert old(BinCoupled(registry, W.lists, W.nonfull, h, b));
        BinKept(h, b, p, a);
      }
    }

    /** The recycling lists other than `p` stay as they were. */
    twostate lemma OtherChainsKept(new p: Place, new a: nat)
      requires LinksKeptOutside(p, a)
      requires old(Registered(registry, W.sbs)) && old(Disjoint(W.lists))
      requires old(ChainsCoupled(registry, W.lists))
      requires OnlyList(old(W.lists), W.lists, p, a)
      requires forall h :: 0 <= h < |heaps| && p != Recycled(h) ==> heaps[h].recycledSuperblock == old(heaps[h].recycledSuperblock)
      ensures forall h :: 0 <= h < |heaps| && p != Recycled(h) ==> ChainCoupled(registry, W.lists, h)
    {
      forall h | 0 <= h < |heaps| && p != Recycled(h)
        ensures ChainCoupled(registry, W.lists, h)
      {
        assert old(ChainCoupled(registry, W.lists, h));
        assert ListKept(old(W.lists), W.lists, p, a, Recycled(h));
        var list := ListIn(W.lists, Recycled(h));
        forall i | 0 <= i < |list|
          ensures registry[list[i]].next == old(registry[list[i]].next)
        {
          assert list[i] in list;
        }
      }
    }

    twostate lemma ChainsKept()
      requires registry == old(registry) && W.lists == old(W.lists)
      requires old(ChainsCoupled(registry, W.lists))
      requires unchanged(heaps`recycledSuperblock) && unchanged(registry.Values`next)
      ensures ChainsCoupled(registry, W.lists)
    {
      forall h | 0 <= h < |heaps|
        ensures ChainCoupled(registry, W.lists, h)
      {
        assert old(ChainCoupled(registry, W.lists, h));
      }
    }

    twostate lemma BinsKept()
      requires registry == old(registry) && W.lists == old(W.lists) && W.nonfull == old(W.nonfull)
      requires old(MembersKnown()) && old(BinsCoupled(registry, W.lists, W.nonfull))
      requires forall h, b :: 0 <= h < |heaps| && 0 <= b < |heaps[h].sizeBins| ==> unchanged(Bin(h, b))
      requires unchanged(registry.Values`prev) && unchanged(registry.Values`next)
      ensures BinsCoupled(registry, W.lists, W.nonfull) && MembersKnown()
    {
      forall h, b | 0 <= h < |heaps| && 0 <= b < |heaps[h].sizeBins|
        ensures BinCoupled(registry, W.lists, W.nonfull, h, b)
      {
        assert old(BinCoupled(registry, W.lists, W.nonfull, h, b));
      }
    }

    lemma BlockOf(a: nat)
      requires Coupled() && a in registry
      ensures a in W.sbs && a in W.owner && Stands(registry[a], W.SbAt(a), W.OwnerOf(a))
      ensures registry[a].base == a && registry[a].numFreeBlocks == W.SbAt(a).NumFree()
      ensures registry[a] in Repr && registry[a].buf in Repr && registry[a].buf != table.sizes
    {
    }

    /** The program's objects other than superblocks are as they were. */
    twostate predicate HeapsKept()
      reads this, heaps, table, table.sizes
      reads set h, b | 0 <= h < |heaps| && 0 <= b < |heaps[h].sizeBins| :: Bin(h, b)
    {
      && Repr == old(Repr) && registry == old(registry)
      && unchanged(heaps) && unchanged(table) && unchanged(table.sizes)
      && unchanged(set h, b | 0 <= h < |heaps| && 0 <= b < |heaps[h].sizeBins| :: Bin(h, b))
    }

    /** One superblock changed, its links aside, and so did its value. */
    twostate lemma BlockChanged(new a: nat)
      requires old(Coupled()) && HeapsKept() && a in registry
      requires unchanged(registry.Values`prev) && unchanged(registry.Values`next)
      requires forall x :: x in registry && registry[x] != registry[a] ==> unchanged(registry[x])
      requires forall x :: x in registry && registry[x].buf != registry[a].buf ==> unchanged(registry[x].buf)
      requires W.lists == old(W.lists) && W.nonfull == old(W.nonfull)
      requires W.inUse == old(W.inUse) && W.alloced == old(W.alloced)
      requires W.sbs == old(W.sbs)[a := W.SbAt(a)] && W.owner == old(W.owner)[a := W.OwnerOf(a)]
      requires Stands(registry[a], W.SbAt(a), W.OwnerOf(a))
      ensures Coupled()
    {
      hide Registered, BlocksCoupled, BinsCoupled, ChainsCoupled, CountersCoupled, Disjoint, Shape, MembersKnown;
      BinsKept();
      ChainsKept();
      CountersKept();
      BlocksKeptBut(a);
    }

    // ----- superblocks -----

    /** Takes one block from the superblock at `a`. */
    method AllocFrom(a: nat) returns (ptr: nat)
      requires Coupled() && a in registry && W.SbAt(a).NumFree() > 0
      modifies Repr - Buffers()
      ensures Coupled() && Repr == old(Repr) && registry == old(registry)
      ensures W == old(W).SetSb(a, old(W).SbAt(a).Alloc())
      ensures ptr == BlockAddr(a, old(W).SbAt(a).blockSize, old(W).SbAt(a).NextSlot())
    {
      hide Registered, BlocksCoupled, BinsCoupled, ChainsCoupled, CountersCoupled, Disjoint, Shape, MembersKnown;
      hide Superblock.Valid;
      BlockOf(a);
      ptr := registry[a].Alloc();
      W := W.SetSb(a, W.SbAt(a).Alloc());
      BlockChanged(a);
    }

    /** Gives the block at `ptr` back to the superblock at `a`. */
    method ReleaseTo(a: nat, ptr: nat)
      requires Coupled() && a in registry && IsLive(a, W.SbAt(a), ptr) && ptr % MIN_BLOCK_SIZE == 0
      modifies Repr
      ensures Coupled() && Repr == old(Repr) && registry == old(registry)
      ensures MemoryKeptBut(ptr)
      ensures W == old(W).SetSb(a, old(W).SbAt(a).Release(SlotAt(a, old(W).SbAt(a).blockSize, ptr)))
    {
      hide Registered, BlocksCoupled, BinsCoupled, ChainsCoupled, CountersCoupled, Disjoint, Shape, MembersKnown;
      hide SlotAt, IsLive, Superblock.Valid;
      BlockOf(a);
      LiveAddress(a, ptr);
      registry[a].Release(ptr);
      W := W.SetSb(a, W.SbAt(a).Release(SlotAt(a, W.SbAt(a).blockSize, ptr)));
      BlockChanged(a);
      BuffersApart(a);
      OneWordWritten(a, registry[a].blockSize, SlotAt(a, registry[a].blockSize, ptr), 0);
    }

    lemma LiveAddress(a: nat, ptr: nat)
      requires Coupled() && a in registry && IsLive(a, W.SbAt(a), ptr)
      ensures registry[a].blockSize == W.SbAt(a).blockSize && registry[a].blockSize % WORD_SIZE == 0
      ensures ptr == BlockAddr(a, registry[a].blockSize, SlotAt(a, registry[a].blockSize, ptr))
      ensures a % SUPERBLOCK_SIZE == 0 && W.SbAt(a).Valid()
    {
      hide Coupled, Superblock.Valid, SlotAt, BlockAddr, Sb.Live, Sb.Valid;
      BlockOf(a);
      registry[a].WholeWords();
    }

    lemma BuffersApart(a: nat)
      requires Coupled() && a in registry
      ensures forall x :: x in registry && x != a ==> registry[x].buf != registry[a].buf
    {
      hide BlocksCoupled, BinsCoupled, ChainsCoupled, CountersCoupled, Disjoint, Shape, MembersKnown;
    }

    /** Of all buffers only word `k` of slot `i` of superblock `a` was written. */
    twostate lemma OneWordWritten(new a: nat, new c: nat, new i: nat, new k: nat)
      requires registry == old(registry) && a in registry && c % WORD_SIZE == 0
      requires forall x :: x in registry && x != a ==> registry[x].buf != registry[a].buf && unchanged(registry[x].buf)
      requires forall w :: 0 <= w < registry[a].buf.Length && w != WordAt(c, i) + k ==> registry[a].buf[w] == old(registry[a].buf[w])
      ensures MemoryKeptBut(BlockAddr(a, c, i) + k * WORD_SIZE)
    {
      hide WordAt, BlockAddr, SuperblockOf;
      var start := BlockAddr(a, c, i) + k * WORD_SIZE;
      forall addr: nat | !(start <= addr < start + WORD_SIZE)
        ensures Memory(addr) == old(Memory(addr))
      {
        if SuperblockOf(addr) == a && a + HEADER_SIZE <= addr {
          AddressInWord(a, c, i, k, addr);
        }
      }
    }

    /** A client stores into a block it holds: the word can be read back, no other word changes,
        and no list, counter or block of the allocator does. */
    method ClientWrite(ptr: nat, k: nat, value: nat)
      requires Coupled() && LiveAt(W, ptr) && (k + 1) * WORD_SIZE <= BlockSizeAt(W, ptr)
      modifies Repr
      ensures Coupled() && Repr == old(Repr) && registry == old(registry)
      ensures W == old(W)
      ensures ClientWord(ptr, k) == value && MemoryKeptBut(ptr + k * WORD_SIZE)
    {
      hide Registered, BlocksCoupled, BinsCoupled, ChainsCoupled, CountersCoupled, Disjoint, Shape, MembersKnown;
      hide SlotAt, IsLive, Superblock.Valid;
      var a := SuperblockOf(ptr);
      InRegistry(a);
      BlockOf(a);
      LiveAddress(a, ptr);
      registry[a].ClientWrite(ptr, k, value);
      SameBlockValue(W, a);
      BlockChanged(a);
      BuffersApart(a);
      OneWordWritten(a, registry[a].blockSize, SlotAt(a, registry[a].blockSize, ptr), k);
      WordInside(a, W.SbAt(a), ptr, k);
      WordRead(ptr, k, value);
    }

    lemma WordRead(ptr: nat, k: nat, value: nat)
      requires var a := SuperblockOf(ptr);
               && a in registry && SuperblockOf(ptr + k * WORD_SIZE) == a
               && var s := registry[a]; var i := SlotAt(a, s.blockSize, ptr);
               && s.blockSize % WORD_SIZE == 0 && ptr == BlockAddr(a, s.blockSize, i) && a + HEADER_SIZE <= ptr
               && WordAt(s.blockSize, i) + k < s.buf.Length && s.buf[WordAt(s.blockSize, i) + k] == value
      ensures ClientWord(ptr, k) == value
    {
      hide SuperblockOf, SlotAt, WordAt, BlockAddr;
      var a := SuperblockOf(ptr);
      AddressInWord(a, registry[a].blockSize, SlotAt(a, registry[a].blockSize, ptr), k, ptr + k * WORD_SIZE);
    }

    lemma InRegistry(a: nat)
      requires Coupled()
      ensures a in W.sbs <==> a in registry
    {
    }

    lemma SameBlockValue(w: World, a: nat)
      requires a in w.sbs && a in w.owner
      ensures w.sbs == w.sbs[a := w.SbAt(a)] && w.owner == w.owner[a := w.OwnerOf(a)]
    {
    }

    method SetOwner(a: nat, h: nat)
      requires Coupled() && a in registry
      modifies Repr - Buffers()
      ensures Coupled() && Repr == old(Repr) && registry == old(registry)
      ensures W == old(W).SetOwner(a, h)
    {
      hide Registered, BlocksCoupled, BinsCoupled, ChainsCoupled, CountersCoupled, Disjoint, Shape, MembersKnown;
      hide Superblock.Valid;
      BlockOf(a);
      registry[a].owner := h;
      W := W.SetOwner(a, h);
      BlockChanged(a);
    }

    // ----- bins -----

    lemma MembersFollow()
      requires BinsCoupled(registry, W.lists, W.nonfull)
      ensures MembersKnown()
    {
      forall h, b, x | 0 <= h < |heaps| && 0 <= b < |heaps[h].sizeBins| && x in Bin(h, b).Members()
        ensures x in registry.Values
      {
        assert BinCoupled(registry, W.lists, W.nonfull, h, b);
        var e, i :| 0 <= e < |Bin(h, b).Lists| && 0 <= i < |Bin(h, b).Lists[e]| && Bin(h, b).Lists[e][i] == x;
        assert ListCoupled(registry, W.lists, h, b, e);
      }
    }

    /** One list of bin (h, b) was replaced, in the program as in the value. */
    twostate lemma ChangedBin(new h: nat, new b: nat, new e: nat, new a: nat)
      requires InRange(h, b) && e < NUM_EMPTINESS_CLASSES && registry == old(registry)
      requires old(BinCoupled(registry, W.lists, W.nonfull, h, b)) && Bin(h, b).Valid()
      requires OnlyList(old(W.lists), W.lists, InBin(h, b, e), a)
      requires Known(registry, ListIn(W.lists, InBin(h, b, e)))
      requires Bin(h, b).Lists == old(Bin(h, b).Lists)[e := At(registry, ListIn(W.lists, InBin(h, b, e)))]
      requires CountIn(W.nonfull, h, b) == CountIn(old(W.nonfull), h, b) +
               (if e == 0 then 0 else |ListIn(W.lists, InBin(h, b, e))| - |ListIn(old(W.lists), InBin(h, b, e))|)
      ensures BinCoupled(registry, W.lists, W.nonfull, h, b)
    {
      forall f | 0 <= f < NUM_EMPTINESS_CLASSES
        ensures ListCoupled(registry, W.lists, h, b, f)
      {
        assert old(ListCoupled(registry, W.lists, h, b, f));
        assert f != e ==> ListKept(old(W.lists), W.lists, InBin(h, b, e), a, InBin(h, b, f));
      }
      assert old(ListCoupled(registry, W.lists, h, b, e));
    }

    lemma AddressesInjective()
      requires Registered(registry, W.sbs)
      ensures forall x, y :: x in registry && y in registry && registry[x] == registry[y] ==> x == y
    {
      forall x, y | x in registry && y in registry && registry[x] == registry[y]
        ensures x == y
      {
        assert registry[x].base == x && registry[y].base == y;
      }
    }

    /** The objects other than superblocks and bin (h, b) are as they were. */
    twostate predicate HeapsKeptBut(new h: nat, new b: nat)
      reads this, heaps, table, table.sizes
      reads set g, c | 0 <= g < |heaps| && 0 <= c < |heaps[g].sizeBins| :: Bin(g, c)
    {
      && Repr == old(Repr) && registry == old(registry)
      && unchanged(heaps) && unchanged(table) && unchanged(table.sizes)
      && forall g, c :: 0 <= g < |heaps| && 0 <= c < |heaps[g].sizeBins| && (g, c) != (h, b) ==> unchanged(Bin(g, c))
    }

    /** List `e` of bin (h, b) changed, in the program as in the value. */
    twostate lemma BinChanged(new h: nat, new b: nat, new e: nat, new a: nat)
      requires old(Coupled()) && HeapsKeptBut(h, b) && InRange(h, b) && e < NUM_EMPTINESS_CLASSES
      requires BlockFieldsKept() && LinksKeptOutside(InBin(h, b, e), a)
      requires W.sbs == old(W.sbs) && W.owner == old(W.owner)
      requires W.inUse == old(W.inUse) && W.alloced == old(W.alloced)
      requires OnlyList(old(W.lists), W.lists, InBin(h, b, e), a) && Disjoint(W.lists)
      requires forall g: nat, c: nat :: (g, c) != (h, b) ==> CountIn(W.nonfull, g, c) == CountIn(old(W.nonfull), g, c)
      requires BinCoupled(registry, W.lists, W.nonfull, h, b)
      ensures Coupled()
    {
      hide Registered, BlocksCoupled, CountersCoupled, Disjoint, Shape, MembersKnown, BinCoupled, ChainCoupled, Chain;
      OtherBinsKept(InBin(h, b, e), a);
      OtherChainsKept(InBin(h, b, e), a);
      BlocksKept();
      CountersKept();
      MembersFollow();
    }

    /** What a bin operation needs to know of its bin. */
    lemma BinReady(h: nat, b: nat, e: nat, a: nat)
      requires Coupled() && InRange(h, b) && e < NUM_EMPTINESS_CLASSES && a in registry
      ensures Bin(h, b).Valid() && Bin(h, b) in Repr && |Bin(h, b).Lists| == NUM_EMPTINESS_CLASSES
      ensures Loose(W.lists, a) ==> registry[a] !in Bin(h, b).Members()
      ensures a in ListIn(W.lists, InBin(h, b, e)) ==> registry[a] in Bin(h, b).Lists[e]
      ensures registry[a] in Repr && forall x :: x in Bin(h, b).Lists[e] ==> x in Repr
    {
      hide BlocksCoupled, CountersCoupled, ChainsCoupled, Disjoint;
      assert BinCoupled(registry, W.lists, W.nonfull, h, b);
      var list := ListIn(W.lists, InBin(h, b, e));
      assert ListCoupled(registry, W.lists, h, b, e);
      if registry[a] in Bin(h, b).Members() {
        var f, i :| 0 <= f < |Bin(h, b).Lists| && 0 <= i < |Bin(h, b).Lists[f]| && Bin(h, b).Lists[f][i] == registry[a];
        assert ListCoupled(registry, W.lists, h, b, f);
        assert registry[a].base in ListIn(W.lists, InBin(h, b, f));
      }
      if a in list {
        var i :| 0 <= i < |list| && list[i] == a;
        assert Bin(h, b).Lists[e][i] == registry[a];
      }
    }

    /** Links change only in list `e` of bin (h, b) and at `a`. */
    twostate predicate RelinkedOnly(new h: nat, new b: nat, new e: nat, new a: nat)
      requires registry == old(registry)
      requires InRange(h, b) && e < |old(Bin(h, b).Lists)| && a in registry
      reads this, registry.Values
    {
      forall x: Superblock :: x in registry.Values && x != registry[a] && x !in old(Bin(h, b).Lists[e]) ==>
        unchanged(x`prev) && unchanged(x`next)
    }

    twostate lemma RelinkedInList(new h: nat, new b: nat, new e: nat, new a: nat)
      requires InRange(h, b) && e < NUM_EMPTINESS_CLASSES && registry == old(registry) && a in registry
      requires old(Registered(registry, W.sbs)) && old(ListCoupled(registry, W.lists, h, b, e))
      requires RelinkedOnly(h, b, e, a)
      ensures LinksKeptOutside(InBin(h, b, e), a)
    {
      forall x: Superblock | x in registry.Values && x.base != a && x.base !in ListIn(old(W.lists), InBin(h, b, e))
        ensures x != registry[a] && x !in old(Bin(h, b).Lists[e])
      {
      }
    }

    /** The bin after a push stands for its lists. */
    twostate lemma LongerBin(new h: nat, new b: nat, new e: nat, new a: nat)
      requires InRange(h, b) && e < NUM_EMPTINESS_CLASSES && registry == old(registry) && a in registry
      requires old(Disjoint(W.lists)) && old(BinCoupled(registry, W.lists, W.nonfull, h, b))
      requires Loose(old(W.lists), a) && W == old(W).Push(InBin(h, b, e), a)
      requires Bin(h, b).Valid() && e < |old(Bin(h, b).Lists)|
      requires Bin(h, b).Lists == old(Bin(h, b).Lists)[e := [registry[a]] + old(Bin(h, b).Lists[e])]
      ensures BinCoupled(registry, W.lists, W.nonfull, h, b)
      ensures OnlyList(old(W.lists), W.lists, InBin(h, b, e), a) && Disjoint(W.lists)
      ensures old(ListCoupled(registry, W.lists, h, b, e))
    {
      hide Disjoint;
      var p := InBin(h, b, e);
      assert old(ListCoupled(registry, W.lists, h, b, e));
      PushDisjoint(old(W.lists), p, a);
      AtCons(registry, a, ListIn(old(W.lists), p));
      ChangedBin(h, b, e, a);
    }

    twostate lemma PushedBin(new h: nat, new b: nat, new e: nat, new a: nat)
      requires old(Coupled()) && HeapsKeptBut(h, b) && BlockFieldsKept()
      requires InRange(h, b) && e < NUM_EMPTINESS_CLASSES && a in registry
      requires Loose(old(W.lists), a) && W == old(W).Push(InBin(h, b, e), a)
      requires Bin(h, b).Valid() && e < |old(Bin(h, b).Lists)|
      requires Bin(h, b).Lists == old(Bin(h, b).Lists)[e := [registry[a]] + old(Bin(h, b).Lists[e])]
      requires RelinkedOnly(h, b, e, a)
      ensures Coupled()
    {
      hide BlocksCoupled, CountersCoupled, ChainsCoupled, Disjoint, Registered, BinManager.Valid, BinCoupled;
      assert old(BinCoupled(registry, W.lists, W.nonfull, h, b));
      LongerBin(h, b, e, a);
      RelinkedInList(h, b, e, a);
      BinChanged(h, b, e, a);
    }

    lemma ShapeOf()
      requires Coupled()
      ensures Shape() && this in Repr
    {
      hide Registered, BlocksCoupled, BinsCoupled, ChainsCoupled, CountersCoupled, Disjoint, MembersKnown;
    }

    /** Puts the superblock at `a`, which is in no list, at the head of list `e` of bin (h, b). */
    method PushBin(h: nat, b: nat, e: nat, a: nat)
      requires Coupled() && InRange(h, b) && e < NUM_EMPTINESS_CLASSES
      requires a in registry && Loose(W.lists, a)
      modifies Repr - Buffers()
      ensures Coupled() && Repr == old(Repr) && registry == old(registry)
      ensures W == old(W).Push(InBin(h, b, e), a)
    {
      hide Coupled, BinManager.Valid, Loose, OnlyList, Framed;
      ShapeOf();
      BinReady(h, b, e, a);
      Bin(h, b).PushIntoBin(e, registry[a]);
      W := W.Push(InBin(h, b, e), a);
      PushedBin(h, b, e, a);
    }

    /** The bin after a deletion stands for its lists. */
    twostate lemma TookBin(new h: nat, new b: nat, new e: nat, new a: nat)
      requires InRange(h, b) && e < NUM_EMPTINESS_CLASSES && registry == old(registry) && a in registry
      requires old(Registered(registry, W.sbs)) && old(Disjoint(W.lists))
      requires old(BinCoupled(registry, W.lists, W.nonfull, h, b))
      requires a in ListIn(old(W.lists), InBin(h, b, e)) && W == old(W).Take(InBin(h, b, e), a)
      requires Bin(h, b).Valid() && e < |old(Bin(h, b).Lists)|
      requires Bin(h, b).Lists == old(Bin(h, b).Lists)[e := Without(old(Bin(h, b).Lists[e]), registry[a])]
      ensures BinCoupled(registry, W.lists, W.nonfull, h, b)
      ensures OnlyList(old(W.lists), W.lists, InBin(h, b, e), a) && Disjoint(W.lists) && Loose(W.lists, a)
      ensures old(ListCoupled(registry, W.lists, h, b, e))
    {
      hide Disjoint;
      var p := InBin(h, b, e);
      assert old(ListCoupled(registry, W.lists, h, b, e));
      TakeDisjoint(old(W.lists), p, a);
      AddressesInjective();
      AtWithout(registry, ListIn(old(W.lists), p), a);
      ChangedBin(h, b, e, a);
    }

    twostate lemma TookFromBin(new h: nat, new b: nat, new e: nat, new a: nat)
      requires old(Coupled()) && HeapsKeptBut(h, b) && BlockFieldsKept()
      requires InRange(h, b) && e < NUM_EMPTINESS_CLASSES && a in registry
      requires a in ListIn(old(W.lists), InBin(h, b, e)) && W == old(W).Take(InBin(h, b, e), a)
      requires Bin(h, b).Valid() && e < |old(Bin(h, b).Lists)|
      requires Bin(h, b).Lists == old(Bin(h, b).Lists)[e := Without(old(Bin(h, b).Lists[e]), registry[a])]
      requires RelinkedOnly(h, b, e, a)
      ensures Coupled() && Loose(W.lists, a)
    {
      hide BlocksCoupled, CountersCoupled, ChainsCoupled, Disjoint, Registered, BinManager.Valid, BinCoupled;
      assert old(BinCoupled(registry, W.lists, W.nonfull, h, b));
      TookBin(h, b, e, a);
      RelinkedInList(h, b, e, a);
      BinChanged(h, b, e, a);
    }

    /** Takes the superblock at `a` out of list `e` of bin (h, b), which holds it. */
    method DeleteBin(h: nat, b: nat, e: nat, a: nat)
      requires Coupled() && InRange(h, b) && e < NUM_EMPTINESS_CLASSES
      requires a in registry && a in W.List(InBin(h, b, e))
      modifies Repr - Buffers()
      ensures Coupled() && Repr == old(Repr) && registry == old(registry)
      ensures W == old(W).Take(InBin(h, b, e), a) && Loose(W.lists, a)
    {
      hide Coupled, BinManager.Valid, Loose, OnlyList, Framed;
      ShapeOf();
      BinReady(h, b, e, a);
      Bin(h, b).DeleteFromBin(e, registry[a]);
      W := W.Take(InBin(h, b, e), a);
      TookFromBin(h, b, e, a);
    }

    // ----- recycling lists -----

    /** The objects other than superblocks and heap `h` are as they were; its counters too. */
    twostate predicate BinsAndCountersKept(new h: nat)
      reads this, heaps, table, table.sizes
      reads set g, c | 0 <= g < |heaps| && 0 <= c < |heaps[g].sizeBins| :: Bin(g, c)
    {
      && Repr == old(Repr) && registry == old(registry)
      && unchanged(heaps`inUse, heaps`alloced) && unchanged(table) && unchanged(table.sizes)
      && (forall g :: 0 <= g < |heaps| && g != h ==> heaps[g].recycledSuperblock == old(heaps[g].recycledSuperblock))
      && unchanged(set g, c | 0 <= g < |heaps| && 0 <= c < |heaps[g].sizeBins| :: Bin(g, c))
    }

    /** The recycling list of heap `h` and the superblock at `a` changed; past the last heap,
        `h` stands for none. */
    twostate lemma RecycledChanged(new h: nat, new a: nat)
      requires old(Coupled()) && BinsAndCountersKept(h) && a in registry
      requires forall x :: x in registry && registry[x] != registry[a] ==> unchanged(registry[x])
      requires forall x :: x in registry && registry[x].buf != registry[a].buf ==> unchanged(registry[x].buf)
      requires W.nonfull == old(W.nonfull) && W.inUse == old(W.inUse) && W.alloced == old(W.alloced)
      requires W.sbs == old(W.sbs)[a := W.SbAt(a)] && W.owner == old(W.owner)[a := W.OwnerOf(a)]
      requires Stands(registry[a], W.SbAt(a), W.OwnerOf(a))
      requires OnlyList(old(W.lists), W.lists, Recycled(h), a) && Disjoint(W.lists)
      requires h < |heaps| ==> ChainCoupled(registry, W.lists, h)
      ensures Coupled()
    {
      hide BlocksCoupled, CountersCoupled, Disjoint, MembersKnown, BinCoupled, ChainCoupled, Stands;
      assert LinksKeptOutside(Recycled(h), a);
      OtherBinsKept(Recycled(h), a);
      OtherChainsKept(Recycled(h), a);
      BlocksKeptBut(a);
      CountersKept();
      MembersFollow();
    }

    /** What a recycling list operation needs to know of its list. */
    lemma ChainReady(h: nat)
      requires Coupled() && h < |heaps|
      ensures heaps[h] in Repr
      ensures ChainCoupled(registry, W.lists, h)
      ensures (heaps[h].recycledSuperblock == null) <==> (W.List(Recycled(h)) == [])
      ensures W.List(Recycled(h)) != [] ==>
                var a := W.List(Recycled(h))[0];
                a in registry && registry[a] == heaps[h].recycledSuperblock && registry[a].base == a
    {
      hide BlocksCoupled, CountersCoupled, BinsCoupled, Disjoint;
      assert ChainCoupled(registry, W.lists, h);
    }

    lemma PoppedChain(list: seq<nat>)
      requires list != [] && Known(registry, list)
      ensures Without(list, list[0]) == list[1..] && Known(registry, list[1..])
      ensures At(registry, list[1..]) == At(registry, list)[1..]
    {
    }

    /** Takes the head, at address `a`, off the recycling list of heap `h`. */
    method PopRecycled(h: nat) returns (a: nat)
      requires Coupled() && h < |heaps| && W.List(Recycled(h)) != []
      modifies Repr - Buffers()
      ensures Coupled() && Repr == old(Repr) && registry == old(registry)
      ensures a == old(W).List(Recycled(h))[0] && a in registry
      ensures W == old(W).Take(Recycled(h), a) && Loose(W.lists, a)
    {
      hide Coupled, Loose, Framed, Chain;
      ShapeOf();
      ChainReady(h);
      var s := heaps[h].recycledSuperblock;
      a := s.base;
      heaps[h].recycledSuperblock := s.next;
      W := W.Take(Recycled(h), a);
      PoppedRecycled(h, a);
    }

    twostate lemma PoppedRecycled(new h: nat, new a: nat)
      requires old(Coupled()) && BinsAndCountersKept(h) && h < |heaps|
      requires unchanged(registry.Values) && unchanged(set x | x in registry :: registry[x].buf)
      requires a in ListIn(old(W.lists), Recycled(h)) && ListIn(old(W.lists), Recycled(h))[0] == a
      requires W == old(W).Take(Recycled(h), a)
      requires a in registry && heaps[h].recycledSuperblock == old(registry[a].next)
      ensures Coupled() && Loose(W.lists, a)
    {
      hide Registered, BlocksCoupled, CountersCoupled, BinsCoupled, Disjoint;
      var list := ListIn(old(W.lists), Recycled(h));
      assert old(ChainCoupled(registry, W.lists, h));
      PoppedChain(list);
      TakeDisjoint(old(W.lists), Recycled(h), a);
      assert Chain(heaps[h].recycledSuperblock, At(registry, list[1..]));
      SameBlock(a);
      RecycledChanged(h, a);
    }

    /** A superblock whose block fields did not change still stands for its value. */
    twostate lemma SameBlock(new a: nat)
      requires registry == old(registry) && a in registry && old(Coupled())
      requires W.sbs == old(W.sbs) && W.owner == old(W.owner)
      requires BlockFieldsKept()
      ensures Stands(registry[a], W.SbAt(a), W.OwnerOf(a))
      ensures W.sbs == old(W.sbs)[a := W.SbAt(a)] && W.owner == old(W.owner)[a := W.OwnerOf(a)]
    {
      hide BinsCoupled, CountersCoupled, ChainsCoupled, Disjoint;
      assert old(Stands(registry[a], W.SbAt(a), W.OwnerOf(a)));
    }

    /** Puts the superblock at `a`, which is in no list, at the head of the recycling list. */
    method PushRecycled(h: nat, a: nat)
      requires Coupled() && h < |heaps| && a in registry && Loose(W.lists, a)
      modifies Repr - Buffers()
      ensures Coupled() && Repr == old(Repr) && registry == old(registry)
      ensures W == old(W).Push(Recycled(h), a)
    {
      hide Registered, BlocksCoupled, BinsCoupled, ChainsCoupled, CountersCoupled, Disjoint, MembersKnown;
      ChainReady(h);
      BlockOf(a);
      var s := registry[a];
      s.next := heaps[h].recycledSuperblock;
      heaps[h].recycledSuperblock := s;
      W := W.Push(Recycled(h), a);
      PushedRecycled(h, a);
    }

    twostate lemma PushedRecycled(new h: nat, new a: nat)
      requires old(Coupled()) && BinsAndCountersKept(h) && h < |heaps| && a in registry
      requires forall x :: x in registry && registry[x] != registry[a] ==> unchanged(registry[x])
      requires BlockFieldsKept()
      requires Loose(old(W.lists), a) && W == old(W).Push(Recycled(h), a)
      requires heaps[h].recycledSuperblock == registry[a]
      requires registry[a].next == old(heaps[h].recycledSuperblock)
      ensures Coupled()
    {
      hide BlocksCoupled, CountersCoupled, BinsCoupled, Disjoint;
      var list := ListIn(old(W.lists), Recycled(h));
      assert old(ChainCoupled(registry, W.lists, h));
      PushDisjoint(old(W.lists), Recycled(h), a);
      AtCons(registry, a, list);
      LongerChain(h, a, list);
      SameBlock(a);
      RecycledChanged(h, a);
    }

    twostate lemma LongerChain(new h: nat, new a: nat, new list: seq<nat>)
      requires h < |heaps| && registry == old(registry) && a in registry && a !in list
      requires Known(registry, list) && old(Chain(heaps[h].recycledSuperblock, At(registry, list)))
      requires old(Registered(registry, W.sbs))
      requires forall x :: x in registry && registry[x] != registry[a] ==> unchanged(registry[x])
      requires heaps[h].recycledSuperblock == registry[a]
      requires registry[a].next == old(heaps[h].recycledSuperblock)
      ensures Known(registry, [a] + list) && Chain(heaps[h].recycledSuperblock, At(registry, [a] + list))
    {
      var s, longer := At(registry, list), At(registry, [a] + list);
      AtCons(registry, a, list);
      forall i | 0 <= i < |longer|
        ensures longer[i].next == if i + 1 < |longer| then longer[i + 1] else null
      {
        if i > 0 {
          assert longer[i] == s[i - 1] == registry[list[i - 1]];
          assert list[i - 1] in list;
          assert registry[list[i - 1]].base != registry[a].base;
          assert s[i - 1].next == old(s[i - 1].next);
        }
      }
    }

    // ----- reset -----

    /** Cuts the superblock at `a`, which is in no list and has no live block, for class `c`. */
    method ResetLoose(a: nat, c: nat)
      requires Coupled() && a in registry && Loose(W.lists, a) && BlockSizeOk(c)
      modifies Repr - Buffers()
      ensures Coupled() && Repr == old(Repr) && registry == old(registry)
      ensures W == old(W).SetSb(a, Fresh(c))
    {
      hide Registered, BlocksCoupled, BinsCoupled, ChainsCoupled, CountersCoupled, Disjoint, Shape, MembersKnown;
      hide Superblock.Valid;
      BlockOf(a);
      BlockPlace(a);
      registry[a].Reset(c);
      W := W.SetSb(a, Fresh(c));
      LooseChanged(a);
    }

    lemma BlockPlace(a: nat)
      requires Coupled() && a in registry
      ensures a > 0 && a % SUPERBLOCK_SIZE == 0 && registry[a].buf.Length == BUFFER_SIZE / WORD_SIZE
    {
      hide BinsCoupled, ChainsCoupled, CountersCoupled, Disjoint;
      assert Stands(registry[a], W.sbs[a], W.owner[a]);
    }

    twostate lemma LooseChanged(new a: nat)
      requires old(Coupled()) && HeapsKept() && a in registry
      requires forall x :: x in registry && registry[x] != registry[a] ==> unchanged(registry[x])
      requires unchanged(set x | x in registry :: registry[x].buf)
      requires W.lists == old(W.lists) && W.nonfull == old(W.nonfull)
      requires W.inUse == old(W.inUse) && W.alloced == old(W.alloced)
      requires W.sbs == old(W.sbs)[a := W.SbAt(a)] && W.owner == old(W.owner)[a := W.OwnerOf(a)]
      requires Stands(registry[a], W.SbAt(a), W.OwnerOf(a)) && Loose(W.lists, a)
      ensures Coupled()
    {
      hide Registered, BlocksCoupled, BinsCoupled, ChainsCoupled, CountersCoupled, Disjoint, Shape, MembersKnown, Stands;
      var p := Recycled(|heaps|);
      assert OnlyList(old(W.lists), W.lists, p, a) by {
        forall q | q != p
          ensures ListKept(old(W.lists), W.lists, p, a, q)
        {
        }
      }
      RecycledChanged(|heaps|, a);
    }

    /** As written: the head of the recycling list is reset, which nulls its `next`, and only
        then is `next` read. */
    method DropRecycled(h: nat, c: nat) returns (a: nat)
      requires Coupled() && h < |heaps| && W.List(Recycled(h)) != [] && BlockSizeOk(c)
      modifies Repr - Buffers()
      ensures Coupled() && Repr == old(Repr) && registry == old(registry)
      ensures a == old(W).List(Recycled(h))[0] && a in registry
      ensures W == old(W).Clear(Recycled(h)).SetSb(a, Fresh(c)) && Loose(W.lists, a)
    {
      hide Registered, BlocksCoupled, BinsCoupled, ChainsCoupled, CountersCoupled, Disjoint, MembersKnown;
      hide Superblock.Valid;
      ChainReady(h);
      var s := heaps[h].recycledSuperblock;
      a := s.base;
      BlockOf(a);
      BlockPlace(a);
      s.Reset(c);
      heaps[h].recycledSuperblock := s.next;
      W := W.Clear(Recycled(h)).SetSb(a, Fresh(c));
      DroppedRecycled(h, a, c);
    }

    twostate lemma DroppedRecycled(new h: nat, new a: nat, new c: nat)
      requires old(Coupled()) && BinsAndCountersKept(h) && h < |heaps| && a in registry
      requires forall x :: x in registry && registry[x] != registry[a] ==> unchanged(registry[x])
      requires unchanged(set x | x in registry :: registry[x].buf)
      requires a in ListIn(old(W.lists), Recycled(h))
      requires W == old(W).Clear(Recycled(h)).SetSb(a, Fresh(c))
      requires Stands(registry[a], W.SbAt(a), W.OwnerOf(a))
      requires heaps[h].recycledSuperblock == null
      ensures Coupled() && Loose(W.lists, a)
    {
      hide Registered, BlocksCoupled, CountersCoupled, BinsCoupled, Stands;
      ClearDisjoint(old(W.lists), Recycled(h), a);
      assert At(registry, []) == [];
      SameOwner(a);
      RecycledChanged(h, a);
    }

    twostate lemma SameOwner(new a: nat)
      requires registry == old(registry) && a in registry && old(Coupled())
      requires W.owner == old(W.owner)
      ensures W.owner == old(W.owner)[a := W.OwnerOf(a)]
    {
      hide BinsCoupled, CountersCoupled, ChainsCoupled, Disjoint;
    }

    // ----- usage counters -----

    /** Only counters changed. */
    twostate lemma CounterChanged()
      requires old(Coupled()) && Repr == old(Repr) && registry == old(registry)
      requires unchanged(registry.Values) && unchanged(set x | x in registry :: registry[x].buf)
      requires unchanged(heaps`recycledSuperblock) && unchanged(table) && unchanged(table.sizes)
      requires unchanged(set h, b | 0 <= h < |heaps| && 0 <= b < |heaps[h].sizeBins| :: Bin(h, b))
      requires W.sbs == old(W.sbs) && W.owner == old(W.owner)
      requires W.lists == old(W.lists) && W.nonfull == old(W.nonfull)
      requires CountersCoupled(W.inUse, W.alloced)
      ensures Coupled()
    {
      hide Registered, BlocksCoupled, BinsCoupled, ChainsCoupled, CountersCoupled, Disjoint, Shape, MembersKnown;
      BinsKept();
      ChainsKept();
      BlocksKept();
    }

    lemma HeapReady(h: nat)
      requires Coupled() && h < |heaps|
      ensures heaps[h] in Repr && |W.inUse| == |W.alloced| == |heaps|
      ensures heaps[h].inUse == W.inUse[h] && heaps[h].alloced == W.alloced[h]
      ensures CountersCoupled(W.inUse, W.alloced) && Shape()
    {
      hide Registered, BlocksCoupled, BinsCoupled, ChainsCoupled, Disjoint;
    }

    method IncUsage(h: nat, bytes: nat)
      requires Coupled() && h < |heaps|
      modifies Repr - Buffers()
      ensures Coupled() && Repr == old(Repr) && registry == old(registry)
      ensures W == old(W).AddUsage(h, bytes)
    {
      hide Registered, BlocksCoupled, BinsCoupled, ChainsCoupled, Disjoint, MembersKnown;
      HeapReady(h);
      heaps[h].inUse := heaps[h].inUse + bytes;
      W := W.AddUsage(h, bytes);
      CounterChanged();
    }

    method IncAlloced(h: nat, bytes: nat)
      requires Coupled() && h < |heaps|
      modifies Repr - Buffers()
      ensures Coupled() && Repr == old(Repr) && registry == old(registry)
      ensures W == old(W).AddAlloced(h, bytes)
    {
      hide Registered, BlocksCoupled, BinsCoupled, ChainsCoupled, Disjoint, MembersKnown;
      HeapReady(h);
      heaps[h].alloced := heaps[h].alloced + bytes;
      W := W.AddAlloced(h, bytes);
      CounterChanged();
    }

    method DecUsage(h: nat, bytes: nat)
      requires Coupled() && h < |heaps| && h < |W.inUse| && bytes <= W.inUse[h]
      modifies Repr - Buffers()
      ensures Coupled() && Repr == old(Repr) && registry == old(registry)
      ensures W == old(W).AddUsage(h, 0 - bytes)
    {
      hide Registered, BlocksCoupled, BinsCoupled, ChainsCoupled, Disjoint, MembersKnown;
      HeapReady(h);
      heaps[h].inUse := heaps[h].inUse - bytes;
      W := W.AddUsage(h, 0 - bytes);
      CounterChanged();
    }

    method DecAlloced(h: nat, bytes: nat)
      requires Coupled() && h < |heaps| && h < |W.alloced| && bytes <= W.alloced[h]
      modifies Repr - Buffers()
      ensures Coupled() && Repr == old(Repr) && registry == old(registry)
      ensures W == old(W).AddAlloced(h, 0 - bytes)
    {
      hide Registered, BlocksCoupled, BinsCoupled, ChainsCoupled, Disjoint, MembersKnown;
      HeapReady(h);
      heaps[h].alloced := heaps[h].alloced - bytes;
      W := W.AddAlloced(h, 0 - bytes);
      CounterChanged();
    }

    // ----- new superblocks -----

    /** The registry gained address `a`. */
    twostate predicate Grown(new a: nat)
      reads this
    {
      old(a !in registry) && a in registry && registry == old(registry)[a := registry[a]]
    }

    twostate lemma BinsGrown(new a: nat)
      requires Grown(a) && W.lists == old(W.lists) && W.nonfull == old(W.nonfull)
      requires old(MembersKnown()) && old(BinsCoupled(registry, W.lists, W.nonfull))
      requires unchanged(set h, b | 0 <= h < |heaps| && 0 <= b < |heaps[h].sizeBins| :: Bin(h, b))
      requires unchanged(old(registry).Values`prev) && unchanged(old(registry).Values`next)
      ensures BinsCoupled(registry, W.lists, W.nonfull)
    {
      forall h, b | 0 <= h < |heaps| && 0 <= b < |heaps[h].sizeBins|
        ensures BinCoupled(registry, W.lists, W.nonfull, h, b)
      {
        assert old(BinCoupled(registry, W.lists, W.nonfull, h, b));
        forall e | 0 <= e < NUM_EMPTINESS_CLASSES
          ensures ListCoupled(registry, W.lists, h, b, e)
        {
          assert old(ListCoupled(registry, W.lists, h, b, e));
          AtGrows(old(registry), registry, ListIn(W.lists, InBin(h, b, e)));
        }
      }
    }

    twostate lemma ChainsGrown(new a: nat)
      requires Grown(a) && W.lists == old(W.lists)
      requires old(ChainsCoupled(registry, W.lists))
      requires unchanged(heaps`recycledSuperblock) && unchanged(old(registry).Values`next)
      ensures ChainsCoupled(registry, W.lists)
    {
      forall h | 0 <= h < |heaps|
        ensures ChainCoupled(registry, W.lists, h)
      {
        assert old(ChainCoupled(registry, W.lists, h));
        AtGrows(old(registry), registry, ListIn(W.lists, Recycled(h)));
      }
    }

    twostate lemma BlocksGrown(new a: nat)
      requires Grown(a) && old(Registered(registry, W.sbs)) && old(BlocksCoupled(registry, W.sbs, W.owner))
      requires registry[a].base == a && Stands(registry[a], W.SbAt(a), W.OwnerOf(a))
      requires fresh(registry[a].buf) && unchanged(old(registry).Values)
      requires unchanged(set x | x in old(registry) :: old(registry)[x].buf)
      requires W.sbs == old(W.sbs)[a := W.SbAt(a)] && W.owner == old(W.owner)[a := W.OwnerOf(a)]
      ensures BlocksCoupled(registry, W.sbs, W.owner)
    {
      forall x | x in registry && x != a
        ensures x in W.sbs && x in W.owner && Stands(registry[x], W.sbs[x], W.owner[x])
      {
        assert old(Stands(registry[x], W.sbs[x], W.owner[x]));
      }
    }

    twostate lemma RegistryGrown(new a: nat)
      requires Grown(a) && old(Registered(registry, W.sbs)) && W.sbs == old(W.sbs)[a := W.SbAt(a)]
      requires registry[a].base == a && fresh(registry[a].buf)
      ensures Registered(registry, W.sbs)
    {
    }

    /** The superblock at `a` was mapped, and nothing else changed. */
    twostate lemma Mapped(new a: nat)
      requires old(Coupled()) && Grown(a)
      requires Repr == old(Repr) + {registry[a], registry[a].buf}
      requires registry[a].base == a && Stands(registry[a], W.SbAt(a), W.OwnerOf(a))
      requires fresh(registry[a].buf)
      requires unchanged(old(registry).Values) && unchanged(set x | x in old(registry) :: old(registry)[x].buf)
      requires unchanged(heaps) && unchanged(table) && unchanged(table.sizes)
      requires unchanged(set h, b | 0 <= h < |heaps| && 0 <= b < |heaps[h].sizeBins| :: Bin(h, b))
      requires W.sbs == old(W.sbs)[a := W.SbAt(a)] && W.owner == old(W.owner)[a := W.OwnerOf(a)]
      requires W.lists == old(W.lists) && W.nonfull == old(W.nonfull)
      requires W.inUse == old(W.inUse) && W.alloced == old(W.alloced)
      ensures Coupled()
    {
      hide Registered, BlocksCoupled, BinsCoupled, ChainsCoupled, CountersCoupled, Disjoint, Shape, MembersKnown, Stands;
      BinsGrown(a);
      MembersFollow();
      ChainsGrown(a);
      BlocksGrown(a);
      RegistryGrown(a);
      CountersKept();
    }

    /** Maps a superblock cut for class `c` and owned by heap `h`; `raw` is what mmap returned. */
    method MapNew(h: nat, c: nat, raw: nat) returns (a: nat)
      requires Coupled() && BlockSizeOk(c) && raw > 0 && AlignUp(raw) !in registry
      modifies Repr - Buffers()
      ensures Coupled() && fresh(Repr - old(Repr)) && Repr >= old(Repr)
      ensures StillMapped() && old(Buffers()) <= Buffers()
      ensures a == AlignUp(raw) && a in registry
      ensures W == old(W).SetSb(a, Fresh(c)).SetOwner(a, h)
    {
      hide Registered, BlocksCoupled, BinsCoupled, ChainsCoupled, CountersCoupled, Disjoint, MembersKnown;
      hide Superblock.Valid;
      var unmapped;
      a, unmapped := CarveOut(raw);
      var s := new Superblock(a, c);
      s.owner := h;
      registry := registry[a := s];
      Repr := Repr + {s, s.buf};
      W := W.SetSb(a, Fresh(c)).SetOwner(a, h);
      Mapped(a);
    }

    // ----- searching the bins -----

    /** The head of a list, and when there is none. */
    lemma HeadIs(h: nat, b: nat, e: nat)
      requires Coupled() && h < |heaps| && b < NUM_SIZE_BINS && e < NUM_EMPTINESS_CLASSES
      ensures InRange(h, b) && |Bin(h, b).emptinessBins| == NUM_EMPTINESS_CLASSES
      ensures Bin(h, b).emptinessBins[e] == null <==> W.List(InBin(h, b, e)) == []
      ensures W.List(InBin(h, b, e)) != [] ==>
                var a := W.List(InBin(h, b, e))[0];
                a in registry && Bin(h, b).emptinessBins[e] == registry[a] && registry[a].base == a
      ensures Bin(h, b).numNonfullSuperblocks == W.Nonfull(h, b)
    {
      hide BlocksCoupled, CountersCoupled, ChainsCoupled, Disjoint;
      assert BinCoupled(registry, W.lists, W.nonfull, h, b);
      assert ListCoupled(registry, W.lists, h, b, e);
      assert Ring(Bin(h, b).emptinessBins[e], Bin(h, b).Lists[e]);
    }

    /** The scan from the fullest to the emptiest class that is not full. */
    method FindNonfull(h: nat, b: nat) returns (eidx: nat)
      requires Coupled() && h < |heaps| && b < NUM_SIZE_BINS
      ensures var found := FullestFrom(W, h, b, 1);
              eidx == if found.Some? then found.value else NUM_EMPTINESS_CLASSES
      ensures 1 <= eidx <= NUM_EMPTINESS_CLASSES
      ensures eidx < NUM_EMPTINESS_CLASSES ==> W.List(InBin(h, b, eidx)) != []
      ensures forall e :: 1 <= e < eidx ==> W.List(InBin(h, b, e)) == []
    {
      hide Coupled;
      eidx := 1;
      while eidx < NUM_EMPTINESS_CLASSES
        invariant 1 <= eidx <= NUM_EMPTINESS_CLASSES
        invariant FullestFrom(W, h, b, 1) == FullestFrom(W, h, b, eidx)
      {
        HeadIs(h, b, eidx);
        if Bin(h, b).emptinessBins[eidx] != null {
          return;
        }
        eidx := eidx + 1;
      }
    }

    /** The search from the emptiest class, over all bins; class 0 means that none was found. */
    method FindEmptiestSb(h: nat) returns (b: nat, eidx: nat)
      requires Coupled() && h < |heaps|
      ensures eidx == 0 <==> FindEmptiest(W, h).None?
      ensures eidx > 0 ==> FindEmptiest(W, h) == Some((b, eidx))
      ensures eidx > 0 ==> eidx < NUM_EMPTINESS_CLASSES && b < NUM_SIZE_BINS && W.List(InBin(h, b, eidx)) != []
      ensures eidx > 0 ==> forall c :: 0 <= c < b ==> W.List(InBin(h, c, eidx)) == []
      ensures forall c, e :: 0 <= c < NUM_SIZE_BINS && eidx < e < NUM_EMPTINESS_CLASSES ==> W.List(InBin(h, c, e)) == []
    {
      hide Coupled, EmptiestUpTo, FirstBinFrom, FullestFrom;
      eidx := NUM_EMPTINESS_CLASSES - 1;
      b := 0;
      while eidx > 0
        invariant eidx < NUM_EMPTINESS_CLASSES
        invariant FindEmptiest(W, h) == EmptiestUpTo(W, h, eidx)
      {
        b := 0;
        while b < NUM_SIZE_BINS
          invariant b <= NUM_SIZE_BINS
          invariant FirstBinFrom(W, h, eidx, 0) == FirstBinFrom(W, h, eidx, b)
        {
          HeadIs(h, b, eidx);
          SearchBin(W, h, eidx, b);
          if Bin(h, b).emptinessBins[eidx] != null {
            return;
          }
          b := b + 1;
        }
        SearchClass(W, h, eidx);
        eidx := eidx - 1;
      }
    }

    // ----- malloc -----

    /** Takes a superblock from the global heap: one of class `b` with a free block or else an
        empty one of any class; 0 if there is none. */
    method GetSbFromGlobal(b: nat) returns (a: nat, recycled: bool)
      requires Coupled() && WellFiled(W) && |heaps| > 0 && b < NUM_SIZE_BINS
      modifies Repr - Buffers()
      ensures Coupled() && Repr == old(Repr) && registry == old(registry)
      ensures var e := FullestFrom(old(W), 0, b, 1); var w := old(W);
              if w.Nonfull(0, b) > 0 && e.Some? then
                !recycled && 0 < a == w.List(InBin(0, b, e.value))[0] && W == w.Take(InBin(0, b, e.value), a)
              else if w.Nonfull(0, b) <= 0 && w.List(Recycled(0)) != [] then
                recycled && 0 < a == w.List(Recycled(0))[0] && W == w.Take(Recycled(0), a)
              else !recycled && a == 0 && W == w
      ensures a != 0 ==> a in registry && Loose(W.lists, a)
    {
      hide Coupled;
      HeadIs(0, b, 1);
      ChainReady(0);
      CounterGuidesScan(W, Lost(W), 0, b);
      a, recycled := 0, false;
      if Bin(0, b).numNonfullSuperblocks > 0 {
        var eidx := FindNonfull(0, b);
        HeadIs(0, b, eidx);
        a := Bin(0, b).emptinessBins[eidx].base;
        BlockPlace(a);
        DeleteBin(0, b, eidx, a);
      } else if heaps[0].recycledSuperblock != null {
        a := PopRecycled(0);
        BlockPlace(a);
        recycled := true;
      }
    }

    /** Hands the superblock at `a`, just taken from the global heap, to heap `h`. */
    method AdoptFor(h: nat, a: nat)
      requires Coupled() && h < |heaps| && a in registry && Loose(W.lists, a)
      modifies Repr - Buffers()
      ensures Coupled() && Repr == old(Repr) && registry == old(registry)
      ensures W == Adopt(old(W), h, a) && Loose(W.lists, a)
    {
      hide Coupled;
      BlockOf(a);
      SetOwner(a, h);
      BlockOf(a);
      var bytes := registry[a].UsedBytes();
      IncUsage(h, bytes);
      IncAlloced(h, SUPERBLOCK_SIZE);
    }

    /** Takes the head of the recycling list of heap `h` and cuts it for class `c`. */
    method Recycle(h: nat, c: nat) returns (a: nat)
      requires Coupled() && h < |heaps| && W.List(Recycled(h)) != [] && BlockSizeOk(c)
      modifies Repr - Buffers()
      ensures Coupled() && Repr == old(Repr) && registry == old(registry)
      ensures a == old(W).List(Recycled(h))[0] && a in registry && Loose(W.lists, a)
      ensures W == (if repairs.nextFirst then old(W).Take(Recycled(h), a) else old(W).Clear(Recycled(h))).SetSb(a, Fresh(c))
    {
      hide Coupled;
      if repairs.nextFirst {
        a := PopRecycled(h);
        ResetLoose(a, c);
      } else {
        a := DropRecycled(h, c);
      }
    }

    /** Takes over a superblock of the global heap; 0 if it has none to offer. */
    method ObtainShared(h: nat, b: nat, c: nat) returns (a: nat)
      requires Coupled() && WellFiled(W)
      requires h < |heaps| && b < NUM_SIZE_BINS && BlockSizeOk(c)
      modifies Repr - Buffers()
      ensures Coupled() && Repr == old(Repr) && registry == old(registry)
      ensures var e := FullestFrom(old(W), 0, b, 1); var w := old(W);
              if w.Nonfull(0, b) > 0 && e.Some? then
                0 < a == w.List(InBin(0, b, e.value))[0] && W == Adopt(w.Take(InBin(0, b, e.value), a), h, a)
              else if w.Nonfull(0, b) <= 0 && w.List(Recycled(0)) != [] then
                0 < a == w.List(Recycled(0))[0] &&
                W == if repairs.resetAdopted then Adopt(w.Take(Recycled(0), a), h, a).SetSb(a, Fresh(c))
                     else Adopt(w.Take(Recycled(0), a), h, a)
              else a == 0 && W == w
      ensures a != 0 ==> a in registry && Loose(W.lists, a)
    {
      hide Coupled, WellFiled, Adopt, FullestFrom, Loose;
      var recycled;
      a, recycled := GetSbFromGlobal(b);
      if a != 0 {
        AdoptFor(h, a);
        if recycled && repairs.resetAdopted {
          ResetLoose(a, c);
        }
      }
    }

    /** A new mapping yields a superblock address that is not in use and in no list. */
    lemma NotMapped(raw: nat)
      requires Coupled() && WellFiled(W) && FreshRange(W, raw)
      ensures AlignUp(raw) !in registry && Loose(W.lists, AlignUp(raw))
    {
      hide BlocksCoupled, BinsCoupled, ChainsCoupled, CountersCoupled, Disjoint;
      forall p
        ensures AlignUp(raw) !in ListIn(W.lists, p)
      {
        assert AlignUp(raw) in W.List(p) ==> AlignUp(raw) in W.sbs;
      }
    }

    /** Maps a superblock for heap `h`, if mmap returns memory; 0 if it does not. */
    method ObtainNew(h: nat, c: nat, raw: Option<nat>) returns (a: nat)
      requires Coupled() && WellFiled(W) && MapOk(W, raw)
      requires h < |heaps| && BlockSizeOk(c)
      modifies Repr - Buffers()
      ensures Coupled() && fresh(Repr - old(Repr))
      ensures StillMapped() && old(Buffers()) <= Buffers()
      ensures raw.None? ==> a == 0 && W == old(W)
      ensures raw.Some? ==>
                && a == AlignUp(raw.value) && a in registry && Loose(W.lists, a)
                && W == old(W).SetSb(a, Fresh(c)).SetOwner(a, h).AddAlloced(h, SUPERBLOCK_SIZE)
    {
      hide Coupled, WellFiled;
      a := 0;
      if raw.Some? {
        NotMapped(raw.value);
        a := MapNew(h, c, raw.value);
        IncAlloced(h, SUPERBLOCK_SIZE);
      }
    }

    /** Finds a superblock to serve bin `b` of heap `h` outside the bin itself; 0 if there is
        none and none can be mapped. */
    method Obtain(h: nat, b: nat, c: nat, raw: Option<nat>) returns (a: nat)
      requires Coupled() && WellFiled(W) && MapOk(W, raw)
      requires 0 < h < |heaps| && b < NUM_SIZE_BINS && BlockSizeOk(c)
      requires FullestFrom(W, h, b, 1).None?
      modifies Repr - Buffers()
      ensures Coupled() && fresh(Repr - old(Repr))
      ensures StillMapped() && old(Buffers()) <= Buffers()
      ensures var src := SourceFor(old(W), h, b, raw);
              if src.NoMemory? then a == 0 && W == old(W)
              else a == Chosen(old(W), h, b, src) && a in registry && Loose(W.lists, a)
                   && W == Prepare(TakeOut(old(W), repairs, h, b, src), repairs, h, c, src, a)
    {
      hide Coupled, WellFiled, Adopt, Loose, SourceFor, Prepare, TakeOut, Chosen;
      ChainReady(h);
      SourceInOrder(W, repairs, h, b, c, raw);
      if heaps[h].recycledSuperblock != null {
        a := Recycle(h, c);
      } else {
        a := ObtainShared(h, b, c);
        if a == 0 {
          a := ObtainNew(h, c, raw);
        }
      }
    }

    /** The emptiness class, read off the header. */
    method EidxOf(a: nat) returns (eidx: nat)
      requires Coupled() && a in registry
      ensures eidx == W.SbAt(a).Eidx() < NUM_EMPTINESS_CLASSES
    {
      hide Coupled;
      BlockOf(a);
      eidx := registry[a].GetEidx();
    }

    /** Serves a block from the superblock at `a`, which is in no list, and files it. */
    method ServeLoose(h: nat, b: nat, a: nat) returns (ptr: nat)
      requires Coupled() && h < |heaps| && b < NUM_SIZE_BINS
      requires a in registry && Loose(W.lists, a) && W.SbAt(a).NumFree() > 0
      modifies Repr - Buffers()
      ensures Coupled() && Repr == old(Repr) && registry == old(registry)
      ensures W == Serve(old(W), h, b, a)
      ensures ptr == BlockAddr(a, old(W).SbAt(a).blockSize, old(W).SbAt(a).NextSlot())
    {
      hide Coupled, Loose, Sb.Eidx, Sb.Alloc, Sb.NumFree, Sb.NextSlot, BlockAddr;
      HeadIs(h, b, 0);
      ptr := AllocFrom(a);
      var newEidx := EidxOf(a);
      PushBin(h, b, newEidx, a);
    }

    /** Serves a block from the superblock at `a`, which is in a bin of class `b`, and moves it
        to the bin its fullness then determines. */
    method ServeFromBin(h: nat, b: nat, a: nat) returns (ptr: nat)
      requires Coupled() && h < |heaps| && b < NUM_SIZE_BINS
      requires a in registry && W.SbAt(a).NumFree() > 0
      requires W.SbAt(a).Eidx() >= 0 && a in W.List(InBin(h, b, W.SbAt(a).Eidx()))
      modifies Repr - Buffers()
      ensures Coupled() && Repr == old(Repr) && registry == old(registry)
      ensures W == Serve(old(W).Take(InBin(h, b, old(W).SbAt(a).Eidx()), a), h, b, a)
      ensures ptr == BlockAddr(a, old(W).SbAt(a).blockSize, old(W).SbAt(a).NextSlot())
    {
      hide Coupled, Loose, Sb.Eidx, Sb.Alloc, Sb.NumFree, Sb.NextSlot, BlockAddr;
      HeadIs(h, b, 0);
      var oldEidx := EidxOf(a);
      ptr := AllocFrom(a);
      var newEidx := EidxOf(a);
      DeleteBin(h, b, oldEidx, a);
      PushBin(h, b, newEidx, a);
      TakeAndSet(old(W), InBin(h, b, oldEidx), a, old(W).SbAt(a).Alloc());
    }

    /** bin_alloc: 0 when there is no memory. */
    method BinAllocate(h: nat, b: nat, c: nat, raw: Option<nat>) returns (ptr: nat)
      requires Coupled() && WellFiled(W) && MapOk(W, raw)
      requires 0 < h < |heaps| && b < NUM_SIZE_BINS && c == ClassOf(b)
      modifies Repr - Buffers()
      ensures Coupled() && fresh(Repr - old(Repr))
      ensures StillMapped() && old(Buffers()) <= Buffers()
      ensures (W, if ptr == 0 then None else Some(ptr)) == BinAlloc(old(W), repairs, h, b, c, raw)
    {
      hide Coupled, WellFiled, Prepare, TakeOut, Serve, Loose, SourceFor, Chosen, BinAlloc;
      hide Sb.Eidx, Sb.NumFree, Sb.NextSlot, BlockAddr;
      HeapReady(h);
      BinAllocIs(W, repairs, h, b, c, raw);
      var eidx := FindNonfull(h, b);
      if eidx < NUM_EMPTINESS_CLASSES {
        HeadIs(h, b, eidx);
        var a := Bin(h, b).emptinessBins[eidx].base;
        BinHeadReady(W, repairs, h, b, raw, eidx, a);
        ptr := ServeFromBin(h, b, a);
      } else {
        BinOfClass(b);
        ObtainedCanServe(W, repairs, h, b, raw);
        var a := Obtain(h, b, c, raw);
        if a == 0 {
          ptr := 0;
        } else {
          ptr := ServeLoose(h, b, a);
        }
      }
    }

    /** The bin of a request, looked up in the size table. */
    method BinOfSize(size: nat) returns (b: nat)
      requires Coupled()
      ensures b == BinOf(size)
    {
      hide Coupled;
      TableReady();
      b := table.Size2Idx(size);
    }

    lemma TableReady()
      requires Coupled()
      ensures table.Holds(SIZE_CLASSES) && StrictlyIncreasing(SIZE_CLASSES)
      ensures table.numSizeBins <= table.sizes.Length && table.sizes[..table.numSizeBins] == SIZE_CLASSES
    {
      hide Registered, BlocksCoupled, BinsCoupled, ChainsCoupled, CountersCoupled, Disjoint, Shape, MembersKnown, Framed;
      ClassesIncrease();
    }

    method ClassOfBin(b: nat) returns (c: nat)
      requires Coupled() && b < NUM_SIZE_BINS
      ensures c == ClassOf(b)
    {
      hide Coupled;
      TableReady();
      assert table.sizes[..table.numSizeBins][b] == SIZE_CLASSES[b];
      c := table.sizes[b];
    }

    /** heap_alloc refines the specification; 0 stands for NULL. */
    method HeapAllocate(h: nat, size: nat, raw: Option<nat>) returns (ptr: nat)
      requires Coupled() && WellFiled(W) && 0 < h < |heaps| && LegalMalloc(W, h, size, raw)
      modifies Repr - Buffers()
      ensures Coupled() && fresh(Repr - old(Repr))
      ensures StillMapped() && old(Buffers()) <= Buffers()
      ensures ClientsKept(0)
      ensures (W, if ptr == 0 then None else Some(ptr)) == HeapAlloc(old(W), repairs, h, size, raw)
      ensures !Misfiles(old(W), repairs, h, BinOf(size), raw) ==> WellFiled(W) && (old(Accounts(W)) ==> Accounts(W))
      ensures ptr != 0 ==> !old(LiveAt(W, ptr)) && LiveAt(W, ptr)
      ensures ptr != 0 && !Misfiles(old(W), repairs, h, BinOf(size), raw) ==> size <= BlockSizeAt(W, ptr)
    {
      hide Coupled, WellFiled, BinAlloc, MapOk, Misfiles, LiveAt, Accounts, ServedSize;
      MallocEffect(W, repairs, h, size, raw);
      BinHoldsRequest(size);
      var b := BinOfSize(size);
      var c := ClassOfBin(b);
      ptr := BinAllocate(h, b, c, raw);
      if ptr != 0 || !repairs.exactUsage {
        IncUsage(h, c);
      }
      MallocWritesNone();
    }

    // ----- free -----

    /** Returns a block to its superblock and files the superblock anew: in the recycling list
        of its heap if it is empty, in the bin for its fullness if not. */
    method BinRelease(h: nat, b: nat, ptr: nat)
      requires Coupled() && WellFiled(W) && LiveAt(W, ptr)
      requires h == W.OwnerOf(SuperblockOf(ptr)) && b == BinOf(W.SbAt(SuperblockOf(ptr)).blockSize)
      modifies Repr
      ensures Coupled() && Repr == old(Repr) && registry == old(registry)
      ensures MemoryKeptBut(ptr)
      ensures W == BinFree(old(W), ptr)
    {
      hide Coupled, WellFiled, LiveAt, Loose, BinFree, IsLive, Memory;
      var a := SuperblockOf(ptr);
      ReadyToFree(W, ptr);
      HomeInRange(a);
      var oldEidx := EidxOf(a);
      ReleaseTo(a, ptr);
      label back:
      BlockOf(a);
      var empty := registry[a].IsEmpty();
      if empty {
        DeleteBin(h, b, oldEidx, a);
        PushRecycled(h, a);
      } else {
        var newEidx := EidxOf(a);
        DeleteBin(h, b, oldEidx, a);
        PushBin(h, b, newEidx, a);
      }
      BuffersSame@back();
    }

    lemma HomeInRange(a: nat)
      requires Coupled() && WellFiled(W) && a in W.sbs
      ensures a in registry && W.OwnerOf(a) < |heaps| && BinOf(W.SbAt(a).blockSize) < NUM_SIZE_BINS
      ensures InRange(W.OwnerOf(a), BinOf(W.SbAt(a).blockSize))
    {
      hide BlocksCoupled, BinsCoupled, ChainsCoupled, Disjoint, MembersKnown;
      assert SoundAt(W, a);
      ClassRoundTrip(W.SbAt(a).blockSize);
    }

    /** Moves one superblock of heap `h` to the global heap: a recycled one if there is one, or
        else the emptiest. */
    method MoveOut(h: nat) returns (a: nat)
      requires Coupled() && WellFiled(W) && h < |heaps| && TransferFrom(W, h).Some?
      modifies Repr - Buffers()
      ensures Coupled() && Repr == old(Repr) && registry == old(registry)
      ensures a == Leaving(old(W), h) && a in registry
      ensures W == MoveToGlobal(old(W), TransferFrom(old(W), h).value, a)
    {
      hide Coupled, WellFiled, Loose, FindEmptiest, Sb.UsedBytes;
      ChainReady(h);
      LeavingReady(h);
      if heaps[h].recycledSuperblock != null {
        a := PopRecycled(h);
        SetOwner(a, 0);
        PushRecycled(0, a);
      } else {
        var b, eidx := FindEmptiestSb(h);
        HeadIs(h, b, eidx);
        HeadIs(0, b, eidx);
        a := Bin(h, b).emptinessBins[eidx].base;
        DeleteBin(h, b, eidx, a);
        SetOwner(a, 0);
        PushBin(0, b, eidx, a);
      }
    }

    lemma MoveKeepsBlocks(w: World, from: Place, a: nat)
      ensures var after := MoveToGlobal(w, from, a);
              after.sbs == w.sbs && after.inUse == w.inUse
    {
      TakeKeeps(w, from, a);
      PushKeeps(w.Take(from, a).SetOwner(a, 0), InGlobal(from), a);
    }

    /** Transfers one superblock; repaired, its used bytes go with it. */
    method TransferSbToGlobal(h: nat)
      requires Coupled() && WellFiled(W) && h < |heaps| && h < |W.inUse| && TransferFrom(W, h).Some?
      requires repairs.exactUsage ==> W.SbAt(Leaving(W, h)).UsedBytes() <= W.inUse[h]
      modifies Repr - Buffers()
      ensures Coupled() && Repr == old(Repr) && registry == old(registry)
      ensures W == Transfer(old(W), repairs, h)
    {
      hide Coupled, WellFiled, MoveToGlobal, TransferFrom, Sb.UsedBytes;
      MoveKeepsBlocks(W, TransferFrom(W, h).value, Leaving(W, h));
      var a := MoveOut(h);
      if repairs.exactUsage {
        BlockOf(a);
        var bytes := registry[a].UsedBytes();
        DecUsage(h, bytes);
      }
    }

    /** What is known of the list a transfer takes from. */
    lemma LeavingReady(h: nat)
      requires Coupled() && WellFiled(W) && h < |heaps| && TransferFrom(W, h).Some?
      ensures Leaving(W, h) in registry
      ensures W.List(Recycled(h)) == [] ==>
                var found := FindEmptiest(W, h);
                && found.Some? && found.value.0 < NUM_SIZE_BINS && 0 < found.value.1 < NUM_EMPTINESS_CLASSES
                && W.List(InBin(h, found.value.0, found.value.1)) != []
                && Leaving(W, h) == W.List(InBin(h, found.value.0, found.value.1))[0]
      ensures W.List(Recycled(h)) != [] ==> Leaving(W, h) == W.List(Recycled(h))[0]
    {
      hide BlocksCoupled, BinsCoupled, ChainsCoupled, CountersCoupled, Disjoint, MembersKnown;
      TransferredFacts(W, Lost(W), h);
    }

    method IsEmptyEnough(h: nat) returns (b: bool)
      requires Coupled() && h < |heaps| && h < |W.inUse| && h < |W.alloced|
      ensures b == EmptyEnough(W.inUse[h], W.alloced[h])
    {
      hide Coupled;
      HeapReady(h);
      var u, a := heaps[h].inUse, heaps[h].alloced;
      b := u + FREE_SB_THRESH * SUPERBLOCK_SIZE < a && u < 3 * a / 4;
    }

    /** If heap `h` is empty enough, one superblock leaves it. */
    method TransferIfEmpty(h: nat)
      requires Coupled() && WellFiled(W) && 0 < h < |heaps|
      requires h < |W.inUse| && h < |W.alloced| && TransferFrom(W, h).Some?
      requires W.SbAt(Leaving(W, h)).UsedBytes() <= W.inUse[h]
      modifies Repr - Buffers()
      ensures Coupled() && Repr == old(Repr) && registry == old(registry)
      ensures W == if EmptyEnough(old(W.inUse[h]), old(W.alloced[h])) then Transfer(old(W), repairs, h).AddAlloced(h, 0 - SUPERBLOCK_SIZE)
                   else old(W)
    {
      hide Coupled, WellFiled, Transfer, EmptyEnough, Sb.UsedBytes, TransferFrom;
      HeapReady(h);
      var transfer := IsEmptyEnough(h);
      if transfer {
        TransferSbToGlobal(h);
        AllocedCovers(old(W), repairs, h);
        DecAlloced(h, SUPERBLOCK_SIZE);
      }
    }

    /** heap_free refines the specification. */
    method HeapRelease(ptr: nat)
      requires Coupled() && WellFiled(W) && Accounts(W) && LiveAt(W, ptr)
      modifies Repr
      ensures Coupled() && Repr == old(Repr) && registry == old(registry)
      ensures MemoryKeptBut(ptr) && ClientsKept(ptr)
      ensures W == HeapFree(old(W), repairs, ptr)
      ensures WellFiled(W) && Accounts(W) && !LiveAt(W, ptr)
    {
      hide HeapFree, Settle, Coupled, WellFiled, LiveAt, BinFree, Transfer, Accounts, EmptyEnough, Sb.UsedBytes, TransferFrom, ClientsKept;
      var a := SuperblockOf(ptr);
      FreeFiles(W, repairs, ptr);
      FreeAccounts(W, repairs, ptr);
      FreeLive(W, repairs, ptr, ptr);
      HeapFreeIs(W, repairs, ptr);
      FreeReady(W, ptr);
      HomeInRange(a);
      BlockOf(a);
      var c := registry[a].blockSize;
      var b := BinOfSize(c);
      var h := registry[a].owner;
      HeapReady(h);
      BinRelease(h, b, ptr);
      if h != 0 {
        DecUsage(h, c);
        TransferIfEmpty(h);
      }
      OthersKept(ptr);
    }
  }

  /** A word of one live block is not the first word of another. */
  lemma WordsOfOthers(w: World, p: nat, q: nat, k: nat)
    requires WellFiled(w) && LiveAt(w, p) && LiveAt(w, q) && p != q && (k + 1) * WORD_SIZE <= BlockSizeAt(w, q)
    ensures !(p <= q + k * WORD_SIZE < p + WORD_SIZE)
  {
    hide Filed;
    assert SoundAt(w, SuperblockOf(p));
    if p < q {
      LiveBlocksDisjoint(w, p, q);
    } else {
      LiveBlocksDisjoint(w, q, p);
    }
  }

  lemma InsideSuperblock(a: nat, addr: nat)
    requires a % SUPERBLOCK_SIZE == 0 && a <= addr < a + SUPERBLOCK_SIZE
    ensures SuperblockOf(addr) == a
  {
  }

  lemma WordInside(a: nat, sb: Sb, p: nat, k: nat)
    requires a % SUPERBLOCK_SIZE == 0 && sb.Valid() && IsLive(a, sb, p) && (k + 1) * WORD_SIZE <= sb.blockSize
    ensures a + HEADER_SIZE <= p && SuperblockOf(p + k * WORD_SIZE) == a
  {
    hide SuperblockOf, SlotAt, BlockAddr;
    SlotInBuffer(a, sb.blockSize, SlotAt(a, sb.blockSize, p));
    InsideSuperblock(a, p + k * WORD_SIZE);
  }

  /** The words of a live block lie in its superblock. */
  lemma WordStays(w: World, p: nat, k: nat)
    requires WellFiled(w) && LiveAt(w, p) && (k + 1) * WORD_SIZE <= BlockSizeAt(w, p)
    ensures SuperblockOf(p + k * WORD_SIZE) in w.sbs
  {
    hide Filed, SuperblockOf, IsLive;
    assert SoundAt(w, SuperblockOf(p));
    WordInside(SuperblockOf(p), w.SbAt(SuperblockOf(p)), p, k);
  }

  lemma SearchBin(w: World, h: nat, e: nat, b: nat)
    requires b < NUM_SIZE_BINS
    ensures FirstBinFrom(w, h, e, b) == if w.List(InBin(h, b, e)) != [] then Some(b) else FirstBinFrom(w, h, e, b + 1)
    ensures 0 < e && FirstBinFrom(w, h, e, 0) == Some(b) ==> EmptiestUpTo(w, h, e) == Some((b, e))
  {
  }

  lemma SearchClass(w: World, h: nat, e: nat)
    requires 0 < e && FirstBinFrom(w, h, e, 0) == FirstBinFrom(w, h, e, NUM_SIZE_BINS)
    ensures EmptiestUpTo(w, h, e) == EmptiestUpTo(w, h, e - 1)
  {
  }

  /** A malloc in short: what it keeps, and what it returns. */
  lemma MallocEffect(w: World, fix: Repairs, h: nat, size: nat, raw: Option<nat>)
    requires WellFiled(w) && LegalMalloc(w, h, size, raw)
    ensures var (after, r) := HeapAlloc(w, fix, h, size, raw); var misfiled := Misfiles(w, fix, h, BinOf(size), raw);
            && (!misfiled ==> WellFiled(after) && (Accounts(w) ==> Accounts(after)))
            && (r.Some? ==> !LiveAt(w, r.value) && LiveAt(after, r.value))
            && (r.Some? && !misfiled ==> size <= BlockSizeAt(after, r.value))
  {
    MallocFiles(w, fix, h, size, raw);
    MallocLive(w, fix, h, size, raw, 0);
    BinHoldsRequest(size);
    if Accounts(w) && !Misfiles(w, fix, h, BinOf(size), raw) {
      MallocAccounts(w, fix, h, size, raw);
    }
  }

  /** A free is releasing the block, discharging the heap, and perhaps one transfer. */
  lemma HeapFreeIs(w: World, fix: Repairs, ptr: nat)
    ensures var a := SuperblockOf(ptr); var h := w.OwnerOf(a);
            var freed := BinFree(w, ptr); var charged := freed.AddUsage(h, 0 - BlockSizeAt(w, ptr));
            h < |freed.inUse| && h < |freed.alloced| ==>
              HeapFree(w, fix, ptr) ==
              if h == 0 then freed
              else if EmptyEnough(charged.inUse[h], charged.alloced[h]) then
                Transfer(charged, fix, h).AddAlloced(h, 0 - SUPERBLOCK_SIZE)
              else charged
  {
    hide BinFree, Transfer, EmptyEnough;
  }

  /** A heap that is empty enough has a superblock's size to spare. */
  lemma AllocedCovers(w: World, fix: Repairs, h: nat)
    requires h < |w.inUse| && h < |w.alloced| && w.inUse[h] >= 0 && EmptyEnough(w.inUse[h], w.alloced[h])
    ensures h < |Transfer(w, fix, h).alloced| && SUPERBLOCK_SIZE <= Transfer(w, fix, h).alloced[h]
  {
    hide Transfer;
    TransferKeepsBlocks(w, fix, h);
  }

  /** What heap_free relies on after the block is back: the counters cover what is taken off
      them, and there is a superblock to transfer. */
  lemma FreeReady(w: World, ptr: nat)
    requires WellFiled(w) && Accounts(w) && LiveAt(w, ptr)
    ensures var a := SuperblockOf(ptr); var h := w.OwnerOf(a); var bytes: int := BlockSizeAt(w, ptr);
            var freed := BinFree(w, ptr); var charged := freed.AddUsage(h, 0 - bytes);
            && a in w.sbs && h < |w.inUse|
            && freed.inUse == w.inUse && freed.alloced == w.alloced
            && (h != 0 ==>
                  && bytes <= w.inUse[h]
                  && WellFiled(charged) && TransferFrom(charged, h).Some?
                  && w.SbAt(a).blockSize == bytes
                  && charged.SbAt(Leaving(charged, h)).UsedBytes() <= charged.inUse[h])
  {
    var a := SuperblockOf(ptr);
    var h := w.OwnerOf(a);
    var bytes: int := BlockSizeAt(w, ptr);
    var freed := BinFree(w, ptr);
    var charged := freed.AddUsage(h, 0 - bytes);
    assert SoundAt(w, a);
    BinFreeUsage(w, ptr);
    if h != 0 {
      FreeDoesNotUnderflow(w, ptr);
      BinFreeKeepsFiling(w, ptr);
      UsageKeepsFiled(freed, charged);
      SameTransfer(freed, h, bytes);
      BinFreeCounters(w, ptr, h);
      assert Slack(w, h) >= 0;
      TotalsSame(freed, charged, h);
      LeavingCovered(charged, h);
    }
  }

  /** A heap whose `in_use` is an upper bound covers each superblock it owns. */
  lemma LeavingCovered(w: World, h: nat)
    requires WellFiled(w) && h < |w.inUse| && TransferFrom(w, h).Some?
    requires TotalUsed(w, h) <= w.inUse[h]
    ensures w.SbAt(Leaving(w, h)).UsedBytes() <= w.inUse[h]
  {
    var a := Leaving(w, h);
    TransferredFacts(w, Lost(w), h);
    SplitTotals(w, a, h);
    TotalNonnegative(w, h, UsedMap(w, h) - {a});
  }

  /** What heap_free relies on: the block is aligned, and its superblock is in the bin that
      its block size and fullness determine. */
  lemma ReadyToFree(w: World, ptr: nat)
    requires WellFiled(w) && LiveAt(w, ptr)
    ensures var a := SuperblockOf(ptr); var sb := w.SbAt(a);
            && a in w.sbs && IsLive(a, sb, ptr) && ptr % MIN_BLOCK_SIZE == 0 && sb.Eidx() >= 0
            && a in w.List(InBin(w.OwnerOf(a), BinOf(sb.blockSize), sb.Eidx()))
            && sb.Release(SlotAt(a, sb.blockSize, ptr)).Eidx() >= 0
    ensures var a := SuperblockOf(ptr); var sb := w.SbAt(a);
            var after := w.SetSb(a, sb.Release(SlotAt(a, sb.blockSize, ptr)));
            BinFree(w, ptr) ==
              after.Take(InBin(w.OwnerOf(a), BinOf(sb.blockSize), sb.Eidx()), a).Push(after.Home(a), a)
  {
    var a := SuperblockOf(ptr);
    var sb := w.SbAt(a);
    LiveInBin(w, ptr);
    LiveBlockPlaced(w, ptr);
    assert sb.Release(SlotAt(a, sb.blockSize, ptr)).Eidx() >= 0 by {
      ReleaseReturnsOne(sb, SlotAt(a, sb.blockSize, ptr));
      EidxRange(sb.Release(SlotAt(a, sb.blockSize, ptr)));
    }
    FreeInOrder(w, ptr);
  }

  /** Freeing the block before or after its superblock leaves the bin comes to the same. */
  lemma FreeInOrder(w: World, ptr: nat)
    ensures var a := SuperblockOf(ptr); var sb := w.SbAt(a);
            var after := w.SetSb(a, sb.Release(SlotAt(a, sb.blockSize, ptr)));
            BinFree(w, ptr) == after.Take(w.Home(a), a).Push(after.Home(a), a)
  {
    hide Sb.Eidx, Sb.Empty, SlotAt, BinOf;
    var a := SuperblockOf(ptr);
    var sb := w.SbAt(a);
    TakeAndSet(w, w.Home(a), a, sb.Release(SlotAt(a, sb.blockSize, ptr)));
    var after := w.SetSb(a, sb.Release(SlotAt(a, sb.blockSize, ptr)));
    assert after.Take(w.Home(a), a).Home(a) == after.Home(a);
  }

  /** Bin allocation: find a superblock, serve from it; a block's address is not NULL. */
  lemma BinAllocIs(w: World, fix: Repairs, h: nat, b: nat, c: nat, raw: Option<nat>)
    ensures var src := SourceFor(w, h, b, raw); var a := Chosen(w, h, b, src);
            var w1 := Prepare(TakeOut(w, fix, h, b, src), fix, h, c, src, a);
            var ptr := BlockAddr(a, w1.SbAt(a).blockSize, w1.SbAt(a).NextSlot());
            && ptr > 0
            && BinAlloc(w, fix, h, b, c, raw) == if src.NoMemory? then (w, None) else (Serve(w1, h, b, a), Some(ptr))
  {
    hide Prepare, TakeOut, Serve, SourceFor, Chosen, Sb.NextSlot;
  }

  /** The head of the fullest bin that is not full can serve. */
  lemma BinHeadReady(w: World, fix: Repairs, h: nat, b: nat, raw: Option<nat>, e: nat, a: nat)
    requires WellFiled(w) && FullestFrom(w, h, b, 1) == Some(e) && a == w.List(InBin(h, b, e))[0]
    ensures SourceFor(w, h, b, raw) == OwnBin(e) && Chosen(w, h, b, OwnBin(e)) == a
    ensures a in w.List(InBin(h, b, e)) && w.SbAt(a).Eidx() == e && w.SbAt(a).NumFree() > 0
    ensures Prepare(TakeOut(w, fix, h, b, OwnBin(e)), fix, h, ClassOf(b), OwnBin(e), a) == w.Take(InBin(h, b, e), a)
    ensures w.Take(InBin(h, b, e), a).SbAt(a) == w.SbAt(a)
  {
    InBinFacts(w, Lost(w), h, b, e, a);
  }

  /** The superblock found elsewhere can serve, and has an address. */
  lemma ObtainedCanServe(w: World, fix: Repairs, h: nat, b: nat, raw: Option<nat>)
    requires WellFiled(w) && MapOk(w, raw) && 0 < h < |w.inUse| && b < NUM_SIZE_BINS
    ensures var src := SourceFor(w, h, b, raw); var a := Chosen(w, h, b, src);
            !src.NoMemory? ==>
              && a > 0
              && Prepare(TakeOut(w, fix, h, b, src), fix, h, ClassOf(b), src, a).SbAt(a).NumFree() > 0
  {
    var src := SourceFor(w, h, b, raw);
    var a := Chosen(w, h, b, src);
    if !src.NoMemory? {
      ChosenFacts(w, Lost(w), h, b, raw, src, a);
      ObtainedSound(w, fix, Lost(w), h, b, raw, src, a);
    }
  }

  lemma TakeAndSet(w: World, p: Place, a: nat, sb: Sb)
    ensures w.SetSb(a, sb).Take(p, a) == w.Take(p, a).SetSb(a, sb)
    ensures w.Take(p, a).SbAt(a) == w.SbAt(a)
  {
  }

  /** The order in which sources are tried once the bin itself has none, and what taking a
      superblock from each amounts to. */
  lemma SourceInOrder(w: World, fix: Repairs, h: nat, b: nat, c: nat, raw: Option<nat>)
    requires FullestFrom(w, h, b, 1).None?
    ensures var src := SourceFor(w, h, b, raw); var a := Chosen(w, h, b, src);
            var result := Prepare(TakeOut(w, fix, h, b, src), fix, h, c, src, a);
            var e := FullestFrom(w, 0, b, 1);
            if w.List(Recycled(h)) != [] then
              !src.NoMemory? && a == w.List(Recycled(h))[0]
              && result == (if fix.nextFirst then w.Take(Recycled(h), a) else w.Clear(Recycled(h))).SetSb(a, Fresh(c))
            else if w.Nonfull(0, b) > 0 && e.Some? then
              !src.NoMemory? && a == w.List(InBin(0, b, e.value))[0]
              && result == Adopt(w.Take(InBin(0, b, e.value), a), h, a)
            else if w.Nonfull(0, b) <= 0 && w.List(Recycled(0)) != [] then
              !src.NoMemory? && a == w.List(Recycled(0))[0]
              && result == if fix.resetAdopted then Adopt(w.Take(Recycled(0), a), h, a).SetSb(a, Fresh(c))
                           else Adopt(w.Take(Recycled(0), a), h, a)
            else if raw.Some? then
              !src.NoMemory? && a == AlignUp(raw.value)
              && result == w.SetSb(a, Fresh(c)).SetOwner(a, h).AddAlloced(h, SUPERBLOCK_SIZE)
            else src.NoMemory?
  {
    hide Adopt;
  }

  lemma AtGrows(reg: Registry, more: Registry, list: seq<nat>)
    requires Known(reg, list) && forall x :: x in reg ==> x in more && more[x] == reg[x]
    ensures Known(more, list) && At(more, list) == At(reg, list)
  {
  }

  lemma ClearDisjoint(lists: map<Place, seq<nat>>, p: Place, a: nat)
    requires Disjoint(lists) && a in ListIn(lists, p)
    ensures var after := lists[p := []];
            Disjoint(after) && OnlyList(lists, after, p, a) && Loose(after, a)
  {
    var after := lists[p := []];
    forall q | q != p
      ensures ListKept(lists, after, p, a, q)
    {
    }
    forall q
      ensures NoDup(ListIn(after, q)) && a !in ListIn(after, q)
    {
      assert NoDup(ListIn(lists, q));
    }
    forall q, r, x | x in ListIn(after, q) && x in ListIn(after, r)
      ensures q == r
    {
      assert x in ListIn(lists, q) && x in ListIn(lists, r);
    }
  }
}
