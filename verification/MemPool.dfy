// c/mempool/mempool.c: a pool of equal slots carved from malloc'ed blocks, with a
// free list threaded through the slots themselves.
module MemPool {
  import opened Bytes
  import opened EmsQueue

  const BLOCK_HEADER := 32 // sizeof(pool_block_t)

  const MAX_POOL_NODE_SIZE := 32768

  const NODE_HEADER := 24 // sizeof(pool_node_t)

  // Where a block's header is; its slots follow the header.
  datatype Block = Block(base: Addr, size: nat)
  {
    function Ptr(): Addr {
      base + BLOCK_HEADER
    }

    function End(): Addr {
      base + BLOCK_HEADER + size
    }
  }

  // The slots of a block: as many as fit, one behind the other.
  function Slots(b: Block, node: nat): (s: seq<Addr>)
    requires node > 0
    ensures |s| == b.size / node
  {
    seq(b.size / node, i requires 0 <= i < b.size / node => SlotAt(b, node, i))
  }

  function SlotAt(b: Block, node: nat, i: nat): Addr {
    b.Ptr() + i * node
  }

  function AllSlots(blocks: seq<Block>, node: nat): seq<Addr>
    requires node > 0
  {
    if blocks == [] then [] else AllSlots(blocks[..|blocks| - 1], node) + Slots(blocks[|blocks| - 1], node)
  }

  // The blocks lie apart from each other and from the pool's own memory.
  predicate Apart(blocks: seq<Block>, lo: Addr, hi: Addr) {
    && (forall i :: 0 <= i < |blocks| ==> blocks[i].End() <= lo || hi <= blocks[i].base)
    && (forall i, j :: 0 <= i < j < |blocks| ==>
          blocks[i].End() <= blocks[j].base || blocks[j].End() <= blocks[i].base)
  }

  lemma SlotInside(b: Block, node: nat, i: nat)
    requires node > 0 && i < b.size / node
    ensures b.Ptr() <= SlotAt(b, node, i) && SlotAt(b, node, i) + node <= b.End()
  {
    assert (i + 1) * node <= b.size by {
      assert b.size / node * node <= b.size;
      assert (i + 1) * node <= b.size / node * node;
    }
    assert (i + 1) * node == i * node + node;
  }

  lemma SlotsInOrder(node: nat, i: nat, j: nat)
    requires node > 0 && i < j
    ensures i * node + node <= j * node
  {
    assert (i + 1) * node <= j * node;
    assert (i + 1) * node == i * node + node;
  }

  // Any two slots of a pool are disjoint stretches of memory inside their blocks.
  lemma {:induction false} SlotOf(blocks: seq<Block>, node: nat, p: nat) returns (k: nat, i: nat)
    requires node > 0 && p < |AllSlots(blocks, node)|
    ensures k < |blocks| && i < blocks[k].size / node && AllSlots(blocks, node)[p] == SlotAt(blocks[k], node, i)
    ensures p == |AllSlots(blocks[..k], node)| + i
  {
    var n := |blocks| - 1;
    var before := AllSlots(blocks[..n], node);
    if p < |before| {
      k, i := SlotOf(blocks[..n], node, p);
      assert blocks[..n][..k] == blocks[..k];
    } else {
      k, i := n, p - |before|;
    }
  }

  lemma SlotsDisjoint(blocks: seq<Block>, node: nat, lo: Addr, hi: Addr, p: nat, q: nat)
    requires node > 0 && Apart(blocks, lo, hi) && p < q < |AllSlots(blocks, node)|
    ensures var a, b := AllSlots(blocks, node)[p], AllSlots(blocks, node)[q];
            && (a + node <= b || b + node <= a)
            && (a + node <= lo || hi <= a)
  {
    var k, i := SlotOf(blocks, node, p);
    var l, j := SlotOf(blocks, node, q);
    SlotInside(blocks[k], node, i);
    SlotInside(blocks[l], node, j);
    if k == l {
      SlotsInOrder(node, i, j);
    }
  }

  lemma SlotsDistinct(blocks: seq<Block>, node: nat, lo: Addr, hi: Addr)
    requires node > 0 && Apart(blocks, lo, hi)
    ensures NoDuplicates(AllSlots(blocks, node))
  {
    var s := AllSlots(blocks, node);
    forall p, q | 0 <= p < q < |s| ensures s[p] != s[q] {
      SlotsDisjoint(blocks, node, lo, hi, p, q);
    }
  }

  function Bases(blocks: seq<Block>): (s: seq<Addr>)
    ensures |s| == |blocks|
  {
    seq(|blocks|, i requires 0 <= i < |blocks| => blocks[i].base)
  }

  // No slot is a block header or a sentinel.
  lemma SlotsElsewhere(blocks: seq<Block>, node: nat, lo: Addr, hi: Addr, a: Addr)
    requires node > 0 && Apart(blocks, lo, hi) && a in AllSlots(blocks, node)
    ensures a !in Bases(blocks) && (a + node <= lo || hi <= a)
  {
    var p :| 0 <= p < |AllSlots(blocks, node)| && AllSlots(blocks, node)[p] == a;
    var k, i := SlotOf(blocks, node, p);
    SlotInside(blocks[k], node, i);
  }

  // pool_expand: the slots of a block join the free list in order.
  method PoolExpand(mem: Memory, freelist: Addr, b: Block, node: nat, ghost free: seq<Addr>)
    requires node > 0 && Ring(mem.at, freelist, free)
    requires NoDuplicates(Slots(b, node)) && freelist !in Slots(b, node)
    requires forall a :: a in Slots(b, node) ==> a in mem.at && a !in free
    modifies mem
    ensures Ring(mem.at, freelist, free + Slots(b, node))
    ensures Untouched(old(mem.at), mem.at, [freelist] + free + Slots(b, node))
  {
    ghost var slots := Slots(b, node);
    ghost var i := 0;
    var start, end := b.Ptr(), b.End();
    assert free + slots[..0] == free;
    while start + node <= end
      invariant start == SlotAt(b, node, i) && i <= |slots|
      invariant Ring(mem.at, freelist, free + slots[..i])
      invariant Untouched(old(mem.at), mem.at, [freelist] + free + slots)
      decreases end - start
    {
      Room(b, node, i);
      assert slots[i] == start && start in slots;
      assert start !in slots[..i];
      mem.InsertTail(freelist, start, free + slots[..i]);
      assert free + slots[..i] + [start] == free + slots[..i + 1];
      assert forall a :: a in [freelist, start] + (free + slots[..i]) ==> a in [freelist] + free + slots;
      start := start + node;
      i := i + 1;
    }
    NoRoom(b, node, i);
    assert slots[..i] == slots;
  }

  lemma Room(b: Block, node: nat, i: nat)
    requires node > 0 && SlotAt(b, node, i) + node <= b.End()
    ensures i < b.size / node && SlotAt(b, node, i + 1) == SlotAt(b, node, i) + node
  {
    if b.size / node <= i {
      var q := b.size / node;
      assert b.size < q * node + node;
      if q < i { SlotsInOrder(node, q, i); }
    }
    assert (i + 1) * node == i * node + node;
  }

  lemma NoRoom(b: Block, node: nat, i: nat)
    requires node > 0 && i <= b.size / node && SlotAt(b, node, i) + node > b.End()
    ensures i == b.size / node
  {
    if i < b.size / node {
      SlotInside(b, node, i);
    }
  }

  lemma RingExtends(m: Store, m': Store, h: Addr, s: seq<Addr>)
    requires Ring(m, h, s) && forall a :: a in m ==> a in m' && m'[a] == m[a]
    ensures Ring(m', h, s)
  {
    var c := [h] + s + [h];
    forall i | 0 <= i < |c| - 1 ensures Linked(m', c[i], c[i + 1]) {
      assert Linked(m, c[i], c[i + 1]);
    }
  }

  lemma AllSlotsSnoc(blocks: seq<Block>, b: Block, node: nat)
    requires node > 0
    ensures AllSlots(blocks + [b], node) == AllSlots(blocks, node) + Slots(b, node)
  {
    assert (blocks + [b])[..|blocks|] == blocks;
  }

  lemma BasesSnoc(blocks: seq<Block>, b: Block)
    ensures Bases(blocks + [b]) == Bases(blocks) + [b.base]
  {
  }

  // malloc: addresses that belong to nobody, with any contents.
  predicate FreshRegion(b: Block, blocks: seq<Block>, lo: Addr, hi: Addr) {
    && (b.End() <= lo || hi <= b.base)
    && forall i :: 0 <= i < |blocks| ==> blocks[i].End() <= b.base || b.End() <= blocks[i].base
  }

  // Each slot is on the free list or handed out, and not both.
  ghost predicate Partition(slots: seq<Addr>, free: seq<Addr>, out: set<Addr>) {
    && (forall a :: a in slots <==> a in free || a in out)
    && (forall a :: a in free ==> a !in out)
  }

  lemma NewSlots(blocks: seq<Block>, b: Block, node: nat, lo: Addr, hi: Addr)
    requires node > 0 && Apart(blocks, lo, hi) && FreshRegion(b, blocks, lo, hi)
    ensures Apart(blocks + [b], lo, hi) && NoDuplicates(Slots(b, node))
    ensures forall a :: a in Slots(b, node) ==> a !in AllSlots(blocks, node)
    ensures forall a :: a in Slots(b, node) ==> b.base < a < b.End() && (a < lo || hi <= a) && a !in Bases(blocks + [b])
  {
    hide Apart, FreshRegion, NoDuplicates, Slots, AllSlots, Bases;
    var s := Slots(b, node);
    StillApart(blocks, b, lo, hi);
    AllSlotsSnoc(blocks, b, node);
    SlotsDistinct(blocks + [b], node, lo, hi);
    Halves<Addr>(AllSlots(blocks, node), s);
    forall a | a in s ensures b.base < a < b.End() && (a < lo || hi <= a) && a !in Bases(blocks + [b]) {
      SlotBetween(b, node, a);
      assert a in AllSlots(blocks + [b], node);
      SlotsElsewhere(blocks + [b], node, lo, hi, a);
    }
  }

  lemma StillApart(blocks: seq<Block>, b: Block, lo: Addr, hi: Addr)
    requires Apart(blocks, lo, hi) && FreshRegion(b, blocks, lo, hi)
    ensures Apart(blocks + [b], lo, hi)
  {
  }

  lemma Halves<T>(x: seq<T>, y: seq<T>)
    requires NoDuplicates(x + y)
    ensures NoDuplicates(y) && forall a :: a in y ==> a !in x
  {
    var s := x + y;
    assert forall i :: 0 <= i < |y| ==> s[|x| + i] == y[i];
    assert forall i :: 0 <= i < |x| ==> s[i] == x[i];
  }

  lemma SlotBetween(b: Block, node: nat, a: Addr)
    requires node > 0 && a in Slots(b, node)
    ensures b.base < a < b.End()
  {
    var i :| 0 <= i < |Slots(b, node)| && Slots(b, node)[i] == a;
    SlotInside(b, node, i);
  }

  lemma TakenFrom(slots: seq<Addr>, free: seq<Addr>, out: set<Addr>)
    requires Partition(slots, free, out) && free != [] && free[0] !in free[1..]
    ensures Partition(slots, free[1..], out + {free[0]}) && free[0] !in out
  {
    assert free == [free[0]] + free[1..];
  }

  lemma HeadGone(m: Store, h: Addr, s: seq<Addr>)
    requires Ring(m, h, s) && s != []
    ensures s[0] != h && s[0] !in s[1..]
  {
    var d := [h] + s;
    assert d[0] == h && d[1] == s[0];
    assert forall i :: 0 <= i < |s| - 1 ==> s[1..][i] == d[i + 2];
  }

  class Pool {
    const mem: Memory
    const freelist: Addr
    const blocklist: Addr
    const lo: Addr // the pool structure itself lies in [lo, hi)
    const hi: Addr
    const nodeSize: nat
    const blockSize: nat
    var autoExtend: bool
    var totalBlocks: nat
    var used: nat
    var statAlloc: nat
    var statFree: nat
    var ptrs: map<Addr, Addr> // the words _ptr of the nodes, behind their list entries

    ghost var free: seq<Addr>
    ghost var blocks: seq<Block>
    ghost var out: set<Addr>

    ghost predicate Shaped()
      reads `blocks
    {
      && nodeSize >= NODE_HEADER
      && lo <= freelist < hi && lo <= blocklist < hi && freelist != blocklist
      && Apart(blocks, lo, hi)
    }

    ghost predicate Listed()
      reads mem, `free, `blocks
    {
      Ring(mem.at, freelist, free) && Ring(mem.at, blocklist, Bases(blocks))
    }

    ghost predicate Shared()
      reads mem, `free, `blocks, `out
    {
      && nodeSize > 0
      && Partition(AllSlots(blocks, nodeSize), free, out)
      && forall a :: a in AllSlots(blocks, nodeSize) ==> a in mem.at
    }

    // Nothing in pool mode ever counts a block in totalBlocks.
    ghost predicate Valid()
      reads this, mem
    {
      Shaped() && Listed() && Shared() && Balanced() && totalBlocks == 0
    }

    // With no call under way, the nodes in use are the nodes handed out.
    ghost predicate Balanced()
      reads `out, `used, `statAlloc, `statFree
    {
      used == |out| && statAlloc == statFree + used
    }

    // mem_pool_init, for node sizes served from the pool
    constructor (mem: Memory, freelist: Addr, blocklist: Addr, lo: Addr, hi: Addr, blockSize: nat, nodeSize: nat)
      requires freelist in mem.at && blocklist in mem.at
      requires lo <= freelist < hi && lo <= blocklist < hi && freelist != blocklist
      requires NODE_HEADER <= nodeSize < MAX_POOL_NODE_SIZE
      modifies mem
      ensures Valid() && free == [] && blocks == [] && out == {}
      ensures used == statAlloc == statFree == totalBlocks == 0 && autoExtend
      ensures this.mem == mem && this.nodeSize == nodeSize && this.blockSize == blockSize
      ensures this.freelist == freelist && this.blocklist == blocklist && this.lo == lo && this.hi == hi
    {
      this.mem, this.freelist, this.blocklist := mem, freelist, blocklist;
      this.lo, this.hi, this.blockSize, this.nodeSize := lo, hi, blockSize, nodeSize;
      autoExtend, totalBlocks, used, statAlloc, statFree := true, 0, 0, 0, 0;
      free, blocks, out, ptrs := [], [], {}, map[];
      new;
      mem.Init(freelist);
      ghost var m := mem.at;
      mem.Init(blocklist);
      RingFrame(m, mem.at, freelist, [], [blocklist]);
      assert Bases([]) == [];
    }

    // What malloc adds to the memory leaves both lists as they are.
    method Malloc(b: Block)
      requires Listed()
      modifies mem
      ensures Listed() && forall a :: a in old(mem.at) || b.base <= a < b.End() ==> a in mem.at
    {
      ghost var m := mem.at;
      mem.at := mem.at + map a | b.base <= a < b.End() && a !in mem.at :: Links(0, 0);
      RingExtends(m, mem.at, freelist, free);
      RingExtends(m, mem.at, blocklist, Bases(blocks));
    }

    // A new block keeps clear of both lists, and they of each other.
    lemma NewBlockClear(b: Block)
      requires Shaped() && Shared() && FreshRegion(b, blocks, lo, hi)
      ensures b.base !in Bases(blocks) && b.base != blocklist && b.base != freelist
      ensures freelist !in Bases(blocks)
      ensures forall a :: a in free ==> a != blocklist && a != b.base && a !in Bases(blocks)
      ensures var slots := Slots(b, nodeSize);
              && NoDuplicates(slots) && freelist !in slots && blocklist !in slots && b.base !in slots
              && (forall a :: a in slots ==> a !in free && a !in Bases(blocks) && b.base <= a < b.End())
    {
      NewSlots(blocks, b, nodeSize, lo, hi);
      AllSlotsSnoc(blocks, b, nodeSize);
      forall a | a in free ensures a != blocklist && a != b.base && a !in Bases(blocks) {
        SlotsElsewhere(blocks + [b], nodeSize, lo, hi, a);
        assert b.base == Bases(blocks + [b])[|blocks|];
        SlotsElsewhere(blocks, nodeSize, lo, hi, a);
      }
      forall a | a in Slots(b, nodeSize) ensures a !in Bases(blocks) {
        assert forall i :: 0 <= i < |blocks| ==> Bases(blocks)[i] == Bases(blocks + [b])[i];
      }
    }

    lemma PartitionGrows(b: Block)
      requires Shaped() && Shared() && FreshRegion(b, blocks, lo, hi)
      ensures Apart(blocks + [b], lo, hi)
      ensures Partition(AllSlots(blocks + [b], nodeSize), free + Slots(b, nodeSize), out)
    {
      NewSlots(blocks, b, nodeSize, lo, hi);
      AllSlotsSnoc(blocks, b, nodeSize);
    }

    // The first half of mempool_expand: malloc, and the block onto its list.
    method LinkBlock(b: Block)
      requires Shaped() && Shared() && Listed() && FreshRegion(b, blocks, lo, hi)
      modifies mem
      ensures Ring(mem.at, freelist, free) && Ring(mem.at, blocklist, Bases(blocks) + [b.base])
      ensures forall a :: a in old(mem.at) || b.base <= a < b.End() ==> a in mem.at
    {
      hide Ring, NoDuplicates, Apart, FreshRegion, Partition, Slots, AllSlots, Bases;
      NewBlockClear(b);
      Malloc(b);
      ghost var m := mem.at;
      mem.InsertTail(blocklist, b.base, Bases(blocks));
      RingFrame(m, mem.at, freelist, free, [blocklist, b.base] + Bases(blocks));
    }

    // mempool_expand after a successful malloc
    method Expand(b: Block)
      requires Valid() && b.size == blockSize && FreshRegion(b, blocks, lo, hi)
      modifies mem, `free, `blocks
      ensures Valid() && blocks == old(blocks) + [b] && free == old(free) + Slots(b, nodeSize)
    {
      hide Ring, NoDuplicates, Apart, FreshRegion, Partition, Slots, AllSlots, Bases;
      ghost var slots, bases := Slots(b, nodeSize), Bases(blocks);
      LinkBlock(b);
      NewBlockClear(b);
      PartitionGrows(b);
      AllSlotsSnoc(blocks, b, nodeSize);
      BasesSnoc(blocks, b);
      ghost var m := mem.at;
      PoolExpand(mem, freelist, b, nodeSize, free);
      RingFrame(m, mem.at, blocklist, bases + [b.base], [freelist] + free + slots);
      blocks := blocks + [b];
      free := free + slots;
    }

    // The head of the free list is taken off it, and its entry overwritten by the sizes
    // of the node, which lie in the same words. Off an empty list comes the sentinel.
    method Take() returns (list: Addr)
      requires Shaped() && Listed() && Shared()
      modifies mem, `free
      ensures old(free) != [] ==> Listed() && [list] + free == old(free) && list !in free && list != freelist
      ensures old(free) == [] ==> list == freelist && free == []
      ensures mem.at.Keys == old(mem.at).Keys
    {
      hide Ring, NoDuplicates, Apart, Partition, AllSlots, Bases;
      RingEnds(mem.at, freelist, free);
      list := mem.at[freelist].next;
      ghost var m := mem.at;
      if free != [] {
        FreeClear();
        HeadGone(m, freelist, free);
        UnlinkedRing(m, freelist, free, 0);
        assert free[..0] + free[1..] == free[1..] && [free[0]] + free[1..] == free;
      }
      mem.Unlink(list);
      if free != [] {
        RingFrame(m, mem.at, blocklist, Bases(blocks), [freelist] + free);
      }
      m := mem.at;
      var sizes: Addr := *;
      mem.SetPrev(list, sizes);
      if free != [] {
        RingFrame(m, mem.at, blocklist, Bases(blocks), [list]);
        RingFrame(m, mem.at, freelist, free[1..], [list]);
        free := free[1..];
      }
    }

    lemma FreeClear()
      requires Shaped() && Shared()
      ensures freelist !in Bases(blocks) && blocklist !in free
      ensures forall a :: a in Bases(blocks) ==> a !in free
    {
      forall a | a in free ensures a !in Bases(blocks) && a != blocklist {
        SlotsElsewhere(blocks, nodeSize, lo, hi, a);
      }
    }

    // The second part of pool_malloc: a node off the list, and the counters.
    method HandOut() returns (list: Addr)
      requires Valid()
      modifies mem, `free, `out, `used, `statAlloc
      ensures old(free) == [] ==> list == freelist
      ensures old(free) != [] ==>
                && Valid() && [list] + free == old(free) && list != freelist
                && out == old(out) + {list} && list !in old(out)
                && used == old(used) + 1 && statAlloc == old(statAlloc) + 1
    {
      hide Ring, Apart, Partition, AllSlots, Bases, NoDuplicates;
      ghost var all, was := free, out;
      list := Take();
      out := out + {list};
      if all != [] {
        assert list == all[0] && free == all[1..];
        TakenFrom(AllSlots(blocks, nodeSize), all, was);
      }
      statAlloc := statAlloc + 1;
      used := used + 1;
    }

    // The first part of pool_malloc: an empty free list is filled from a new block. With
    // auto_extend cleared the code means to refuse once there is a block, but the number
    // of blocks it asks for stays zero: only a failing malloc refuses.
    method Refill(region: Option<Block>) returns (ok: bool)
      requires Valid()
      requires region.Some? ==> region.value.size == blockSize && FreshRegion(region.value, blocks, lo, hi)
      modifies mem, `free, `blocks
      ensures Valid()
      ensures ok <==> old(free) != [] || region.Some?
      ensures ok && old(free) == [] ==>
                blocks == old(blocks) + [region.value] && free == Slots(region.value, nodeSize)
      ensures !ok || old(free) != [] ==> free == old(free) && blocks == old(blocks)
    {
      var empty := mem.Empty(freelist, free);
      if empty {
        if (!autoExtend && totalBlocks > 0) || region == None {
          return false;
        }
        hide Ring, Apart, FreshRegion, Partition, AllSlots, Bases;
        Expand(region.value);
      }
      ok := true;
    }

    // pool_malloc. `region` is what malloc would return for a further block. A block too
    // small for one node yields no slot, and the list's own sentinel is handed out.
    method Alloc(size: nat, region: Option<Block>) returns (pn: Option<Addr>)
      requires Valid() && 0 < size <= nodeSize
      requires region.Some? ==> region.value.size == blockSize && FreshRegion(region.value, blocks, lo, hi)
      modifies mem, `free, `blocks, `out, `used, `statAlloc
      ensures pn == None <==> old(free) == [] && region == None
      ensures pn == None ==> Valid() && free == old(free) && out == old(out) && blocks == old(blocks)
      ensures pn == Some(freelist) <==> pn.Some? && old(free) == [] && blockSize < nodeSize
      ensures pn.Some? && pn != Some(freelist) ==>
                && Valid() && out == old(out) + {pn.value} && pn.value !in old(out)
                && blocks == old(blocks) + (if old(free) == [] then [region.value] else [])
                && [pn.value] + free == (if old(free) == [] then Slots(region.value, nodeSize) else old(free))
                && used == old(used) + 1 && statAlloc == old(statAlloc) + 1 && statFree == old(statFree)
    {
      hide Pool.Shaped, Pool.Listed, Pool.Shared, Pool.Balanced, FreshRegion, Slots;
      var ok := Refill(region);
      if !ok {
        return None;
      }
      if old(free) == [] {
        NoSlots(region.value, nodeSize);
      }
      var list := HandOut();
      pn := Some(list);
    }

    lemma NoSlots(b: Block, node: nat)
      requires node > 0
      ensures Slots(b, node) == [] <==> b.size < node
    {
    }

    lemma OutClear(ptr: Addr)
      requires Shaped() && Shared() && ptr in out
      ensures ptr in mem.at && ptr != freelist && ptr !in free
      ensures blocklist !in [freelist, ptr] + free
      ensures forall a :: a in Bases(blocks) ==> a !in [freelist, ptr] + free
      ensures Partition(AllSlots(blocks, nodeSize), free + [ptr], out - {ptr})
    {
      assert ptr in AllSlots(blocks, nodeSize);
      SlotsElsewhere(blocks, nodeSize, lo, hi, ptr);
      FreeClear();
    }

    // pool_free
    method Free(ptr: Addr)
      requires Valid() && ptr in out
      modifies mem, `free, `out, `used, `statFree, `ptrs
      ensures Valid() && free == old(free) + [ptr] && out == old(out) - {ptr} && blocks == old(blocks)
      ensures used == old(used) - 1 && statFree == old(statFree) + 1 && statAlloc == old(statAlloc)
      ensures ptrs == old(ptrs)[ptr := ptr]
    {
      hide Ring, NoDuplicates, Apart, Partition, AllSlots, Bases;
      OutClear(ptr);
      ghost var m := mem.at;
      mem.InsertTail(freelist, ptr, free);
      RingFrame(m, mem.at, blocklist, Bases(blocks), [freelist, ptr] + free);
      free := free + [ptr];
      out := out - {ptr};
      ptrs := ptrs[ptr := ptr];
      statFree := statFree + 1;
      used := used - 1;
    }

    // The owner of a node may write what it likes over the list entry inside it.
    method OwnerWrites(ptr: Addr, prev: Addr, next: Addr)
      requires Valid() && ptr in out
      modifies mem
      ensures Valid()
    {
      hide Ring, NoDuplicates, Apart, Partition, AllSlots, Bases;
      OutClear(ptr);
      ghost var m := mem.at;
      mem.SetPrev(ptr, prev);
      mem.SetNext(ptr, next);
      RingFrame(m, mem.at, freelist, free, [ptr]);
      RingFrame(m, mem.at, blocklist, Bases(blocks), [ptr]);
    }

    // mem_pool_uninit: the free list is emptied and each block given back, in order.
    method Uninit() returns (freed: seq<Addr>)
      requires Valid()
      modifies mem
      ensures Ring(mem.at, freelist, []) && Ring(mem.at, blocklist, [])
      ensures freed == Bases(blocks)
    {
      hide NoDuplicates, Apart, Partition, AllSlots, Bases, Chain, Ring;
      FreeClear();
      ghost var bases := Bases(blocks);
      ghost var m := mem.at;
      mem.Clean(freelist, free);
      RingFrame(m, mem.at, blocklist, bases, [freelist] + free);
      freed := ClearBlocks(mem, blocklist, freelist, bases);
    }
  }

  // ems_queue_clear: the entries are taken off the list and given to free, one by one.
  method ClearBlocks(mem: Memory, list: Addr, other: Addr, ghost bases: seq<Addr>) returns (freed: seq<Addr>)
    requires Ring(mem.at, list, bases) && Ring(mem.at, other, []) && other != list && other !in bases
    modifies mem
    ensures Ring(mem.at, list, []) && Ring(mem.at, other, []) && freed == bases
  {
    hide Ring, Untouched;
    freed := [];
    var empty := mem.Empty(list, bases);
    while !empty
      invariant |freed| <= |bases| && freed == bases[..|freed|]
      invariant Ring(mem.at, list, bases[|freed|..]) && Ring(mem.at, other, [])
      invariant empty <==> bases[|freed|..] == []
      decreases |bases| - |freed|
    {
      ghost var rest, m := bases[|freed|..], mem.at;
      NextOff(list, other, bases, |freed|);
      RingEnds(m, list, rest);
      var b := mem.at[list].next;
      mem.Remove(list, b, rest, 0);
      RingFrame(m, mem.at, other, [], [list] + rest);
      freed := freed + [b];
      assert rest[..0] + rest[1..] == bases[|freed|..];
      empty := mem.Empty(list, bases[|freed|..]);
    }
  }

  lemma NextOff(h: Addr, other: Addr, s: seq<Addr>, k: nat)
    requires k < |s| && other != h && other !in s
    ensures s[k..] != [] && s[k..][0] == s[k] && s[k..][..0] + s[k..][1..] == s[k + 1..]
    ensures s[..k] + [s[k]] == s[..k + 1]
    ensures other !in [h] + s[k..]
  {
  }

  // A pool of blocks too small for a node hands out the sentinel of its own free list.
  method SentinelHandedOut(mem: Memory) returns (pool: Pool, pn: Option<Addr>)
    requires 0 in mem.at && 16 in mem.at
    modifies mem
    ensures fresh(pool) && pn == Some(pool.freelist)
  {
    hide Pool.Shaped, Pool.Listed, Pool.Shared, Pool.Balanced, Slots;
    pool := new Pool(mem, 0, 16, 0, 32, 0, NODE_HEADER);
    pn := pool.Alloc(1, Some(Block(32, 0)));
    assert pn != None;
  }

  // A pool that has its one block and may not extend itself extends itself.
  method ExtendsAllTheSame(mem: Memory) returns (pool: Pool, pn: Option<Addr>)
    requires 0 in mem.at && 16 in mem.at
    modifies mem
    ensures fresh(pool) && !pool.autoExtend && |pool.blocks| == 2 && pn.Some?
  {
    hide Pool.Shaped, Pool.Listed, Pool.Shared, Pool.Balanced, Slots;
    pool := new Pool(mem, 0, 16, 0, 32, NODE_HEADER, NODE_HEADER);
    var first := Block(32, NODE_HEADER);
    pn := pool.Alloc(1, Some(first));
    assert pn != None && pn != Some(pool.freelist);
    pool.autoExtend := false;
    pn := pool.Alloc(1, Some(Block(first.End(), NODE_HEADER)));
    assert pn != None && pn != Some(pool.freelist);
  }
}
