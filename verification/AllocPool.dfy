/**
 The pool allocator (alloc-pool.c), without the checking and statistics that
 can be compiled in: `create_alloc_pool`, `pool_alloc`, `pool_free`.
 */
module AllocPool {
  import opened Helpers
  import opened PoolSlots

  class Pool {
    const shape: Shape
    var freeList: Address
    var blockList: Address
    var eltsAllocated: nat
    var eltsFree: nat
    var blocksAllocated: nat
    /** The pointer words of the blocks. */
    var mem: Memory
    ghost var free: seq<Address>
    ghost var blocks: seq<Address>
    /** The objects that are handed out. */
    ghost var live: set<Address>

    /** `create_alloc_pool` for things of `size` bytes, `num` in a block; pointers
        have `pointerSize` bytes. */
    constructor (size: nat, num: nat, pointerSize: nat)
      requires num > 0 && pointerSize > 0
      ensures Valid() && live == {} && blocks == []
      ensures shape.num == num && shape.ptr == pointerSize && size <= shape.elt
    {
      shape := Shape(AlignEight(if size < pointerSize then pointerSize else size), AlignEight(pointerSize), num,
                     pointerSize);
      freeList, blockList, eltsAllocated, eltsFree, blocksAllocated := 0, 0, 0, 0, 0;
      mem, free, blocks, live := map[], [], [], {};
    }

    /** Every slot of every block is either on the free list, once, or handed
        out; and the counts are right. */
    ghost predicate Valid()
      reads this
    {
      && shape.Ok() && Good(shape, mem, freeList, free, blockList, blocks, live)
      && eltsFree == |free| && blocksAllocated == |blocks| && eltsAllocated == blocksAllocated * shape.num
      && |free| + |live| == eltsAllocated
    }

    /** `block` is what `xmalloc` may give for a new block. */
    ghost predicate Fresh(block: Address)
      reads this
    {
      block > 0 && block % 8 == 0 && forall k {:trigger blocks[k]} :: 0 <= k < |blocks| ==>
          Apart(block, blocks[k], shape.BlockSize())
    }

    /** `pool_alloc`; `block` is what `xmalloc` would give. */
    method Alloc(block: Address) returns (p: Address)
      requires Valid() && (freeList == 0 ==> Fresh(block))
      modifies this
      ensures Valid() && p !in old(live) && live == old(live) + {p} && IsSlot(shape, blocks, p)
      ensures blocks == if old(freeList) == 0 then [block] + old(blocks) else old(blocks)
    {
      hide Good, List;
      if freeList == 0 {
        NewBlock(block);
      }
      GoodTake(shape, mem, freeList, free, blockList, blocks, live);
      p := freeList;
      freeList, eltsFree, free, live := At(mem, p), eltsFree - 1, free[1..], live + {p};
    }

    /** A new block, all of whose slots go onto the free list. */
    method NewBlock(block: Address)
      requires Valid() && freeList == 0 && Fresh(block)
      modifies this
      ensures Valid() && freeList != 0 && live == old(live) && blocks == [block] + old(blocks)
    {
      hide Good, List, Carved;
      EmptyFree(shape, mem, free, blockList, blocks, live);
      Store(block, blockList);
      ghost var mem1 := mem;
      CarveBlock(block);
      FreshKept(shape, old(mem), mem1, mem, old(blocks), block);
      GoodBlock(shape, old(mem), old(blockList), old(blocks), live, block, mem, freeList);
      CarvedNoDup(shape, block, shape.num);
      blockList, blocks, free := block, [block] + blocks, Carved(shape, block, shape.num);
      eltsAllocated, eltsFree, blocksAllocated := eltsAllocated + shape.num, eltsFree + shape.num, blocksAllocated + 1;
      ListStarts(mem, freeList, free);
      MoreBlocks(|old(blocks)|, shape.num);
    }

    /** Writes a pointer, byte by byte; what that leaves in words that overlap it
        is not known. */
    method Store(a: Address, v: Address)
      requires shape.ptr > 0
      modifies `mem
      ensures At(mem, a) == v && Written(shape.ptr, old(mem), mem, a, shape.ptr)
    {
      var junk: Memory := *;
      var m := Overwrite(shape.ptr, mem, junk, a, shape.ptr);
      mem := m[a := v];
      forall x {:trigger At(mem, x)} | Misses(shape.ptr, x, a, shape.ptr)
        ensures At(mem, x) == At(old(mem), x)
      {
        assert At(m, x) == At(old(mem), x);
      }
    }

    /** The loop over the pieces of a new block. */
    method CarveBlock(block: Address)
      requires shape.Ok() && freeList == 0
      modifies `mem, `freeList
      ensures List(mem, freeList, Carved(shape, block, shape.num))
      ensures Written(shape.ptr, old(mem), mem, block + shape.header, shape.num * shape.elt)
    {
      hide Written, List, Carved;
      var a := block + shape.header;
      CarvedNone(shape, mem, block);
      for i := 0 to shape.num
        invariant a == Slot(shape, block, i) && List(mem, freeList, Carved(shape, block, i))
        invariant Written(shape.ptr, old(mem), mem, block + shape.header, i * shape.elt)
      {
        ghost var mem1, free1 := mem, freeList;
        Store(a, freeList);
        freeList := a;
        CarveOne(shape, mem1, free1, block, i, mem);
        assert (i + 1) * shape.elt == i * shape.elt + shape.elt;
        WrittenMore(shape.ptr, old(mem), mem1, mem, block + shape.header, i * shape.elt, a, shape.ptr,
                    (i + 1) * shape.elt);
        a := a + shape.elt;
      }
    }

    /** `pool_free`. A pointer that is handed out never makes it abort; when
        nothing is handed out, any pointer does. */
    method Free(p: Address) returns (abort: bool)
      requires Valid() && (p in live || live == {})
      modifies this
      ensures abort <==> old(live) == {}
      ensures abort ==> Valid() && live == {} && blocks == old(blocks) && freeList == old(freeList) && mem == old(mem)
      ensures !abort ==> Valid() && live == old(live) - {p} && blocks == old(blocks) && freeList == p
    {
      hide Good, List;
      assert |live| == 0 <==> live == {};
      if eltsFree + 1 > eltsAllocated {
        return true;
      }
      Store(p, freeList);
      GoodGive(shape, old(mem), freeList, free, blockList, blocks, live, p, mem);
      freeList, eltsFree, free, live := p, eltsFree + 1, [p] + free, live - {p};
      abort := false;
    }

    /** The user of a live object may write any bytes in it: they miss every
        pointer word of the pool. */
    method Write(p: Address, a: Address, n: nat)
      requires Valid() && p in live && p <= a && a + n <= p + shape.elt
      modifies `mem
      ensures Valid() && Written(shape.ptr, old(mem), mem, a, n)
      ensures forall x :: x in free || x in blocks ==> Misses(shape.ptr, x, a, n)
    {
      hide Good, List, Written;
      var junk: Memory := *;
      var m := Overwrite(shape.ptr, mem, junk, a, n);
      GoodWrite(shape, mem, freeList, free, blockList, blocks, live, p, a, n, m);
      mem := m;
    }

    /** A live object is aligned and lies behind the header of a block. */
    lemma LiveInside(p: Address)
      requires Valid() && p in live
      ensures p % 8 == 0
      ensures exists k ::
                0 <= k < |blocks| && blocks[k] + shape.header <= p && p + shape.elt <= blocks[k] + shape.BlockSize()
    {
      var k :| 0 <= k < |blocks| && SlotOf(shape, blocks[k], p);
      SlotInside(shape, blocks[k], p);
    }

    /** Live objects do not overlap. */
    lemma LiveApart(p: Address, q: Address)
      requires Valid() && p in live && q in live && p != q
      ensures Apart(p, q, shape.elt)
    {
      SlotsApart(shape, blocks, p, q);
    }
  }

  lemma EmptyFree(sh: Shape, mem: Memory, free: seq<Address>, blockList: Address, blocks: seq<Address>,
                  live: set<Address>)
    requires Good(sh, mem, 0, free, blockList, blocks, live)
    ensures free == [] && sh.Ok() && List(mem, blockList, blocks)
  {
  }

  lemma ListStarts(mem: Memory, s: Address, c: seq<Address>)
    requires List(mem, s, c) && c != []
    ensures s == c[0] && s != 0
  {
  }

  lemma CarvedNone(sh: Shape, mem: Memory, b: Address)
    ensures List(mem, 0, Carved(sh, b, 0)) && Written(sh.ptr, mem, mem, b + sh.header, 0)
  {
  }

  lemma MoreBlocks(n: nat, num: nat)
    ensures (n + 1) * num == n * num + num
  {
  }

  /** Writing the header and the slots of a fresh block leaves the other blocks. */
  lemma FreshKept(sh: Shape, mem: Memory, mem1: Memory, mem': Memory, blocks: seq<Address>, block: Address)
    requires sh.Ok() && forall k {:trigger blocks[k]} :: 0 <= k < |blocks| ==> Apart(block, blocks[k], sh.BlockSize())
    requires Written(sh.ptr, mem, mem1, block, sh.ptr)
    requires Written(sh.ptr, mem1, mem', block + sh.header, sh.num * sh.elt)
    ensures At(mem', block) == At(mem1, block)
    ensures forall k {:trigger blocks[k]} :: 0 <= k < |blocks| ==> At(mem', blocks[k]) == At(mem, blocks[k])
  {
    assert sh.num * sh.elt == sh.elt * sh.num;
    forall k {:trigger blocks[k]} | 0 <= k < |blocks|
      ensures At(mem', blocks[k]) == At(mem, blocks[k])
    {
      var x := blocks[k];
      assert Apart(block, x, sh.BlockSize());
      assert sh.elt * sh.num >= 0;
      assert Misses(sh.ptr, x, block + sh.header, sh.num * sh.elt) && Misses(sh.ptr, x, block, sh.ptr);
      assert At(mem1, x) == At(mem, x);
    }
  }
}
