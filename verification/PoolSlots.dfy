/**
 The blocks of an allocation pool and the slots in them (alloc-pool.c).
 */
module PoolSlots {
  import opened Helpers

  type Address = nat

  /** Pointer words in memory; 0 is the null pointer. */
  type Memory = map<Address, Address>

  /** The `n` bytes from `a` on do not touch the pointer word at `x`. */
  predicate Misses(ptr: nat, x: Address, a: Address, n: nat) {
    x + ptr <= a || a + n <= x
  }

  /** Between `mem` and `mem'` only the `n` bytes from `a` on were written. */
  ghost predicate Written(ptr: nat, mem: Memory, mem': Memory, a: Address, n: nat) {
    forall x {:trigger At(mem', x)} :: Misses(ptr, x, a, n) ==> At(mem', x) == At(mem, x)
  }

  /** Writing bytes leaves `junk` in the words they touch. */
  function Overwrite(ptr: nat, mem: Memory, junk: Memory, a: Address, n: nat): (mem': Memory)
    ensures Written(ptr, mem, mem', a, n)
  {
    map x | x in mem.Keys + junk.Keys && (if Misses(ptr, x, a, n) then x in mem else x in junk) ::
      if Misses(ptr, x, a, n) then mem[x] else junk[x]
  }

  lemma WrittenMore(ptr: nat, mem0: Memory, mem: Memory, mem': Memory, s: Address, n: nat, a: Address, m: nat, n': nat)
    requires Written(ptr, mem0, mem, s, n) && Written(ptr, mem, mem', a, m) && s <= a && n <= n' && a + m <= s + n'
    ensures Written(ptr, mem0, mem', s, n')
  {
    forall x {:trigger At(mem', x)} | Misses(ptr, x, s, n')
      ensures At(mem', x) == At(mem0, x)
    {
      assert At(mem, x) == At(mem0, x);
    }
  }

  /** `align_eight` */
  function AlignEight(x: nat): (r: nat)
    ensures r % 8 == 0 && x <= r < x + 8
  {
    (x + 7) / 8 * 8
  }

  /** Sizes: of an element, of the header of a block, how many elements a block
      has, and how many bytes a pointer takes. */
  datatype Shape = Shape(elt: nat, header: nat, num: nat, ptr: nat) {
    ghost predicate Ok() {
      0 < ptr <= elt && elt % 8 == 0 && ptr <= header && header % 8 == 0 && num > 0
    }

    function BlockSize(): nat {
      elt * num + header
    }
  }

  ghost function Slot(sh: Shape, b: Address, i: nat): Address {
    b + sh.header + i * sh.elt
  }

  ghost predicate SlotOf(sh: Shape, b: Address, a: Address) {
    exists i: nat {:trigger Slot(sh, b, i)} :: i < sh.num && Slot(sh, b, i) == a
  }

  ghost predicate IsSlot(sh: Shape, blocks: seq<Address>, a: Address) {
    exists k {:trigger blocks[k]} :: 0 <= k < |blocks| && SlotOf(sh, blocks[k], a)
  }

  /** Two pieces of memory of `n` bytes each do not overlap. */
  ghost predicate Apart(a: Address, b: Address, n: nat) {
    a + n <= b || b + n <= a
  }

  /** Blocks are aligned, not null and do not overlap. */
  ghost predicate BlocksOk(sh: Shape, blocks: seq<Address>) {
    && (forall k {:trigger blocks[k]} :: 0 <= k < |blocks| ==> blocks[k] > 0 && blocks[k] % 8 == 0)
    && (forall j, k {:trigger blocks[j], blocks[k]} :: 0 <= j < k < |blocks| ==>
          Apart(blocks[j], blocks[k], sh.BlockSize()))
  }

  lemma MulGrows(i: nat, j: nat, e: nat)
    requires i < j
    ensures i * e + e <= j * e
  {
    assert (j - i - 1) * e >= 0;
    assert j * e == i * e + e + (j - i - 1) * e;
  }

  /** A slot lies within its block, behind the header, and is aligned. */
  lemma SlotInside(sh: Shape, b: Address, a: Address)
    requires sh.Ok() && SlotOf(sh, b, a)
    ensures b + sh.header <= a && a + sh.elt <= b + sh.BlockSize()
    ensures b % 8 == 0 ==> a % 8 == 0
  {
    var i: nat :| i < sh.num && Slot(sh, b, i) == a;
    InsideArith(i, sh.elt, sh.num, b + sh.header, a);
    SumEight(b, sh.header);
  }

  lemma SumEight(a: nat, b: nat)
    requires b % 8 == 0
    ensures a % 8 == 0 ==> (a + b) % 8 == 0
  {
  }

  lemma InsideArith(i: nat, e: nat, n: nat, s: nat, a: nat)
    requires i < n && e % 8 == 0 && a == s + i * e
    ensures s <= a && a + e <= s + e * n && (s % 8 == 0 ==> a % 8 == 0)
  {
    MulGrows(i, n, e);
    MulEight(i, e);
    var d := i * e;
    assert e * n == n * e;
    assert a == s + d;
  }

  lemma MulEight(i: nat, e: nat)
    requires e % 8 == 0
    ensures i * e % 8 == 0
  {
    assert i * e == 8 * (i * (e / 8));
  }

  /** Different slots do not overlap. */
  lemma SlotsApart(sh: Shape, blocks: seq<Address>, a: Address, a': Address)
    requires sh.Ok() && BlocksOk(sh, blocks) && IsSlot(sh, blocks, a) && IsSlot(sh, blocks, a') && a != a'
    ensures Apart(a, a', sh.elt)
  {
    var k :| 0 <= k < |blocks| && SlotOf(sh, blocks[k], a);
    var k' :| 0 <= k' < |blocks| && SlotOf(sh, blocks[k'], a');
    SlotInside(sh, blocks[k], a);
    SlotInside(sh, blocks[k'], a');
    if k == k' {
      var i: nat :| i < sh.num && Slot(sh, blocks[k], i) == a;
      var i': nat :| i' < sh.num && Slot(sh, blocks[k], i') == a';
      if i < i' {
        MulGrows(i, i', sh.elt);
      } else if i' < i {
        MulGrows(i', i, sh.elt);
      }
    } else {
      assert Apart(blocks[if k < k' then k else k'], blocks[if k < k' then k' else k], sh.BlockSize());
    }
  }

  /** The header of a block is not part of a slot. */
  lemma HeaderApart(sh: Shape, blocks: seq<Address>, k: nat, a: Address)
    requires sh.Ok() && BlocksOk(sh, blocks) && k < |blocks| && IsSlot(sh, blocks, a)
    ensures blocks[k] + sh.header <= a || a + sh.elt <= blocks[k]
  {
    var m :| 0 <= m < |blocks| && SlotOf(sh, blocks[m], a);
    SlotInside(sh, blocks[m], a);
    if m != k {
      assert Apart(blocks[if k < m then k else m], blocks[if k < m then m else k], sh.BlockSize());
    }
  }

  // ----- lists in memory -----

  /** Following pointer words from `s` goes through `c` and ends. */
  ghost predicate List(mem: Memory, s: Address, c: seq<Address>)
    decreases |c|
  {
    if c == [] then s == 0 else s == c[0] && s != 0 && List(mem, At(mem, s), c[1..])
  }

  lemma {:induction false} ListKept(mem: Memory, mem': Memory, s: Address, c: seq<Address>)
    requires List(mem, s, c) && forall a {:trigger At(mem', a)} :: a in c ==> At(mem', a) == At(mem, a)
    ensures List(mem', s, c)
    decreases |c|
  {
    if c != [] {
      assert c[0] in c && forall a :: a in c[1..] ==> a in c;
      assert At(mem', c[0]) == At(mem, c[0]);
      ListKept(mem, mem', At(mem, s), c[1..]);
    }
  }

  // ----- the pool -----

  /** The free list holds exactly the slots that are not handed out, each once. */
  ghost predicate Good(sh: Shape, mem: Memory, freeList: Address, free: seq<Address>, blockList: Address,
                       blocks: seq<Address>, live: set<Address>) {
    && sh.Ok() && BlocksOk(sh, blocks) && List(mem, freeList, free) && List(mem, blockList, blocks) && NoDup(free)
    && (forall a {:trigger a in free} :: a in free ==> IsSlot(sh, blocks, a) && a !in live)
    && (forall a {:trigger a in live} :: a in live ==> IsSlot(sh, blocks, a))
    && (forall a {:trigger IsSlot(sh, blocks, a)} :: IsSlot(sh, blocks, a) ==> a in live || a in free)
  }

  /** Handing out the first free slot. */
  lemma GoodTake(sh: Shape, mem: Memory, freeList: Address, free: seq<Address>, blockList: Address,
                 blocks: seq<Address>, live: set<Address>)
    requires Good(sh, mem, freeList, free, blockList, blocks, live) && freeList != 0
    ensures free != [] && freeList == free[0] && IsSlot(sh, blocks, freeList) && freeList !in live
    ensures Good(sh, mem, At(mem, freeList), free[1..], blockList, blocks, live + {freeList})
  {
    hide IsSlot, BlocksOk;
    assert free != [];
    var rest := free[1..];
    assert free == [free[0]] + rest;
    forall a
      ensures a in rest ==> a in free && a != free[0]
    {
      if a in rest {
        var i :| 0 <= i < |rest| && rest[i] == a;
        assert free[i + 1] == a && free[0] != free[i + 1];
      }
    }
    assert forall i :: 0 <= i < |rest| ==> rest[i] == free[i + 1];
    assert free[0] in free;
  }

  /** Bytes written inside a live object touch no pointer word of the pool: not
      that of a free slot, nor that of a block. */
  lemma GoodWrite(sh: Shape, mem: Memory, freeList: Address, free: seq<Address>,
                  blockList: Address, blocks: seq<Address>, live: set<Address>, p: Address, a: Address, n: nat,
                      mem': Memory)
    requires Good(sh, mem, freeList, free, blockList, blocks, live) && p in live
    requires p <= a && a + n <= p + sh.elt && Written(sh.ptr, mem, mem', a, n)
    ensures Good(sh, mem', freeList, free, blockList, blocks, live)
    ensures forall x :: x in free || x in blocks ==> Misses(sh.ptr, x, a, n)
  {
    hide IsSlot, BlocksOk, NoDup;
    forall x | x in free
      ensures Misses(sh.ptr, x, a, n) && At(mem', x) == At(mem, x)
    {
      SlotsApart(sh, blocks, p, x);
    }
    forall x | x in blocks
      ensures Misses(sh.ptr, x, a, n) && At(mem', x) == At(mem, x)
    {
      var k :| 0 <= k < |blocks| && blocks[k] == x;
      HeaderApart(sh, blocks, k, p);
    }
    ListKept(mem, mem', freeList, free);
    ListKept(mem, mem', blockList, blocks);
  }

  /** Putting a live object on the free list. */
  lemma GoodGive(sh: Shape, mem: Memory, freeList: Address, free: seq<Address>,
                 blockList: Address, blocks: seq<Address>, live: set<Address>, p: Address, mem': Memory)
    requires Good(sh, mem, freeList, free, blockList, blocks, live) && p in live
    requires Written(sh.ptr, mem, mem', p, sh.ptr) && At(mem', p) == freeList
    ensures Good(sh, mem', p, [p] + free, blockList, blocks, live - {p})
  {
    hide IsSlot, BlocksOk, Written;
    GoodWrite(sh, mem, freeList, free, blockList, blocks, live, p, p, sh.ptr, mem');
    SlotNotNull(sh, blocks, p);
    var free' := [p] + free;
    assert free'[1..] == free;
    assert forall i :: 0 < i < |free'| ==> free'[i] in free;
  }

  lemma SlotNotNull(sh: Shape, blocks: seq<Address>, a: Address)
    requires sh.Ok() && IsSlot(sh, blocks, a)
    ensures a != 0
  {
  }

  /** The slots of a new block, in the order of the free list. */
  ghost function Carved(sh: Shape, b: Address, n: nat): seq<Address> {
    if n == 0 then [] else [Slot(sh, b, n - 1)] + Carved(sh, b, n - 1)
  }

  lemma {:induction false} CarvedSlots(sh: Shape, b: Address, n: nat, a: Address)
    ensures a in Carved(sh, b, n) <==> exists i: nat {:trigger Slot(sh, b, i)} :: i < n && Slot(sh, b, i) == a
  {
    if n > 0 {
      CarvedSlots(sh, b, n - 1, a);
    }
  }

  lemma {:induction false} CarvedNoDup(sh: Shape, b: Address, n: nat)
    requires sh.Ok()
    ensures NoDup(Carved(sh, b, n)) && |Carved(sh, b, n)| == n
  {
    if n > 0 {
      CarvedNoDup(sh, b, n - 1);
      var c := Carved(sh, b, n - 1);
      forall j | 0 <= j < |c|
        ensures c[j] != Slot(sh, b, n - 1)
      {
        CarvedSlots(sh, b, n - 1, c[j]);
        assert c[j] in c;
        var i: nat :| i < n - 1 && Slot(sh, b, i) == c[j];
        MulGrows(i, n - 1, sh.elt);
      }
    }
  }

  /** One more slot of the block on the free list. */
  lemma CarveOne(sh: Shape, mem: Memory, freeList: Address, b: Address, n: nat, mem': Memory)
    requires sh.Ok() && List(mem, freeList, Carved(sh, b, n))
    requires Written(sh.ptr, mem, mem', Slot(sh, b, n), sh.ptr) && At(mem', Slot(sh, b, n)) == freeList
    ensures List(mem', Slot(sh, b, n), Carved(sh, b, n + 1))
  {
    var c := Carved(sh, b, n + 1);
    assert c[1..] == Carved(sh, b, n);
    forall x {:trigger At(mem', x)} | x in Carved(sh, b, n)
      ensures At(mem', x) == At(mem, x)
    {
      CarvedSlots(sh, b, n, x);
      var i: nat :| i < n && Slot(sh, b, i) == x;
      MulGrows(i, n, sh.elt);
    }
    ListKept(mem, mem', freeList, Carved(sh, b, n));
  }

  lemma CarvedIs(sh: Shape, b: Address, a: Address)
    ensures a in Carved(sh, b, sh.num) <==> SlotOf(sh, b, a)
  {
    CarvedSlots(sh, b, sh.num, a);
  }

  /** A slot of a new block was not a slot before. */
  lemma NewSlot(sh: Shape, blocks: seq<Address>, b: Address, a: Address)
    requires sh.Ok() && SlotOf(sh, b, a)
    requires forall k {:trigger blocks[k]} :: 0 <= k < |blocks| ==> Apart(b, blocks[k], sh.BlockSize())
    ensures !IsSlot(sh, blocks, a)
  {
    hide SlotOf;
    SlotInside(sh, b, a);
    forall k {:trigger blocks[k]} | 0 <= k < |blocks|
      ensures !SlotOf(sh, blocks[k], a)
    {
      if SlotOf(sh, blocks[k], a) {
        SlotInside(sh, blocks[k], a);
        assert false;
      }
    }
  }

  /** A new block, carved into slots, when the free list was empty. */
  lemma GoodBlock(sh: Shape, mem: Memory, blockList: Address, blocks: seq<Address>, live: set<Address>, b: Address,
                  mem': Memory, freeList': Address)
    requires Good(sh, mem, 0, [], blockList, blocks, live)
    requires b > 0 && b % 8 == 0 && forall k {:trigger blocks[k]} :: 0 <= k < |blocks| ==>
               Apart(b, blocks[k], sh.BlockSize())
    requires At(mem', b) == blockList && forall k {:trigger blocks[k]} :: 0 <= k < |blocks| ==>
               At(mem', blocks[k]) == At(mem, blocks[k])
    requires List(mem', freeList', Carved(sh, b, sh.num))
    ensures Good(sh, mem', freeList', Carved(sh, b, sh.num), b, [b] + blocks, live)
  {
    hide SlotOf;
    var blocks' := [b] + blocks;
    assert blocks'[1..] == blocks && forall k :: 0 < k < |blocks'| ==> blocks'[k] == blocks[k - 1];
    ListKept(mem, mem', blockList, blocks);
    CarvedNoDup(sh, b, sh.num);
    assert BlocksOk(sh, blocks') by {
      forall j, k {:trigger blocks'[j], blocks'[k]} | 0 <= j < k < |blocks'|
        ensures Apart(blocks'[j], blocks'[k], sh.BlockSize())
      {
        assert blocks'[k] == blocks[k - 1];
        assert j > 0 ==> blocks'[j] == blocks[j - 1];
      }
    }
    forall a
      ensures a in Carved(sh, b, sh.num) <==> SlotOf(sh, b, a)
      ensures SlotOf(sh, b, a) ==> a !in live
    {
      CarvedIs(sh, b, a);
      if SlotOf(sh, b, a) && a in live {
        NewSlot(sh, blocks, b, a);
      }
    }
    forall a
      ensures IsSlot(sh, blocks', a) <==> SlotOf(sh, b, a) || IsSlot(sh, blocks, a)
    {
      if SlotOf(sh, b, a) {
        assert SlotOf(sh, blocks'[0], a);
      }
      if IsSlot(sh, blocks, a) {
        var k :| 0 <= k < |blocks| && SlotOf(sh, blocks[k], a);
        assert SlotOf(sh, blocks'[k + 1], a);
      }
    }
  }
}
