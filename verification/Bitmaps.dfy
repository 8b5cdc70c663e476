/**
 The operations of bitmap.c. A store holds every bitmap head, every element
 and the two global free lists; elements and heads are addresses, and each
 field of an element is a map from address to value, so that heads, sources
 and a list under construction can share elements as they do in the source.
 */
module Bitmaps {
  import opened Helpers
  import opened Blocks
  import opened Neighbours
  import opened BitmapLists
  import opened BitWords

  /** One call of `bitmap_operation`: the head and the operation, the place, the
      elements and the blocks of both sources and of the old list of `to`, and
      the store as it was once that list was cut off. */
  datatype Task = Task(to: Head, op: Op,
                       pl1: Place, a1: Index, b1: Blocks, pl2: Place, a2: Index, b2: Blocks, t: Index, b: Blocks,
                       mem0: Mem, place0: Places, heads0: map<Head, HeadRec>, at0: map<Head, Index>)

  /** `unsigned int` */
  type BitNumber = n: nat | n < BIT_LIMIT

  ghost function SetsOf(c: map<Head, Blocks>): map<Head, set<nat>> {
    map h | h in c :: SetOf(c[h])
  }

  lemma AllCanonical(mem: Mem, place: Places, heads: map<Head, HeadRec>, at: map<Head, Index>)
    requires ListsOk(mem, place, heads, at)
    ensures ContentsOf(mem.bits, at).Keys == heads.Keys
    ensures forall h :: h in heads ==> Canonical(ContentsOf(mem.bits, at)[h])
  {
    forall h | h in heads
      ensures Canonical(ContentsOf(mem.bits, at)[h])
    {
      hide ListOk, BlocksOf, Canonical;
      assert ListOk(mem, place, h, heads[h], at[h]);
      BlocksCanonical(mem, place, h, heads[h], at[h]);
    }
  }

  lemma NoBlocks()
    ensures SetOf(map[]) == {}
  {
  }

  /** The first bit of the first element is the least member. */
  lemma LeastMember(m: Blocks, n: nat, k: nat)
    requires Canonical(m) && n in m && (forall j :: j in m ==> n <= j)
    requires k in m[n] && forall x :: x in m[n] ==> k <= x
    ensures Next(SetOf(m), -1) == n * ELEMENT_BITS + k
  {
    hide SetOf;
    var least: nat := n * ELEMENT_BITS + k;
    assert k < ELEMENT_BITS;
    InSetOf(m, least);
    forall x: nat | x in SetOf(m)
      ensures least <= x
    {
      InSetOf(m, x);
      assert n <= x / ELEMENT_BITS;
    }
    NextIs(SetOf(m), -1, least);
  }

  lemma GreatestMember(m: Blocks, n: nat, k: nat)
    requires Canonical(m) && n in m && n < INDEX_LIMIT && (forall j :: j in m ==> j <= n)
    requires k in m[n] && forall x :: x in m[n] ==> x <= k
    ensures Prev(SetOf(m), BIT_LIMIT) == n * ELEMENT_BITS + k
  {
    hide SetOf;
    var greatest: nat := n * ELEMENT_BITS + k;
    assert k < ELEMENT_BITS;
    InSetOf(m, greatest);
    forall x: nat | x in SetOf(m)
      ensures x <= greatest
    {
      InSetOf(m, x);
      assert x / ELEMENT_BITS <= n;
    }
    PrevIs(SetOf(m), BIT_LIMIT, greatest);
  }

  lemma NoMember()
    ensures Next({}, -1) == -1 && Prev({}, BIT_LIMIT) == -1
  {
    NextIs({}, -1, -1);
    PrevIs({}, BIT_LIMIT, -1);
  }

  lemma TempGone(s: map<Head, set<nat>>, tmp: Head, x: set<nat>, to: Head, y: set<nat>)
    requires tmp !in s && to != tmp
    ensures s[tmp := {}][tmp := x][to := y] - {tmp} == s[to := y]
  {
  }

  lemma XorEmpty(a: set<nat>, b: set<nat>)
    ensures SetOp(Xor, a, b) == {} <==> a == b
  {
    if SetOp(Xor, a, b) == {} {
      forall x: nat
        ensures x in a <==> x in b
      {
        assert x !in SetOp(Xor, a, b);
      }
    }
  }

  // ----- commands and what they mean for plain sets -----

  datatype Command =
    | SetBit(h: Head, bit: BitNumber)
    | ClearBit(h: Head, bit: BitNumber)
    | TestBit(h: Head, bit: BitNumber)
    | FirstBit(h: Head)
    | LastBit(h: Head)
    | Clear(h: Head)
    | Operation(to: Head, from1: Head, from2: Head, op: SetOperation)
    | Copy(to: Head, from: Head)
    | IorAndCompl(to: Head, from1: Head, from2: Head)
    | UnionOfDiff(to: Head, from0: Head, from1: Head, from2: Head)
    | Equal(a: Head, b: Head)

  type SetOperation = op: Op | op != IorCompl witness And

  ghost function Names(c: Command): set<Head> {
    match c
    case SetBit(h, _) => {h}
    case ClearBit(h, _) => {h}
    case TestBit(h, _) => {h}
    case FirstBit(h) => {h}
    case LastBit(h) => {h}
    case Clear(h) => {h}
    case Operation(to, from1, from2, _) => {to, from1, from2}
    case Copy(to, from) => {to, from}
    case IorAndCompl(to, from1, from2) => {to, from1, from2}
    case UnionOfDiff(to, from0, from1, from2) => {to, from0, from1, from2}
    case Equal(a, b) => {a, b}
  }

  ghost function Effect(s: map<Head, set<nat>>, c: Command): (r: map<Head, set<nat>>)
    requires Names(c) <= s.Keys
    ensures r.Keys == s.Keys
  {
    match c
    case SetBit(h, bit) => s[h := s[h] + {bit}]
    case ClearBit(h, bit) => s[h := s[h] - {bit}]
    case Clear(h) => s[h := {}]
    case Operation(to, from1, from2, op) => s[to := SetOp(op, s[from1], s[from2])]
    case Copy(to, from) => s[to := if to == from then {} else s[from]]
    case IorAndCompl(to, from1, from2) => s[to := s[to] + (s[from1] - s[from2])]
    case UnionOfDiff(to, from0, from1, from2) => s[to := s[from0] + (s[from1] - s[from2])]
    case _ => s
  }

  /** C's truth values. */
  function Truth(b: bool): int {
    if b then 1 else 0
  }

  /** An unsigned bit number returned as an `int`. */
  function AsInt(n: int): int {
    if n < 0x8000_0000 then n else n - BIT_LIMIT
  }

  /** What a call returns; `Next` and `Prev` give the least and the greatest
      member, or -1. */
  ghost function Answer(s: map<Head, set<nat>>, c: Command): seq<int>
    requires Names(c) <= s.Keys
  {
    match c
    case TestBit(h, bit) => [Truth(bit in s[h])]
    case FirstBit(h) => [AsInt(Next(s[h], -1))]
    case LastBit(h) => [AsInt(Prev(s[h], BIT_LIMIT))]
    case Operation(to, from1, from2, op) => [Truth(SetOp(op, s[from1], s[from2]) != s[to])]
    case UnionOfDiff(to, from0, from1, from2) => [Truth(s[from0] + (s[from1] - s[from2]) != s[to])]
    case Equal(a, b) => [Truth(s[a] == s[b])]
    case _ => []
  }

  ghost predicate Known(s: map<Head, set<nat>>, cs: seq<Command>) {
    forall i :: 0 <= i < |cs| ==> Names(cs[i]) <= s.Keys
  }

  ghost function Effects(s: map<Head, set<nat>>, cs: seq<Command>): map<Head, set<nat>>
    requires Known(s, cs)
    decreases |cs|
  {
    if cs == [] then s else Effects(Effect(s, cs[0]), cs[1..])
  }

  ghost function Answers(s: map<Head, set<nat>>, cs: seq<Command>): seq<int>
    requires Known(s, cs)
    decreases |cs|
  {
    if cs == [] then [] else Answer(s, cs[0]) + Answers(Effect(s, cs[0]), cs[1..])
  }

  ghost predicate SourceRest(mem: Mem, place: Places, to: Head, pl: Place, a: Index, b: Blocks, lo: nat, p: Ptr) {
    (pl == Detached || (pl.In? && pl.h != to)) && Rest(mem, place, pl, a, b, lo, p)
  }

  /** Everything below index `lo` is merged into the list `at` of `k.to`, and the
      three lists are intact from `lo` on. */
  ghost predicate MergedUpTo(mem: Mem, place: Places, at: Index, k: Task, lo: nat, p1: Ptr, p2: Ptr, ptr: Ptr,
                             changed: bool) {
    && Canonical(k.b) && k.to in k.heads0 && Kinds(k.t, k.heads0[k.to].usingObstack)
    && SourceRest(mem, place, k.to, k.pl1, k.a1, k.b1, lo, p1)
    && SourceRest(mem, place, k.to, k.pl2, k.a2, k.b2, lo, p2)
    && Rest(mem, place, Detached, k.t, k.b, lo, ptr) && Leftovers(mem, place, k.t, lo)
    && BlocksOf(mem.bits, at) == Below(Combine(k.op, k.b1, k.b2), lo)
    && (changed <==> Below(Combine(k.op, k.b1, k.b2), lo) != Below(k.b, lo))
    && Kept(k.to, lo, k.mem0, k.place0, mem, place)
    && (forall x :: Where(place, x) != Loose)
  }

  /** The work of an operation on the lists of three heads of a store. */
  ghost function TaskOf(mem: Mem, place: Places, heads: map<Head, HeadRec>, at: map<Head, Index>, to: Head, op: Op,
                        from1: Head, from2: Head): Task
    requires to in heads && to in at && from1 in at && from2 in at
  {
    var empty: Index := map[];
    Task(to, op,
         if from1 == to then Detached else In(from1), at[from1], BlocksOf(mem.bits, at[from1]),
         if from2 == to then Detached else In(from2), at[from2], BlocksOf(mem.bits, at[from2]),
         at[to], BlocksOf(mem.bits, at[to]),
         mem, Detach(place, to), heads[to := heads[to].(first := NULL, current := NULL)], at[to := empty])
  }

  lemma CutOk(mem: Mem, place: Places, heads: map<Head, HeadRec>, at: map<Head, Index>, to: Head, op: Op, from1: Head,
              from2: Head)
    requires ListsOk(mem, place, heads, at) && Settled(place, heads)
    requires to in heads && from1 in heads && from2 in heads && Canonical(BlocksOf(mem.bits, at[to]))
    requires Leftovers(mem, Detach(place, to), at[to], 0)
    requires forall x :: Where(Detach(place, to), x) != Loose
    ensures MergedUpTo(mem, Detach(place, to), map[], TaskOf(mem, place, heads, at, to, op, from1, from2), 0,
                       heads[from1].first, heads[from2].first, heads[to].first, false)
  {
    hide Rest, ListOk, Kept, Leftovers, Combine, Canonical, BlocksOf;
    assert ListOk(mem, place, from1, heads[from1], at[from1]);
    assert ListOk(mem, place, from2, heads[from2], at[from2]);
    assert ListOk(mem, place, to, heads[to], at[to]);
    ListKinds(mem, place, to, heads[to], at[to]);
    SourceCut(mem, place, to, from1, heads[from1], at[from1]);
    SourceCut(mem, place, to, from2, heads[from2], at[from2]);
    SourceCut(mem, place, to, to, heads[to], at[to]);
    KeptSelf(to, 0, mem, Detach(place, to));
    EmptyBlocks(mem.bits);
    BelowNone(Combine(op, BlocksOf(mem.bits, at[from1]), BlocksOf(mem.bits, at[from2])));
    BelowNone(BlocksOf(mem.bits, at[to]));
  }

  class Store {
    var mem: Mem
    var heads: map<Head, HeadRec>
    /** `bitmap_free` for true, `bitmap_ggc_free` for false. */
    var freeTop: map<bool, Ptr>
    /** The least address the obstack or the collector may hand out next. */
    var limit: Ptr
    ghost var g: Shape
    ghost var at: map<Head, Index>

    /** No bitmap, no element, empty free lists. */
    constructor ()
      ensures World() && Sets() == map[]
    {
      mem, heads, freeTop, limit := Mem(map[], map[], map[], map[]), map[], map[true := NULL, false := NULL], 1;
      g, at := Shape(map[], map[], map[true := [], false := []]), map[];
    }

    // ----- invariants -----

    ghost predicate Pool()
      reads this
    {
      PoolOk(mem, freeTop, limit, g)
    }

    ghost predicate HeadOk(h: Head)
      reads this
    {
      h in heads && h in at && ListOk(mem, g.place, h, heads[h], at[h])
    }

    // ----- allocation -----

    /** `bitmap_elem_to_freelist` */
    method ElemToFreelist(o: bool, e: Ptr)
      requires Pool() && (Where(g.place, e) == Loose || Where(g.place, e) == Detached) && FromObstack(e) == o
      modifies `mem, `freeTop, `g
      ensures Pool() && g.place == old(g.place)[e := Freed(o)]
      ensures mem == old(mem).(next := mem.next) && mem.next == old(mem.next)[e := old(freeTop)[o]]
      ensures freeTop == old(freeTop)[o := e]
    {
      hide FreeOk;
      PushOk(mem, freeTop, limit, g, o, e);
      mem, freeTop, g := mem.(next := mem.next[e := freeTop[o]]), freeTop[o := e], Pushed(g, o, e);
    }

    /** What `obstack_alloc` or `ggc_alloc` returns. */
    function Handed(o: bool, least: Ptr): (e: Ptr)
      ensures least <= e && FromObstack(e) == o
    {
      if FromObstack(least) == o then least else least + 1
    }

    /** `bitmap_element_allocate`: from the free list if it has an element,
        else from fresh memory, which it leaves uninitialized but for the bits. */
    method ElementAllocate(o: bool) returns (e: Ptr)
      requires Pool()
      modifies `mem, `freeTop, `limit, `g
      ensures Pool() && e != NULL && g.place == old(g.place)[e := Loose] && FromObstack(e) == o
      ensures old(Where(g.place, e)) == Nowhere || old(Where(g.place, e)) == Freed(o)
      ensures if old(freeTop)[o] != NULL
              then e == old(freeTop)[o] && limit == old(limit) && freeTop == old(freeTop)[o := At(mem.next, e)]
              else old(limit) <= e && freeTop == old(freeTop)
      ensures mem == old(mem).(bits := mem.bits) && mem.bits == old(mem.bits)[e := {}]
    {
      hide FreeOk;
      if freeTop[o] != NULL {
        e := freeTop[o];
        PopOk(mem, freeTop, limit, g, o);
        freeTop, g := freeTop[o := At(mem.next, e)], Popped(g, o, e);
      } else {
        e := Handed(o, limit);
        FreshOk(mem, freeTop, limit, g, e);
        limit, g := e + 1, g.(place := g.place[e := Loose]);
      }
      mem := mem.(bits := mem.bits[e := {}]);
    }

    // ----- linking and unlinking -----

    /** The search of `bitmap_element_link` from the cached element to the
        neighbours of a new element with index `k`. */
    method FindPlace(h: Head, k: nat) returns (p: Ptr, q: Ptr)
      requires HeadOk(h) && k !in at[h]
      ensures p == ElementAt(at[h], Before(at[h], k)) && q == ElementAt(at[h], After(at[h], k))
    {
      hide Next, Prev, AllBits;
      var r := heads[h];
      ghost var a := at[h];
      if r.first == NULL {
        NoneLeft(a, k);
        p, q := NULL, NULL;
      } else if k < r.indx {
        q := r.current;
        ghost var n := r.indx;
        while At(mem.prev, q) != NULL && IndexOf(mem.indx, At(mem.prev, q)) > k
          invariant n in a && a[n] == q && k < n
          decreases n
        {
          q := At(mem.prev, q);
          n := Before(a, n);
        }
        p := At(mem.prev, q);
        Between(a, k, Before(a, n), n);
      } else {
        p := r.current;
        ghost var n := r.indx;
        while At(mem.next, p) != NULL && IndexOf(mem.indx, At(mem.next, p)) < k
          invariant n in a && a[n] == p && n < k
          decreases k - n
        {
          p := At(mem.next, p);
          n := After(a, n);
        }
        q := At(mem.next, p);
        Between(a, k, n, After(a, n));
      }
    }

    /** `bitmap_element_link` */
    method ElementLink(h: Head, e: Ptr)
      requires Pool() && HeadOk(h) && e in mem.indx && Fits(mem, g.place, at[h], e, mem.indx[e])
      requires FromObstack(e) == heads[h].usingObstack
      modifies `mem, `heads, `g, `at
      ensures Pool() && HeadOk(h) && g.place == old(g.place)[e := In(h)]
      ensures OnlyHead(h, old(heads), old(at), heads, at) && at[h] == old(at[h])[old(mem.indx[e]) := e]
      ensures mem.indx == old(mem.indx) && mem.bits == old(mem.bits)
      ensures BlocksOf(mem.bits, at[h]) == old(BlocksOf(mem.bits, at[h]))[old(mem.indx[e]) := BitsOf(mem.bits, e)]
      ensures LinksKept(old(mem), mem, old(g.place), h, e)
    {
      hide PoolOk, Prev, Next, ListOk, LinksKept, BlocksOf;
      var k := mem.indx[e];
      var p, q := FindPlace(h, k);
      ghost var joined: Index := at[h][k := e];
      ThreadedOk(mem, freeTop, limit, g, h, heads[h], at[h], k, p, e, q);
      heads := heads[h := HeadRec(if p != NULL then heads[h].first else e, e, k, heads[h].usingObstack)];
      mem, g, at := Threaded(mem, p, e, q), g.(place := g.place[e := In(h)]), at[h := joined];
    }

    // ----- bitmap_operation -----

    /** Discards the elements of the old list of `to` that lie below `k`. */
    method DiscardBelow(o: bool, first: Ptr, k: nat, ghost t: Index, ghost b: Blocks, ghost lo: nat)
        returns (ptr: Ptr, skipped: bool)
      requires Pool() && Rest(mem, g.place, Detached, t, b, lo, first) && Leftovers(mem, g.place, t, lo) && lo <= k
      requires Kinds(t, o)
      modifies `mem, `freeTop, `g
      ensures Pool() && Rest(mem, g.place, Detached, t, b, k, ptr) && Leftovers(mem, g.place, t, k)
      ensures skipped <==> exists n :: n in b && lo <= n < k
      ensures mem == old(mem).(next := mem.next)
      ensures Kept(-1, k, old(mem), old(g.place), mem, g.place)
      ensures forall x :: Where(g.place, x) == old(Where(g.place, x)) || Where(g.place, x).Freed?
    {
      hide PoolOk, Rest, FromObstack;
      ptr, skipped := first, false;
      ghost var j := lo;
      while ptr != NULL && IndexOf(mem.indx, ptr) < k
        invariant lo <= j <= k && Pool()
        invariant Rest(mem, g.place, Detached, t, b, j, ptr) && Leftovers(mem, g.place, t, j)
        invariant skipped <==> exists n :: n in b && lo <= n < j
        invariant mem == old(mem).(next := mem.next)
        invariant Kept(-1, k, old(mem), old(g.place), mem, g.place)
        invariant forall x :: Where(g.place, x) == old(Where(g.place, x)) || Where(g.place, x).Freed?
        decreases k - j
      {
        RestStep(mem, g.place, Detached, t, b, j, ptr);
        var tmp := ptr;
        ghost var n: nat, mem0, place0 := IndexOf(mem.indx, ptr), mem, g.place;
        ptr := At(mem.next, ptr);
        ElemToFreelist(o, tmp);
        RestKept(mem0, place0, mem, g.place, Detached, t, b, n + 1, ptr);
        j, skipped := n + 1, true;
      }
      RestUp(mem, g.place, Detached, t, b, j, k, ptr);
    }

    /** The element of the old list with index `k` if it is next, else a new one. */
    method TakeAt(to: Head, first: Ptr, k: nat, ghost t: Index, ghost b: Blocks) returns (ptr: Ptr, e: Ptr)
      requires Pool() && to in heads && Kinds(t, heads[to].usingObstack)
      requires Rest(mem, g.place, Detached, t, b, k, first) && Leftovers(mem, g.place, t, k)
      modifies `mem, `freeTop, `limit, `g
      ensures Pool() && e != NULL && g.place == old(g.place)[e := Loose] && FromObstack(e) == heads[to].usingObstack
      ensures Rest(mem, g.place, Detached, t, b, k + 1, ptr) && Leftovers(mem, g.place, t, k + 1)
      ensures BitsOf(mem.bits, e) == Get(b, k) && (k in t ==> e == t[k])
      ensures mem == old(mem).(bits := mem.bits) && mem.bits == old(mem.bits)[e := Get(b, k)]
      ensures var p := old(Where(g.place, e));
              p == Nowhere || p.Freed? || (p == Detached && old(IndexOf(mem.indx, e)) == k && mem == old(mem))
    {
      hide FreeListOk, Rest, FromObstack;
      ptr := first;
      if ptr != NULL && IndexOf(mem.indx, ptr) == k {
        RestStep(mem, g.place, Detached, t, b, k, ptr);
        e := ptr;
        ptr := At(mem.next, ptr);
        ghost var g' := g.(place := g.place[e := Loose]);
        PoolKept(mem, mem, freeTop, limit, g, g');
        RestKept(mem, g.place, mem, g'.place, Detached, t, b, k + 1, ptr);
        g := g';
      } else {
        assert k !in t && k !in b && Rest(mem, g.place, Detached, t, b, k + 1, ptr) by {
          if ptr != NULL {
            RestStep(mem, g.place, Detached, t, b, k, ptr);
          } else {
            RestDone(mem, g.place, Detached, t, b, k);
          }
          RestUp(mem, g.place, Detached, t, b, k, k + 1, ptr);
        }
        ghost var mem0, place0 := mem, g.place;
        e := ElementAllocate(heads[to].usingObstack);
        RestKept(mem0, place0, mem, g.place, Detached, t, b, k + 1, ptr);
        assert Leftovers(mem, g.place, t, k + 1);
      }
    }

    /** `f` is the zero element, on another list, or the old element with index `k`. */
    ghost predicate Steady(to: Head, k: nat, f: Ptr)
      reads this
    {
      f == NULL || (Guarded(to, k, mem, g.place, f) && (Where(g.place, f) == Detached ==> IndexOf(mem.indx, f) == k))
    }

    /** The first half of a round of `bitmap_operation`: discard what lies below
        `k`, find an element for the result, and do the operation (`DOIT`).
        NULL stands for `bitmap_zero_bits`. */
    method Compute(to: Head, op: Op, k: nat, f1: Ptr, f2: Ptr, first: Ptr, ghost t: Index, ghost b: Blocks,
                   ghost lo: nat)
      returns (ptr: Ptr, e: Ptr, changed: bool)
      requires Pool() && to in heads && Steady(to, k, f1) && Steady(to, k, f2) && lo <= k
      requires Kinds(t, heads[to].usingObstack)
      requires Rest(mem, g.place, Detached, t, b, lo, first) && Leftovers(mem, g.place, t, lo)
      modifies `mem, `freeTop, `limit, `g
      ensures Pool() && e != NULL && Where(g.place, e) == Loose && FromObstack(e) == heads[to].usingObstack
      ensures Rest(mem, g.place, Detached, t, b, k + 1, ptr) && Leftovers(mem, g.place, t, k + 1)
      ensures BitsOf(mem.bits, e) == old(BitsOp(op, BitsOf(mem.bits, f1), BitsOf(mem.bits, f2)))
      ensures changed <==> (exists n :: n in b && lo <= n < k) || BitsOf(mem.bits, e) != Get(b, k)
      ensures Kept(-1, k + 1, old(mem), old(g.place), mem, g.place)
      ensures forall x :: x != e && Where(g.place, x) == Loose ==> old(Where(g.place, x)) == Loose
    {
      hide PoolOk, Rest, AllBits, BitsOp, Kept, Leftovers, FromObstack, Kinds;
      ghost var mem0, place0 := mem, g.place;
      var skipped;
      ptr, skipped := DiscardBelow(heads[to].usingObstack, first, k, t, b, lo);
      ghost var mem1, place1 := mem, g.place;
      if f1 != NULL { KeptAt(-1, k, mem0, place0, mem1, place1, f1); }
      if f2 != NULL { KeptAt(-1, k, mem0, place0, mem1, place1, f2); }
      ptr, e := TakeAt(to, ptr, k, t, b);
      ghost var mem2 := mem;
      changed := Fill(op, f1, f2, e);
      changed := skipped || changed;
      ComputeKept(k, mem0, place0, mem1, place1, mem2, e, BitsOf(mem.bits, e), ptr, t, b);
    }

    /** The operation on one pair of elements (`DOIT`), and whether it changes `e`. */
    method Fill(op: Op, f1: Ptr, f2: Ptr, e: Ptr) returns (changed: bool)
      requires Pool() && e != NULL
      modifies `mem
      ensures Pool() && mem == old(mem).(bits := mem.bits)
      ensures mem.bits == old(mem.bits)[e := old(BitsOp(op, BitsOf(mem.bits, f1), BitsOf(mem.bits, f2)))]
      ensures changed <==> BitsOf(mem.bits, e) != old(BitsOf(mem.bits, e))
    {
      hide PoolOk, BitsOp;
      var r := BitsOp(op, BitsOf(mem.bits, f1), BitsOf(mem.bits, f2));
      changed := r != BitsOf(mem.bits, e);
      PoolBits(mem, freeTop, limit, g, e, r);
      mem := mem.(bits := mem.bits[e := r]);
    }

    static lemma ComputeKept(k: nat, mem0: Mem, place0: Places, mem1: Mem, place1: Places, mem2: Mem, e: Ptr,
                             r: set<nat>,
                             ptr: Ptr, t: Index, b: Blocks)
      requires Kept(-1, k, mem0, place0, mem1, place1) && !Guarded(-1, k + 1, mem1, place1, e)
      requires mem2 == mem1.(bits := mem1.bits[e := Get(b, k)])
      requires Rest(mem2, place1[e := Loose], Detached, t, b, k + 1, ptr)
               && Leftovers(mem2, place1[e := Loose], t, k + 1)
      ensures var mem3 := mem2.(bits := mem2.bits[e := r]);
              && Kept(-1, k + 1, mem0, place0, mem3, place1[e := Loose])
              && Rest(mem3, place1[e := Loose], Detached, t, b, k + 1, ptr)
              && Leftovers(mem3, place1[e := Loose], t, k + 1)
    {
      hide Kept, Rest;
      var mem3 := mem2.(bits := mem2.bits[e := r]);
      KeptLess(-1, -1, k, k + 1, mem0, place0, mem1, place1);
      BitsKept(k + 1, mem1, place1, e, r, Loose);
      assert mem3 == mem1.(bits := mem1.bits[e := r]);
      KeptTwice(-1, k + 1, mem0, place0, mem1, place1, mem3, place1[e := Loose]);
      RestKept(mem2, place1[e := Loose], mem3, place1[e := Loose], Detached, t, b, k + 1, ptr);
    }

    /** Gives a loose element its index and links it. */
    method LinkAt(to: Head, k: nat, e: Ptr)
      requires Pool() && HeadOk(to) && Where(g.place, e) == Loose && e != NULL && k < INDEX_LIMIT
      requires BitsOf(mem.bits, e) != {} && BitsOf(mem.bits, e) <= AllBits() && k !in at[to]
      requires FromObstack(e) == heads[to].usingObstack
      modifies `mem, `heads, `g, `at
      ensures Pool() && HeadOk(to) && g.place == old(g.place)[e := In(to)]
      ensures OnlyHead(to, old(heads), old(at), heads, at)
      ensures BlocksOf(mem.bits, at[to]) == old(BlocksOf(mem.bits, at[to]))[k := old(BitsOf(mem.bits, e))]
      ensures Kept(to, k + 1, old(mem), old(g.place), mem, g.place)
    {
      hide PoolOk, ListOk, BlocksOf, AllBits, Kept;
      ghost var mem0, place0 := mem, g.place;
      ghost var mem1 := mem.(indx := mem.indx[e := k]);
      assert PoolOk(mem1, freeTop, limit, g) && ListOk(mem1, g.place, to, heads[to], at[to])
          && BlocksOf(mem1.bits, at[to]) == BlocksOf(mem.bits, at[to]) by {
        PoolIndex(mem, freeTop, limit, g, e, k);
        ListKept(mem, g.place, mem1, g.place, to, heads[to], at[to]);
      }
      mem := mem.(indx := mem.indx[e := k]);
      ElementLink(to, e);
      PlaceKept(to, k + 1, mem0, place0, mem, e, In(to));
    }

    /** The second half of a round: link the result if it has any bit, else free it. */
    method StoreAt(to: Head, k: nat, e: Ptr)
      requires Pool() && HeadOk(to) && Where(g.place, e) == Loose && e != NULL && k < INDEX_LIMIT
      requires BitsOf(mem.bits, e) <= AllBits() && k !in at[to] && FromObstack(e) == heads[to].usingObstack
      modifies `mem, `freeTop, `heads, `g, `at
      ensures Pool() && HeadOk(to) && (Where(g.place, e) == In(to) || Where(g.place, e).Freed?)
      ensures g.place == old(g.place)[e := Where(g.place, e)]
      ensures OnlyHead(to, old(heads), old(at), heads, at)
      ensures BlocksOf(mem.bits, at[to]) ==
              if old(BitsOf(mem.bits, e)) == {} then old(BlocksOf(mem.bits, at[to]))
              else old(BlocksOf(mem.bits, at[to]))[k := old(BitsOf(mem.bits, e))]
      ensures Kept(to, k + 1, old(mem), old(g.place), mem, g.place)
    {
      hide PoolOk, ListOk, BlocksOf, AllBits, Kept;
      ghost var mem0, place0 := mem, g.place;
      if BitsOf(mem.bits, e) != {} {
        LinkAt(to, k, e);
      } else {
        ElemToFreelist(heads[to].usingObstack, e);
        PlaceKept(to, k + 1, mem0, place0, mem, e, Freed(heads[to].usingObstack));
        ListKept(mem0, place0, mem, g.place, to, heads[to], at[to]);
      }
    }

    /** A source of the operation: the rest of a list other than that of `to`,
        or of the old list of `to`. */
    ghost predicate SourceOk(to: Head, pl: Place, a: Index, b: Blocks, lo: nat, p: Ptr)
      reads this
    {
      SourceRest(mem, g.place, to, pl, a, b, lo, p)
    }

    /** The index a source contributes next, `HIGHEST_INDEX` if it has none left. */
    function IndexAt(p: Ptr): int
      reads this
    {
      if p != NULL then IndexOf(mem.indx, p) else HIGHEST_INDEX
    }

    /** Steps one source over index `k`, or leaves it where it is if its next
        element lies beyond. */
    lemma StepSource(to: Head, pl: Place, a: Index, b: Blocks, lo: nat, p: Ptr, k: nat)
      requires SourceOk(to, pl, a, b, lo, p) && lo <= k < INDEX_LIMIT && k <= IndexAt(p)
      ensures var f := if IndexAt(p) == k then p else NULL;
              && Steady(to, k, f)
              && (f != NULL ==> f in mem.bits)
              && Get(b, k) == (if f != NULL then mem.bits[f] else {}) <= AllBits()
              && SourceOk(to, pl, a, b, k + 1, if IndexAt(p) == k then At(mem.next, p) else p)
              && (k in b <==> IndexAt(p) == k)
      ensures forall n :: n in b && lo <= n ==> k <= n
    {
      hide Rest, AllBits;
      if p != NULL {
        RestStep(mem, g.place, pl, a, b, lo, p);
      } else {
        RestDone(mem, g.place, pl, a, b, lo);
      }
      RestUp(mem, g.place, pl, a, b, lo, k, p);
      if IndexAt(p) != k {
        RestUp(mem, g.place, pl, a, b, lo, k + 1, p);
      }
    }

    /** The choice at the top of the loop: the next index, the source elements
        that have it, with NULL for `bitmap_zero_bits`, and the advanced sources. */
    method Choose(ghost k: Task, ghost lo: nat, from1: Ptr, from2: Ptr)
      returns (n: nat, f1: Ptr, f2: Ptr, p1: Ptr, p2: Ptr)
      requires from1 != NULL || from2 != NULL
      requires Pool() && SourceOk(k.to, k.pl1, k.a1, k.b1, lo, from1) && SourceOk(k.to, k.pl2, k.a2, k.b2, lo, from2)
      ensures lo <= n < INDEX_LIMIT && (n in k.b1 || n in k.b2)
      ensures forall m :: (m in k.b1 || m in k.b2) && lo <= m ==> n <= m
      ensures Steady(k.to, n, f1) && Steady(k.to, n, f2)
      ensures BitsOf(mem.bits, f1) == Get(k.b1, n) <= AllBits() && BitsOf(mem.bits, f2) == Get(k.b2, n) <= AllBits()
      ensures SourceOk(k.to, k.pl1, k.a1, k.b1, n + 1, p1) && SourceOk(k.to, k.pl2, k.a2, k.b2, n + 1, p2)
    {
      hide Rest, AllBits, FreeListOk, Bounded;
      var indx1, indx2 := IndexAt(from1), IndexAt(from2);
      if from1 != NULL {
        RestStep(mem, g.place, k.pl1, k.a1, k.b1, lo, from1);
      }
      if from2 != NULL {
        RestStep(mem, g.place, k.pl2, k.a2, k.b2, lo, from2);
      }
      if indx1 == indx2 {
        n, f1, f2 := indx1, from1, from2;
        p1, p2 := At(mem.next, from1), At(mem.next, from2);
      } else if indx1 < indx2 {
        n, f1, f2 := indx1, from1, NULL;
        p1, p2 := At(mem.next, from1), from2;
      } else {
        n, f1, f2 := indx2, NULL, from2;
        p1, p2 := from1, At(mem.next, from2);
      }
      StepSource(k.to, k.pl1, k.a1, k.b1, lo, from1, n);
      StepSource(k.to, k.pl2, k.a2, k.b2, lo, from2, n);
    }

    /** The rest of the loop body. */
    method Round(ghost k: Task, ghost lo: nat, to: Head, op: Op, n: nat, f1: Ptr, f2: Ptr, first: Ptr,
                 ghost p1: Ptr, ghost p2: Ptr)
      returns (ptr: Ptr, changed: bool)
      requires Pool() && HeadOk(to) && Steady(to, n, f1) && Steady(to, n, f2) && lo <= n < INDEX_LIMIT && n !in at[to]
      requires SourceOk(to, k.pl1, k.a1, k.b1, n + 1, p1) && SourceOk(to, k.pl2, k.a2, k.b2, n + 1, p2)
      requires Rest(mem, g.place, Detached, k.t, k.b, lo, first) && Leftovers(mem, g.place, k.t, lo)
      requires BitsOp(op, BitsOf(mem.bits, f1), BitsOf(mem.bits, f2)) <= AllBits()
      requires Kinds(k.t, heads[to].usingObstack) && forall x :: Where(g.place, x) != Loose
      modifies `mem, `freeTop, `limit, `heads, `g, `at
      ensures Pool() && HeadOk(to)
      ensures SourceOk(to, k.pl1, k.a1, k.b1, n + 1, p1) && SourceOk(to, k.pl2, k.a2, k.b2, n + 1, p2)
      ensures Rest(mem, g.place, Detached, k.t, k.b, n + 1, ptr) && Leftovers(mem, g.place, k.t, n + 1)
      ensures OnlyHead(to, old(heads), old(at), heads, at)
      ensures var r := old(BitsOp(op, BitsOf(mem.bits, f1), BitsOf(mem.bits, f2)));
              && BlocksOf(mem.bits, at[to]) == (if r == {} then old(BlocksOf(mem.bits, at[to]))
                                                  else old(BlocksOf(mem.bits, at[to]))[n := r])
              && (changed <==> (exists m :: m in k.b && lo <= m < n) || r != Get(k.b, n))
      ensures Kept(to, n + 1, old(mem), old(g.place), mem, g.place)
      ensures forall x :: Where(g.place, x) != Loose
    {
      hide PoolOk, Rest, ListOk, BlocksOf, AllBits, BitsOp, Kept;
      ghost var mem0, place0 := mem, g.place;
      var e;
      ptr, e, changed := Compute(to, op, n, f1, f2, first, k.t, k.b, lo);
      ghost var mem1, place1 := mem, g.place;
      RestGuarded(-1, mem0, place0, mem1, place1, k.pl1, k.a1, k.b1, n + 1, p1);
      RestGuarded(-1, mem0, place0, mem1, place1, k.pl2, k.a2, k.b2, n + 1, p2);
      ListGuarded(-1, n + 1, mem0, place0, mem1, place1, to, heads[to], at[to]);
      StoreAt(to, n, e);
      RestGuarded(to, mem1, place1, mem, g.place, k.pl1, k.a1, k.b1, n + 1, p1);
      RestGuarded(to, mem1, place1, mem, g.place, k.pl2, k.a2, k.b2, n + 1, p2);
      RestGuarded(to, mem1, place1, mem, g.place, Detached, k.t, k.b, n + 1, ptr);
      KeptLess(-1, to, n + 1, n + 1, mem0, place0, mem1, place1);
      KeptTwice(to, n + 1, mem0, place0, mem1, place1, mem, g.place);
      LeftoversKept(to, mem1, place1, mem, g.place, k.t, n + 1);
    }

    /** The last element of the old list of `to`, and all that is left of it. */
    method Walk(ptr: Ptr, ghost t: Index, ghost b: Blocks, ghost lo: nat, ghost v: Ptr)
        returns (tmp: Ptr, ghost w: seq<Ptr>)
      requires ptr != NULL && Rest(mem, g.place, Detached, t, b, lo, ptr) && Leftovers(mem, g.place, t, lo)
      ensures w != [] && w[0] == ptr && w[|w| - 1] == tmp
      ensures forall x :: x in w <==> Where(g.place, x) == Detached
      ensures Chain(mem.next[tmp := v], g.place, w, v)
    {
      hide Rest;
      RestStep(mem, g.place, Detached, t, b, lo, ptr);
      tmp := ptr;
      ghost var j: nat := IndexOf(mem.indx, ptr) + 1;
      w := [ptr];
      while At(mem.next, tmp) != NULL
        invariant Walked(mem, g.place, t, w, lo, j) && w[0] == ptr && w[|w| - 1] == tmp && lo < j <= INDEX_LIMIT
        invariant Rest(mem, g.place, Detached, t, b, j, At(mem.next, tmp))
        decreases INDEX_LIMIT - j
      {
        hide Walked;
        RestStep(mem, g.place, Detached, t, b, j, At(mem.next, tmp));
        tmp := At(mem.next, tmp);
        WalkedMore(mem, g.place, t, w, lo, j, tmp, IndexOf(mem.indx, tmp));
        w, j := w + [tmp], IndexOf(mem.indx, tmp) + 1;
      }
      RestDone(mem, g.place, Detached, t, b, j);
      WalkedAll(mem, g.place, t, w, lo, j, v);
    }

    /** The end of `bitmap_operation`: the rest of the old list goes to the free
        list in one piece. */
    method FreeRest(o: bool, ptr: Ptr, ghost t: Index, ghost b: Blocks, ghost lo: nat)
      requires Pool() && ptr != NULL && Rest(mem, g.place, Detached, t, b, lo, ptr) && Leftovers(mem, g.place, t, lo)
      requires Kinds(t, o)
      modifies `mem, `freeTop, `g
      ensures Pool() && mem == old(mem).(next := mem.next)
      ensures forall x :: Where(g.place, x) != Detached
      ensures Kept(-1, INDEX_LIMIT, old(mem), old(g.place), mem, g.place)
      ensures forall x :: Where(g.place, x) == old(Where(g.place, x)) || Where(g.place, x).Freed?
    {
      hide FreeOk, Rest, Released, Chain, Nexts, Elements;
      ghost var w;
      var tmp;
      tmp, w := Walk(ptr, t, b, lo, freeTop[o]);
      forall i | 0 <= i < |w|
        ensures FromObstack(w[i]) == o
      {
        assert w[i] in w;
        assert Where(g.place, w[i]) == Detached;
      }
      ghost var mem1 := mem.(next := mem.next[tmp := freeTop[o]]);
      assert Where(g.place, tmp) == Detached;
      PoolNext(mem, freeTop, limit, g, tmp, freeTop[o]);
      ghost var g' := SpliceOk(mem1, freeTop, limit, g, o, w);
      assert Leftovers(mem, g.place, t, lo);
      assert forall x :: Where(g.place, x) == Detached ==> IndexOf(mem.indx, x) < INDEX_LIMIT by {
        RestLimit(mem, g.place, t, b, lo, ptr);
      }
      forall x
        ensures Where(g'.place, x) == if x in w then Freed(o) else Where(g.place, x)
      {
        ReleasedAt(g.place, w, o, x);
      }
      mem := mem.(next := mem.next[tmp := freeTop[o]]);
      freeTop, g := freeTop[o := ptr], g';
    }

    /** What the loop of `bitmap_operation` keeps, with everything below index
        `lo` merged and the three lists left from `lo` on. */
    ghost predicate Merging(k: Task, lo: nat, p1: Ptr, p2: Ptr, ptr: Ptr, changed: bool)
      reads this
    {
      && Pool() && HeadOk(k.to) && OnlyHead(k.to, k.heads0, k.at0, heads, at)
      && MergedUpTo(mem, g.place, at[k.to], k, lo, p1, p2, ptr, changed)
    }

    /** The body of the loop of `bitmap_operation`. */
    method MergeStep(ghost k: Task, ghost lo: nat, to: Head, op: Op, from1: Ptr, from2: Ptr, first: Ptr, before: bool)
      returns (p1: Ptr, p2: Ptr, ptr: Ptr, changed: bool, ghost hi: nat)
      requires Merging(k, lo, from1, from2, first, before) && k.to == to && k.op == op
               && (from1 != NULL || from2 != NULL)
      modifies `mem, `freeTop, `limit, `heads, `g, `at
      ensures Merging(k, hi, p1, p2, ptr, changed) && lo < hi <= INDEX_LIMIT
    {
      hide PoolOk, Rest, ListOk, BitsOp, Kept, Leftovers, Combine, AllBits, Below, OnlyHead, BlocksOf;
      var n, f1, f2, chg;
      n, f1, f2, p1, p2 := Choose(k, lo, from1, from2);
      ghost var mem1, place1, heads1, at1 := mem, g.place, heads, at;
      BitsOpBound(op, Get(k.b1, n), Get(k.b2, n));
      BelowKeys(mem.bits, at[to], Combine(op, k.b1, k.b2), lo, n);
      OnlyHeadKind(to, k.heads0, k.at0, heads, at);
      ptr, chg := Round(k, lo, to, op, n, f1, f2, first, p1, p2);
      MergeOne(op, k.b1, k.b2, k.b, lo, n);
      KeptLess(to, to, lo, n + 1, k.mem0, k.place0, mem1, place1);
      KeptTwice(to, n + 1, k.mem0, k.place0, mem1, place1, mem, g.place);
      OnlyHeadTwice(to, k.heads0, k.at0, heads1, at1, heads, at);
      changed, hi := before || chg, n + 1;
    }

    /** The loop of `bitmap_operation` over both sources. */
    method Merge(ghost k: Task, to: Head, op: Op, from1: Ptr, from2: Ptr, first: Ptr)
      returns (ptr: Ptr, changed: bool, ghost lo: nat)
      requires Merging(k, 0, from1, from2, first, false) && k.to == to && k.op == op
      modifies `mem, `freeTop, `limit, `heads, `g, `at
      ensures Merging(k, lo, NULL, NULL, ptr, changed) && lo <= INDEX_LIMIT
      ensures BlocksOf(mem.bits, at[to]) == Combine(op, k.b1, k.b2)
      ensures Combine(op, k.b1, k.b2) != k.b <==> changed || exists n :: n in k.b && lo <= n
    {
      var p1, p2 := from1, from2;
      ptr, changed, lo := first, false, 0;
      while p1 != NULL || p2 != NULL
        invariant Merging(k, lo, p1, p2, ptr, changed) && lo <= INDEX_LIMIT
        decreases INDEX_LIMIT - lo
      {
        hide Merging;
        p1, p2, ptr, changed, lo := MergeStep(k, lo, to, op, p1, p2, ptr, changed);
      }
      hide PoolOk, Rest, ListOk, BitsOp, Kept, Leftovers, Combine, AllBits, Below, OnlyHead, BlocksOf;
      SourceDone(to, k.pl1, k.a1, k.b1, lo);
      SourceDone(to, k.pl2, k.a2, k.b2, lo);
      MergeDone(op, k.b1, k.b2, k.b, lo);
    }

    lemma SourceDone(to: Head, pl: Place, a: Index, b: Blocks, lo: nat)
      requires SourceOk(to, pl, a, b, lo, NULL)
      ensures forall n :: n in b ==> n < lo
    {
      RestDone(mem, g.place, pl, a, b, lo);
    }

    // ----- the whole store -----

    /** Every head has a well-formed list of elements from its allocator, both free
        lists are intact and hold elements of their allocators, and each element is on exactly one of them. */
    ghost predicate World()
      reads this
    {
      Pool() && ListsOk(mem, g.place, heads, at) && Settled(g.place, heads)
    }

    /** No bitmap and no free list ever holds memory of the wrong allocator. */
    lemma OwnMemory(x: Ptr)
      requires World()
      ensures Where(g.place, x).In? ==> Where(g.place, x).h in heads
                                        && FromObstack(x) == heads[Where(g.place, x).h].usingObstack
      ensures Where(g.place, x).Freed? ==> FromObstack(x) == Where(g.place, x).obstack
    {
      hide Elements, Nexts, Prevs, CacheOk, FreeOk, AllBits;
      if Where(g.place, x).In? {
        var h := Where(g.place, x).h;
        assert ListOk(mem, g.place, h, heads[h], at[h]);
      }
    }

    ghost function Contents(): map<Head, Blocks>
      reads this
    {
      ContentsOf(mem.bits, at)
    }

    /** Cuts the list of `to` off, as `to->first = to->current = 0` does. */
    method CutOff(to: Head, ghost op: Op, ghost from1: Head, ghost from2: Head) returns (ghost k: Task)
      requires World() && to in heads && from1 in heads && from2 in heads && Canonical(BlocksOf(mem.bits, at[to]))
      modifies `g, `at, `heads
      ensures k == old(TaskOf(mem, g.place, heads, at, to, op, from1, from2))
      ensures Merging(k, 0, old(heads)[from1].first, old(heads)[from2].first, old(heads)[to].first, false)
      ensures k.heads0 == heads && k.at0 == at && k.place0 == g.place
    {
      hide PoolOk, ListOk, MergedUpTo, Leftovers, Canonical, BlocksOf;
      assert ListOk(mem, g.place, to, heads[to], at[to]);
      k := TaskOf(mem, g.place, heads, at, to, op, from1, from2);
      DetachOk(mem, freeTop, limit, g, to, heads[to], at[to]);
      CutOk(mem, g.place, heads, at, to, op, from1, from2);
      EmptyListOk(mem, k.place0, to, heads[to].indx, heads[to].usingObstack);
      heads := heads[to := heads[to].(first := NULL, current := NULL)];
      at, g := k.at0, g.(place := k.place0);
    }

    /** `bitmap_operation` after its initialization: the loop, and the freeing of
        what is left of the old list. */
    method Rebuild(ghost k: Task, to: Head, op: Op, from1: Ptr, from2: Ptr, first: Ptr) returns (changed: bool)
      requires Merging(k, 0, from1, from2, first, false) && k.to == to && k.op == op
      modifies `mem, `freeTop, `limit, `heads, `g, `at
      ensures Pool() && HeadOk(to) && OnlyHead(to, k.heads0, k.at0, heads, at)
      ensures Kept(to, INDEX_LIMIT, k.mem0, k.place0, mem, g.place)
      ensures BlocksOf(mem.bits, at[to]) == Combine(op, k.b1, k.b2)
      ensures changed <==> Combine(op, k.b1, k.b2) != k.b
      ensures forall x :: Where(g.place, x) != Loose && Where(g.place, x) != Detached
    {
      hide PoolOk, Rest, ListOk, Kept, Combine, Canonical, BlocksOf, Below, OnlyHead;
      var ptr;
      ghost var lo;
      ptr, changed, lo := Merge(k, to, op, from1, from2, first);
      KeptLess(to, to, lo, INDEX_LIMIT, k.mem0, k.place0, mem, g.place);
      if ptr != NULL {
        RestStep(mem, g.place, Detached, k.t, k.b, lo, ptr);
        changed := true;
        ghost var mem1, place1 := mem, g.place;
        OnlyHeadKind(to, k.heads0, k.at0, heads, at);
        FreeRest(heads[to].usingObstack, ptr, k.t, k.b, lo);
        ListGuarded(-1, INDEX_LIMIT, mem1, place1, mem, g.place, to, heads[to], at[to]);
        KeptLess(-1, to, INDEX_LIMIT, INDEX_LIMIT, mem1, place1, mem, g.place);
        KeptTwice(to, INDEX_LIMIT, k.mem0, k.place0, mem1, place1, mem, g.place);
      } else {
        RestDone(mem, g.place, Detached, k.t, k.b, lo);
        RestUp(mem, g.place, Detached, k.t, k.b, lo, lo, ptr);
      }
    }

    /** `bitmap_operation` on block maps. */
    method Operate(to: Head, from1: Head, from2: Head, op: Op) returns (changed: bool)
      requires World() && to in heads && from1 in heads && from2 in heads
      modifies `mem, `freeTop, `limit, `heads, `g, `at
      ensures World() && OnlyHead(to, old(heads), old(at), heads, at)
      ensures Contents() == old(Contents())[to := Combine(op, old(Contents())[from1], old(Contents())[from2])]
      ensures changed <==> Contents()[to] != old(Contents())[to]
    {
      hide PoolOk, ListOk, Kept, Combine, BlocksOf, MergedUpTo, Canonical;
      ghost var mem0, place0, heads0, at0 := mem, g.place, heads, at;
      var p1, p2, ptr := heads[from1].first, heads[from2].first, heads[to].first;
      assert ListOk(mem, g.place, to, heads[to], at[to]);
      BlocksCanonical(mem, g.place, to, heads[to], at[to]);
      DetachKept(to, INDEX_LIMIT, mem0, place0);
      ghost var k := CutOff(to, op, from1, from2);
      changed := Rebuild(k, to, op, p1, p2, ptr);
      KeptTwice(to, INDEX_LIMIT, mem0, place0, mem0, k.place0, mem, g.place);
      OnlyHeadTwice(to, heads0, at0, k.heads0, k.at0, heads, at);
      ListsBut(to, INDEX_LIMIT, mem0, place0, mem, g.place, heads0, at0, heads, at);
      SettledBut(to, INDEX_LIMIT, mem0, place0, mem, g.place, heads0, heads);
    }

    // ----- single bits -----

    /** `bitmap_find_bit`: the element with index `n`, NULL if there is none. The
        search starts at the cached element and leaves the cache where it ended. */
    method FindBit(h: Head, n: nat) returns (e: Ptr)
      requires HeadOk(h)
      modifies `heads
      ensures HeadOk(h) && OnlyHead(h, old(heads), at, heads, at)
      ensures e == ElementAt(at[h], n) && (e != NULL <==> n in at[h]) && (e != NULL <==> n in BlocksOf(mem.bits, at[h]))
    {
      hide Next, Prev, AllBits, Nexts, Prevs;
      var r := heads[h];
      ghost var a := at[h];
      if r.current == NULL || r.indx == n {
        return r.current;
      }
      e := r.current;
      ghost var j := r.indx;
      if r.indx > n {
        e, j := SearchBack(h, n);
      } else {
        e, j := SearchForward(h, n);
      }
      Recached(mem, g.place, h, r, a, j);
      heads := heads[h := r.(current := e, indx := IndexOf(mem.indx, e))];
      if IndexOf(mem.indx, e) != n {
        e := NULL;
      }
    }

    /** The backward loop of `bitmap_find_bit`. */
    method SearchBack(h: Head, n: nat) returns (e: Ptr, ghost j: nat)
      requires HeadOk(h) && heads[h].current != NULL && n < heads[h].indx
      ensures j in at[h] && e == at[h][j] && (n in at[h] ==> n == j)
    {
      hide Next, Prev, AllBits;
      e, j := heads[h].current, heads[h].indx;
      ghost var a := at[h];
      while At(mem.prev, e) != NULL && IndexOf(mem.indx, e) > n
        invariant j in a && e == a[j] && (n in a ==> n <= j)
        decreases j
      {
        if n in a { BeforeIs(a, j, n); }
        e, j := At(mem.prev, e), Before(a, j);
      }
      if n in a && n < j { BeforeIs(a, j, n); }
    }

    /** The forward loop of `bitmap_find_bit`. */
    method SearchForward(h: Head, n: nat) returns (e: Ptr, ghost j: nat)
      requires HeadOk(h) && heads[h].current != NULL && heads[h].indx < n
      ensures j in at[h] && e == at[h][j] && (n in at[h] ==> n == j)
    {
      hide Next, Prev, AllBits;
      e, j := heads[h].current, heads[h].indx;
      ghost var a := at[h];
      while At(mem.next, e) != NULL && IndexOf(mem.indx, e) < n
        invariant j in a && e == a[j] && (n in a ==> j <= n)
        decreases INDEX_LIMIT - j
      {
        if n in a { AfterIs(a, j, n); }
        e, j := At(mem.next, e), After(a, j);
      }
      if n in a && j < n { AfterIs(a, j, n); }
    }

    /** The branch of `bitmap_set_bit` that has no element for the bit yet. */
    method AddElement(h: Head, n: nat, k: nat)
      requires Pool() && HeadOk(h) && n < INDEX_LIMIT && n !in at[h] && {k} <= AllBits()
      requires Quiet(g.place)
      modifies `mem, `freeTop, `limit, `heads, `g, `at
      ensures Pool() && HeadOk(h) && OnlyHead(h, old(heads), old(at), heads, at)
      ensures BlocksOf(mem.bits, at[h]) == old(BlocksOf(mem.bits, at[h]))[n := {k}]
      ensures Kept(h, INDEX_LIMIT, old(mem), old(g.place), mem, g.place)
      ensures Quiet(g.place)
    {
      hide PoolOk, ListOk, BlocksOf, Kept, Quiet, AllBits;
      ghost var mem0, place0 := mem, g.place;
      var e := ElementAllocate(heads[h].usingObstack);
      FreshKept(mem0, place0, mem.bits, e, {k});
      PoolBits(mem, freeTop, limit, g, e, {k});
      mem := mem.(bits := mem.bits[e := {k}]);
      ListGuarded(-1, INDEX_LIMIT, mem0, place0, mem, g.place, h, heads[h], at[h]);
      ghost var mem1, place1 := mem, g.place;
      LinkAt(h, n, e);
      KeptLess(-1, h, INDEX_LIMIT, INDEX_LIMIT, mem0, place0, mem1, place1);
      KeptLess(h, h, n + 1, INDEX_LIMIT, mem1, place1, mem, g.place);
      KeptTwice(h, INDEX_LIMIT, mem0, place0, mem1, place1, mem, g.place);
      QuietAgain(place0, e, In(h));
    }

    /** `bitmap_set_bit` on block maps. */
    method SetBlockBit(h: Head, n: nat, k: nat)
      requires World() && h in heads && n < INDEX_LIMIT && k < ELEMENT_BITS
      modifies `mem, `freeTop, `limit, `heads, `g, `at
      ensures World() && OnlyHead(h, old(heads), old(at), heads, at)
      ensures Contents() == old(Contents())[h := Put(old(Contents())[h], n, Get(old(Contents())[h], n) + {k})]
    {
      hide PoolOk, ListOk, BlocksOf, Kept, AllBits;
      ghost var mem0, place0, heads0, at0 := mem, g.place, heads, at;
      assert ListOk(mem, g.place, h, heads[h], at[h]);
      AllBitsHas(k);
      var e := FindBit(h, n);
      ghost var heads1 := heads;
      if e == NULL {
        AddElement(h, n, k);
        OnlyHeadTwice(h, heads0, at0, heads1, at0, heads, at);
        assert Get(BlocksOf(mem0.bits, at0[h]), n) + {k} == {k};
      } else {
        var r := BitsOf(mem.bits, e) + {k};
        BitsUpdated(mem, g.place, h, heads[h], at[h], n, r);
        PoolBits(mem, freeTop, limit, g, e, r);
        mem := mem.(bits := mem.bits[e := r]);
      }
      ListsBut(h, INDEX_LIMIT, mem0, place0, mem, g.place, heads0, at0, heads, at);
      SettledBut(h, INDEX_LIMIT, mem0, place0, mem, g.place, heads0, heads);
    }

    /** `bitmap_element_free` for the element with index `n`. */
    method ElementFree(h: Head, e: Ptr, ghost n: nat)
      requires Pool() && HeadOk(h) && n in at[h] && e == at[h][n]
      requires Quiet(g.place)
      modifies `mem, `freeTop, `heads, `g, `at
      ensures Pool() && HeadOk(h) && OnlyHead(h, old(heads), old(at), heads, at)
      ensures BlocksOf(mem.bits, at[h]) == old(BlocksOf(mem.bits, at[h])) - {n}
      ensures mem.bits == old(mem.bits)
      ensures Kept(h, INDEX_LIMIT, old(mem), old(g.place), mem, g.place)
      ensures Quiet(g.place)
    {
      hide PoolOk, ListOk, BlocksOf, Kept, Quiet, LinksKept, Bypassed, OnlyHead;
      ghost var mem0, place0 := mem, g.place;
      var o := heads[h].usingObstack;
      ListKinds(mem, g.place, h, heads[h], at[h]);
      ghost var prev, next := Unlink(h, e, n);
      ghost var mem1, place1 := mem, g.place;
      ElemToFreelist(o, e);
      ListPushed(mem1, place1, h, heads[h], at[h], e, mem.next[e], o);
      FreedKept(mem0, place0, mem, h, e, prev, next, o);
      QuietAgain(place0, e, Freed(o));
    }

    /** The neighbours of an element, its head and the cache pass it by. */
    method Unlink(h: Head, e: Ptr, ghost n: nat) returns (ghost p: Ptr, ghost q: Ptr)
      requires Pool() && HeadOk(h) && n in at[h] && e == at[h][n]
      modifies `mem, `heads, `g, `at
      ensures Pool() && HeadOk(h) && OnlyHead(h, old(heads), old(at), heads, at)
      ensures BlocksOf(mem.bits, at[h]) == old(BlocksOf(mem.bits, at[h])) - {n}
      ensures mem == Bypassed(old(mem), p, q) && mem.indx == old(mem.indx) && mem.bits == old(mem.bits)
      ensures g.place == old(g.place)[e := Loose] && old(Where(g.place, e)) == In(h)
      ensures LinksKept(old(mem), mem, old(g.place), h, e)
    {
      hide PoolOk, ListOk, BlocksOf, LinksKept, OnlyHead;
      NeighbourIndex(mem, g.place, h, heads[h], at[h], n);
      var next, prev, r := At(mem.next, e), At(mem.prev, e), heads[h];
      var current := if r.current == e then (if next != NULL then next else prev) else r.current;
      var r' := HeadRec(if r.first == e then next else r.first, current,
                        if r.current == e && current != NULL then mem.indx[current] else r.indx, r.usingObstack);
      BypassedOk(mem, freeTop, limit, g, h, r, r', at[h], n, prev, next);
      ghost var rest: Index := at[h] - {n};
      OnlyHeadSet(h, heads, at, r', rest);
      p, q := prev, next;
      mem, heads, g, at := Bypassed(mem, prev, next), heads[h := r'], g.(place := g.place[e := Loose]), at[h := rest];
    }

    /** `bitmap_clear_bit` on block maps. */
    method ClearBlockBit(h: Head, n: nat, k: nat)
      requires World() && h in heads && k < ELEMENT_BITS
      modifies `mem, `freeTop, `heads, `g, `at
      ensures World() && OnlyHead(h, old(heads), old(at), heads, at)
      ensures Contents() == old(Contents())[h := Put(old(Contents())[h], n, Get(old(Contents())[h], n) - {k})]
    {
      hide PoolOk, ListOk, BlocksOf, Kept, AllBits;
      ghost var mem0, place0, heads0, at0 := mem, g.place, heads, at;
      assert ListOk(mem, g.place, h, heads[h], at[h]);
      var e := FindBit(h, n);
      ghost var heads1 := heads;
      if e != NULL {
        var r := BitsOf(mem.bits, e) - {k};
        if r == {} {
          BlocksAt(mem.bits, at[h], n);
          ElementFree(h, e, n);
          OnlyHeadTwice(h, heads0, at0, heads1, at0, heads, at);
        } else {
          BitsUpdated(mem, g.place, h, heads[h], at[h], n, r);
          PoolBits(mem, freeTop, limit, g, e, r);
          mem := mem.(bits := mem.bits[e := r]);
        }
      } else {
        KeptSelf(h, INDEX_LIMIT, mem, g.place);
        assert BlocksOf(mem.bits, at[h]) - {n} == BlocksOf(mem.bits, at[h]);
      }
      ListsBut(h, INDEX_LIMIT, mem0, place0, mem, g.place, heads0, at0, heads, at);
      SettledBut(h, INDEX_LIMIT, mem0, place0, mem, g.place, heads0, heads);
    }

    /** `bitmap_bit_p` on block maps; it moves the search cache. */
    method TestBlockBit(h: Head, n: nat, k: nat) returns (b: bool)
      requires World() && h in heads
      modifies `heads
      ensures World() && OnlyHead(h, old(heads), at, heads, at)
      ensures b <==> k in Get(Contents()[h], n)
    {
      hide PoolOk, ListOk, BlocksOf, Kept, AllBits;
      ghost var heads0 := heads;
      assert ListOk(mem, g.place, h, heads[h], at[h]);
      var e := FindBit(h, n);
      b := e != NULL && k in BitsOf(mem.bits, e);
      if e != NULL {
        BlocksAt(mem.bits, at[h], n);
      }
      KeptSelf(h, INDEX_LIMIT, mem, g.place);
      ListsBut(h, INDEX_LIMIT, mem, g.place, mem, g.place, heads0, at, heads, at);
      SettledBut(h, INDEX_LIMIT, mem, g.place, mem, g.place, heads0, heads);
    }

    // ----- whole bitmaps -----

    /** `bitmap_clear`. Every index lies below `HIGHEST_INDEX`, so the whole list
        is discarded. */
    method Clear(h: Head)
      requires World() && h in heads
      modifies `mem, `freeTop, `heads, `g, `at
      ensures World() && OnlyHead(h, old(heads), old(at), heads, at) && at[h] == map[]
      ensures Contents() == old(Contents())[h := map[]]
    {
      hide PoolOk, ListOk, BlocksOf, Kept, AllBits, Rest, Leftovers, Canonical, Below, Combine;
      ghost var mem0, place0, heads0, at0 := mem, g.place, heads, at;
      var first := heads[h].first;
      assert ListOk(mem, g.place, h, heads[h], at[h]);
      BlocksCanonical(mem, g.place, h, heads[h], at[h]);
      DetachKept(h, HIGHEST_INDEX, mem0, place0);
      ghost var t := CutOff(h, And, h, h);
      ghost var place1 := g.place;
      var ptr, skipped := Discard(heads[h].usingObstack, first, t);
      ListGuarded(-1, HIGHEST_INDEX, mem0, place1, mem, g.place, h, heads[h], at[h]);
      KeptLess(-1, h, HIGHEST_INDEX, HIGHEST_INDEX, mem0, place1, mem, g.place);
      KeptTwice(h, HIGHEST_INDEX, mem0, place0, mem0, place1, mem, g.place);
      ListsBut(h, HIGHEST_INDEX, mem0, place0, mem, g.place, heads0, at0, heads, at);
      SettledBut(h, HIGHEST_INDEX, mem0, place0, mem, g.place, heads0, heads);
      EmptyBlocks(mem.bits);
    }

    /** The loop of `bitmap_clear`. */
    method Discard(o: bool, first: Ptr, ghost k: Task) returns (ptr: Ptr, skipped: bool)
      requires Pool() && Rest(mem, g.place, Detached, k.t, k.b, 0, first) && Leftovers(mem, g.place, k.t, 0)
      requires Kinds(k.t, o)
      requires forall x :: Where(g.place, x) != Loose
      modifies `mem, `freeTop, `g
      ensures Pool() && Kept(-1, HIGHEST_INDEX, old(mem), old(g.place), mem, g.place)
      ensures forall x :: Where(g.place, x) != Loose && Where(g.place, x) != Detached
    {
      hide PoolOk, Kept, Rest;
      ptr, skipped := DiscardBelow(o, first, HIGHEST_INDEX, k.t, k.b, 0);
      RestLimit(mem, g.place, k.t, k.b, HIGHEST_INDEX, ptr);
      forall x
        ensures Where(g.place, x) != Loose && Where(g.place, x) != Detached
      {
        assert old(Where(g.place, x)) != Loose;
      }
    }

    /** One iteration of `bitmap_copy`: a copy of `f` goes to the end of the list
        of `to`, after `last`; the cache stays at the first element. */
    method AppendCopy(to: Head, f: Ptr, last: Ptr, ghost k: nat) returns (e: Ptr)
      requires Pool() && HeadOk(to) && Quiet(g.place) && k < INDEX_LIMIT
      requires f in mem.indx && f in mem.bits && mem.indx[f] == k && Where(g.place, f).In?
      requires mem.bits[f] != {} && mem.bits[f] <= AllBits()
      requires forall n :: n in at[to] ==> n < k
      requires last == ElementAt(at[to], Before(at[to], k))
      modifies `mem, `freeTop, `limit, `heads, `g, `at
      ensures Pool() && HeadOk(to) && Quiet(g.place) && OnlyHead(to, old(heads), old(at), heads, at)
      ensures at[to] == old(at[to])[k := e]
      ensures BlocksOf(mem.bits, at[to]) == old(BlocksOf(mem.bits, at[to]))[k := old(mem.bits[f])]
      ensures Kept(to, INDEX_LIMIT, old(mem), old(g.place), mem, g.place)
    {
      hide PoolOk, ListOk, BlocksOf, Kept, AllBits, Quiet, Next, Prev, LinksKept, Threaded, FromObstack;
      ghost var mem0, place0 := mem, g.place;
      e := CopyOf(to, f, k);
      ghost var mem2, place2 := mem, g.place;
      AtEnd(at[to], k);
      ThreadedOk(mem, freeTop, limit, g, to, heads[to], at[to], k, last, e, NULL);
      ghost var joined: Index := at[to][k := e];
      mem := Threaded(mem, last, e, NULL);
      g := g.(place := g.place[e := In(to)]);
      PlaceLinksKept(to, mem2, place2, mem, e);
      KeptLess(-1, to, INDEX_LIMIT, INDEX_LIMIT, mem0, place0, mem2, place2);
      KeptTwice(to, INDEX_LIMIT, mem0, place0, mem2, place2, mem, g.place);
      QuietAgain(place0, e, In(to));
      if last == NULL {
        heads := heads[to := HeadRec(e, e, mem.indx[f], heads[to].usingObstack)];
      } else {
        CacheIn(mem2, place2, to, heads[to], at[to], k);
        Recached(mem, g.place, to, HeadRec(heads[to].first, e, k, heads[to].usingObstack), joined, heads[to].indx);
      }
      at := at[to := joined];
    }

    /** A new element with the index and the bits of `f`. */
    method CopyOf(to: Head, f: Ptr, ghost k: nat) returns (e: Ptr)
      requires Pool() && HeadOk(to) && f in mem.indx && f in mem.bits && mem.indx[f] == k && Where(g.place, f).In?
      modifies `mem, `freeTop, `limit, `g
      ensures Pool() && HeadOk(to) && e != NULL && e != f && g.place == old(g.place)[e := Loose]
      ensures FromObstack(e) == heads[to].usingObstack && f in mem.indx && mem.indx[f] == k
      ensures IndexOf(mem.indx, e) == k && BitsOf(mem.bits, e) == old(mem.bits[f])
      ensures BlocksOf(mem.bits, at[to]) == old(BlocksOf(mem.bits, at[to]))
      ensures Kept(-1, INDEX_LIMIT, old(mem), old(g.place), mem, g.place)
    {
      hide PoolOk, ListOk, BlocksOf, Kept, FromObstack;
      ghost var mem0, place0 := mem, g.place;
      e := ElementAllocate(heads[to].usingObstack);
      assert e != f;
      CopiedKept(mem0, place0, mem, e, k, mem.bits[f]);
      PoolIndex(mem, freeTop, limit, g, e, k);
      PoolBits(mem.(indx := mem.indx[e := k]), freeTop, limit, g, e, mem.bits[f]);
      mem := mem.(indx := mem.indx[e := mem.indx[f]], bits := mem.bits[e := mem.bits[f]]);
      ListGuarded(-1, INDEX_LIMIT, mem0, place0, mem, g.place, to, heads[to], at[to]);
    }

    /** In the loop of `bitmap_copy`: `to` holds copies of the elements of `from`
        below `lo`, the last of them `last`, and `ptr` is where the others start. */
    ghost predicate Copying(to: Head, from: Head, heads0: map<Head, HeadRec>, at0: map<Head, Index>, mem0: Mem,
                            place0: Places,
                            bf: Blocks, lo: nat, ptr: Ptr, last: Ptr)
      reads this
    {
      && Pool() && HeadOk(to) && Quiet(g.place) && OnlyHead(to, heads0, at0, heads, at) && from in at0
      && Kept(to, INDEX_LIMIT, mem0, place0, mem, g.place)
      && Rest(mem, g.place, In(from), at0[from], bf, lo, ptr)
      && (forall n :: n in at[to] ==> n < lo) && last == ElementAt(at[to], Before(at[to], lo))
      && BlocksOf(mem.bits, at[to]) == Below(bf, lo)
    }

    /** The body of that loop. */
    method CopyStep(to: Head, from: Head, ptr: Ptr, last: Ptr, ghost heads0: map<Head, HeadRec>,
                    ghost at0: map<Head, Index>,
                    ghost mem0: Mem, ghost place0: Places, ghost bf: Blocks, ghost lo: nat)
      returns (ptr': Ptr, last': Ptr, ghost lo': nat)
      requires Copying(to, from, heads0, at0, mem0, place0, bf, lo, ptr, last) && to != from && ptr != NULL
      modifies `mem, `freeTop, `limit, `heads, `g, `at
      ensures Copying(to, from, heads0, at0, mem0, place0, bf, lo', ptr', last') && lo < lo' <= INDEX_LIMIT
    {
      hide PoolOk, Kept, AllBits, Rest, ListOk, Nexts, Prevs, Next, Prev, BlocksOf, Below, OnlyHead;
      ghost var heads1, ats1, a := heads, at, at0[from];
      RestStep(mem, g.place, In(from), a, bf, lo, ptr);
      ghost var k, mem1, place1, at1: Index := mem.indx[ptr], mem, g.place, at[to];
      LowerBound(at1, lo, k);
      last' := AppendCopy(to, ptr, last, k);
      KeptTwice(to, INDEX_LIMIT, mem0, place0, mem1, place1, mem, g.place);
      RestInKept(to, INDEX_LIMIT, mem1, place1, mem, g.place, from, a, bf, k + 1, At(mem1.next, ptr));
      KeptNext(to, mem1, place1, mem, g.place, ptr);
      BelowNext(bf, lo, k);
      OnlyHeadTwice(to, heads0, at0, heads1, ats1, heads, at);
      LastOf(at1, k, last', k + 1);
      ptr', lo' := At(mem.next, ptr), k + 1;
    }

    /** The loop of `bitmap_copy`, on a `to` that is empty and not `from`. */
    method CopyList(to: Head, from: Head)
      requires World() && to in heads && from in heads && to != from && at[to] == map[]
      modifies `mem, `freeTop, `limit, `heads, `g, `at
      ensures Pool() && HeadOk(to) && Quiet(g.place) && OnlyHead(to, old(heads), old(at), heads, at)
      ensures BlocksOf(mem.bits, at[to]) == old(Contents())[from]
      ensures Kept(to, INDEX_LIMIT, old(mem), old(g.place), mem, g.place)
    {
      hide PoolOk, Kept, AllBits, Rest, ListOk, Nexts, Prevs, Next, Prev;
      ghost var bf := BlocksOf(mem.bits, at[from]);
      assert ListOk(mem, g.place, from, heads[from], at[from]) && ListOk(mem, g.place, to, heads[to], at[to]);
      RestOfList(mem, g.place, from, heads[from], at[from]);
      KeptSelf(to, INDEX_LIMIT, mem, g.place);
      ghost var lo: nat := 0;
      var ptr, last := heads[from].first, NULL;
      while ptr != NULL
        invariant Copying(to, from, old(heads), old(at), old(mem), old(g.place), bf, lo, ptr, last)
        decreases INDEX_LIMIT - lo
      {
        hide Copying;
        ptr, last, lo := CopyStep(to, from, ptr, last, old(heads), old(at), old(mem), old(g.place), bf, lo);
      }
      RestDone(mem, g.place, In(from), old(at)[from], bf, lo);
    }

    /** `bitmap_copy`. It clears `to` first, so copying a bitmap to itself empties it. */
    method CopyBlocks(to: Head, from: Head)
      requires World() && to in heads && from in heads
      modifies `mem, `freeTop, `limit, `heads, `g, `at
      ensures World() && heads.Keys == old(heads).Keys
      ensures Contents() == old(Contents())[to := if to == from then map[] else old(Contents())[from]]
    {
      hide PoolOk, ListsOk, Kept, ContentsOf, Settled;
      AllCanonical(mem, g.place, heads, at);
      Clear(to);
      AllCanonical(mem, g.place, heads, at);
      FirstEmpty(to);
      FirstEmpty(from);
      if heads[from].first != NULL {
        CopyRest(to, from);
      }
    }

    lemma FirstEmpty(h: Head)
      requires World() && h in heads
      ensures h in Contents() && h in at
      ensures heads[h].first == NULL <==> at[h] == map[]
      ensures heads[h].first == NULL ==> Contents()[h] == map[]
    {
      hide ListOk;
      assert ListOk(mem, g.place, h, heads[h], at[h]);
      EmptyFirst(mem, g.place, h, heads[h], at[h]);
    }

    method CopyRest(to: Head, from: Head)
      requires World() && to in heads && from in heads && to != from && at[to] == map[]
      modifies `mem, `freeTop, `limit, `heads, `g, `at
      ensures World() && heads.Keys == old(heads).Keys
      ensures to in old(Contents()) && from in old(Contents())
              && Contents() == old(Contents())[to := old(Contents())[from]]
    {
      hide PoolOk, ListOk, Kept;
      ghost var mem0, place0, heads0, at0 := mem, g.place, heads, at;
      CopyList(to, from);
      ListsBut(to, INDEX_LIMIT, mem0, place0, mem, g.place, heads0, at0, heads, at);
      SettledBut(to, INDEX_LIMIT, mem0, place0, mem, g.place, heads0, heads);
    }

    /** `bitmap_initialize`, for a head that holds no bitmap yet. */
    method Initialize(h: Head, usingObstack: bool)
      requires World() && h !in heads
      modifies `heads, `at
      ensures World() && heads == old(heads)[h := HeadRec(NULL, NULL, 0, usingObstack)] && at == old(at)[h := map[]]
      ensures Contents() == old(Contents())[h := map[]]
    {
      hide PoolOk, ListOk;
      assert forall x :: Where(g.place, x) != In(h);
      EmptyListOk(mem, g.place, h, 0, usingObstack);
      ghost var empty: Index := map[];
      ghost var heads0, at0 := heads, at;
      heads, at := heads[h := HeadRec(NULL, NULL, 0, usingObstack)], at[h := empty];
      forall x | x in heads
        ensures ListOk(mem, g.place, x, heads[x], at[x])
      {
        assert x != h ==> ListOk(mem, g.place, x, heads0[x], at0[x]);
      }
    }

    /** The end of the life of an empty head on the stack. */
    method Drop(h: Head)
      requires World() && h in heads && at[h] == map[]
      modifies `heads, `at
      ensures World() && heads == old(heads) - {h} && at == old(at) - {h}
      ensures Contents() == old(Contents()) - {h}
    {
      hide PoolOk, ListOk;
      assert ListOk(mem, g.place, h, heads[h], at[h]);
      NoneIn(mem, g.place, h, heads[h], at[h]);
      ghost var heads0, at0 := heads, at;
      heads, at := heads - {h}, at - {h};
      forall x | x in heads
        ensures ListOk(mem, g.place, x, heads[x], at[x])
      {
        assert ListOk(mem, g.place, x, heads0[x], at0[x]);
      }
    }

    // ----- bitmaps as sets of naturals -----

    /** The set each head holds. */
    ghost function Sets(): map<Head, set<nat>>
      reads this
    {
      SetsOf(Contents())
    }

    /** `bitmap_set_bit` */
    method SetBit(h: Head, bit: BitNumber)
      requires World() && h in heads
      modifies `mem, `freeTop, `limit, `heads, `g, `at
      ensures World() && heads.Keys == old(heads).Keys
      ensures Sets() == old(Sets())[h := old(Sets())[h] + {bit}]
    {
      hide PoolOk, ListsOk, Settled, ContentsOf, SetOf, Put, Canonical;
      AllCanonical(mem, g.place, heads, at);
      PutSet(Contents()[h], bit);
      SetBlockBit(h, bit / ELEMENT_BITS, bit % ELEMENT_BITS);
    }

    /** `bitmap_clear_bit` */
    method ClearBit(h: Head, bit: BitNumber)
      requires World() && h in heads
      modifies `mem, `freeTop, `heads, `g, `at
      ensures World() && heads.Keys == old(heads).Keys
      ensures Sets() == old(Sets())[h := old(Sets())[h] - {bit}]
    {
      hide PoolOk, ListsOk, Settled, ContentsOf, SetOf, Put, Canonical;
      AllCanonical(mem, g.place, heads, at);
      PutSet(Contents()[h], bit);
      ClearBlockBit(h, bit / ELEMENT_BITS, bit % ELEMENT_BITS);
    }

    /** `bitmap_bit_p` */
    method BitP(h: Head, bit: BitNumber) returns (b: bool)
      requires World() && h in heads
      modifies `heads
      ensures World() && heads.Keys == old(heads).Keys && Sets() == old(Sets())
      ensures b <==> bit in Sets()[h]
    {
      hide PoolOk, ListsOk, Settled, ContentsOf, SetOf, Canonical;
      AllCanonical(mem, g.place, heads, at);
      InSetOf(Contents()[h], bit);
      b := TestBlockBit(h, bit / ELEMENT_BITS, bit % ELEMENT_BITS);
    }

    /** `bitmap_first_set_bit` */
    method FirstSetBit(h: Head) returns (r: int)
      requires World() && h in heads
      ensures h in Sets() && r == AsInt(Next(Sets()[h], -1))
    {
      FirstEmpty(h);
      ListAt(h);
      hide World, Contents, SetOf, Canonical, Rest, ListOk, AllBits, Next;
      NoBlocks();
      NoMember();
      var ptr := heads[h].first;
      if ptr == NULL {
        return -1;
      }
      RestOfList(mem, g.place, h, heads[h], at[h]);
      RestStep(mem, g.place, In(h), at[h], Contents()[h], 0, ptr);
      var wordNum, bitNum := FirstInElement(BitsOf(mem.bits, ptr));
      var indx := IndexOf(mem.indx, ptr);
      LeastMember(Contents()[h], indx, wordNum * WORD_BITS + bitNum);
      r := AsInt(indx * ELEMENT_BITS + wordNum * WORD_BITS + bitNum);
    }

    /** `bitmap_last_set_bit` */
    method LastSetBit(h: Head) returns (r: int)
      requires World() && h in heads
      ensures h in Sets() && r == AsInt(Prev(Sets()[h], BIT_LIMIT))
    {
      FirstEmpty(h);
      ListAt(h);
      hide World, Contents, SetOf, Canonical, Rest, ListOk, AllBits, Prev;
      NoBlocks();
      NoMember();
      var ptr := heads[h].first;
      if ptr == NULL {
        return -1;
      }
      RestOfList(mem, g.place, h, heads[h], at[h]);
      ptr := LastElement(h, ptr, Contents()[h]);
      var wordNum, bitNum := LastInElement(BitsOf(mem.bits, ptr));
      var indx := IndexOf(mem.indx, ptr);
      GreatestMember(Contents()[h], indx, wordNum * WORD_BITS + bitNum);
      r := AsInt(indx * ELEMENT_BITS + wordNum * WORD_BITS + bitNum);
    }

    lemma ListAt(h: Head)
      requires World() && h in heads
      ensures h in at && h in Contents() && Contents()[h] == BlocksOf(mem.bits, at[h]) && Canonical(Contents()[h])
      ensures ListOk(mem, g.place, h, heads[h], at[h]) && h in Sets() && Sets()[h] == SetOf(Contents()[h])
    {
      hide ListOk, BlocksOf, Canonical, SetOf;
      AllCanonical(mem, g.place, heads, at);
    }

    /** The walk to the last element of a list. */
    method LastElement(h: Head, first: Ptr, ghost b: Blocks) returns (ptr: Ptr)
      requires h in at && Rest(mem, g.place, In(h), at[h], b, 0, first) && first != NULL
      ensures 0 <= IndexOf(mem.indx, ptr) < INDEX_LIMIT && IndexOf(mem.indx, ptr) in b
      ensures {} != BitsOf(mem.bits, ptr) == b[IndexOf(mem.indx, ptr)] <= AllBits()
      ensures forall n :: n in b ==> n <= IndexOf(mem.indx, ptr)
    {
      hide Rest, AllBits;
      ptr := first;
      RestStep(mem, g.place, In(h), at[h], b, 0, ptr);
      while At(mem.next, ptr) != NULL
        invariant 0 <= IndexOf(mem.indx, ptr) < INDEX_LIMIT && IndexOf(mem.indx, ptr) in b
        invariant {} != BitsOf(mem.bits, ptr) == b[IndexOf(mem.indx, ptr)] <= AllBits() && at[h].Keys == b.Keys
        invariant Rest(mem, g.place, In(h), at[h], b, IndexOf(mem.indx, ptr) + 1, At(mem.next, ptr))
        decreases INDEX_LIMIT - IndexOf(mem.indx, ptr)
      {
        RestStep(mem, g.place, In(h), at[h], b, IndexOf(mem.indx, ptr) + 1, At(mem.next, ptr));
        ptr := At(mem.next, ptr);
      }
      RestDone(mem, g.place, In(h), at[h], b, IndexOf(mem.indx, ptr) + 1);
    }

    /** `bitmap_operation` for the four set operations: `to` may be either
        source or both. */
    method Operation(to: Head, from1: Head, from2: Head, op: Op) returns (changed: bool)
      requires World() && to in heads && from1 in heads && from2 in heads && op != IorCompl
      modifies `mem, `freeTop, `limit, `heads, `g, `at
      ensures World() && heads.Keys == old(heads).Keys
      ensures Sets() == old(Sets())[to := SetOp(op, old(Sets())[from1], old(Sets())[from2])]
      ensures changed <==> Sets()[to] != old(Sets())[to]
    {
      hide PoolOk, ListsOk, Settled, ContentsOf, SetOf, Canonical, Combine, SetOp;
      AllCanonical(mem, g.place, heads, at);
      ghost var b1, b2, b := Contents()[from1], Contents()[from2], Contents()[to];
      changed := Operate(to, from1, from2, op);
      CombineCanonical(op, b1, b2);
      CanonicalUnique(Combine(op, b1, b2), b);
      CombineIsSetOp(op, b1, b2);
    }

    /** `bitmap_operation` with `BITMAP_IOR_COMPL`: it complements only inside
        elements that one of the sources has. */
    method OperationIorCompl(to: Head, from1: Head, from2: Head) returns (changed: bool)
      requires World() && to in heads && from1 in heads && from2 in heads
      modifies `mem, `freeTop, `limit, `heads, `g, `at
      ensures World() && heads.Keys == old(heads).Keys
      ensures Sets() == old(Sets())[to := Sets()[to]]
      ensures forall x: nat :: x in Sets()[to] <==>
                && (x / ELEMENT_BITS in old(Contents())[from1] || x / ELEMENT_BITS in old(Contents())[from2])
                && (x in old(Sets())[from1] || x !in old(Sets())[from2])
      ensures changed <==> Sets()[to] != old(Sets())[to]
    {
      hide PoolOk, ListsOk, Settled, ContentsOf, SetOf, Canonical, Combine;
      AllCanonical(mem, g.place, heads, at);
      ghost var b1, b2, b := Contents()[from1], Contents()[from2], Contents()[to];
      changed := Operate(to, from1, from2, IorCompl);
      CombineCanonical(IorCompl, b1, b2);
      CanonicalUnique(Combine(IorCompl, b1, b2), b);
      forall x: nat
        ensures x in SetOf(Combine(IorCompl, b1, b2)) <==>
                && (x / ELEMENT_BITS in b1 || x / ELEMENT_BITS in b2) && (x in SetOf(b1) || x !in SetOf(b2))
      {
        CombineIorCompl(b1, b2, x);
      }
    }

    /** `bitmap_copy` */
    method Copy(to: Head, from: Head)
      requires World() && to in heads && from in heads
      modifies `mem, `freeTop, `limit, `heads, `g, `at
      ensures World() && heads.Keys == old(heads).Keys
      ensures Sets() == old(Sets())[to := if to == from then {} else old(Sets())[from]]
    {
      hide PoolOk, ListsOk, Settled, ContentsOf, SetOf;
      AllCanonical(mem, g.place, heads, at);
      CopyBlocks(to, from);
      NoBlocks();
    }

    /** A head on the stack, `tmp.first = tmp.current = 0`. */
    method NewTemp(tmp: Head)
      requires World() && tmp !in heads
      modifies `heads, `at
      ensures World() && heads.Keys == old(heads).Keys + {tmp} && Sets() == old(Sets())[tmp := {}]
    {
      hide PoolOk, ListsOk, Settled, ContentsOf, SetOf;
      Initialize(tmp, false);
      NoBlocks();
    }

    /** `bitmap_clear` of a head on the stack, and the end of its life. */
    method EndTemp(tmp: Head)
      requires World() && tmp in heads
      modifies `mem, `freeTop, `heads, `g, `at
      ensures World() && heads.Keys == old(heads).Keys - {tmp} && Sets() == old(Sets()) - {tmp}
    {
      hide PoolOk, ListsOk, Settled, ContentsOf, SetOf;
      Clear(tmp);
      Drop(tmp);
    }

    /** `bitmap_equal_p`; `tmp` is its head on the stack. */
    method EqualP(a: Head, b: Head, tmp: Head) returns (same: bool)
      requires World() && a in heads && b in heads && tmp !in heads
      modifies `mem, `freeTop, `limit, `heads, `g, `at
      ensures World() && heads.Keys == old(heads).Keys && Sets() == old(Sets())
      ensures a in Sets() && b in Sets() && (same <==> Sets()[a] == Sets()[b])
    {
      hide PoolOk, ListsOk, Settled, ContentsOf, SetOp, SetOf;
      SetKeys();
      NewTemp(tmp);
      hide SetsOf;
      var changed := Operation(tmp, a, b, Xor);
      same := !changed;
      XorEmpty(Sets()[a], Sets()[b]);
      EndTemp(tmp);
    }

    /** `bitmap_ior_and_compl` */
    method IorAndCompl(to: Head, from1: Head, from2: Head, tmp: Head)
      requires World() && to in heads && from1 in heads && from2 in heads && tmp !in heads
      modifies `mem, `freeTop, `limit, `heads, `g, `at
      ensures World() && heads.Keys == old(heads).Keys
      ensures var s :=
                old(Sets()); to in s && from1 in s && from2 in s && Sets() == s[to := s[to] + (s[from1] - s[from2])]
    {
      hide PoolOk, ListsOk, Settled, ContentsOf, SetOf;
      SetKeys();
      NewTemp(tmp);
      hide SetsOf;
      var c := Operation(tmp, from1, from2, AndCompl);
      c := Operation(to, to, tmp, Ior);
      TempGone(old(Sets()), tmp, old(Sets())[from1] - old(Sets())[from2], to, Sets()[to]);
      EndTemp(tmp);
    }

    /** `bitmap_union_of_diff` */
    method UnionOfDiff(dst: Head, a: Head, b: Head, c: Head, tmp: Head) returns (changed: bool)
      requires World() && dst in heads && a in heads && b in heads && c in heads && tmp !in heads
      modifies `mem, `freeTop, `limit, `heads, `g, `at
      ensures World() && heads.Keys == old(heads).Keys
      ensures var s := old(Sets());
              && dst in s && a in s && b in s && c in s && Sets() == s[dst := s[a] + (s[b] - s[c])]
              && (changed <==> s[a] + (s[b] - s[c]) != s[dst])
    {
      hide PoolOk, ListsOk, Settled, ContentsOf, SetOf;
      SetKeys();
      NewTemp(tmp);
      hide SetsOf;
      changed := Operation(tmp, b, c, AndCompl);
      changed := Operation(dst, tmp, a, Ior);
      assert Sets()[dst] == old(Sets())[a] + (old(Sets())[b] - old(Sets())[c]);
      TempGone(old(Sets()), tmp, old(Sets())[b] - old(Sets())[c], dst, Sets()[dst]);
      EndTemp(tmp);
    }

    lemma SetKeys()
      requires World()
      ensures Sets().Keys == heads.Keys
    {
    }

    // ----- runs -----

    /** Carries out one command. */
    method Do(c: Command, tmp: Head) returns (out: seq<int>)
      requires World() && Names(c) <= heads.Keys && tmp !in heads
      modifies `mem, `freeTop, `limit, `heads, `g, `at
      ensures World() && heads.Keys == old(heads).Keys
      ensures old(Sets()).Keys == heads.Keys && Sets() == Effect(old(Sets()), c) && out == Answer(old(Sets()), c)
    {
      hide PoolOk, ListsOk, Settled, ContentsOf, SetOf, SetOp;
      SetKeys();
      out := [];
      match c
      case SetBit(h, bit) =>
        SetBit(h, bit);
      case ClearBit(h, bit) =>
        ClearBit(h, bit);
      case TestBit(h, bit) =>
        var b := BitP(h, bit);
        out := [Truth(b)];
      case FirstBit(h) =>
        var n := FirstSetBit(h);
        out := [n];
      case LastBit(h) =>
        var n := LastSetBit(h);
        out := [n];
      case Clear(h) =>
        Clear(h);
        NoBlocks();
      case Operation(to, from1, from2, op) =>
        var b := Operation(to, from1, from2, op);
        out := [Truth(b)];
      case Copy(to, from) =>
        Copy(to, from);
      case IorAndCompl(to, from1, from2) =>
        IorAndCompl(to, from1, from2, tmp);
      case UnionOfDiff(to, from0, from1, from2) =>
        var b := UnionOfDiff(to, from0, from1, from2, tmp);
        out := [Truth(b)];
      case Equal(a, b) =>
        var same := EqualP(a, b, tmp);
        out := [Truth(same)];
    }

    /** After any sequence of calls every bitmap holds what a plain set would
        hold, and every answer on the way is the answer of the plain sets. */
    method Run(cs: seq<Command>, tmp: Head) returns (out: seq<int>)
      requires World() && tmp !in heads && forall i :: 0 <= i < |cs| ==> Names(cs[i]) <= heads.Keys
      modifies `mem, `freeTop, `limit, `heads, `g, `at
      ensures World() && heads.Keys == old(heads).Keys && old(Sets()).Keys == heads.Keys
      ensures Sets() == Effects(old(Sets()), cs)
      ensures out == Answers(old(Sets()), cs)
    {
      hide World, Sets, Effects, Answers, Effect, Answer;
      out := [];
      SetKeys();
      ghost var s0 := Sets();
      RunStart(s0, cs);
      for i := 0 to |cs|
        invariant World() && heads.Keys == old(heads).Keys && Sets().Keys == s0.Keys == heads.Keys
        invariant Effects(Sets(), cs[i..]) == Effects(s0, cs)
        invariant out + Answers(Sets(), cs[i..]) == Answers(s0, cs)
      {
        ghost var s := Sets();
        RunStep(s, cs, i);
        var more := Do(cs[i], tmp);
        assert (out + more) + Answers(Sets(), cs[i + 1..]) == out + (more + Answers(Sets(), cs[i + 1..]));
        out := out + more;
      }
      RunEnd(Sets(), cs);
    }
  }

  lemma RunStart(s: map<Head, set<nat>>, cs: seq<Command>)
    ensures cs[0..] == cs
  {
  }

  /** One command of a run. */
  lemma RunStep(s: map<Head, set<nat>>, cs: seq<Command>, i: nat)
    requires i < |cs| && Known(s, cs)
    ensures Known(s, cs[i..]) && Known(Effect(s, cs[i]), cs[i + 1..])
    ensures Effects(s, cs[i..]) == Effects(Effect(s, cs[i]), cs[i + 1..])
    ensures Answers(s, cs[i..]) == Answer(s, cs[i]) + Answers(Effect(s, cs[i]), cs[i + 1..])
  {
    assert cs[i..][0] == cs[i] && cs[i..][1..] == cs[i + 1..];
  }

  lemma RunEnd(s: map<Head, set<nat>>, cs: seq<Command>)
    ensures cs[|cs|..] == [] && Effects(s, []) == s && Answers(s, []) == []
  {
  }
}
