/**
 The linked representation of sparse bitmaps as values: the fields of the
 elements as maps from address to value, and what it means for a head to have
 a sorted doubly linked list and for a free list to be intact.
 */
module BitmapLists {
  import opened Helpers
  import opened Blocks
  import opened Neighbours

  type Ptr = nat
  const NULL: Ptr := 0

  /** The fields of `struct bitmap_element_def`; `bits` is the set of the bit
      numbers set in the element's words. */
  datatype Mem = Mem(next: map<Ptr, Ptr>, prev: map<Ptr, Ptr>, indx: map<Ptr, nat>, bits: map<Ptr, set<nat>>)

  /** The identity of a bitmap head, and `struct bitmap_head_def`. */
  type Head = nat
  datatype HeadRec = HeadRec(first: Ptr, current: Ptr, indx: nat, usingObstack: bool)

  /** Where an element is: not allocated, in hand, cut off from the list of a
      head that is being rebuilt, on a free list, or on the list of a head. */
  datatype Place = Nowhere | Loose | Detached | Freed(obstack: bool) | In(h: Head)

  type Places = map<Ptr, Place>

  /** The elements of a list, by element index. */
  type Index = map<nat, Ptr>

  /** The index of `x`, -1 where there is no such element. */
  function IndexOf(f: map<Ptr, nat>, x: Ptr): int {
    if x in f then f[x] else -1
  }

  function BitsOf(f: map<Ptr, set<nat>>, x: Ptr): set<nat> {
    if x in f then f[x] else {}
  }

  function Where(place: Places, x: Ptr): Place {
    if x in place then place[x] else Nowhere
  }

  /** The element with index `n`, null if there is none. */
  ghost function ElementAt(at: Index, n: int): Ptr {
    if n in at then at[n] else NULL
  }

  ghost function After(at: Index, n: int): int { Next(at.Keys, n) }

  ghost function Before(at: Index, n: int): int { Prev(at.Keys, n) }

  /** From index `lo` on, the elements of `at` are in place `pl`, carry their
      index, and have some bit set. */
  ghost predicate Elements(mem: Mem, place: Places, pl: Place, at: Index, lo: int) {
    forall n :: n in at && lo <= n ==>
      && at[n] != NULL && Where(place, at[n]) == pl && IndexOf(mem.indx, at[n]) == n < INDEX_LIMIT
      && BitsOf(mem.bits, at[n]) != {} && BitsOf(mem.bits, at[n]) <= AllBits()
  }

  ghost predicate Nexts(next: map<Ptr, Ptr>, at: Index, lo: int) {
    forall n {:trigger At(next, at[n])} :: n in at && lo <= n ==> At(next, at[n]) == ElementAt(at, After(at, n))
  }

  ghost predicate Prevs(prev: map<Ptr, Ptr>, at: Index) {
    forall n {:trigger At(prev, at[n])} :: n in at ==> At(prev, at[n]) == ElementAt(at, Before(at, n))
  }

  /** The search cache is null for an empty list and points into it otherwise. */
  ghost predicate CacheOk(r: HeadRec, at: Index) {
    if r.current == NULL then forall n :: n !in at else r.indx in at && r.current == at[r.indx]
  }

  /** Everything in place `pl` is in `at`. */
  ghost predicate Covers(mem: Mem, place: Places, pl: Place, at: Index) {
    forall x: Ptr :: Where(place, x) == pl ==> IndexOf(mem.indx, x) in at && at[IndexOf(mem.indx, x)] == x
  }

  /** The allocator an element came from: the obstack hands out odd addresses,
      the collector even ones. */
  predicate FromObstack(x: Ptr) {
    x % 2 == 1
  }

  /** All elements of `at` came from one allocator. */
  ghost predicate Kinds(at: Index, o: bool) {
    forall n {:trigger at[n]} :: n in at ==> FromObstack(at[n]) == o
  }

  /** Head `h` has a sorted doubly linked list of the elements `at`, which are
      all the elements it owns and came from its allocator, and its search cache points into the list. */
  ghost predicate ListOk(mem: Mem, place: Places, h: Head, r: HeadRec, at: Index) {
    && Elements(mem, place, In(h), at, 0)
    && Nexts(mem.next, at, 0)
    && Prevs(mem.prev, at)
    && r.first == ElementAt(at, After(at, -1))
    && CacheOk(r, at)
    && Covers(mem, place, In(h), at)
    && Kinds(at, r.usingObstack)
  }

  /** The block map a list holds. */
  ghost function BlocksOf(bits: map<Ptr, set<nat>>, at: Index): Blocks {
    map n | n in at :: BitsOf(bits, at[n])
  }

  lemma ListKinds(mem: Mem, place: Places, h: Head, r: HeadRec, at: Index)
    requires ListOk(mem, place, h, r, at)
    ensures Kinds(at, r.usingObstack)
  {
  }

  // ----- linking an element in -----

  /** `e` is in hand and may join the list. */
  ghost predicate Fits(mem: Mem, place: Places, at: Index, e: Ptr, k: nat) {
    && e != NULL && Where(place, e) == Loose
    && IndexOf(mem.indx, e) == k < INDEX_LIMIT && k !in at
    && BitsOf(mem.bits, e) != {} && BitsOf(mem.bits, e) <= AllBits()
  }

  /** What the keys and the neighbours of a list become. */
  lemma JoinAt(at: Index, k: nat, e: Ptr, n: int)
    requires k !in at && n != k && (n in at || n == -1)
    ensures After(at[k := e], n) == if n == Before(at, k) then k else After(at, n)
    ensures n >= 0 ==> Before(at[k := e], n) == if n == After(at, k) then k else Before(at, n)
    ensures After(at[k := e], k) == After(at, k) && Before(at[k := e], k) == Before(at, k)
  {
    hide Next, Prev;
    assert at[k := e].Keys == at.Keys + {k};
    Join(at.Keys, k, n);
  }

  lemma JoinNexts(mem: Mem, place: Places, pl: Place, at: Index, k: nat, e: Ptr, next': map<Ptr, Ptr>)
    requires Elements(mem, place, pl, at, 0) && pl != Loose && Nexts(mem.next, at, 0) && Fits(mem, place, at, e, k)
    requires next' == mem.next[ElementAt(at, Before(at, k)) := e][e := ElementAt(at, After(at, k))]
          || (Before(at, k) == -1 && next' == mem.next[e := ElementAt(at, After(at, k))])
    ensures Nexts(next', at[k := e], 0)
    ensures ElementAt(at[k := e], After(at[k := e], -1)) == if Before(at, k) == -1 then e
              else ElementAt(at, After(at, -1))
  {
    hide Next, Prev, AllBits;
    JoinAt(at, k, e, -1);
    var at' := at[k := e];
    forall n {:trigger At(next', at'[n])} | n in at' && 0 <= n
      ensures At(next', at'[n]) == ElementAt(at', After(at', n))
    {
      if n != k {
        JoinAt(at, k, e, n);
        assert At(mem.next, at[n]) == ElementAt(at, After(at, n));
      }
    }
  }

  lemma JoinPrevs(mem: Mem, place: Places, pl: Place, at: Index, k: nat, e: Ptr, prev': map<Ptr, Ptr>)
    requires Elements(mem, place, pl, at, 0) && pl != Loose && Prevs(mem.prev, at) && Fits(mem, place, at, e, k)
    requires prev' == mem.prev[ElementAt(at, After(at, k)) := e][e := ElementAt(at, Before(at, k))]
          || (After(at, k) == -1 && prev' == mem.prev[e := ElementAt(at, Before(at, k))])
    ensures Prevs(prev', at[k := e])
  {
    hide Next, Prev, AllBits;
    JoinAt(at, k, e, -1);
    var at' := at[k := e];
    forall n {:trigger At(prev', at'[n])} | n in at'
      ensures At(prev', at'[n]) == ElementAt(at', Before(at', n))
    {
      if n != k {
        JoinAt(at, k, e, n);
        assert At(mem.prev, at[n]) == ElementAt(at, Before(at, n));
      }
    }
  }

  /** Linking an element between its neighbours keeps the list well formed. */
  lemma InsertOk(mem: Mem, mem': Mem, place: Places, h: Head, r: HeadRec, at: Index, k: nat, e: Ptr)
    requires ListOk(mem, place, h, r, at) && Fits(mem, place, at, e, k) && FromObstack(e) == r.usingObstack
    requires mem'.indx == mem.indx && mem'.bits == mem.bits
    requires mem'.next == mem.next[ElementAt(at, Before(at, k)) := e][e := ElementAt(at, After(at, k))]
          || (Before(at, k) == -1 && mem'.next == mem.next[e := ElementAt(at, After(at, k))])
    requires mem'.prev == mem.prev[ElementAt(at, After(at, k)) := e][e := ElementAt(at, Before(at, k))]
          || (After(at, k) == -1 && mem'.prev == mem.prev[e := ElementAt(at, Before(at, k))])
    ensures ListOk(mem', place[e := In(h)], h,
                   HeadRec(if Before(at, k) == -1 then e else r.first, e, k, r.usingObstack), at[k := e])
    ensures BlocksOf(mem'.bits, at[k := e]) == BlocksOf(mem.bits, at)[k := BitsOf(mem.bits, e)]
  {
    hide Next, Prev, AllBits;
    JoinNexts(mem, place, In(h), at, k, e, mem'.next);
    JoinPrevs(mem, place, In(h), at, k, e, mem'.prev);
  }

  // ----- taking an element out -----

  lemma LeaveAt(at: Index, k: nat, n: int)
    requires k in at && n != k && (n in at || n == -1)
    ensures After(at - {k}, n) == if n == Before(at, k) then After(at, k) else After(at, n)
    ensures n >= 0 ==> Before(at - {k}, n) == if n == After(at, k) then Before(at, k) else Before(at, n)
  {
    hide Next, Prev;
    assert (at - {k}).Keys == at.Keys - {k};
    Leave(at.Keys, k, n);
  }

  lemma LeaveNexts(mem: Mem, place: Places, pl: Place, at: Index, k: nat, next': map<Ptr, Ptr>)
    requires Elements(mem, place, pl, at, 0) && Nexts(mem.next, at, 0) && k in at
    requires next' == if Before(at, k) == -1 then mem.next
               else mem.next[ElementAt(at, Before(at, k)) := ElementAt(at, After(at, k))]
    ensures Nexts(next', at - {k}, 0)
    ensures ElementAt(at - {k}, After(at - {k}, -1)) == if Before(at, k) == -1 then ElementAt(at, After(at, k))
              else ElementAt(at, After(at, -1))
  {
    hide Next, Prev, AllBits;
    LeaveAt(at, k, -1);
    FirstOf(at, k);
    var at' := at - {k};
    forall n {:trigger At(next', at'[n])} | n in at' && 0 <= n
      ensures At(next', at'[n]) == ElementAt(at', After(at', n))
    {
      LeaveAt(at, k, n);
      BackAndForth(at, k, n);
      assert At(mem.next, at[n]) == ElementAt(at, After(at, n));
    }
  }

  lemma LeavePrevs(mem: Mem, place: Places, pl: Place, at: Index, k: nat, prev': map<Ptr, Ptr>)
    requires Elements(mem, place, pl, at, 0) && Prevs(mem.prev, at) && k in at
    requires prev' == if After(at, k) == -1 then mem.prev
               else mem.prev[ElementAt(at, After(at, k)) := ElementAt(at, Before(at, k))]
    ensures Prevs(prev', at - {k})
  {
    hide Next, Prev, AllBits;
    var at' := at - {k};
    forall n {:trigger At(prev', at'[n])} | n in at'
      ensures At(prev', at'[n]) == ElementAt(at', Before(at', n))
    {
      LeaveAt(at, k, n);
      BackAndForth(at, k, n);
      assert At(mem.prev, at[n]) == ElementAt(at, Before(at, n));
    }
  }

  /** The two directions agree. */
  lemma BackAndForth(at: Index, k: nat, n: nat)
    requires k in at && n in at
    ensures After(at, n) == k <==> n == Before(at, k)
    ensures Before(at, n) == k <==> n == After(at, k)
  {
    NextIs(at.Keys, n, After(at, n));
    PrevIs(at.Keys, n, Before(at, n));
    NextIs(at.Keys, k, After(at, k));
    PrevIs(at.Keys, k, Before(at, k));
  }

  lemma FirstOf(at: Index, k: nat)
    requires k in at
    ensures After(at, -1) == k <==> Before(at, k) == -1
  {
    NextIs(at.Keys, -1, After(at, -1));
    PrevIs(at.Keys, k, Before(at, k));
  }

  lemma NoneLeft(at: Index, k: nat)
    requires After(at, -1) == -1
    ensures After(at, k) == -1 && Before(at, k) == -1
  {
    NextIs(at.Keys, -1, -1);
    NextIs(at.Keys, k, -1);
    PrevIs(at.Keys, k, -1);
  }

  lemma BeforeIs(at: Index, j: nat, n: nat)
    requires j in at && n in at && n < j
    ensures Before(at, j) != -1 && n <= Before(at, j)
  {
    PrevIs(at.Keys, j, Before(at, j));
  }

  lemma AfterIs(at: Index, j: nat, n: nat)
    requires j in at && n in at && j < n
    ensures After(at, j) != -1 && After(at, j) <= n
  {
    NextIs(at.Keys, j, After(at, j));
  }

  /** A gap between two neighbours is where a missing index belongs. */
  lemma Between(at: Index, k: nat, m: int, n: int)
    requires k !in at && m < k && (n == -1 || k < n)
    requires (m in at && After(at, m) == n) || (n in at && Before(at, n) == m)
    ensures Before(at, k) == m && After(at, k) == n
  {
    if m in at && After(at, m) == n {
      NextIs(at.Keys, m, n);
    } else {
      PrevIs(at.Keys, n, m);
    }
    PrevIs(at.Keys, k, m);
    NextIs(at.Keys, k, n);
  }

  /** Bypassing an element keeps the list well formed. */
  lemma RemoveOk(mem: Mem, mem': Mem, place: Places, h: Head, r: HeadRec, r': HeadRec, at: Index, k: nat, pl: Place)
    requires ListOk(mem, place, h, r, at) && k in at && pl != In(h) && r'.usingObstack == r.usingObstack
    requires mem'.indx == mem.indx && mem'.bits == mem.bits
    requires mem'.next == if Before(at, k) == -1 then mem.next
               else mem.next[ElementAt(at, Before(at, k)) := ElementAt(at, After(at, k))]
    requires mem'.prev == if After(at, k) == -1 then mem.prev
               else mem.prev[ElementAt(at, After(at, k)) := ElementAt(at, Before(at, k))]
    requires r'.first == if Before(at, k) == -1 then ElementAt(at, After(at, k)) else r.first
    requires if r.current == at[k] then
               var n := if After(at, k) != -1 then After(at, k) else Before(at, k);
               r'.current == ElementAt(at, n) && (n != -1 ==> r'.indx == n)
             else r'.current == r.current && r'.indx == r.indx
    ensures ListOk(mem', place[at[k] := pl], h, r', at - {k})
    ensures BlocksOf(mem'.bits, at - {k}) == BlocksOf(mem.bits, at) - {k}
  {
    hide Next, Prev, AllBits;
    LeaveNexts(mem, place, In(h), at, k, mem'.next);
    LeavePrevs(mem, place, In(h), at, k, mem'.prev);
    assert CacheOk(r', at - {k}) by {
      Alone(at, k);
    }
  }

  lemma Alone(at: Index, k: nat)
    requires k in at
    ensures After(at, k) == -1 && Before(at, k) == -1 ==> forall n :: n in at ==> n == k
  {
    NextIs(at.Keys, k, After(at, k));
    PrevIs(at.Keys, k, Before(at, k));
  }

  // ----- framing -----

  ghost predicate Same(mem: Mem, place: Places, mem': Mem, place': Places, x: Ptr) {
    && Where(place', x) == Where(place, x)
    && At(mem'.next, x) == At(mem.next, x)
    && At(mem'.prev, x) == At(mem.prev, x)
    && IndexOf(mem'.indx, x) == IndexOf(mem.indx, x)
    && BitsOf(mem'.bits, x) == BitsOf(mem.bits, x)
  }

  /** A list whose elements are untouched, and which got no new ones, is intact. */
  lemma ListKept(mem: Mem, place: Places, mem': Mem, place': Places, h: Head, r: HeadRec, at: Index)
    requires ListOk(mem, place, h, r, at)
    requires forall x :: Where(place, x) == In(h) ==> Same(mem, place, mem', place', x)
    requires forall x :: Where(place', x) == In(h) ==> Where(place, x) == In(h)
    ensures ListOk(mem', place', h, r, at)
    ensures BlocksOf(mem'.bits, at) == BlocksOf(mem.bits, at)
  {
    hide Next, Prev, AllBits;
    forall n {:trigger At(mem'.next, at[n])} | n in at && 0 <= n
      ensures At(mem'.next, at[n]) == ElementAt(at, After(at, n))
    {
      assert At(mem.next, at[n]) == ElementAt(at, After(at, n));
    }
    forall n {:trigger At(mem'.prev, at[n])} | n in at
      ensures At(mem'.prev, at[n]) == ElementAt(at, Before(at, n))
    {
      assert At(mem.prev, at[n]) == ElementAt(at, Before(at, n));
    }
  }

  // ----- free lists -----

  /** `s`, read from its end, is the free list that starts at `x`. It holds
      exactly the elements in place `pl`, each at the position `rank` gives. */
  ghost predicate FreeOk(next: map<Ptr, Ptr>, place: Places, rank: map<Ptr, nat>, x: Ptr, s: seq<Ptr>, pl: Place) {
    && x == (if s == [] then NULL else s[|s| - 1])
    && (forall i :: 0 <= i < |s| ==> s[i] != NULL && Where(place, s[i]) == pl && IndexOf(rank, s[i]) == i)
    && (forall i {:trigger At(next, s[i])} :: 0 <= i < |s| ==> At(next, s[i]) == if i == 0 then NULL else s[i - 1])
    && (forall y: Ptr :: Where(place, y) == pl ==>
          0 <= IndexOf(rank, y) < |s| && s[IndexOf(rank, y)] == y)
  }

  lemma FreePush(next: map<Ptr, Ptr>, place: Places, rank: map<Ptr, nat>, x: Ptr, s: seq<Ptr>, pl: Place, e: Ptr)
    requires FreeOk(next, place, rank, x, s, pl)
    requires e != NULL && Where(place, e) != pl && pl != Nowhere
    ensures FreeOk(next[e := x], place[e := pl], rank[e := |s|], e, s + [e], pl)
  {
    var t, next', place', rank' := s + [e], next[e := x], place[e := pl], rank[e := |s|];
    forall i {:trigger At(next', t[i])} | 0 <= i < |t|
      ensures At(next', t[i]) == if i == 0 then NULL else t[i - 1]
    {
      if i < |s| {
        assert Where(place, s[i]) == pl;
        assert At(next, s[i]) == if i == 0 then NULL else s[i - 1];
      }
    }
    forall y: Ptr | Where(place', y) == pl
      ensures 0 <= IndexOf(rank', y) < |t| && t[IndexOf(rank', y)] == y
    {
      if y != e {
        assert Where(place, y) == pl;
      }
    }
  }

  lemma FreePop(next: map<Ptr, Ptr>, place: Places, rank: map<Ptr, nat>, x: Ptr, s: seq<Ptr>, pl: Place, q: Place)
    requires FreeOk(next, place, rank, x, s, pl) && s != [] && pl != q
    ensures FreeOk(next, place[x := q], rank, At(next, x), s[..|s| - 1], pl)
  {
    var t := s[..|s| - 1];
    assert At(next, s[|s| - 1]) == if |s| == 1 then NULL else s[|s| - 2];
    forall i {:trigger At(next, t[i])} | 0 <= i < |t|
      ensures At(next, t[i]) == if i == 0 then NULL else t[i - 1]
    {
      assert At(next, s[i]) == if i == 0 then NULL else s[i - 1];
    }
  }

  lemma FreeKept(next: map<Ptr, Ptr>, next': map<Ptr, Ptr>, place: Places, place': Places, rank: map<Ptr, nat>,
                 rank': map<Ptr, nat>,
                 x: Ptr, s: seq<Ptr>, pl: Place)
    requires FreeOk(next, place, rank, x, s, pl)
    requires forall y: Ptr :: Where(place', y) == pl <==> Where(place, y) == pl
    requires forall y: Ptr :: Where(place, y) == pl ==>
               At(next', y) == At(next, y) && IndexOf(rank', y) == IndexOf(rank, y)
    ensures FreeOk(next', place', rank', x, s, pl)
  {
    forall i {:trigger At(next', s[i])} | 0 <= i < |s|
      ensures At(next', s[i]) == if i == 0 then NULL else s[i - 1]
    {
      assert At(next, s[i]) == if i == 0 then NULL else s[i - 1];
    }
  }

  // ----- the pool: both free lists and the bound on addresses -----

  /** Where each element is, its position on a free list, and the free lists,
      last element first. */
  datatype Shape = Shape(place: Places, rank: map<Ptr, nat>, free: map<bool, seq<Ptr>>)

  ghost predicate FreeListOk(next: map<Ptr, Ptr>, top: map<bool, Ptr>, g: Shape, o: bool) {
    o in top && o in g.free && FreeOk(next, g.place, g.rank, top[o], g.free[o], Freed(o))
  }

  ghost predicate Bounded(place: Places, limit: Ptr) {
    NULL < limit && forall x: Ptr :: Where(place, x) != Nowhere ==> NULL < x < limit
  }

  /** Each free list holds elements of its own allocator. */
  ghost predicate FreedKinds(place: Places) {
    forall x: Ptr :: Where(place, x).Freed? ==> FromObstack(x) == Where(place, x).obstack
  }

  /** Both free lists are intact and hold what belongs there, and every element in
      use lies below `limit`. */
  ghost predicate PoolOk(mem: Mem, top: map<bool, Ptr>, limit: Ptr, g: Shape) {
    && FreeListOk(mem.next, top, g, true) && FreeListOk(mem.next, top, g, false)
    && NULL !in mem.bits && Bounded(g.place, limit) && FreedKinds(g.place)
  }

  /** Elements outside the free lists may change their links and places. */
  lemma PoolKept(mem: Mem, mem': Mem, top: map<bool, Ptr>, limit: Ptr, g: Shape, g': Shape)
    requires PoolOk(mem, top, limit, g) && g'.rank == g.rank && g'.free == g.free && NULL !in mem'.bits
    requires forall y: Ptr :: Where(g.place, y).Freed? || Where(g'.place, y).Freed? ==>
               Where(g'.place, y) == Where(g.place, y) && At(mem'.next, y) == At(mem.next, y)
    requires forall y: Ptr :: Where(g'.place, y) != Nowhere ==> Where(g.place, y) != Nowhere
    ensures PoolOk(mem', top, limit, g')
  {
    hide FreeOk;
    FreeKept(mem.next, mem'.next, g.place, g'.place, g.rank, g'.rank, top[true], g.free[true], Freed(true));
    FreeKept(mem.next, mem'.next, g.place, g'.place, g.rank, g'.rank, top[false], g.free[false], Freed(false));
  }

  lemma PoolBits(mem: Mem, top: map<bool, Ptr>, limit: Ptr, g: Shape, e: Ptr, r: set<nat>)
    requires PoolOk(mem, top, limit, g) && e != NULL
    ensures PoolOk(mem.(bits := mem.bits[e := r]), top, limit, g)
  {
  }

  lemma PoolNext(mem: Mem, top: map<bool, Ptr>, limit: Ptr, g: Shape, e: Ptr, x: Ptr)
    requires PoolOk(mem, top, limit, g) && !Where(g.place, e).Freed?
    ensures PoolOk(mem.(next := mem.next[e := x]), top, limit, g)
  {
    hide FreeListOk;
    PoolKept(mem, mem.(next := mem.next[e := x]), top, limit, g, g);
  }

  lemma PoolIndex(mem: Mem, top: map<bool, Ptr>, limit: Ptr, g: Shape, e: Ptr, k: nat)
    requires PoolOk(mem, top, limit, g)
    ensures PoolOk(mem.(indx := mem.indx[e := k]), top, limit, g)
  {
  }

  ghost function Pushed(g: Shape, o: bool, e: Ptr): Shape
    requires o in g.free
  {
    Shape(g.place[e := Freed(o)], g.rank[e := |g.free[o]|], g.free[o := g.free[o] + [e]])
  }

  lemma PushOk(mem: Mem, top: map<bool, Ptr>, limit: Ptr, g: Shape, o: bool, e: Ptr)
    requires PoolOk(mem, top, limit, g) && (Where(g.place, e) == Loose || Where(g.place, e) == Detached)
    requires FromObstack(e) == o
    ensures PoolOk(mem.(next := mem.next[e := top[o]]), top[o := e], limit, Pushed(g, o, e))
  {
    hide FreeOk;
    FreePush(mem.next, g.place, g.rank, top[o], g.free[o], Freed(o), e);
    var g' := Pushed(g, o, e);
    FreeKept(mem.next, mem.next[e := top[o]], g.place, g'.place, g.rank, g'.rank, top[!o], g.free[!o], Freed(!o));
    assert Bounded(g'.place, limit);
  }

  ghost function Popped(g: Shape, o: bool, e: Ptr): Shape
    requires o in g.free && g.free[o] != []
  {
    g.(place := g.place[e := Loose], free := g.free[o := g.free[o][..|g.free[o]| - 1]])
  }

  lemma PopOk(mem: Mem, top: map<bool, Ptr>, limit: Ptr, g: Shape, o: bool)
    requires PoolOk(mem, top, limit, g) && top[o] != NULL
    ensures g.free[o] != [] && Where(g.place, top[o]) == Freed(o) && FromObstack(top[o]) == o
    ensures PoolOk(mem.(bits := mem.bits[top[o] := {}]), top[o := At(mem.next, top[o])], limit, Popped(g, o, top[o]))
  {
    var e := top[o];
    assert g.free[o] != [] && Where(g.place, e) == Freed(o);
    PopRest(mem, top, limit, g, o);
  }

  lemma PopRest(mem: Mem, top: map<bool, Ptr>, limit: Ptr, g: Shape, o: bool)
    requires PoolOk(mem, top, limit, g) && top[o] != NULL
    requires g.free[o] != [] && Where(g.place, top[o]) == Freed(o)
    ensures PoolOk(mem.(bits := mem.bits[top[o] := {}]), top[o := At(mem.next, top[o])], limit, Popped(g, o, top[o]))
  {
    hide Bounded, FreeOk;
    assert FreeListOk(mem.next, top, g, o) && FreeListOk(mem.next, top, g, !o);
    PopOne(mem.next, top, g, o);
    PopOther(mem.next, top, g, o);
    PopBound(g, o, top[o], limit);
    var top', g' := top[o := At(mem.next, top[o])], Popped(g, o, top[o]);
    assert FreeListOk(mem.next, top', g', o) && FreeListOk(mem.next, top', g', !o);
  }

  lemma PopOne(next: map<Ptr, Ptr>, top: map<bool, Ptr>, g: Shape, o: bool)
    requires FreeListOk(next, top, g, o) && g.free[o] != []
    ensures FreeListOk(next, top[o := At(next, top[o])], Popped(g, o, top[o]), o)
  {
    hide FreeOk;
    FreePop(next, g.place, g.rank, top[o], g.free[o], Freed(o), Loose);
  }

  lemma PopOther(next: map<Ptr, Ptr>, top: map<bool, Ptr>, g: Shape, o: bool)
    requires FreeListOk(next, top, g, !o) && o in top && o in g.free && g.free[o] != []
             && Where(g.place, top[o]) == Freed(o)
    ensures FreeListOk(next, top[o := At(next, top[o])], Popped(g, o, top[o]), !o)
  {
    hide FreeOk;
    var place' := Popped(g, o, top[o]).place;
    FreeKept(next, next, g.place, place', g.rank, g.rank, top[!o], g.free[!o], Freed(!o));
  }

  lemma PopBound(g: Shape, o: bool, e: Ptr, limit: Ptr)
    requires Bounded(g.place, limit) && o in g.free && g.free[o] != [] && Where(g.place, e) != Nowhere
    ensures Bounded(Popped(g, o, e).place, limit)
  {
    forall x: Ptr | Where(Popped(g, o, e).place, x) != Nowhere
      ensures NULL < x < limit
    {
      assert Where(g.place, x) != Nowhere;
    }
  }

  lemma FreshOk(mem: Mem, top: map<bool, Ptr>, limit: Ptr, g: Shape, e: Ptr)
    requires PoolOk(mem, top, limit, g) && limit <= e
    ensures Where(g.place, e) == Nowhere
    ensures PoolOk(mem.(bits := mem.bits[e := {}]), top, e + 1, g.(place := g.place[e := Loose]))
  {
    hide FreeOk;
    var g' := g.(place := g.place[e := Loose]);
    assert Where(g.place, e) == Nowhere;
    FreeKept(mem.next, mem.next, g.place, g'.place, g.rank, g.rank, top[true], g.free[true], Freed(true));
    FreeKept(mem.next, mem.next, g.place, g'.place, g.rank, g.rank, top[false], g.free[false], Freed(false));
    assert Bounded(g'.place, e + 1);
  }

  // ----- both together -----

  /** Links of elements outside the list of `h`, other than `e`, are as they were. */
  ghost predicate LinksKept(mem: Mem, mem': Mem, place: Places, h: Head, e: Ptr) {
    forall x {:trigger Where(place, x)} :: x != e && Where(place, x) != In(h) ==>
      At(mem'.next, x) == At(mem.next, x) && At(mem'.prev, x) == At(mem.prev, x)
  }

  /** `mem` with `e` threaded in between `p` and `q`. */
  function Threaded(mem: Mem, p: Ptr, e: Ptr, q: Ptr): (r: Mem)
    ensures r.indx == mem.indx && r.bits == mem.bits
  {
    mem.(next := (if p != NULL then mem.next[p := e] else mem.next)[e := q],
         prev := (if q != NULL then mem.prev[q := e] else mem.prev)[e := p])
  }

  lemma ThreadedOk(mem: Mem, top: map<bool, Ptr>, limit: Ptr, g: Shape, h: Head, r: HeadRec, at: Index, k: nat, p: Ptr,
                   e: Ptr, q: Ptr)
    requires PoolOk(mem, top, limit, g) && ListOk(mem, g.place, h, r, at) && Fits(mem, g.place, at, e, k)
    requires p == ElementAt(at, Before(at, k)) && q == ElementAt(at, After(at, k)) && FromObstack(e) == r.usingObstack
    ensures ListOk(Threaded(mem, p, e, q), g.place[e := In(h)], h,
                   HeadRec(if p != NULL then r.first else e, e, k, r.usingObstack), at[k := e])
    ensures BlocksOf(mem.bits, at[k := e]) == BlocksOf(mem.bits, at)[k := BitsOf(mem.bits, e)]
    ensures LinksKept(mem, Threaded(mem, p, e, q), g.place, h, e)
    ensures PoolOk(Threaded(mem, p, e, q), top, limit, g.(place := g.place[e := In(h)]))
  {
    hide ListOk, PoolOk, LinksKept, BlocksOf, Fits, Threaded, ElementAt, After, Before;
    ThreadedList(mem, g.place, h, r, at, k, p, e, q);
    ThreadedPool(mem, top, limit, g, h, r, at, k, p, e, q);
  }

  lemma ThreadedList(mem: Mem, place: Places, h: Head, r: HeadRec, at: Index, k: nat, p: Ptr, e: Ptr, q: Ptr)
    requires ListOk(mem, place, h, r, at) && Fits(mem, place, at, e, k) && FromObstack(e) == r.usingObstack
    requires p == ElementAt(at, Before(at, k)) && q == ElementAt(at, After(at, k))
    ensures ListOk(Threaded(mem, p, e, q), place[e := In(h)], h,
                   HeadRec(if p != NULL then r.first else e, e, k, r.usingObstack), at[k := e])
    ensures BlocksOf(mem.bits, at[k := e]) == BlocksOf(mem.bits, at)[k := BitsOf(mem.bits, e)]
  {
    hide Next, Prev, AllBits, Nexts, Prevs, Fits;
    InsertOk(mem, Threaded(mem, p, e, q), place, h, r, at, k, e);
  }

  lemma ThreadedPool(mem: Mem, top: map<bool, Ptr>, limit: Ptr, g: Shape, h: Head, r: HeadRec, at: Index, k: nat,
                     p: Ptr, e: Ptr, q: Ptr)
    requires PoolOk(mem, top, limit, g) && ListOk(mem, g.place, h, r, at) && Fits(mem, g.place, at, e, k)
    requires p == ElementAt(at, Before(at, k)) && q == ElementAt(at, After(at, k))
    ensures LinksKept(mem, Threaded(mem, p, e, q), g.place, h, e)
    ensures PoolOk(Threaded(mem, p, e, q), top, limit, g.(place := g.place[e := In(h)]))
  {
    hide ListOk, After, Before, AllBits, FreeListOk, Threaded;
    AtIn(mem, g.place, h, r, at, Before(at, k));
    AtIn(mem, g.place, h, r, at, After(at, k));
    ThreadedKept(mem, g.place, h, p, e, q);
    PoolKept(mem, Threaded(mem, p, e, q), top, limit, g, g.(place := g.place[e := In(h)]));
  }

  lemma AtIn(mem: Mem, place: Places, h: Head, r: HeadRec, at: Index, n: int)
    requires ListOk(mem, place, h, r, at)
    ensures ElementAt(at, n) != NULL ==> Where(place, ElementAt(at, n)) == In(h)
  {
    hide Next, Prev, AllBits, Nexts, Prevs;
  }

  lemma ThreadedKept(mem: Mem, place: Places, h: Head, p: Ptr, e: Ptr, q: Ptr)
    requires p != NULL ==> Where(place, p) == In(h)
    requires q != NULL ==> Where(place, q) == In(h)
    ensures LinksKept(mem, Threaded(mem, p, e, q), place, h, e)
    ensures LinksKept(mem, Bypassed(mem, p, q), place, h, e)
  {
  }

  /** `mem` with the element between `p` and `q` bypassed. */
  function Bypassed(mem: Mem, p: Ptr, q: Ptr): (r: Mem)
    ensures r.indx == mem.indx && r.bits == mem.bits
  {
    mem.(next := if p != NULL then mem.next[p := q] else mem.next,
         prev := if q != NULL then mem.prev[q := p] else mem.prev)
  }

  lemma BypassedOk(mem: Mem, top: map<bool, Ptr>, limit: Ptr, g: Shape, h: Head, r: HeadRec, r': HeadRec, at: Index,
                   k: nat, p: Ptr, q: Ptr)
    requires PoolOk(mem, top, limit, g) && ListOk(mem, g.place, h, r, at) && k in at
    requires p == At(mem.prev, at[k]) && q == At(mem.next, at[k])
    requires r' == HeadRec(if r.first == at[k] then q else r.first,
                           if r.current == at[k] then (if q != NULL then q else p) else r.current,
                           if r.current == at[k] && (q != NULL || p != NULL)
                               then IndexOf(mem.indx, if q != NULL then q else p) else r.indx,
                           r.usingObstack)
    ensures ListOk(Bypassed(mem, p, q), g.place[at[k] := Loose], h, r', at - {k})
    ensures BlocksOf(mem.bits, at - {k}) == BlocksOf(mem.bits, at) - {k}
    ensures LinksKept(mem, Bypassed(mem, p, q), g.place, h, at[k])
    ensures PoolOk(Bypassed(mem, p, q), top, limit, g.(place := g.place[at[k] := Loose]))
  {
    hide Next, Prev, AllBits, FreeListOk, FromObstack;
    FirstOf(at, k);
    RemoveOk(mem, Bypassed(mem, p, q), g.place, h, r, r', at, k, Loose);
    PoolKept(mem, Bypassed(mem, p, q), top, limit, g, g.(place := g.place[at[k] := Loose]));
  }

  /** The cache may point to any element of the list. */
  lemma Recached(mem: Mem, place: Places, h: Head, r: HeadRec, at: Index, n: nat)
    requires ListOk(mem, place, h, r, at) && n in at
    ensures ListOk(mem, place, h, r.(current := at[n], indx := n), at)
  {
    hide Next, Prev, AllBits, Nexts, Prevs;
  }

  // ----- walking a list -----

  /** The part of a list from index `lo` on, entered at `x`, is intact and holds `b`. */
  ghost predicate Rest(mem: Mem, place: Places, pl: Place, at: Index, b: Blocks, lo: nat, x: Ptr) {
    && at.Keys == b.Keys
    && Elements(mem, place, pl, at, lo)
    && Nexts(mem.next, at, lo)
    && x == ElementAt(at, After(at, lo - 1))
    && (forall n :: n in at && lo <= n ==> BitsOf(mem.bits, at[n]) == b[n])
  }

  lemma RestOfList(mem: Mem, place: Places, h: Head, r: HeadRec, at: Index)
    requires ListOk(mem, place, h, r, at)
    ensures Rest(mem, place, In(h), at, BlocksOf(mem.bits, at), 0, r.first)
  {
    hide Next, Prev, AllBits;
  }

  /** Stepping over the first element of the rest of a list. */
  lemma RestStep(mem: Mem, place: Places, pl: Place, at: Index, b: Blocks, lo: nat, x: Ptr)
    requires Rest(mem, place, pl, at, b, lo, x) && x != NULL
    ensures lo <= IndexOf(mem.indx, x) < INDEX_LIMIT && Where(place, x) == pl
    ensures IndexOf(mem.indx, x) in at && at[IndexOf(mem.indx, x)] == x
    ensures x in mem.bits && at.Keys == b.Keys && {} != mem.bits[x] == b[IndexOf(mem.indx, x)] <= AllBits()
    ensures Rest(mem, place, pl, at, b, IndexOf(mem.indx, x) + 1, At(mem.next, x))
    ensures forall n :: n in at && lo <= n ==> IndexOf(mem.indx, x) <= n
  {
    var n := After(at, lo - 1);
    NextIs(at.Keys, lo - 1, n);
    assert At(mem.next, at[n]) == ElementAt(at, After(at, n));
  }

  /** The bound may move up to the first element left. */
  lemma RestUp(mem: Mem, place: Places, pl: Place, at: Index, b: Blocks, lo: nat, hi: nat, x: Ptr)
    requires Rest(mem, place, pl, at, b, lo, x) && lo <= hi
    requires x != NULL ==> hi <= IndexOf(mem.indx, x)
    ensures Rest(mem, place, pl, at, b, hi, x) && at.Keys == b.Keys
    ensures forall n :: n in at && lo <= n ==> hi <= n
  {
    var n := After(at, lo - 1);
    NextIs(at.Keys, lo - 1, n);
    NextIs(at.Keys, hi - 1, n);
  }

  lemma RestDone(mem: Mem, place: Places, pl: Place, at: Index, b: Blocks, lo: nat)
    requires Rest(mem, place, pl, at, b, lo, NULL)
    ensures forall n :: n in at ==> n < lo
  {
    NextIs(at.Keys, lo - 1, After(at, lo - 1));
  }

  /** The rest of a list whose elements are untouched is intact. */
  lemma RestKept(mem: Mem, place: Places, mem': Mem, place': Places, pl: Place, at: Index, b: Blocks, lo: nat, x: Ptr)
    requires Rest(mem, place, pl, at, b, lo, x)
    requires forall y :: Where(place, y) == pl && lo <= IndexOf(mem.indx, y) ==> Same(mem, place, mem', place', y)
    ensures Rest(mem', place', pl, at, b, lo, x)
  {
    hide Next, Prev, AllBits;
    forall n {:trigger At(mem'.next, at[n])} | n in at && lo <= n
      ensures At(mem'.next, at[n]) == ElementAt(at, After(at, n))
    {
      assert At(mem.next, at[n]) == ElementAt(at, After(at, n));
    }
  }

  // ----- cutting a list off -----

  /** All elements of the list of `h` become detached. */
  ghost function Detach(place: Places, h: Head): Places {
    map x | x in place :: if place[x] == In(h) then Detached else place[x]
  }

  lemma DetachOk(mem: Mem, top: map<bool, Ptr>, limit: Ptr, g: Shape, h: Head, r: HeadRec, at: Index)
    requires PoolOk(mem, top, limit, g) && ListOk(mem, g.place, h, r, at)
    requires forall x :: Where(g.place, x) != Detached && Where(g.place, x) != Loose
    ensures forall x :: Where(Detach(g.place, h), x) != Loose
    ensures PoolOk(mem, top, limit, g.(place := Detach(g.place, h)))
    ensures Leftovers(mem, Detach(g.place, h), at, 0)
  {
    hide Next, Prev, AllBits, FreeListOk;
    PoolKept(mem, mem, top, limit, g, g.(place := Detach(g.place, h)));
  }

  /** What is detached is in `at`, from index `lo` on. */
  ghost predicate Leftovers(mem: Mem, place: Places, at: Index, lo: nat) {
    forall x: Ptr :: Where(place, x) == Detached ==>
      lo <= IndexOf(mem.indx, x) && IndexOf(mem.indx, x) in at && at[IndexOf(mem.indx, x)] == x
  }

  lemma RestLimit(mem: Mem, place: Places, at: Index, b: Blocks, lo: nat, x: Ptr)
    requires Rest(mem, place, Detached, at, b, lo, x) && Leftovers(mem, place, at, lo)
    ensures forall x :: Where(place, x) == Detached ==> IndexOf(mem.indx, x) < INDEX_LIMIT
  {
    hide Next, Prev, AllBits;
  }

  lemma EmptyBlocks(bits: map<Ptr, set<nat>>)
    ensures BlocksOf(bits, map[]) == map[]
  {
  }

  lemma EmptyListOk(mem: Mem, place: Places, h: Head, n: nat, o: bool)
    requires forall x :: Where(place, x) != In(h)
    ensures ListOk(mem, place, h, HeadRec(NULL, NULL, n, o), map[])
    ensures BlocksOf(mem.bits, map[]) == map[]
  {
  }

  // ----- what rebuilding a list leaves alone -----

  /** `x` is on a list other than that of `to`, or detached from index `lo`
      on; -1 stands for no head. */
  ghost predicate Guarded(to: int, lo: nat, mem: Mem, place: Places, x: Ptr) {
    match Where(place, x)
    case In(h) => h != to
    case Detached => lo <= IndexOf(mem.indx, x)
    case _ => false
  }

  ghost predicate Kept(to: int, lo: nat, mem: Mem, place: Places, mem': Mem, place': Places) {
    && (forall x :: Guarded(to, lo, mem, place, x) ==> Same(mem, place, mem', place', x))
    && (forall x :: Where(place', x).In? && Where(place', x).h != to ==> Where(place, x) == Where(place', x))
  }

  lemma KeptTwice(to: int, lo: nat, mem: Mem, place: Places, mem1: Mem, place1: Places, mem2: Mem, place2: Places)
    requires Kept(to, lo, mem, place, mem1, place1) && Kept(to, lo, mem1, place1, mem2, place2)
    ensures Kept(to, lo, mem, place, mem2, place2)
  {
    forall x | Guarded(to, lo, mem, place, x)
      ensures Same(mem, place, mem2, place2, x)
    {
      assert Same(mem, place, mem1, place1, x);
      assert Guarded(to, lo, mem1, place1, x);
    }
  }

  lemma KeptSelf(to: int, lo: nat, mem: Mem, place: Places)
    ensures Kept(to, lo, mem, place, mem, place)
  {
  }

  lemma KeptLess(to: int, to': int, lo: nat, hi: nat, mem: Mem, place: Places, mem': Mem, place': Places)
    requires Kept(to, lo, mem, place, mem', place') && lo <= hi && (to' == to || to == -1)
    ensures Kept(to', hi, mem, place, mem', place')
  {
  }

  lemma KeptAt(to: int, lo: nat, mem: Mem, place: Places, mem': Mem, place': Places, x: Ptr)
    requires Kept(to, lo, mem, place, mem', place') && Guarded(to, lo, mem, place, x)
    ensures Same(mem, place, mem', place', x)
  {
  }

  /** Giving an element that is not guarded new bits and a new place. */
  lemma BitsKept(lo: nat, mem: Mem, place: Places, e: Ptr, r: set<nat>, pl: Place)
    requires !Guarded(-1, lo, mem, place, e) && !pl.In?
    ensures Kept(-1, lo, mem, place, mem.(bits := mem.bits[e := r]), place[e := pl])
  {
  }

  /** Putting a loose element on the list of `to`, or on a free list, with
      links changed only on that list. */
  lemma PlaceKept(to: Head, lo: nat, mem: Mem, place: Places, mem': Mem, e: Ptr, pl: Place)
    requires Where(place, e) == Loose && (pl == In(to) || pl.Freed?)
    requires forall x {:trigger Where(place, x)} :: x != e && Where(place, x) != In(to) ==>
               Same(mem, place, mem', place, x)
    ensures Kept(to, lo, mem, place, mem', place[e := pl])
  {
  }

  lemma LeftoversKept(to: int, mem: Mem, place: Places, mem': Mem, place': Places, at: Index, lo: nat)
    requires Leftovers(mem, place, at, lo) && Kept(to, lo, mem, place, mem', place')
    requires forall x :: Where(place', x) == Detached ==> Where(place, x) == Detached
    ensures Leftovers(mem', place', at, lo)
  {
    forall x: Ptr | Where(place', x) == Detached
      ensures IndexOf(mem'.indx, x) == IndexOf(mem.indx, x)
    {
      assert Guarded(to, lo, mem, place, x);
    }
  }

  lemma ListGuarded(to: int, lo: nat, mem: Mem, place: Places, mem': Mem, place': Places, h: Head, r: HeadRec,
                    at: Index)
    requires ListOk(mem, place, h, r, at) && Kept(to, lo, mem, place, mem', place') && h != to
    ensures ListOk(mem', place', h, r, at) && BlocksOf(mem'.bits, at) == BlocksOf(mem.bits, at)
  {
    hide ListOk;
    forall x | Where(place, x) == In(h)
      ensures Same(mem, place, mem', place', x)
    {
      assert Guarded(to, lo, mem, place, x);
    }
    ListKept(mem, place, mem', place', h, r, at);
  }

  lemma RestGuarded(to: int, mem: Mem, place: Places, mem': Mem, place': Places, pl: Place, at: Index, b: Blocks,
                    lo: nat, x: Ptr)
    requires Rest(mem, place, pl, at, b, lo, x) && Kept(to, lo, mem, place, mem', place')
    requires pl == Detached || (pl.In? && pl.h != to)
    ensures Rest(mem', place', pl, at, b, lo, x)
  {
    hide Rest;
    forall y | Where(place, y) == pl && lo <= IndexOf(mem.indx, y)
      ensures Same(mem, place, mem', place', y)
    {
      assert Guarded(to, lo, mem, place, y);
    }
    RestKept(mem, place, mem', place', pl, at, b, lo, x);
  }

  // ----- freeing a whole chain at once -----

  /** `w` is a chain of detached elements whose last link leads to `x`. */
  ghost predicate Chain(next: map<Ptr, Ptr>, place: Places, w: seq<Ptr>, x: Ptr) {
    && (forall i :: 0 <= i < |w| ==> Where(place, w[i]) == Detached && w[i] in next)
    && (forall i, j :: 0 <= i < j < |w| ==> w[i] != w[j])
    && (forall i {:trigger next[w[i]]} :: 0 <= i < |w| ==> next[w[i]] == if i == |w| - 1 then x else w[i + 1])
  }

  /** `w` holds the detached elements of `t` with indices from `lo` up to `j`,
      each linked to the next. */
  ghost predicate Walked(mem: Mem, place: Places, t: Index, w: seq<Ptr>, lo: nat, j: nat) {
    && w != []
    && (forall i :: 0 <= i < |w| ==> Where(place, w[i]) == Detached && IndexOf(mem.indx, w[i]) < j)
    && (forall i, k :: 0 <= i < k < |w| ==> w[i] != w[k])
    && (forall i {:trigger At(mem.next, w[i])} :: 0 <= i < |w| - 1 ==> At(mem.next, w[i]) == w[i + 1] != NULL)
    && (forall n :: n in t && lo <= n < j ==> t[n] in w)
  }

  lemma WalkedMore(mem: Mem, place: Places, t: Index, w: seq<Ptr>, lo: nat, j: nat, x: Ptr, n: nat)
    requires Walked(mem, place, t, w, lo, j) && x == At(mem.next, w[|w| - 1]) != NULL
    requires Where(place, x) == Detached && IndexOf(mem.indx, x) == n >= j && n in t && t[n] == x
    requires forall m :: m in t && j <= m ==> n <= m
    ensures Walked(mem, place, t, w + [x], lo, n + 1)
  {
    var v := w + [x];
    forall i {:trigger At(mem.next, v[i])} | 0 <= i < |v| - 1
      ensures At(mem.next, v[i]) == v[i + 1] != NULL
    {
      if i < |w| - 1 {
        assert At(mem.next, w[i]) == w[i + 1] != NULL;
      }
    }
    forall m | m in t && lo <= m < n + 1
      ensures t[m] in v
    {
      assert m < j || m == n;
      assert v[|w|] == x;
    }
  }

  lemma WalkedAll(mem: Mem, place: Places, t: Index, w: seq<Ptr>, lo: nat, j: nat, v: Ptr)
    requires Walked(mem, place, t, w, lo, j) && Leftovers(mem, place, t, lo) && forall n :: n in t ==> n < j
    ensures Chain(mem.next[w[|w| - 1] := v], place, w, v)
    ensures forall x :: x in w <==> Where(place, x) == Detached
  {
    var next := mem.next[w[|w| - 1] := v];
    forall i {:trigger next[w[i]]} | 0 <= i < |w|
      ensures w[i] in next && next[w[i]] == if i == |w| - 1 then v else w[i + 1]
    {
      if i < |w| - 1 {
        assert At(mem.next, w[i]) == w[i + 1] != NULL;
      }
    }
    assert forall x :: Where(place, x) == Detached ==> x in w;
    assert forall x :: x in w ==> Where(place, x) == Detached;
  }

  ghost function Released(place: Places, w: seq<Ptr>, o: bool): Places {
    if w == [] then place else Released(place, w[1..], o)[w[0] := Freed(o)]
  }

  lemma {:induction false} ReleasedAt(place: Places, w: seq<Ptr>, o: bool, x: Ptr)
    ensures Where(Released(place, w, o), x) == if x in w then Freed(o) else Where(place, x)
  {
    if w != [] {
      ReleasedAt(place, w[1..], o, x);
      assert w == [w[0]] + w[1..];
    }
  }

  lemma ChainTail(next: map<Ptr, Ptr>, place: Places, w: seq<Ptr>, x: Ptr)
    requires Chain(next, place, w, x) && w != []
    ensures Chain(next, place, w[1..], x)
  {
    var v := w[1..];
    forall i {:trigger next[v[i]]} | 0 <= i < |v|
      ensures next[v[i]] == if i == |v| - 1 then x else v[i + 1]
    {
      assert next[w[i + 1]] == if i + 1 == |w| - 1 then x else w[i + 2];
    }
  }

  /** A chain that leads to the free list may be put in front of it as a whole. */
  lemma {:induction false} SpliceOk(mem: Mem, top: map<bool, Ptr>, limit: Ptr, g: Shape, o: bool, w: seq<Ptr>)
      returns (g': Shape)
    requires PoolOk(mem, top, limit, g) && w != [] && Chain(mem.next, g.place, w, top[o])
    requires forall i :: 0 <= i < |w| ==> FromObstack(w[i]) == o
    ensures PoolOk(mem, top[o := w[0]], limit, g') && g'.place == Released(g.place, w, o)
  {
    hide FreeOk, Bounded;
    var e, g1, top1 := w[0], g, top;
    assert Where(g.place, e) == Detached && e in mem.next && mem.next[w[0]] == if |w| == 1 then top[o] else w[1];
    if |w| > 1 {
      ChainTail(mem.next, g.place, w, top[o]);
      g1 := SpliceOk(mem, top, limit, g, o, w[1..]);
      top1 := top[o := w[1]];
    }
    ReleasedAt(g.place, w[1..], o, e);
    PushOk(mem, top1, limit, g1, o, e);
    assert mem.next[e := top1[o]] == mem.next;
    assert mem.(next := mem.next[e := top1[o]]) == mem;
    assert top1[o := e] == top[o := e];
    g' := Pushed(g1, o, e);
  }

  // ----- heads -----

  /** Only head `h` changed, and not its kind of allocation. */
  ghost predicate OnlyHead(h: Head, heads: map<Head, HeadRec>, at: map<Head, Index>, heads': map<Head, HeadRec>,
                           at': map<Head, Index>) {
    && h in heads && h in heads' && h in at && h in at'
    && heads'[h].usingObstack == heads[h].usingObstack
    && heads' == heads[h := heads'[h]] && at' == at[h := at'[h]]
  }

  lemma OnlyHeadSet(h: Head, heads: map<Head, HeadRec>, at: map<Head, Index>, r: HeadRec, l: Index)
    requires h in heads && h in at && r.usingObstack == heads[h].usingObstack
    ensures OnlyHead(h, heads, at, heads[h := r], at[h := l])
  {
  }

  lemma OnlyHeadKind(h: Head, heads: map<Head, HeadRec>, at: map<Head, Index>, heads': map<Head, HeadRec>,
                     at': map<Head, Index>)
    requires OnlyHead(h, heads, at, heads', at')
    ensures h in heads && h in heads' && heads'[h].usingObstack == heads[h].usingObstack
  {
  }

  lemma OnlyHeadTwice(h: Head, heads: map<Head, HeadRec>, at: map<Head, Index>, heads1: map<Head, HeadRec>,
                      at1: map<Head, Index>,
                      heads2: map<Head, HeadRec>, at2: map<Head, Index>)
    requires OnlyHead(h, heads, at, heads1, at1) && OnlyHead(h, heads1, at1, heads2, at2)
    ensures OnlyHead(h, heads, at, heads2, at2)
  {
  }

  lemma BelowKeys(bits: map<Ptr, set<nat>>, at: Index, c: Blocks, lo: nat, n: nat)
    requires BlocksOf(bits, at) == Below(c, lo) && lo <= n
    ensures n !in at
  {
    assert n !in BlocksOf(bits, at);
  }

  ghost predicate ListsOk(mem: Mem, place: Places, heads: map<Head, HeadRec>, at: map<Head, Index>) {
    && at.Keys == heads.Keys
    && (forall h {:trigger ListOk(mem, place, h, heads[h], at[h])} :: h in heads ==>
          ListOk(mem, place, h, heads[h], at[h]))
  }

  /** Every element is unused, on a free list, or on the list of a head. */
  ghost predicate Settled(place: Places, heads: map<Head, HeadRec>) {
    forall x :: match Where(place, x)
                case Nowhere => true
                case Freed(_) => true
                case In(h) => h in heads
                case _ => false
  }

  /** The block maps of all heads. */
  ghost function ContentsOf(bits: map<Ptr, set<nat>>, at: map<Head, Index>): map<Head, Blocks> {
    map h | h in at :: BlocksOf(bits, at[h])
  }

  /** When the list of `to` alone was rebuilt, all lists are well formed and the
      others hold what they held. */
  lemma ListsBut(to: Head, lo: nat, mem: Mem, place: Places, mem': Mem, place': Places,
                 heads: map<Head, HeadRec>, at: map<Head, Index>, heads': map<Head, HeadRec>, at': map<Head, Index>)
    requires ListsOk(mem, place, heads, at) && OnlyHead(to, heads, at, heads', at')
             && Kept(to, lo, mem, place, mem', place')
    requires ListOk(mem', place', to, heads'[to], at'[to])
    ensures ListsOk(mem', place', heads', at')
    ensures ContentsOf(mem'.bits, at') == ContentsOf(mem.bits, at)[to := BlocksOf(mem'.bits, at'[to])]
  {
    hide ListOk, Kept, BlocksOf;
    forall h | h in heads && h != to
      ensures ListOk(mem', place', h, heads'[h], at'[h]) && BlocksOf(mem'.bits, at'[h]) == BlocksOf(mem.bits, at[h])
    {
      assert ListOk(mem, place, h, heads[h], at[h]);
      ListGuarded(to, lo, mem, place, mem', place', h, heads[h], at[h]);
    }
    ContentsBut(to, mem.bits, mem'.bits, at, at');
  }

  lemma ContentsBut(to: Head, bits: map<Ptr, set<nat>>, bits': map<Ptr, set<nat>>, at: map<Head, Index>,
                    at': map<Head, Index>)
    requires to in at && at'.Keys == at.Keys
    requires forall h :: h in at && h != to ==> BlocksOf(bits', at'[h]) == BlocksOf(bits, at[h])
    ensures ContentsOf(bits', at') == ContentsOf(bits, at)[to := BlocksOf(bits', at'[to])]
  {
    hide BlocksOf;
  }

  lemma DetachKept(to: Head, lo: nat, mem: Mem, place: Places)
    requires forall x :: Where(place, x) != Detached
    ensures Kept(to, lo, mem, place, mem, Detach(place, to))
  {
  }

  /** A source after the list of `to` was cut off: detached if it is that list. */
  lemma SourceCut(mem: Mem, place: Places, to: Head, h: Head, r: HeadRec, at: Index)
    requires ListOk(mem, place, h, r, at) && forall x :: Where(place, x) != Detached
    ensures Rest(mem, Detach(place, to), if h == to then Detached else In(h), at, BlocksOf(mem.bits, at), 0, r.first)
  {
    hide ListOk, Rest, Kept, Nexts;
    RestOfList(mem, place, h, r, at);
    if h != to {
      DetachKept(to, 0, mem, place);
      RestGuarded(to, mem, place, mem, Detach(place, to), In(h), at, BlocksOf(mem.bits, at), 0, r.first);
    } else {
      RestMoved(mem, place, to, at, BlocksOf(mem.bits, at), r.first);
    }
  }

  lemma RestMoved(mem: Mem, place: Places, to: Head, at: Index, b: Blocks, x: Ptr)
    requires Rest(mem, place, In(to), at, b, 0, x)
    ensures Rest(mem, Detach(place, to), Detached, at, b, 0, x)
  {
    hide Next, Prev, AllBits, Nexts;
  }

  lemma BlocksCanonical(mem: Mem, place: Places, h: Head, r: HeadRec, at: Index)
    requires ListOk(mem, place, h, r, at)
    ensures Canonical(BlocksOf(mem.bits, at))
  {
    hide Next, Prev, AllBits, Nexts, Prevs;
  }

  lemma SettledBut(to: Head, lo: nat, mem: Mem, place: Places, mem': Mem, place': Places,
                   heads: map<Head, HeadRec>, heads': map<Head, HeadRec>)
    requires Settled(place, heads) && Kept(to, lo, mem, place, mem', place') && heads.Keys == heads'.Keys && to in heads
    requires forall x :: Where(place', x) != Loose && Where(place', x) != Detached
    ensures Settled(place', heads')
  {
  }

  /** An element of a list may get other bits, as long as it keeps some. */
  lemma BitsUpdated(mem: Mem, place: Places, h: Head, r: HeadRec, at: Index, n: nat, b: set<nat>)
    requires ListOk(mem, place, h, r, at) && n in at && b != {}
    requires BitsOf(mem.bits, at[n]) <= AllBits() ==> b <= AllBits()
    ensures at[n] != NULL && n in BlocksOf(mem.bits, at) && BitsOf(mem.bits, at[n]) == BlocksOf(mem.bits, at)[n]
    ensures ListOk(mem.(bits := mem.bits[at[n] := b]), place, h, r, at)
    ensures BlocksOf(mem.bits[at[n] := b], at) == BlocksOf(mem.bits, at)[n := b]
    ensures Kept(h, INDEX_LIMIT, mem, place, mem.(bits := mem.bits[at[n] := b]), place)
  {
    hide Next, Prev, AllBits, Nexts, Prevs;
  }

  /** A newly allocated element, with some bits set. */
  lemma FreshKept(mem: Mem, place: Places, bits: map<Ptr, set<nat>>, e: Ptr, r: set<nat>)
    requires bits == mem.bits[e := {}] && (Where(place, e) == Nowhere || Where(place, e).Freed?)
    ensures Kept(-1, INDEX_LIMIT, mem, place, mem.(bits := bits[e := r]), place[e := Loose])
  {
    assert bits[e := r] == mem.bits[e := r];
    BitsKept(INDEX_LIMIT, mem, place, e, r, Loose);
  }

  /** Freeing an element in hand touches no list. */
  lemma ListPushed(mem: Mem, place: Places, h: Head, r: HeadRec, at: Index, e: Ptr, x: Ptr, o: bool)
    requires ListOk(mem, place, h, r, at) && Where(place, e) == Loose
    ensures ListOk(mem.(next := mem.next[e := x]), place[e := Freed(o)], h, r, at)
  {
    hide ListOk;
    ListKept(mem, place, mem.(next := mem.next[e := x]), place[e := Freed(o)], h, r, at);
  }

  /** No element is in hand or detached. */
  ghost predicate Quiet(place: Places) {
    forall x :: Where(place, x) != Loose && Where(place, x) != Detached
  }

  lemma QuietAgain(place: Places, e: Ptr, pl: Place)
    requires Quiet(place) && pl != Loose && pl != Detached
    ensures Quiet(place[e := Loose][e := pl])
  {
    var place' := place[e := Loose][e := pl];
    forall x
      ensures Where(place', x) != Loose && Where(place', x) != Detached
    {
      assert Where(place, x) != Loose && Where(place, x) != Detached;
    }
  }

  lemma BlocksAt(bits: map<Ptr, set<nat>>, at: Index, n: nat)
    requires n in at
    ensures n in BlocksOf(bits, at) && BlocksOf(bits, at)[n] == BitsOf(bits, at[n])
  {
  }

  /** The neighbours of an element of a list have an index. */
  lemma NeighbourIndex(mem: Mem, place: Places, h: Head, r: HeadRec, at: Index, n: nat)
    requires ListOk(mem, place, h, r, at) && n in at
    ensures Where(place, at[n]) == In(h)
    ensures At(mem.next, at[n]) != NULL ==> At(mem.next, at[n]) in mem.indx
    ensures At(mem.prev, at[n]) != NULL ==> At(mem.prev, at[n]) in mem.indx
  {
    hide Next, Prev, AllBits;
  }

  /** Taking an element of the list of `h` out and freeing it touches no other list. */
  lemma FreedKept(mem: Mem, place: Places, mem': Mem, h: Head, e: Ptr, p: Ptr, q: Ptr, o: bool)
    requires Where(place, e) == In(h) && LinksKept(mem, Bypassed(mem, p, q), place, h, e)
    requires mem'.prev == Bypassed(mem, p, q).prev && mem'.indx == mem.indx && mem'.bits == mem.bits
    requires forall x :: x != e ==> At(mem'.next, x) == At(Bypassed(mem, p, q).next, x)
    ensures Kept(h, INDEX_LIMIT, mem, place, mem', place[e := Loose][e := Freed(o)])
  {
  }

  // ----- appending -----

  lemma CopiedKept(mem: Mem, place: Places, mem1: Mem, e: Ptr, k: nat, r: set<nat>)
    requires mem1 == mem.(bits := mem.bits[e := {}]) && (Where(place, e) == Nowhere || Where(place, e).Freed?)
    ensures Kept(-1, INDEX_LIMIT, mem, place, mem1.(indx := mem.indx[e := k], bits := mem1.bits[e := r]),
                 place[e := Loose])
  {
  }

  /** Beyond the last index there is nothing. */
  lemma AtEnd(at: Index, k: nat)
    requires forall n :: n in at ==> n < k
    ensures After(at, k) == -1
  {
    NextIs(at.Keys, k, -1);
  }

  lemma PlaceLinksKept(to: Head, mem: Mem, place: Places, mem': Mem, e: Ptr)
    requires Where(place, e) == Loose && LinksKept(mem, mem', place, to, e) && mem'.indx == mem.indx
             && mem'.bits == mem.bits
    ensures Kept(to, INDEX_LIMIT, mem, place, mem', place[e := In(to)])
  {
  }

  /** The cache of a nonempty list. */
  lemma CacheIn(mem: Mem, place: Places, h: Head, r: HeadRec, at: Index, k: nat)
    requires ListOk(mem, place, h, r, at) && ElementAt(at, Before(at, k)) != NULL
    ensures r.indx in at && r.current == at[r.indx]
  {
    hide Next, Prev, AllBits, Nexts, Prevs;
  }

  lemma LastOf(at: Index, k: nat, e: Ptr, n: nat)
    requires (forall m :: m in at ==> m < k) && k < n
    ensures Before(at[k := e], n) == k
  {
    PrevIs(at[k := e].Keys, n, k);
  }

  lemma RestInKept(to: Head, kl: nat, mem: Mem, place: Places, mem': Mem, place': Places, h: Head, at: Index, b: Blocks,
                   lo: nat, x: Ptr)
    requires Rest(mem, place, In(h), at, b, lo, x) && Kept(to, kl, mem, place, mem', place') && h != to
    ensures Rest(mem', place', In(h), at, b, lo, x)
  {
    hide Rest;
    forall y | Where(place, y) == In(h) && lo <= IndexOf(mem.indx, y)
      ensures Same(mem, place, mem', place', y)
    {
      assert Guarded(to, kl, mem, place, y);
    }
    RestKept(mem, place, mem', place', In(h), at, b, lo, x);
  }

  lemma KeptNext(to: Head, mem: Mem, place: Places, mem': Mem, place': Places, x: Ptr)
    requires Kept(to, INDEX_LIMIT, mem, place, mem', place') && Where(place, x).In? && Where(place, x).h != to
    ensures At(mem'.next, x) == At(mem.next, x)
  {
    assert Guarded(to, INDEX_LIMIT, mem, place, x);
  }

  lemma LowerBound(at: Index, lo: nat, k: nat)
    requires (forall n :: n in at ==> n < lo) && lo <= k
    ensures Before(at, k) == Before(at, lo)
  {
    PrevIs(at.Keys, lo, Before(at, lo));
    PrevIs(at.Keys, k, Before(at, lo));
  }

  lemma EmptyFirst(mem: Mem, place: Places, h: Head, r: HeadRec, at: Index)
    requires ListOk(mem, place, h, r, at)
    ensures r.first == NULL <==> at == map[]
    ensures r.first == NULL ==> BlocksOf(mem.bits, at) == map[]
  {
    NextIs(at.Keys, -1, After(at, -1));
  }

  lemma NoneIn(mem: Mem, place: Places, h: Head, r: HeadRec, at: Index)
    requires ListOk(mem, place, h, r, at) && at == map[]
    ensures forall x :: Where(place, x) != In(h)
  {
  }
}
