/**
 Neighbours in a finite set of indices: the least member above a position and
 the greatest member below it, and how they change when a member comes or goes.
 */
module Neighbours {

  ghost predicate IsNext(s: set<nat>, n: int, m: int) {
    if m < 0 then m == -1 && forall j :: j in s ==> j <= n
    else m in s && n < m && forall j :: j in s ==> j <= n || m <= j
  }

  ghost predicate IsPrev(s: set<nat>, n: int, m: int) {
    if m < 0 then m == -1 && forall j :: j in s ==> n <= j
    else m in s && m < n && forall j :: j in s ==> j <= m || n <= j
  }

  lemma {:induction false} FindNext(s: set<nat>, n: int) returns (m: int)
    ensures IsNext(s, n, m)
  {
    m := -1;
    if j :| j in s {
      assert s == (s - {j}) + {j};
      m := FindNext(s - {j}, n);
      m := if n < j && (m < 0 || j < m) then j else m;
    }
  }

  lemma {:induction false} FindPrev(s: set<nat>, n: int) returns (m: int)
    ensures IsPrev(s, n, m)
  {
    m := -1;
    if j :| j in s {
      assert s == (s - {j}) + {j};
      m := FindPrev(s - {j}, n);
      m := if j < n && m < j then j else m;
    }
  }

  lemma NextExists(s: set<nat>, n: int)
    ensures exists m :: IsNext(s, n, m)
  {
    var m := FindNext(s, n);
  }

  lemma PrevExists(s: set<nat>, n: int)
    ensures exists m :: IsPrev(s, n, m)
  {
    var m := FindPrev(s, n);
  }

  /** The least member above `n`, -1 if there is none. */
  ghost function Next(s: set<nat>, n: int): (m: int)
    ensures m == -1 || (m in s && n < m)
  {
    NextExists(s, n);
    var m :| IsNext(s, n, m);
    m
  }

  /** The greatest member below `n`, -1 if there is none. */
  ghost function Prev(s: set<nat>, n: int): (m: int)
    ensures m == -1 || (m in s && m < n)
  {
    PrevExists(s, n);
    var m :| IsPrev(s, n, m);
    m
  }

  lemma NextIs(s: set<nat>, n: int, m: int)
    ensures IsNext(s, n, m) <==> Next(s, n) == m
  {
    NextExists(s, n);
    var k := Next(s, n);
    assert IsNext(s, n, k);
  }

  lemma PrevIs(s: set<nat>, n: int, m: int)
    ensures IsPrev(s, n, m) <==> Prev(s, n) == m
  {
    PrevExists(s, n);
    var k := Prev(s, n);
    assert IsPrev(s, n, k);
  }

  /** The neighbours of the other members when `k` joins. */
  lemma Join(s: set<nat>, k: nat, n: int)
    requires k !in s && n != k && (n in s || n == -1)
    ensures Next(s + {k}, n) == if n == Prev(s, k) then k else Next(s, n)
    ensures n >= 0 ==> Prev(s + {k}, n) == if n == Next(s, k) then k else Prev(s, n)
    ensures Next(s + {k}, k) == Next(s, k) && Prev(s + {k}, k) == Prev(s, k)
  {
    NextIs(s, n, Next(s, n));
    PrevIs(s, n, Prev(s, n));
    NextIs(s, k, Next(s, k));
    PrevIs(s, k, Prev(s, k));
    NextIs(s + {k}, n, if n == Prev(s, k) then k else Next(s, n));
    PrevIs(s + {k}, n, if n == Next(s, k) then k else Prev(s, n));
    NextIs(s + {k}, k, Next(s, k));
    PrevIs(s + {k}, k, Prev(s, k));
  }

  /** The neighbours of the other members when `k` leaves. */
  lemma Leave(s: set<nat>, k: nat, n: int)
    requires k in s && n != k && (n in s || n == -1)
    ensures Next(s - {k}, n) == if n == Prev(s, k) then Next(s, k) else Next(s, n)
    ensures n >= 0 ==> Prev(s - {k}, n) == if n == Next(s, k) then Prev(s, k) else Prev(s, n)
  {
    NextIs(s, n, Next(s, n));
    PrevIs(s, n, Prev(s, n));
    NextIs(s, k, Next(s, k));
    PrevIs(s, k, Prev(s, k));
    NextIs(s - {k}, n, if n == Prev(s, k) then Next(s, k) else Next(s, n));
    PrevIs(s - {k}, n, if n == Next(s, k) then Prev(s, k) else Prev(s, n));
  }
}
