/**
 Expansion of `x**n` for a constant integer `n` (builtins.c): the cost
 predictor `powi_cost` and the code generator `expand_powi`, which must be
 kept in step.
 */
module Powi {
  import opened PowerTree
  import opened PowerTreeCost

  /** `1 << POWI_WINDOW_SIZE` */
  const RADIX: nat := 8

  // ----- the predictor -----

  /** The exponents marked in a cache. */
  ghost function Marked(cache: seq<bool>): set<nat> {
    set i: nat | i < |cache| && cache[i]
  }

  /** Every marked exponent up to `n` has all it needs marked. */
  ghost predicate ClosedUpTo(c: set<nat>, n: nat) {
    forall m :: m in c && m <= n ==> 0 < m < TABLE_SIZE && Closure(m) <= c
  }

  /** `powi_lookup_cost`. The two recursive calls may come in either order: the
      marks and the count do not depend on it. */
  method LookupCost(n: nat, cache: array<bool>) returns (cost: nat)
    requires 0 < n < TABLE_SIZE == cache.Length
    requires 1 in Marked(cache[..]) && ClosedUpTo(Marked(cache[..]), n)
    modifies cache
    ensures Marked(cache[..]) == old(Marked(cache[..])) + Closure(n)
    ensures cost == |Marked(cache[..])| - |old(Marked(cache[..]))|
    decreases n
  {
    hide Table, Closure, Marked, ClosedUpTo;
    ghost var s := Marked(cache[..]);
    MarkedAt(cache[..], n);
    if cache[n] {
      ClosedHas(s, n);
      assert s + Closure(n) == s;
      return 0;
    }
    TableSplits2(n);
    MarkOne(cache[..], n);
    cache[n] := true;
    assert cache[..] == old(cache[..])[n := true];
    ClosedOne(s, n, n - Table(n));
    var c1 := LookupCost(n - Table(n), cache);
    ClosedAgain(s, n, n - Table(n), Table(n));
    var c2 := LookupCost(Table(n), cache);
    cost := c1 + c2 + 1;
  }

  lemma MarkedAt(c: seq<bool>, n: nat)
    requires n < |c|
    ensures n in Marked(c) <==> c[n]
  {
  }

  lemma MarkOne(c: seq<bool>, n: nat)
    requires n < |c|
    ensures Marked(c[n := true]) == Marked(c) + {n}
  {
  }

  lemma ClosedHas(s: set<nat>, n: nat)
    requires ClosedUpTo(s, n) && n in s
    ensures 0 < n < TABLE_SIZE && Closure(n) <= s
  {
  }

  lemma ClosedOne(s: set<nat>, n: nat, b: nat)
    requires ClosedUpTo(s, n) && b < n
    ensures ClosedUpTo(s + {n}, b)
  {
    hide Closure;
  }

  lemma TableSplits2(n: nat)
    requires 1 < n < TABLE_SIZE
    ensures 0 < Table(n) < n && Closure(n) == {n} + Closure(n - Table(n)) + Closure(Table(n))
  {
    hide Table;
    TableSplits(n);
  }

  lemma ClosedAgain(s: set<nat>, n: nat, a: nat, b: nat)
    requires 0 < a < n && 0 < b < n < TABLE_SIZE && ClosedUpTo(s, n)
    ensures ClosedUpTo(s + {n} + Closure(a), b)
  {
    hide Closure, Table;
    forall m | m in s + {n} + Closure(a) && m <= b
      ensures 0 < m < TABLE_SIZE && Closure(m) <= s + {n} + Closure(a)
    {
      if m in Closure(a) {
        ClosureClosed(a);
        ClosureIn(m, Closure(a));
      } else {
        assert m in s;
      }
    }
  }

  // ----- what the predictor counts -----

  /** The table exponents `powi_cost` looks up, with all they need. */
  ghost function CostSet(n: nat): (c: set<nat>)
    requires 0 < n
    ensures 1 in c
  {
    if n < TABLE_SIZE then Closure(n)
    else if n % 2 == 1 then Closure(n % RADIX) + CostSet(n / RADIX)
    else CostSet(n / 2)
  }

  /** The multiplications it adds for whole windows and single shifts. */
  function CostShifts(n: nat): nat {
    if n < TABLE_SIZE then 0
    else if n % 2 == 1 then 4 + CostShifts(n / RADIX)
    else 1 + CostShifts(n / 2)
  }

  /** The number of multiplications for the exponent `n`. */
  ghost function Mults(n: nat): int {
    if n == 0 then 0 else |CostSet(n)| - 1 + CostShifts(n)
  }

  function Abs(n: int): nat {
    if n < 0 then -n else n
  }

  /** `powi_cost` */
  method PowiCost(n: int) returns (result: nat)
    ensures result == Mults(Abs(n))
  {
    hide Closure, Table;
    if n == 0 {
      return 0;
    }
    var val: nat := Abs(n);
    var cache := new bool[TABLE_SIZE](_ => false);
    cache[1] := true;
    result := 0;
    OneClosed();
    assert Marked(cache[..]) == {1};
    assert {1} + CostSet(val) == CostSet(val);
    while val >= TABLE_SIZE
      invariant 0 < val
      invariant 1 in Marked(cache[..]) && ClosedUpTo(Marked(cache[..]), TABLE_SIZE)
      invariant Marked(cache[..]) + CostSet(val) == CostSet(Abs(n))
      invariant result + CostShifts(val) == |Marked(cache[..])| - 1 + CostShifts(Abs(n))
      decreases val
    {
      ghost var s := Marked(cache[..]);
      if val % 2 == 1 {
        var digit := val % RADIX;
        AllClosed(s, digit);
        var c := LookupCost(digit, cache);
        ClosedMore(s, digit);
        assert (s + Closure(digit)) + CostSet(val / RADIX) == s + CostSet(val);
        result := result + c + 3 + 1;
        val := val / RADIX;
      } else {
        val := val / 2;
        result := result + 1;
      }
    }
    AllClosed(Marked(cache[..]), val);
    var c := LookupCost(val, cache);
    result := result + c;
  }

  lemma OneClosed()
    ensures ClosedUpTo({1}, TABLE_SIZE)
  {
    hide Table;
  }

  lemma AllClosed(s: set<nat>, n: nat)
    requires ClosedUpTo(s, TABLE_SIZE) && n <= TABLE_SIZE
    ensures ClosedUpTo(s, n)
  {
    hide Closure;
  }

  lemma ClosedMore(s: set<nat>, a: nat)
    requires 0 < a < TABLE_SIZE && ClosedUpTo(s, TABLE_SIZE)
    ensures ClosedUpTo(s + Closure(a), TABLE_SIZE)
  {
    hide Closure, Table;
    forall m | m in s + Closure(a) && m <= TABLE_SIZE
      ensures 0 < m < TABLE_SIZE && Closure(m) <= s + Closure(a)
    {
      if m in Closure(a) {
        ClosureClosed(a);
        ClosureIn(m, Closure(a));
      }
    }
  }
}
