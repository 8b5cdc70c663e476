/**
 The optimal power tree of builtins.c: for an exponent `n` below 256, `x**n` is
 computed as `x**Table(n) * x**(n - Table(n))`.
 */
module PowerTree {
  import opened Helpers

  const TABLE_SIZE: nat := 256

  function Table0(n: nat): nat
    requires 0 <= n < 64
  {
    if n < 8 then [0, 1, 1, 2, 2, 3, 3, 4][n - 0] else
    if n < 16 then [4, 6, 5, 6, 6, 10, 7, 9][n - 8] else
    if n < 24 then [8, 16, 9, 16, 10, 12, 11, 13][n - 16] else
    if n < 32 then [12, 17, 13, 18, 14, 24, 15, 26][n - 24] else
    if n < 40 then [16, 17, 17, 19, 18, 33, 19, 26][n - 32] else
    if n < 48 then [20, 25, 21, 40, 22, 27, 23, 44][n - 40] else
    if n < 56 then [24, 32, 25, 34, 26, 29, 27, 44][n - 48] else
    [28, 31, 29, 34, 30, 60, 31, 36][n - 56]
  }

  function Table1(n: nat): nat
    requires 64 <= n < 128
  {
    if n < 72 then [32, 64, 33, 34, 34, 46, 35, 37][n - 64] else
    if n < 80 then [36, 65, 37, 50, 38, 48, 39, 69][n - 72] else
    if n < 88 then [40, 49, 41, 43, 42, 51, 43, 58][n - 80] else
    if n < 96 then [44, 64, 45, 47, 46, 59, 47, 76][n - 88] else
    if n < 104 then [48, 65, 49, 66, 50, 67, 51, 66][n - 96] else
    if n < 112 then [52, 70, 53, 74, 54, 104, 55, 74][n - 104] else
    if n < 120 then [56, 64, 57, 69, 58, 78, 59, 68][n - 112] else
    [60, 61, 61, 80, 62, 75, 63, 68][n - 120]
  }

  function Table2(n: nat): nat
    requires 128 <= n < 192
  {
    if n < 136 then [64, 65, 65, 128, 66, 129, 67, 90][n - 128] else
    if n < 144 then [68, 73, 69, 131, 70, 94, 71, 88][n - 136] else
    if n < 152 then [72, 128, 73, 98, 74, 132, 75, 121][n - 144] else
    if n < 160 then [76, 102, 77, 124, 78, 132, 79, 106][n - 152] else
    if n < 168 then [80, 97, 81, 160, 82, 99, 83, 134][n - 160] else
    if n < 176 then [84, 86, 85, 95, 86, 160, 87, 100][n - 168] else
    if n < 184 then [88, 113, 89, 98, 90, 107, 91, 122][n - 176] else
    [92, 111, 93, 102, 94, 126, 95, 150][n - 184]
  }

  function Table3(n: nat): nat
    requires 192 <= n < 256
  {
    if n < 200 then [96, 128, 97, 130, 98, 133, 99, 195][n - 192] else
    if n < 208 then [100, 128, 101, 123, 102, 164, 103, 138][n - 200] else
    if n < 216 then [104, 145, 105, 146, 106, 109, 107, 149][n - 208] else
    if n < 224 then [108, 200, 109, 146, 110, 170, 111, 157][n - 216] else
    if n < 232 then [112, 128, 113, 130, 114, 182, 115, 132][n - 224] else
    if n < 240 then [116, 200, 117, 132, 118, 158, 119, 206][n - 232] else
    if n < 248 then [120, 240, 121, 162, 122, 147, 123, 152][n - 240] else
    [124, 166, 125, 214, 126, 138, 127, 153][n - 248]
  }

  /** `powi_table[n]` */
  function Table(n: nat): nat
    requires n < TABLE_SIZE
  {
    if n < 64 then Table0(n) else if n < 128 then Table1(n) else if n < 192 then Table2(n) else Table3(n)
  }

  /** Both parts of an exponent above 1 are smaller and positive. */
  lemma TableSplits(n: nat)
    requires 1 < n < TABLE_SIZE
    ensures 0 < Table(n) < n
  {
    if n < 64 { Splits0(n); } else if n < 128 { Splits1(n); } else if n < 192 { Splits2(n); } else { Splits3(n); }
  }

  /** An even exponent is a square. */
  lemma TableHalves(n: nat)
    requires 2 * n < TABLE_SIZE
    ensures Table(2 * n) == n
  {
    if n < 32 { Halves0(n); } else if n < 64 { Halves1(n); } else if n < 96 { Halves2(n); } else { Halves3(n); }
  }

  lemma Splits0(n: nat)
    requires 1 < n && 0 <= n < 64
    ensures 0 < Table0(n) < n
  {
  }

  lemma Halves0(n: nat)
    requires 0 <= n < 32
    ensures Table0(2 * n) == n
  {
  }

  lemma Splits1(n: nat)
    requires 1 < n && 64 <= n < 128
    ensures 0 < Table1(n) < n
  {
  }

  lemma Halves1(n: nat)
    requires 32 <= n < 64
    ensures Table1(2 * n) == n
  {
  }

  lemma Splits2(n: nat)
    requires 1 < n && 128 <= n < 192
    ensures 0 < Table2(n) < n
  {
  }

  lemma Halves2(n: nat)
    requires 64 <= n < 96
    ensures Table2(2 * n) == n
  {
  }

  lemma Splits3(n: nat)
    requires 1 < n && 192 <= n < 256
    ensures 0 < Table3(n) < n
  {
  }

  lemma Halves3(n: nat)
    requires 96 <= n < 128
    ensures Table3(2 * n) == n
  {
  }

  /** The exponents that computing `x**n` by the table needs. */
  ghost function Closure(n: nat): (c: set<nat>)
    requires 0 < n < TABLE_SIZE
    ensures 1 in c && n in c && forall m :: m in c ==> 1 <= m <= n
  {
    if n == 1 then {1} else
      TableSplits(n);
      {n} + Closure(n - Table(n)) + Closure(Table(n))
  }

  lemma DoubleClosure(n: nat)
    requires 0 < n && 2 * n < TABLE_SIZE
    ensures Closure(2 * n) == {2 * n} + Closure(n)
  {
    hide Table;
    TableHalves(n);
  }

  /** `m` is 1 or `c` holds both of its parts. */
  ghost predicate Parted(c: set<nat>, m: nat) {
    0 < m < TABLE_SIZE && (m == 1 || (Table(m) in c && m - Table(m) in c))
  }

  /** A set of exponents that holds both parts of each of its members. */
  ghost predicate Closed(c: set<nat>) {
    forall m {:trigger Parted(c, m)} :: m in c ==> Parted(c, m)
  }

  lemma {:induction false} ClosureIn(n: nat, c: set<nat>)
    requires 0 < n < TABLE_SIZE && n in c && Closed(c)
    ensures Closure(n) <= c
  {
    hide Table;
    if n > 1 {
      TableSplits(n);
      assert Parted(c, n);
      ClosureIn(n - Table(n), c);
      ClosureIn(Table(n), c);
    }
  }


  lemma {:induction false} ClosureClosed(n: nat)
    requires 0 < n < TABLE_SIZE
    ensures Closed(Closure(n))
  {
    hide Table;
    if n > 1 {
      TableSplits(n);
      var t, a, b := Table(n), Closure(n - Table(n)), Closure(Table(n));
      ClosureClosed(n - t);
      ClosureClosed(t);
      forall m {:trigger Parted(Closure(n), m)} | m in Closure(n)
        ensures Parted(Closure(n), m)
      {
        if m in a {
          assert Parted(a, m);
        } else if m in b {
          assert Parted(b, m);
        }
      }
    }
  }

  /** Where a descent from `n` arrives. The binary digits of `path`, from the
      last one up to the leading 1, choose the table's part or the other. */
  function Follow(n: nat, path: nat): (m: nat)
    requires 0 < n < TABLE_SIZE
    ensures 0 < m < TABLE_SIZE
    decreases path
  {
    if path <= 1 || n == 1 then n else
      TableSplits(n);
      Follow(if path % 2 == 1 then Table(n) else n - Table(n), path / 2)
  }

  lemma {:induction false} FollowIn(n: nat, path: nat)
    requires 0 < n < TABLE_SIZE
    ensures Follow(n, path) in Closure(n)
    decreases path
  {
    hide Table;
    if path > 1 && n > 1 {
      TableSplits(n);
      FollowIn(if path % 2 == 1 then Table(n) else n - Table(n), path / 2);
    }
  }

  // ----- how many exponents an entry needs -----

  /** Computing `x**n` by the table takes `k` multiplications: one for each
      exponent but the first. */
  ghost predicate Takes(n: nat, k: nat)
    requires 0 < n < TABLE_SIZE
  {
    |Closure(n)| == k + 1
  }

  /** When one part is among the exponents the other needs, `n` takes one
      multiplication more than that other part. */
  lemma Hop(n: nat, path: nat, k: nat)
    requires 1 < n < TABLE_SIZE && 0 < Table(n) < n && Takes(Table(n), k) && Follow(Table(n), path) == n - Table(n)
    ensures Takes(n, k + 1)
  {
    hide Table, Closure, Follow;
    ClosureClosed(Table(n));
    FollowIn(Table(n), path);
    PartsIn(n);
    Extend(n, Closure(Table(n)));
  }

  /** When the other part `b` is not among the exponents `a` needs, but both parts of
      `b` are, `a + b` takes two more. */
  lemma Hop2(n: nat, a: nat, p: nat, q: nat, above: set<nat>, k: nat)
    requires 1 < n < TABLE_SIZE && 0 < a < n && (a == Table(n) || n - a == Table(n)) && n - a > 1 && Takes(a, k)
    requires 0 < Table(n - a) < n - a && Follow(a, p) == Table(n - a) && Follow(a, q) == n - a - Table(n - a)
    requires Passes(a, n - a, above)
    ensures Takes(n, k + 2)
  {
    hide Table, Closure, Follow, Passes;
    ClosureClosed(a);
    FollowIn(a, p);
    FollowIn(a, q);
    PassedBy(a, n - a, above);
    ExtendClosed(n - a, Closure(a));
    PartsIn(n);
    Extend(n, Closure(a) + {n - a});
  }

  lemma PartsIn(n: nat)
    requires 1 < n < TABLE_SIZE && 0 < Table(n) < n
    ensures Closure(Table(n)) <= Closure(n) && Closure(n - Table(n)) <= Closure(n)
  {
  }

  lemma Extend(n: nat, c: set<nat>)
    requires 1 < n < TABLE_SIZE && Closed(c) && Table(n) in c && n - Table(n) in c
    requires c <= Closure(n) && n !in c
    ensures Closure(n) == c + {n} && |Closure(n)| == |c| + 1
  {
    hide Table, Closure;
    ExtendClosed(n, c);
    ClosureIn(n, c + {n});
  }

  lemma ExtendClosed(n: nat, c: set<nat>)
    requires 1 < n < TABLE_SIZE && Closed(c) && Table(n) in c && n - Table(n) in c
    ensures Closed(c + {n})
  {
    hide Table;
    forall m {:trigger Parted(c + {n}, m)} | m in c + {n}
      ensures Parted(c + {n}, m)
    {
      assert m in c ==> Parted(c, m);
    }
  }

  /** Both parts of `m` lie below `b`, or in `above`. */
  ghost predicate Lowered(b: nat, above: set<nat>, m: nat) {
    b < m < TABLE_SIZE && (Table(m) < b || Table(m) in above) && (m - Table(m) < b || m - Table(m) in above)
  }

  /** The descent from `a` passes `b` by: above `b` it stays in `above`. */
  ghost predicate Passes(a: nat, b: nat, above: set<nat>) {
    (a < b || a in above) && forall m {:trigger Lowered(b, above, m)} :: m in above ==> Lowered(b, above, m)
  }

  lemma {:induction false} PassedBy(a: nat, b: nat, above: set<nat>)
    requires 0 < a < TABLE_SIZE && 0 < b < TABLE_SIZE && Passes(a, b, above)
    ensures b !in Closure(a)
  {
    hide Table;
    if a >= b {
      assert Lowered(b, above, a);
      TableSplits(a);
      PassedBy(Table(a), b, above);
      PassedBy(a - Table(a), b, above);
    }
  }
}
