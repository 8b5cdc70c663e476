/**
 The predictor and the generator agree, the generated code computes `x**n`,
 and the number of multiplications stays within the bound that the default
 `POWI_MAX_MULTS` relies on.
 */
module PowiSync {
  import opened Helpers
  import opened PowerTree
  import opened PowerTreeCost
  import opened Powi
  import opened PowiExpand

  /** The exponent that is left when `powi_cost` reaches the table. */
  function Final(n: nat): (f: nat)
    requires 0 < n
    ensures 0 < f < TABLE_SIZE && (n < TABLE_SIZE ==> f == n) && (n >= TABLE_SIZE ==> f >= 32)
  {
    if n < TABLE_SIZE then n else if n % 2 == 1 then Final(n / RADIX) else Final(n / 2)
  }

  /** The table exponents only the generator computes: where a window crosses
      into the table, the predictor shifts past them. */
  ghost function Crossed(n: nat): set<nat> {
    if n < TABLE_SIZE then {}
    else if n % 2 == 0 then Crossed(n / 2)
    else
      var m := n / RADIX;
      if m >= TABLE_SIZE then Crossed(m)
      else (if 4 * m < TABLE_SIZE then {4 * m} else {}) + (if 2 * m < TABLE_SIZE then {2 * m} else {})
  }

  lemma Doubled(k: nat)
    requires 0 < k
    ensures ExpandSet(2 * k) == if 2 * k < TABLE_SIZE then {2 * k} + ExpandSet(k) else ExpandSet(k)
    ensures ExpandBig(2 * k) == if 2 * k < TABLE_SIZE then 0 else 1 + ExpandBig(k)
  {
    hide Closure, Table;
    if 2 * k < TABLE_SIZE {
      DoubleClosure(k);
    } else {
      assert 2 * k / 2 == k;
    }
  }

  /** The table exponents between `m` and `8 * m`. */
  ghost function Between(m: nat): set<nat> {
    (if 4 * m < TABLE_SIZE then {4 * m} else {}) + (if 2 * m < TABLE_SIZE then {2 * m} else {})
  }

  lemma Octupled(m: nat)
    requires 32 <= m
    ensures ExpandSet(8 * m) == ExpandSet(m) + Between(m)
    ensures ExpandBig(8 * m) == (if 2 * m < TABLE_SIZE then 0 else 1) + (if 4 * m < TABLE_SIZE then 0
                                                                           else 1) + 1 + ExpandBig(m)
  {
    hide Closure, ExpandSet;
    Doubled(m);
    Doubled(2 * m);
    Doubled(4 * m);
  }

  lemma {:induction false} CostSetBound(n: nat)
    requires 0 < n
    ensures forall e :: e in CostSet(n) ==> e < RADIX || e <= Final(n)
  {
    hide Table;
    if n >= TABLE_SIZE {
      if n % 2 == 1 {
        CostSetBound(n / RADIX);
      } else {
        CostSetBound(n / 2);
      }
    }
  }

  lemma {:induction false} CrossedBound(n: nat)
    requires 0 < n
    ensures forall e :: e in Crossed(n) ==> e > Final(n) && e >= 64
  {
    if n >= TABLE_SIZE {
      if n % 2 == 1 {
        CrossedBound(n / RADIX);
      } else {
        CrossedBound(n / 2);
      }
    }
  }

  /** The generator computes what the predictor looks up and what it shifts past. */
  lemma {:induction false} SyncSets(n: nat)
    requires 0 < n
    ensures ExpandSet(n) == CostSet(n) + Crossed(n)
    ensures |Crossed(n)| + ExpandBig(n) == CostShifts(n)
  {
    hide Closure;
    if n >= TABLE_SIZE {
      if n % 2 == 1 {
        SyncSets(n / RADIX);
        SyncOdd(n, n / RADIX, n % RADIX);
      } else {
        SyncSets(n / 2);
      }
    }
  }

  lemma WindowOff(n: nat, m: nat, d: nat)
    requires n >= TABLE_SIZE && n % 2 == 1 && m == n / RADIX && d == n % RADIX
    ensures ExpandSet(n) == ExpandSet(8 * m) + Closure(d) && CostSet(n) == Closure(d) + CostSet(m)
    ensures ExpandBig(n) == 1 + ExpandBig(8 * m) && CostShifts(n) == 4 + CostShifts(m)
  {
    hide Closure;
    assert n - d == 8 * m;
  }

  lemma SyncOdd(n: nat, m: nat, d: nat)
    requires n >= TABLE_SIZE && n % 2 == 1 && m == n / RADIX && d == n % RADIX
    requires ExpandSet(m) == CostSet(m) + Crossed(m) && |Crossed(m)| + ExpandBig(m) == CostShifts(m)
    ensures ExpandSet(n) == CostSet(n) + Crossed(n)
    ensures |Crossed(n)| + ExpandBig(n) == CostShifts(n)
  {
    hide Closure, ExpandSet, CostSet, ExpandBig, CostShifts, Crossed, Between;
    WindowOff(n, m, d);
    Octupled(m);
    CrossedOdd(n, m);
    assert ExpandSet(n) == CostSet(m) + Crossed(m) + Between(m) + Closure(d);
  }

  lemma CrossedOdd(n: nat, m: nat)
    requires n >= TABLE_SIZE && n % 2 == 1 && m == n / RADIX
    ensures Crossed(n) == Crossed(m) + Between(m)
    ensures |Crossed(n)| == |Crossed(m)| + (if 4 * m < TABLE_SIZE then 1 else 0) + (if 2 * m < TABLE_SIZE then 1 else 0)
  {
    if m < TABLE_SIZE {
      assert Crossed(m) == {} && Crossed(n) == Between(m);
      if 4 * m < TABLE_SIZE {
        assert Between(m) == {4 * m, 2 * m};
      }
    } else {
      assert Between(m) == {};
    }
  }

  /** `powi_cost` predicts exactly the multiplications `expand_powi` emits. */
  lemma Sync(n: nat)
    requires 0 < n
    ensures |ExpandSet(n)| - 1 + ExpandBig(n) == Mults(n)
  {
    hide Closure, CostSet, Crossed, ExpandSet;
    SyncSets(n);
    CostSetBound(n);
    CrossedBound(n);
    assert CostSet(n) !! Crossed(n);
  }

  // ----- the code -----

  /** The result of `expand_powi`: the constant one, a power, or its reciprocal. */
  datatype Value = One | Power(reg: Reg) | Reciprocal(reg: Reg)

  /** `expand_powi`, for the register that holds `x`. */
  method ExpandPowi(x: Reg, n: int) returns (code: seq<Insn>, v: Value)
    requires x != NO_REG
    ensures |code| == Mults(Abs(n))
    ensures n == 0 <==> v == One
    ensures n < 0 <==> v.Reciprocal?
    ensures n != 0 ==> Run(code, map[x := 1]).Some? && v.reg in Run(code, map[x := 1]).value
                       && Run(code, map[x := 1]).value[v.reg] == Abs(n)
  {
    if n == 0 {
      return [], One;
    }
    var e := new Emitter(x);
    var cache := new Reg[TABLE_SIZE](_ => NO_REG);
    cache[1] := x;
    assert Cached(cache[..]) == {1};
    OneClosed();
    AllClosed({1}, if Abs(n) < TABLE_SIZE then Abs(n) else TABLE_SIZE);
    hide Closure, Table, ClosedUpTo;
    var r := e.Expand(Abs(n), cache);
    code := e.code;
    assert {1} + ExpandSet(Abs(n)) == ExpandSet(Abs(n));
    Sync(Abs(n));
    v := if n < 0 then Reciprocal(r) else Power(r);
  }

  // ----- what the code computes -----

  function RealPow(x: real, n: nat): real {
    if n == 0 then 1.0 else x * RealPow(x, n - 1)
  }

  lemma {:induction false} PowAdd(x: real, a: nat, b: nat)
    ensures RealPow(x, a + b) == RealPow(x, a) * RealPow(x, b)
  {
    if a > 0 {
      PowAdd(x, a - 1, b);
      var p, q := RealPow(x, a - 1), RealPow(x, b);
      assert x * (p * q) == (x * p) * q;
    }
  }

  function Product(a: real, b: real): real {
    a * b
  }

  /** The values of the registers after the code has run. */
  function RunReal(code: seq<Insn>, env: map<Reg, real>): map<Reg, real> {
    if code == [] then env else
      var i := code[0];
      if i.left in env && i.right in env then RunReal(code[1..], env[i.target := Product(env[i.left], env[i.right])])
          else env
  }

  /** The registers hold the powers of `x` that the exponents say. */
  ghost predicate Powers(x: real, env: map<Reg, nat>, vals: map<Reg, real>) {
    env.Keys == vals.Keys && forall r :: r in env ==> vals[r] == RealPow(x, env[r])
  }

  lemma {:induction false} RunPowers(code: seq<Insn>, x: real, env: map<Reg, nat>, vals: map<Reg, real>)
    requires Powers(x, env, vals) && Run(code, env).Some?
    ensures Powers(x, Run(code, env).value, RunReal(code, vals))
  {
    if code != [] {
      var i := code[0];
      assert i.left in vals && i.right in vals;
      PowAdd(x, env[i.left], env[i.right]);
      var env', vals' :=
          env[i.target := env[i.left] + env[i.right]], vals[i.target := Product(vals[i.left], vals[i.right])];
      assert env'.Keys == env.Keys + {i.target} && vals'.Keys == vals.Keys + {i.target};
      RunPowers(code[1..], x, env', vals');
    }
  }

  /** What a result stands for. */
  function Meaning(code: seq<Insn>, v: Value, reg: Reg, x: real): real {
    match v
    case One => 1.0
    case Power(r) => var e := RunReal(code, map[reg := x]); if r in e then e[r] else 0.0
    case Reciprocal(r) => var e := RunReal(code, map[reg := x]); if r in e && e[r] != 0.0 then 1.0 / e[r] else 0.0
  }

  /** The result is the power `n` of `x`, if `x` has one. */
  ghost predicate PowerAt(code: seq<Insn>, v: Value, reg: Reg, n: int, x: real) {
    if n >= 0 then Meaning(code, v, reg, x) == RealPow(x, n)
    else x != 0.0 ==> RealPow(x, -n) != 0.0 && Meaning(code, v, reg, x) == 1.0 / RealPow(x, -n)
  }

  /** The code generated for `n` computes `x**n`, and takes as many
      multiplications as predicted. */
  method PowerCode(reg: Reg, n: int) returns (code: seq<Insn>, v: Value, cost: nat)
    requires reg != NO_REG
    ensures |code| == cost == Mults(Abs(n))
    ensures forall x: real :: PowerAt(code, v, reg, n, x)
  {
    cost := PowiCost(n);
    code, v := ExpandPowi(reg, n);
    forall x: real
      ensures PowerAt(code, v, reg, n, x)
    {
      if n != 0 {
        assert Powers(x, map[reg := 1], map[reg := x]);
        RunPowers(code, x, map[reg := 1], map[reg := x]);
        if x != 0.0 {
          PowNonzero(x, Abs(n));
        }
      }
    }
  }

  lemma {:induction false} PowNonzero(x: real, n: nat)
    requires x != 0.0
    ensures RealPow(x, n) != 0.0
  {
    if n > 0 {
      PowNonzero(x, n - 1);
    }
  }

  // ----- the bound -----

  /** The binary digits of a number and of its quotients. */
  lemma BitsDiv(n: nat)
    requires n >= RADIX
    ensures Bits(n) == 3 + Bits(n / RADIX) && Bits(n) == 1 + Bits(n / 2)
  {
    assert n / 2 / 2 / 2 == n / RADIX;
    assert Bits(n / 2) == 1 + Bits(n / 2 / 2);
    assert Bits(n / 2 / 2) == 1 + Bits(n / RADIX);
  }

  /** The number of windows `powi_cost` takes off. */
  function Windows(n: nat): nat {
    if n < TABLE_SIZE then 0 else if n % 2 == 1 then 1 + Windows(n / RADIX) else Windows(n / 2)
  }

  /** The exponents that the digits of the windows need. */
  ghost function DigitSet(n: nat): set<nat> {
    if n < TABLE_SIZE then {}
    else if n % 2 == 1 then Closure(n % RADIX) + DigitSet(n / RADIX)
    else DigitSet(n / 2)
  }

  lemma {:induction false} SplitCost(n: nat)
    requires 0 < n
    ensures CostSet(n) == Closure(Final(n)) + DigitSet(n)
    ensures 2 * Bits(Final(n)) + CostShifts(n) + 2 * Windows(n) <= 2 * Bits(n)
  {
    hide Closure;
    if n >= TABLE_SIZE {
      BitsDiv(n);
      if n % 2 == 1 {
        SplitCost(n / RADIX);
      } else {
        SplitCost(n / 2);
      }
    }
  }

  lemma DigitClosures(d: nat)
    requires d < RADIX && d % 2 == 1
    ensures Closure(d) <= {1, 2, 3, 4, 5, 7}
    ensures Closure(d) <= {1, 2, 3, 4, 7} || Closure(d) <= {1, 2, 3, 5}
  {
    hide Closure;
    SmallClosures();
    assert {1, 2, 3} <= {1, 2, 3, 4, 5, 7} && {1, 2, 3, 5} <= {1, 2, 3, 4, 5, 7}
        && {1, 2, 3, 4, 7} <= {1, 2, 3, 4, 5, 7};
  }

  lemma SmallClosures()
    ensures Closure(1) == {1} && Closure(3) == {1, 2, 3} && Closure(5) == {1, 2, 3, 5} && Closure(7) == {1, 2, 3, 4, 7}
  {
    Entries0();
    hide Table;
    assert Closure(1) == {1} && Closure(2) == {1, 2};
    assert Closure(3) == {1, 2, 3};
    assert Closure(4) == {1, 2, 4};
    assert Closure(5) == {1, 2, 3, 5};
    assert Closure(7) == {1, 2, 3, 4, 7};
  }

  lemma {:induction false} DigitBound(n: nat)
    requires 0 < n
    ensures DigitSet(n) <= {1, 2, 3, 4, 5, 7}
    ensures Windows(n) == 0 ==> DigitSet(n) == {}
    ensures Windows(n) == 1 ==> DigitSet(n) <= {1, 2, 3, 4, 7} || DigitSet(n) <= {1, 2, 3, 5}
  {
    hide Closure;
    if n >= TABLE_SIZE {
      if n % 2 == 1 {
        DigitClosures(n % RADIX);
        DigitBound(n / RADIX);
      } else {
        DigitBound(n / 2);
      }
    }
  }

  /** The digits add at most two multiplications per window beyond the shifts, and two. */
  lemma FewDigits(n: nat)
    requires 0 < n
    ensures |DigitSet(n) - {1}| <= 2 * Windows(n) + 2
  {
    hide DigitSet, Windows;
    DigitBound(n);
    var s := DigitSet(n) - {1};
    if Windows(n) == 1 {
      if DigitSet(n) <= {1, 2, 3, 4, 7} {
        Smaller(s, {2, 3, 4, 7});
      } else {
        Smaller(s, {2, 3, 5});
      }
    } else if Windows(n) > 1 {
      Smaller(s, {2, 3, 4, 5, 7});
    }
  }

  /** `powi(x,n)` takes at most `2*bits(n)-2` multiplications. */
  lemma CostBound(n: nat)
    requires 0 < n
    ensures Mults(n) <= 2 * Bits(n) - 2
  {
    hide Closure, CostSet, DigitSet, Windows, CostShifts, Final, TreeCost;
    var f := Final(n);
    TreeTakes(f);
    TreeBound(f);
    BitsRange(f);
    SplitCost(n);
    FewDigits(n);
    if n < TABLE_SIZE {
      SmallCost(n);
    } else {
      var c, s := Closure(f), DigitSet(n) - {1};
      assert CostSet(n) == c + (s - c);
      Smaller(s - c, s);
    }
  }

  lemma SmallCost(n: nat)
    requires 0 < n < TABLE_SIZE
    ensures CostSet(n) == Closure(n) && CostShifts(n) == 0 && Final(n) == n
  {
    hide Closure;
  }

  /** For an exponent of the table it is what the cost table says. */
  lemma TableCost(n: nat)
    requires 0 < n < TABLE_SIZE
    ensures Mults(n) == TreeCost(n)
  {
    hide Closure, CostSet, CostShifts, TreeCost;
    SmallCost(n);
    TreeTakes(n);
  }

  /** `POWI_MAX_MULTS` for a 64-bit host integer. */
  const POWI_MAX_MULTS: nat := 2 * 64 - 2

  /** By default no exponent is expensive enough to call the library instead. */
  lemma NeverTooMany(n: int)
    requires -0x8000_0000_0000_0000 <= n < 0x8000_0000_0000_0000
    ensures Mults(Abs(n)) <= POWI_MAX_MULTS
  {
    hide Mults;
    if n != 0 {
      CostBound(Abs(n));
      BitsLimit(Abs(n), 64);
    } else {
      NoCost();
    }
  }

  lemma NoCost()
    ensures Mults(0) == 0
  {
  }

  lemma {:induction false} BitsLimitPow(n: nat, k: nat)
    requires n < Pow2(k)
    ensures Bits(n) <= k
  {
    if n > 0 {
      BitsLimitPow(n / 2, k - 1);
    }
  }

  lemma BitsLimit(n: nat, k: nat)
    requires k == 64 && n <= 0x8000_0000_0000_0000
    ensures Bits(n) <= k
  {
    hide Pow2, Bits;
    Sixteen();
    Pow2Add(4, 4);
    Pow2Add(8, 8);
    Pow2Add(16, 16);
    Pow2Add(32, 32);
    BitsLimitPow(n, 64);
  }

  lemma Sixteen()
    ensures Pow2(4) == 16
  {
  }

  lemma {:induction false} Pow2Add(a: nat, b: nat)
    ensures Pow2(a + b) == Pow2(a) * Pow2(b)
  {
    if a > 0 {
      Pow2Add(a - 1, b);
      assert Pow2(a) * Pow2(b) == 2 * (Pow2(a - 1) * Pow2(b));
    }
  }
}
