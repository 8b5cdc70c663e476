/**
 Narrowing of integer comparisons (c-common.c, `shorten_compare`; tree.c,
 `get_narrower`).
 */
module ShortenCompare {
  import opened Helpers
  import opened IntegerTypes

  /** Integer expressions, as far as conversions go. */
  datatype Expr =
    | Var(id: nat, ty: IntType)
    | Const(value: int, ty: IntType)
    | Conv(ty: IntType, arg: Expr)

  type Env = nat -> int

  function Eval(e: Expr, env: Env): (v: int)
    ensures e.ty.Holds(v)
  {
    match e
    case Var(id, ty) => Wrap(ty, env(id))
    case Const(value, ty) => Wrap(ty, value)
    case Conv(ty, arg) => Wrap(ty, Eval(arg, env))
  }

  /** Constants are values of their types, and conversions of constants have been folded. */
  predicate Folded(e: Expr) {
    match e
    case Var(_, _) => true
    case Const(value, ty) => ty.Holds(value)
    case Conv(_, arg) => !arg.Const? && Folded(arg)
  }

  /** `convert` */
  function Convert(t: IntType, e: Expr): (r: Expr)
    ensures r.ty == t
  {
    if e.ty == t then e else if e.Const? then Const(Wrap(t, e.value), t) else Conv(t, e)
  }

  lemma ConvertValue(t: IntType, e: Expr, env: Env)
    requires Folded(e)
    ensures Eval(Convert(t, e), env) == Wrap(t, Eval(e, env))
  {
    HoldsWrap(t, Eval(e, env));
    if e.Const? {
      HoldsWrap(e.ty, e.value);
      HoldsWrap(t, Wrap(t, e.value));
    }
  }

  lemma HoldsWrap(t: IntType, v: int)
    ensures t.Holds(v) ==> Wrap(t, v) == v
  {
    if t.Holds(v) {
      HeldNear(t, t, v);
      WrapNear(t, v);
    }
  }

  datatype Code = EQ | NE | LT | GT | LE | GE

  predicate Cmp(code: Code, a: int, b: int) {
    match code
    case EQ => a == b
    case NE => a != b
    case LT => a < b
    case GT => a > b
    case LE => a <= b
    case GE => a >= b
  }

  function Swapped(code: Code): Code {
    match code
    case LT => GT
    case GT => LT
    case LE => GE
    case GE => LE
    case _ => code
  }

  // ----- get_narrower -----

  /** The loop of `get_narrower`: conversions that extend, or only change the
      sign, are stripped as long as they all extend alike; `uns` says how. */
  function Strip(op: Expr, uns: bool, first: bool): (Expr, bool) {
    if !op.Conv? || op.ty.prec < op.arg.ty.prec then (op, uns)
    else if op.ty.prec > op.arg.ty.prec then
      if first then Strip(op.arg, op.arg.ty.uns, false)
      else if uns != op.arg.ty.uns then (op, uns)
      else Strip(op.arg, uns, false)
    else Strip(op.arg, if first then op.ty.uns else uns, false)
  }

  /** The value of `e` taken as signed or unsigned at its own precision. */
  function As(e: Expr, uns: bool, env: Env): int {
    Wrap(IntType(e.ty.prec, uns), Eval(e, env))
  }

  /** Stripping keeps the value, taken with the sign that is extended. */
  lemma {:induction false} StripKeeps(op: Expr, uns: bool, env: Env)
    ensures var (w, u) := Strip(op, uns, false);
            u == uns && w.ty.prec <= op.ty.prec && As(w, uns, env) == As(op, uns, env)
  {
    if op.Conv? && op.ty.prec >= op.arg.ty.prec && (op.ty.prec == op.arg.ty.prec || uns == op.arg.ty.uns) {
      StripKeeps(op.arg, uns, env);
      var v := Eval(op.arg, env);
      HeldNear(op.ty, op.arg.ty, v);
      WrapTwice(IntType(op.ty.prec, uns), op.ty, v);
      HeldNear(IntType(op.ty.prec, uns), op.arg.ty, v);
      WrapNear(IntType(op.ty.prec, uns), v);
      HeldNear(IntType(op.arg.ty.prec, uns), op.arg.ty, v);
      WrapNear(IntType(op.arg.ty.prec, uns), v);
    }
  }

  /** Extending the narrower expression gives back the original. */
  lemma NarrowerExtends(op: Expr, env: Env)
    requires op.Conv? && op.ty.prec >= op.arg.ty.prec
    ensures var (w, u) := Strip(op, false, true);
            && w.ty.prec <= op.arg.ty.prec && Eval(op, env) == Wrap(op.ty, As(w, u, env))
            && u == (if op.ty.prec > op.arg.ty.prec then op.arg.ty.uns else op.ty.uns)
  {
    hide Wrap;
    var u := if op.ty.prec > op.arg.ty.prec then op.arg.ty.uns else op.ty.uns;
    assert Strip(op, false, true) == Strip(op.arg, u, false);
    StripKeeps(op.arg, u, env);
    HoldsWrap(op.arg.ty, Eval(op.arg, env));
    HoldsWrap(op.ty, Eval(op, env));
  }

  /** A conversion that extends the way `uns` says, or only changes the sign. */
  predicate Strippable(e: Expr, uns: bool) {
    e.Conv? && (e.ty.prec == e.arg.ty.prec || (e.ty.prec > e.arg.ty.prec && uns == e.arg.ty.uns))
  }

  /** As much is stripped as can be. */
  lemma {:induction false} StripMost(op: Expr, uns: bool, first: bool)
    ensures var (w, u) := Strip(op, uns, first); !Strippable(w, u)
  {
    if op.Conv? && op.ty.prec >= op.arg.ty.prec {
      StripMost(op.arg, if !first then uns else if op.ty.prec > op.arg.ty.prec then op.arg.ty.uns
                  else op.ty.uns, false);
    }
  }

  // ----- shorten_compare -----

  /** An operand, what is left of it without its extensions, and how that is extended. */
  datatype Operand = Operand(op: Expr, prim: Expr, uns: bool)

  function Narrowed(op: Expr, rt: IntType): Operand {
    var (w, u) := Strip(op, false, true);
    Operand(op, w, if w == op && op.ty != rt then op.ty.uns else u)
  }

  datatype Result = Always(truth: bool) | Compare(code: Code, op0: Expr, op1: Expr)

  predicate Zero(e: Expr) {
    e.Const? && e.value == 0
  }

  /** The comparison of `op0` and `op1` in type `rt`, narrowed. */
  function Shorten(op0: Expr, op1: Expr, rt: IntType, code: Code): Result {
    var a, b := Narrowed(op0, rt), Narrowed(op1, rt);
    if a.prim.Const? && !Zero(b.prim) then Decide(b, a, rt, Swapped(code)) else Decide(a, b, rt, code)
  }

  function Decide(a: Operand, b: Operand, rt: IntType, code: Code): Result {
    if Narrow(a, rt) && b.prim.Const? then
      AgainstConst(a, b.prim, rt, code)
    else if a.uns == b.uns && Narrow(a, rt) && Narrow(b, rt) then
      BothNarrow(a, b, rt, code)
    else if Zero(b.op) && rt.uns && code.GE? then Always(true)
    else if Zero(b.op) && rt.uns && code.LT? then Always(false)
    else Compare(code, Convert(rt, a.op), Convert(rt, b.op))
  }

  predicate Narrow(a: Operand, rt: IntType) {
    a.prim.ty.prec < rt.prec
  }

  datatype Verdict = Open | Fixed(truth: bool)

  /** What the bounds of the variable operand say about its comparison with `k`. */
  function ByBounds(code: Code, min: int, max: int, k: int): Verdict {
    match code
    case NE => if max < k || k < min then Fixed(true) else Open
    case EQ => if max < k || k < min then Fixed(false) else Open
    case LT => if !(min < k) then Fixed(false) else if max < k then Fixed(true) else Open
    case GT => if !(k < max) then Fixed(false) else if k < min then Fixed(true) else Open
    case LE => if k < min then Fixed(false) else if !(k < max) then Fixed(true) else Open
    case GE => if max < k then Fixed(false) else if !(min < k) then Fixed(true) else Open
  }

  /** A narrow operand against a constant of a wider type. */
  function AgainstConst(a: Operand, c: Expr, rt: IntType, code: Code): Result
    requires c.Const?
  {
    var ty := IntType(a.prim.ty.prec, a.uns);
    var signExtended := rt.uns && !a.uns;
    var rt' := if signExtended then IntType(rt.prec, false) else rt;
    var k := Wrap(rt', c.value);
    var v := ByBounds(code, Wrap(rt', ty.Min()), Wrap(rt', ty.Max()), k);
    var ty' := if signExtended then IntType(ty.prec, true) else ty;
    if v.Fixed? && signExtended && (code.LT? || code.GE?) then
      Compare(code, Convert(ty', a.prim), Convert(ty', Const(ty.Min(), ty)))
    else if v.Fixed? && signExtended && (code.LE? || code.GT?) then
      Compare(code, Convert(ty', a.prim), Convert(ty', Const(ty.Max(), ty)))
    else if v.Fixed? then Always(v.truth)
    else Compare(code, Convert(ty', a.prim), Convert(ty', Const(k, rt')))
  }

  /** Two narrow operands that are extended alike. */
  function BothNarrow(a: Operand, b: Operand, rt: IntType, code: Code): Result {
    var ty := IntType(CommonType(a.prim.ty, b.prim.ty).prec, a.uns || rt.uns);
    Compare(code,
            Convert(ty, Convert(IntType(a.prim.ty.prec, a.uns), a.prim)),
            Convert(ty, Convert(IntType(b.prim.ty.prec, b.uns), b.prim)))
  }

  // ----- what the narrowed comparison means -----

  predicate Truth(r: Result, env: Env) {
    match r
    case Always(b) => b
    case Compare(code, e, f) => Cmp(code, Eval(e, env), Eval(f, env))
  }

  /** The value in type `rt` that the narrowing takes the operand for. */
  function Taken(a: Operand, rt: IntType, env: Env): int {
    Wrap(rt, As(a.prim, a.uns, env))
  }

  function U(v: int, m: int): int {
    if v >= 0 then v else v + m
  }

  /** A value sign-extended from `p` bits, read as unsigned at a precision no less. */
  lemma Unsigned(t: IntType, p: Precision, x: int)
    requires t.uns && p <= t.prec && IntType(p, false).Holds(x)
    ensures Wrap(t, x) == U(x, 2 * Pow2(t.prec - 1))
  {
    HeldNear(t, IntType(p, false), x);
    WrapNear(t, x);
    Pow2Grows(p, t.prec);
  }

  /** The comparison with a constant is that of the values taken. */
  lemma AgainstConstMeans(a: Operand, c: Expr, rt: IntType, code: Code, env: Env)
    requires c.Const? && Folded(c) && c.ty.prec <= rt.prec && Folded(a.prim) && Narrow(a, rt)
    ensures Truth(AgainstConst(a, c, rt, code), env) <==> Cmp(code, Taken(a, rt, env), Wrap(rt, c.value))
  {
    hide Wrap;
    var ty, x := IntType(a.prim.ty.prec, a.uns), As(a.prim, a.uns, env);
    if rt.uns && !a.uns {
      AgainstConstSigned(a, c, rt, code, env);
    } else {
      HeldNear(rt, ty, x);
      HeldNear(rt, ty, ty.Min());
      HeldNear(rt, ty, ty.Max());
      WrapNear(rt, x);
      WrapNear(rt, ty.Min());
      WrapNear(rt, ty.Max());
      var k := Wrap(rt, c.value);
      ConvertValue(ty, a.prim, env);
      ConvertValue(ty, Const(k, rt), env);
      HoldsWrap(rt, k);
      HoldsWrap(ty, k);
    }
  }

  /** An unsigned comparison of sign-extended values, `x` from fewer bits. */
  lemma UnsignedOrder(code: Code, x: int, k: int, m: int, n: int)
    requires -m <= x < m && -n <= k < n && 1 <= m && 2 * m <= n
    ensures var v := ByBounds(code, -m, m - 1, k);
            Cmp(code, U(x, 2 * n), U(k, 2 * n)) <==>
            if v.Open? then Cmp(code, U(x, 2 * m), U(k, 2 * m))
            else if code.LT? || code.GE? then Cmp(code, U(x, 2 * m), m)
            else if code.LE? || code.GT? then Cmp(code, U(x, 2 * m), m - 1)
            else v.truth
    ensures ByBounds(code, -m, m - 1, k).Open? ==> -m <= k < m
  {
  }

  /** The sign-extended operand of an unsigned comparison. */
  lemma AgainstConstSigned(a: Operand, c: Expr, rt: IntType, code: Code, env: Env)
    requires c.Const? && Folded(c) && c.ty.prec <= rt.prec && Folded(a.prim) && Narrow(a, rt) && rt.uns && !a.uns
    ensures Truth(AgainstConst(a, c, rt, code), env) <==> Cmp(code, Taken(a, rt, env), Wrap(rt, c.value))
  {
    hide Wrap, Cmp, ByBounds, Convert, Eval, Folded, Pow2, As, Taken;
    var ty, x := IntType(a.prim.ty.prec, false), As(a.prim, false, env);
    var rt' := IntType(rt.prec, false);
    var k, m, n := Wrap(rt', c.value), Pow2(ty.prec - 1), Pow2(rt.prec - 1);
    SignedValues(a, c, rt, env);
    UnsignedOrder(code, x, k, m, n);
    ConstUnsigned(ty, ty, ty.Min(), env);
    ConstUnsigned(ty, ty, ty.Max(), env);
    ConstUnsigned(ty, rt', k, env);
  }

  /** The numbers that are compared, before and after. */
  lemma SignedValues(a: Operand, c: Expr, rt: IntType, env: Env)
    requires c.Const? && Folded(c) && c.ty.prec <= rt.prec && Folded(a.prim) && Narrow(a, rt) && rt.uns && !a.uns
    ensures var p, rt' := a.prim.ty.prec, IntType(rt.prec, false);
            var ty, x, k, m, n :=
                IntType(p, false), As(a.prim, false, env), Wrap(rt', c.value), Pow2(p - 1), Pow2(rt.prec - 1);
            && -m <= x < m && -n <= k < n && 1 <= m && 2 * m <= n && ty.Min() == -m && ty.Max() == m - 1
            && Wrap(rt', ty.Min()) == -m && Wrap(rt', ty.Max()) == m - 1
            && Wrap(rt, c.value) == U(k, 2 * n) && Taken(a, rt, env) == U(x, 2 * n)
            && Eval(Convert(IntType(p, true), a.prim), env) == U(x, 2 * m)
  {
    hide Wrap;
    var ty, x := IntType(a.prim.ty.prec, false), As(a.prim, false, env);
    var rt', ty' := IntType(rt.prec, false), IntType(ty.prec, true);
    var k := Wrap(rt', c.value);
    Pow2Grows(ty.prec, rt.prec - 1);
    HeldNear(rt', ty, ty.Min());
    HeldNear(rt', ty, ty.Max());
    WrapNear(rt', ty.Min());
    WrapNear(rt', ty.Max());
    HeldNear(rt, c.ty, c.value);
    WrapTwice(rt, rt', c.value);
    Unsigned(rt, rt.prec, k);
    Unsigned(rt, ty.prec, x);
    ConvertValue(ty', a.prim, env);
    HeldNear(ty, a.prim.ty, Eval(a.prim, env));
    WrapTwice(ty', ty, Eval(a.prim, env));
    Unsigned(ty', ty.prec, x);
  }

  lemma ConstUnsigned(ty: IntType, t: IntType, k: int, env: Env)
    requires !ty.uns && t.Holds(k)
    ensures ty.Holds(k) ==> Eval(Convert(IntType(ty.prec, true), Const(k, t)), env) == U(k, 2 * Pow2(ty.prec - 1))
  {
    hide Wrap;
    var ty' := IntType(ty.prec, true);
    ConvertValue(ty', Const(k, t), env);
    HoldsWrap(t, k);
    if ty.Holds(k) {
      Unsigned(ty', ty.prec, k);
    }
  }

  /** An unsigned comparison of values sign-extended from fewer bits. */
  lemma UnsignedSame(code: Code, x: int, y: int, m: int, n: int)
    requires -m <= x < m && -m <= y < m && 1 <= m <= n
    ensures Cmp(code, U(x, 2 * n), U(y, 2 * n)) <==> Cmp(code, U(x, 2 * m), U(y, 2 * m))
  {
  }

  /** The comparison of two narrow operands is that of the values taken. */
  lemma BothNarrowMeans(a: Operand, b: Operand, rt: IntType, code: Code, env: Env)
    requires Folded(a.prim) && Folded(b.prim) && Narrow(a, rt) && Narrow(b, rt) && a.uns == b.uns
    ensures Truth(BothNarrow(a, b, rt, code), env) <==> Cmp(code, Taken(a, rt, env), Taken(b, rt, env))
  {
    hide Wrap, Cmp, Pow2, As, Eval, Folded;
    var ty := IntType(CommonType(a.prim.ty, b.prim.ty).prec, a.uns || rt.uns);
    var x, y := As(a.prim, a.uns, env), As(b.prim, a.uns, env);
    ExtendTwice(ty, a.prim, a.uns, env);
    ExtendTwice(ty, b.prim, a.uns, env);
    ExtendsTo(rt, ty, a.prim, a.uns, env);
    ExtendsTo(rt, ty, b.prim, a.uns, env);
    if !a.uns && rt.uns {
      Pow2Grows(ty.prec - 1, rt.prec - 1);
      UnsignedSame(code, x, y, Pow2(ty.prec - 1), Pow2(rt.prec - 1));
    }
  }

  lemma ExtendTwice(ty: IntType, e: Expr, uns: bool, env: Env)
    requires Folded(e)
    ensures Eval(Convert(ty, Convert(IntType(e.ty.prec, uns), e)), env) == Wrap(ty, As(e, uns, env))
  {
    hide Wrap;
    ConvertValue(IntType(e.ty.prec, uns), e, env);
    ConvertValue(ty, Convert(IntType(e.ty.prec, uns), e), env);
  }

  /** Extended alike to `ty` and `rt`, a value stays the same, or becomes
      unsigned in both. */
  lemma ExtendsTo(rt: IntType, ty: IntType, e: Expr, uns: bool, env: Env)
    requires e.ty.prec <= ty.prec < rt.prec && ty.uns == (uns || rt.uns)
    ensures var x := As(e, uns, env);
            if !uns && rt.uns
            then -Pow2(ty.prec - 1) <= x < Pow2(ty.prec - 1) && 1 <= Pow2(ty.prec - 1)
                 && Wrap(ty, x) == U(x, 2 * Pow2(ty.prec - 1)) && Wrap(rt, x) == U(x, 2 * Pow2(rt.prec - 1))
            else Wrap(ty, x) == x && Wrap(rt, x) == x
  {
    hide Wrap;
    var t, x := IntType(e.ty.prec, uns), As(e, uns, env);
    if !uns && rt.uns {
      Unsigned(ty, e.ty.prec, x);
      Unsigned(rt, e.ty.prec, x);
      Pow2Grows(e.ty.prec - 1, ty.prec - 1);
    } else {
      HeldNear(ty, t, x);
      HeldNear(rt, t, x);
      HoldsWrap(ty, x);
      HoldsWrap(rt, x);
    }
  }

  // ----- when and how comparisons are narrowed -----

  /** Every value of type `ty`, extended to `rt`, compares with `k` as `b` says. */
  ghost predicate Settled(ty: IntType, rt: IntType, code: Code, k: int, b: bool) {
    forall v {:trigger Wrap(rt, v)} :: ty.Holds(v) ==> Cmp(code, Wrap(rt, v), k) == b
  }

  /** A comparison of order, unsigned, of values that were sign-extended. */
  predicate Reversed(uns: bool, rt: IntType, code: Code) {
    rt.uns && !uns && !code.EQ? && !code.NE?
  }

  lemma BoundsDecide(code: Code, min: int, max: int, k: int, b: bool)
    requires min < max
    ensures ByBounds(code, min, max, k) == Fixed(b) <==> forall v :: min <= v <= max ==> Cmp(code, v, k) == b
  {
    if forall v :: min <= v <= max ==> Cmp(code, v, k) == b {
      assert Cmp(code, min, k) == b && Cmp(code, max, k) == b;
      assert min <= k <= max ==> Cmp(code, k, k) == b;
    }
  }

  lemma TwoValues(t: IntType)
    ensures t.Min() < t.Max()
  {
  }

  /** What extending the values of a narrow type does to comparisons with a constant. */
  lemma ExtendedCompare(ty: IntType, rt: IntType, code: Code, c: int, v: int)
    requires ty.prec < rt.prec && -Pow2(rt.prec) <= c < Pow2(rt.prec) && ty.Holds(v) && !Reversed(ty.uns, rt, code)
    ensures var rt' := IntType(rt.prec, rt.uns && ty.uns);
            Wrap(rt', v) == v && (Cmp(code, Wrap(rt, v), Wrap(rt, c)) <==> Cmp(code, v, Wrap(rt', c)))
  {
    hide Wrap;
    var rt' := IntType(rt.prec, rt.uns && ty.uns);
    HeldNear(rt', ty, v);
    WrapNear(rt', v);
    if rt.uns && !ty.uns {
      WrapTwice(rt, rt', c);
      Unsigned(rt, rt.prec, Wrap(rt', c));
      Unsigned(rt, ty.prec, v);
      Pow2Grows(ty.prec, rt.prec - 1);
    }
  }

  lemma SettledByBounds(ty: IntType, rt: IntType, code: Code, c: int, b: bool)
    requires ty.prec < rt.prec && -Pow2(rt.prec) <= c < Pow2(rt.prec) && !Reversed(ty.uns, rt, code)
    ensures var rt' := IntType(rt.prec, rt.uns && ty.uns);
            && Wrap(rt', ty.Min()) == ty.Min() && Wrap(rt', ty.Max()) == ty.Max()
            && (ByBounds(code, ty.Min(), ty.Max(), Wrap(rt', c)) == Fixed(b)
                <==> Settled(ty, rt, code, Wrap(rt, c), b))
  {
    hide Wrap, ByBounds, Cmp;
    var k := Wrap(IntType(rt.prec, rt.uns && ty.uns), c);
    TwoValues(ty);
    BoundsDecide(code, ty.Min(), ty.Max(), k, b);
    ExtendedCompare(ty, rt, code, c, ty.Min());
    ExtendedCompare(ty, rt, code, c, ty.Max());
    forall v | ty.Holds(v)
      ensures Cmp(code, Wrap(rt, v), Wrap(rt, c)) <==> Cmp(code, v, k)
    {
      ExtendedCompare(ty, rt, code, c, v);
    }
  }

  /** A narrow operand and a constant are compared at the precision of the narrow
      operand, unless all its values compare alike; then, and only then, the
      result is constant. An unsigned comparison of order of a sign-extended
      operand is never made constant. */
  lemma ShortenConstant(op: Expr, c: Expr, rt: IntType, code: Code)
    requires Comparable(op, rt) && Comparable(c, rt) && c.Const? && !op.Const? && Narrow(Narrowed(op, rt), rt)
    ensures var a, r := Narrowed(op, rt), Shorten(op, c, rt, code);
            var ty := IntType(a.prim.ty.prec, a.uns);
            && (forall b :: r == Always(b) <==>
                              !Reversed(a.uns, rt, code) && Settled(ty, rt, code, Wrap(rt, c.value), b))
            && (r.Compare? ==> r.code == code && r.op0.ty == r.op1.ty == IntType(ty.prec, ty.uns || rt.uns))
  {
    hide Wrap, Strip, Settled, ByBounds, Pow2, Convert;
    var a := Narrowed(op, rt);
    var ty := IntType(a.prim.ty.prec, a.uns);
    NarrowedIs(op, rt);
    NarrowedIs(c, rt);
    HeldNear(rt, c.ty, c.value);
    if !Reversed(a.uns, rt, code) {
      SettledByBounds(ty, rt, code, c.value, true);
      SettledByBounds(ty, rt, code, c.value, false);
    }
  }

  /** Two narrow operands that are extended alike are compared at the wider of
      their precisions. */
  lemma ShortenBoth(op0: Expr, op1: Expr, rt: IntType, code: Code)
    requires Comparable(op0, rt) && Comparable(op1, rt) && !op0.Const? && !op1.Const?
    requires Narrow(Narrowed(op0, rt), rt) && Narrow(Narrowed(op1, rt), rt)
    requires Narrowed(op0, rt).uns == Narrowed(op1, rt).uns
    ensures var a, b, r := Narrowed(op0, rt), Narrowed(op1, rt), Shorten(op0, op1, rt, code);
            && r.Compare? && r.code == code && r.op0.ty == r.op1.ty && r.op0.ty.prec < rt.prec
            && r.op0.ty.prec == if a.prim.ty.prec < b.prim.ty.prec then b.prim.ty.prec else a.prim.ty.prec
  {
    hide Strip;
    NarrowedIs(op0, rt);
    NarrowedIs(op1, rt);
  }

  /** Otherwise the operands are compared in the nominal type as they are,
      but unsigned values are known not to be below zero. */
  lemma ShortenNominal(op0: Expr, op1: Expr, rt: IntType, code: Code)
    requires Comparable(op0, rt) && Comparable(op1, rt) && !op0.Const?
    requires var a, b := Narrowed(op0, rt), Narrowed(op1, rt);
             !Narrow(a, rt) || (!op1.Const? && (!Narrow(b, rt) || a.uns != b.uns))
    ensures var r := Shorten(op0, op1, rt, code);
            if Zero(op1) && rt.uns && (code.GE? || code.LT?) then r == Always(code.GE?)
            else r == Compare(code, Convert(rt, op0), Convert(rt, op1))
  {
    hide Strip;
    NarrowedIs(op0, rt);
    NarrowedIs(op1, rt);
  }

  /** A constant goes second. */
  lemma ConstantFirst(op: Expr, c: Expr, rt: IntType, code: Code)
    requires Comparable(op, rt) && Comparable(c, rt) && c.Const? && !op.Const?
    ensures Shorten(c, op, rt, code) == Shorten(op, c, rt, Swapped(code))
  {
    hide Strip, Decide;
    NarrowedIs(op, rt);
    NarrowedIs(c, rt);
  }

  // ----- when the values taken are the right ones -----

  /** A signed value was extended to an unsigned type and is to be extended
      again: the narrowing takes both extensions for one. */
  predicate Misread(op: Expr, rt: IntType) {
    op.Conv? && op.arg.ty.prec < op.ty.prec < rt.prec && !op.arg.ty.uns && op.ty.uns
  }

  /** The narrow value is not negative, so that it does not matter how it is extended. */
  predicate NotNegative(op: Expr, rt: IntType, env: Env) {
    As(Narrowed(op, rt).prim, false, env) >= 0
  }

  function Depth(e: Expr): nat {
    if e.Conv? then Depth(e.arg) + 1 else 0
  }

  lemma {:induction false} StripInner(op: Expr, uns: bool, first: bool)
    ensures var w := Strip(op, uns, first).0;
            && Depth(w) <= Depth(op) && (Folded(op) ==> Folded(w) && (w.Const? ==> op.Const?))
  {
    if op.Conv? && op.ty.prec >= op.arg.ty.prec {
      StripInner(op.arg, if !first then uns else if op.ty.prec > op.arg.ty.prec then op.arg.ty.uns
                   else op.ty.uns, false);
    }
  }

  lemma NarrowedIs(op: Expr, rt: IntType)
    ensures var a := Narrowed(op, rt);
            if op.Conv? && op.ty.prec >= op.arg.ty.prec
            then a.prim == Strip(op, false, true).0 && a.uns == Strip(op, false, true).1
            else a.prim == op && (op.ty != rt ==> a.uns == op.ty.uns)
    ensures Folded(op) ==>
              Folded(Narrowed(op, rt).prim) && (Narrowed(op, rt).prim.Const? ==> Narrowed(op, rt).prim == op)
  {
    StripInner(op, false, true);
    if op.Conv? && op.ty.prec >= op.arg.ty.prec {
      StripInner(op.arg, if op.ty.prec > op.arg.ty.prec then op.arg.ty.uns else op.ty.uns, false);
    }
  }

  /** Then the value taken is that of the operand. */
  lemma TakenIsValue(op: Expr, rt: IntType, env: Env)
    requires op.ty.prec <= rt.prec && Narrow(Narrowed(op, rt), rt)
    requires Misread(op, rt) ==> NotNegative(op, rt, env)
    ensures Taken(Narrowed(op, rt), rt, env) == Wrap(rt, Eval(op, env))
  {
    hide Wrap, Strip;
    var a := Narrowed(op, rt);
    NarrowedIs(op, rt);
    if op.Conv? && op.ty.prec >= op.arg.ty.prec {
      NarrowerExtends(op, env);
      var t, v := IntType(a.prim.ty.prec, a.uns), As(a.prim, a.uns, env);
      HeldNear(op.ty, t, v);
      if op.ty.prec == rt.prec {
        WrapTwice(rt, op.ty, v);
      } else {
        HoldsWrap(op.ty, v);
      }
    } else {
      HoldsWrap(op.ty, Eval(op, env));
    }
  }

  // ----- the theorems -----

  ghost predicate Preserved(op0: Expr, op1: Expr, rt: IntType, code: Code, env: Env) {
    Truth(Shorten(op0, op1, rt, code), env) <==> Cmp(code, Wrap(rt, Eval(op0, env)), Wrap(rt, Eval(op1, env)))
  }

  predicate Comparable(op: Expr, rt: IntType) {
    Folded(op) && op.ty.prec <= rt.prec
  }

  lemma DecidePreserves(op0: Expr, op1: Expr, rt: IntType, code: Code, env: Env)
    requires Comparable(op0, rt) && Comparable(op1, rt)
    requires (Misread(op0, rt) ==> NotNegative(op0, rt, env)) && (Misread(op1, rt) ==> NotNegative(op1, rt, env))
    ensures Truth(Decide(Narrowed(op0, rt), Narrowed(op1, rt), rt, code), env) <==>
              Cmp(code, Wrap(rt, Eval(op0, env)), Wrap(rt, Eval(op1, env)))
  {
    hide Wrap, Strip, AgainstConst, BothNarrow, Misread, NotNegative;
    var a, b := Narrowed(op0, rt), Narrowed(op1, rt);
    NarrowedIs(op0, rt);
    NarrowedIs(op1, rt);
    if Narrow(a, rt) {
      TakenIsValue(op0, rt, env);
    }
    if Narrow(a, rt) && b.prim.Const? {
      AgainstConstMeans(a, b.prim, rt, code, env);
      HoldsWrap(op1.ty, op1.value);
    } else if a.uns == b.uns && Narrow(a, rt) && Narrow(b, rt) {
      TakenIsValue(op1, rt, env);
      BothNarrowMeans(a, b, rt, code, env);
    } else {
      ConvertValue(rt, op0, env);
      ConvertValue(rt, op1, env);
      if Zero(op1) {
        HoldsWrap(op1.ty, 0);
        HoldsWrap(rt, 0);
      }
    }
  }

  lemma SwappedSame(code: Code, x: int, y: int)
    ensures Cmp(Swapped(code), y, x) <==> Cmp(code, x, y)
  {
  }

  /** The narrowed comparison has the truth value of the original, whatever the
      widths, signs, constants and values, unless an operand is misread. */
  lemma ShortenPreserves(op0: Expr, op1: Expr, rt: IntType, code: Code, env: Env)
    requires Comparable(op0, rt) && Comparable(op1, rt)
    requires (Misread(op0, rt) ==> NotNegative(op0, rt, env)) && (Misread(op1, rt) ==> NotNegative(op1, rt, env))
    ensures Preserved(op0, op1, rt, code, env)
  {
    hide Decide, Cmp;
    SwappedSame(code, Wrap(rt, Eval(op0, env)), Wrap(rt, Eval(op1, env)));
    DecidePreserves(op1, op0, rt, Swapped(code), env);
    DecidePreserves(op0, op1, rt, code, env);
  }

  /** A misread negative value is not equal to itself. */
  lemma MisreadFails(op: Expr, rt: IntType, env: Env)
    requires Comparable(op, rt) && Misread(op, rt) && !NotNegative(op, rt, env)
    ensures var k := Const(Eval(op, env), rt);
            Comparable(k, rt) && !Misread(k, rt) && CommonType(op.ty, k.ty) == rt && !Preserved(op, k, rt, EQ, env)
  {
    hide Wrap, Strip, AgainstConst;
    var a, k := Narrowed(op, rt), Const(Eval(op, env), rt);
    NarrowedIs(op, rt);
    NarrowedIs(k, rt);
    NarrowerExtends(op, env);
    HeldNear(rt, op.ty, k.value);
    HoldsWrap(rt, k.value);
    AgainstConstMeans(a, k, rt, EQ, env);
    ExtendedApart(op.ty, rt, a.prim.ty.prec, As(a.prim, false, env));
  }

  /** A negative value extended once to `rt`, or by way of `t`. */
  lemma ExtendedApart(t: IntType, rt: IntType, p: Precision, v: int)
    requires p <= t.prec < rt.prec && t.uns && IntType(p, false).Holds(v) && v < 0
    ensures Wrap(t, v) != Wrap(rt, v)
  {
    hide Wrap;
    Unsigned(t, p, v);
    HeldNear(rt, IntType(p, false), v);
    WrapNear(rt, v);
    Pow2Grows(t.prec, rt.prec);
  }

  /** `op` may be compared with anything that is not misread itself. */
  ghost predicate Safe(op: Expr, rt: IntType) {
    forall other, code, env: Env :: Comparable(other, rt) && !Misread(other, rt) ==> Preserved(op, other, rt, code, env)
  }

  /** Narrowing is safe for an operand exactly if it is not misread, or its
      narrow value is never negative. */
  lemma SafeExactly(op: Expr, rt: IntType)
    requires Comparable(op, rt)
    ensures Safe(op, rt) <==> (Misread(op, rt) ==> forall env: Env :: NotNegative(op, rt, env))
  {
    hide Misread, NotNegative, Preserved;
    if Misread(op, rt) ==> forall env: Env :: NotNegative(op, rt, env) {
      forall other, code, env: Env | Comparable(other, rt) && !Misread(other, rt)
        ensures Preserved(op, other, rt, code, env)
      {
        ShortenPreserves(op, other, rt, code, env);
      }
    } else {
      var env: Env :| !NotNegative(op, rt, env);
      MisreadFails(op, rt, env);
    }
  }

  /** For extensions of variables: exactly if it is not misread. */
  lemma SafeVariable(op: Expr, rt: IntType)
    requires Comparable(op, rt) && Narrowed(op, rt).prim.Var?
    ensures Safe(op, rt) <==> !Misread(op, rt)
  {
    hide Wrap, Strip, Misread, Safe;
    var prim := Narrowed(op, rt).prim;
    var env: Env := _ => -1;
    Minus1(prim.ty);
    Minus1(IntType(prim.ty.prec, false));
    var v := Wrap(prim.ty, -1);
    WrapTwice(IntType(prim.ty.prec, false), prim.ty, -1);
    assert !NotNegative(op, rt, env);
    SafeExactly(op, rt);
  }

  lemma Minus1(t: IntType)
    ensures -Pow2(t.prec) <= -1 && (!t.uns ==> Wrap(t, -1) == -1)
  {
    WrapNear(t, -1);
  }

  /** `(unsigned) c == 4294967295LL` for a signed char `c` that is -1, with
      32-bit `unsigned` and 64-bit `long long`: true, narrowed to false. */
  lemma MisreadExample(env: Env)
    requires env(0) == -1
    ensures var c, u32, s64 := Var(0, IntType(8, false)), IntType(32, true), IntType(64, false);
            && Comparable(Conv(u32, c), s64) && Comparable(Const(0xffff_ffff, s64), s64)
            && CommonType(u32, s64) == s64
            && Shorten(Conv(u32, c), Const(0xffff_ffff, s64), s64, EQ) == Always(false)
            && Cmp(EQ, Wrap(s64, Eval(Conv(u32, c), env)), Wrap(s64, 0xffff_ffff))
  {
    hide Wrap, Pow2;
    Powers();
    var c, s8, u32, s64 := Var(0, IntType(8, false)), IntType(8, false), IntType(32, true), IntType(64, false);
    WrapNear(s8, -1);
    WrapNear(u32, -1);
    WrapNear(s64, 0xffff_ffff);
    WrapNear(s64, -128);
    WrapNear(s64, 127);
    assert Strip(Conv(u32, c), false, true) == (c, false);
  }
}
