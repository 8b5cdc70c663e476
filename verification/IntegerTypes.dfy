/**
 Integer types of C and conversion between them (sections 6.3.1.3 and 6.3.1.8
 of ISO C99; signed results out of range wrap, as in the compiler).
 */
module IntegerTypes {
  import opened Helpers

  type Precision = n: nat | n >= 1 witness 1

  datatype IntType = IntType(prec: Precision, uns: bool) {
    function Min(): int {
      if uns then 0 else -Pow2(prec - 1)
    }

    function Max(): int {
      if uns then Pow2(prec) - 1 else Pow2(prec - 1) - 1
    }

    predicate Holds(v: int) {
      Min() <= v <= Max()
    }
  }

  /** The value of type `t` congruent to `v`. */
  function Wrap(t: IntType, v: int): (r: int)
    ensures t.Holds(r)
  {
    var m := Pow2(t.prec);
    var r := v % m;
    if t.uns || r < Pow2(t.prec - 1) then r else r - m
  }

  lemma {:induction false} Pow2Grows(p: nat, q: nat)
    requires p <= q
    ensures Pow2(p) <= Pow2(q) && (p < q ==> 2 * Pow2(p) <= Pow2(q))
  {
    if p < q {
      Pow2Grows(p, q - 1);
    }
  }

  /** What wrapping does to a value that is off by less than one turn. */
  lemma WrapNear(t: IntType, v: int)
    requires -Pow2(t.prec) <= v < Pow2(t.prec)
    ensures t.Holds(v) ==> Wrap(t, v) == v
    ensures !t.Holds(v) && v < 0 ==> Wrap(t, v) == v + Pow2(t.prec)
    ensures !t.Holds(v) && v >= 0 ==> Wrap(t, v) == v - Pow2(t.prec)
  {
    var m := Pow2(t.prec);
    assert v % m == if v < 0 then v + m else v by {
      if v < 0 {
        ModNear(v + m, m, -1);
      } else {
        ModNear(v, m, 0);
      }
    }
  }

  lemma ModNear(r: int, m: int, k: int)
    requires 0 <= r < m
    ensures (r + k * m) % m == r
  {
    var q := (r + k * m) / m;
    assert (k - q) * m == (r + k * m) % m - r;
    MulLarge(k - q, m);
    MulLarge(q - k, m);
  }

  lemma MulLarge(a: int, m: int)
    requires m > 0
    ensures a >= 1 ==> a * m >= m
  {
  }

  /** A value of a type that is no wider is off by less than one turn. */
  lemma HeldNear(t: IntType, u: IntType, v: int)
    requires u.prec <= t.prec && u.Holds(v)
    ensures -Pow2(t.prec) <= v < Pow2(t.prec)
    ensures v >= 0 && u.prec < t.prec ==> t.Holds(v)
    ensures u.uns == t.uns ==> t.Holds(v)
    ensures !t.uns && u.prec < t.prec ==> t.Holds(v)
  {
    Pow2Grows(u.prec, t.prec);
    Pow2Grows(u.prec - 1, t.prec - 1);
    if u.prec < t.prec {
      Pow2Grows(u.prec, t.prec - 1);
    }
  }

  /** Wrapping twice at the same precision is wrapping once. */
  lemma WrapTwice(t: IntType, u: IntType, v: int)
    requires t.prec == u.prec && -Pow2(t.prec) <= v < Pow2(t.prec)
    ensures Wrap(t, Wrap(u, v)) == Wrap(t, v)
  {
    WrapNear(t, v);
    WrapNear(u, v);
    WrapNear(t, Wrap(u, v));
  }

  /** The type in which values of two types meet: the wider, else the unsigned one. */
  function CommonType(t: IntType, u: IntType): IntType {
    if t.prec > u.prec then t else if u.prec > t.prec then u else IntType(t.prec, t.uns || u.uns)
  }
}
