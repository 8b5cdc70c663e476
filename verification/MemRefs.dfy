/**
 Disjointness of memory references (alias.c, `rtx_equal_for_memref_p` and
 `memrefs_conflict_p`), for addresses made of registers, constants and sums.
 */
module MemRefs {

  datatype Rtx = Reg(regno: nat) | ConstInt(value: int) | Plus(op0: Rtx, op1: Rtx)

  type Registers = nat -> int

  function Address(x: Rtx, regs: Registers): int {
    match x
    case Reg(n) => regs(n)
    case ConstInt(v) => v
    case Plus(a, b) => Address(a, regs) + Address(b, regs)
  }

  /** `rtx_equal_for_memref_p`; equal constants are one object. */
  predicate Equal(x: Rtx, y: Rtx) {
    if x == y then true
    else if x.Plus? && y.Plus?
        then (Equal(x.op0, y.op0) && Equal(x.op1, y.op1)) || (Equal(x.op0, y.op1) && Equal(x.op1, y.op0))
    else false
  }

  lemma {:induction false} EqualAddress(x: Rtx, y: Rtx, regs: Registers)
    requires Equal(x, y)
    ensures Address(x, regs) == Address(y, regs)
  {
    if x != y {
      if Equal(x.op0, y.op0) && Equal(x.op1, y.op1) {
        EqualAddress(x.op0, y.op0, regs);
        EqualAddress(x.op1, y.op1, regs);
      } else {
        EqualAddress(x.op0, y.op1, regs);
        EqualAddress(x.op1, y.op0, regs);
      }
    }
  }

  lemma {:induction false} EqualSymmetric(x: Rtx, y: Rtx)
    ensures Equal(x, y) <==> Equal(y, x)
  {
    if x != y && x.Plus? && y.Plus? {
      EqualSymmetric(x.op0, y.op0);
      EqualSymmetric(x.op1, y.op1);
      EqualSymmetric(x.op0, y.op1);
      EqualSymmetric(x.op1, y.op0);
    }
  }

  function Size(x: Rtx): nat {
    if x.Plus? then 1 + Size(x.op0) + Size(x.op1) else 1
  }

  /** The test when the second reference is `c` bytes after the first. */
  predicate Near(xsize: int, ysize: int, c: int) {
    xsize <= 0 || ysize <= 0 || (c >= 0 && xsize > c) || (c < 0 && ysize + c > 0)
  }

  /** `memrefs_conflict_p`: whether X and Y + C could be the same storage. */
  predicate Conflict(xsize: int, x: Rtx, ysize: int, y: Rtx, c: int)
    decreases Size(x) + Size(y)
  {
    if Equal(x, y) then Near(xsize, ysize, c)
    else if x.Plus? && y.Plus? then
      if Equal(x.op1, y.op1) then Conflict(xsize, x.op0, ysize, y.op0, c)
      else if Equal(x.op0, y.op0) then Conflict(xsize, x.op1, ysize, y.op1, c)
      else if x.op1.ConstInt? && y.op1.ConstInt?
          then Conflict(xsize, x.op0, ysize, y.op0, c - x.op1.value + y.op1.value)
      else if x.op1.ConstInt? then Conflict(xsize, x.op0, ysize, y, c - x.op1.value)
      else if y.op1.ConstInt? then Conflict(xsize, x, ysize, y.op0, c + y.op1.value)
      else true
    else if x.Plus? && x.op1.ConstInt? then Conflict(xsize, x.op0, ysize, y, c - x.op1.value)
    else if y.Plus? && !x.Plus?
        then (if y.op1.ConstInt? then Conflict(xsize, x, ysize, y.op0, c + y.op1.value) else true)
    else if x.ConstInt? && y.ConstInt? then Near(xsize, ysize, c + y.value - x.value)
    else true
  }

  /** The references touch no common byte. */
  ghost predicate Disjoint(xsize: int, x: int, ysize: int, y: int) {
    forall b :: !(Touches(xsize, x, b) && Touches(ysize, y, b))
  }

  /** Byte `b` belongs to a reference of `size` bytes at address `x`. */
  predicate Touches(size: int, x: int, b: int) {
    x <= b < x + size
  }

  lemma DisjointEnds(xsize: int, x: int, ysize: int, y: int)
    requires xsize > 0 && ysize > 0
    ensures Disjoint(xsize, x, ysize, y) <==> x + xsize <= y || y + ysize <= x
  {
    if Disjoint(xsize, x, ysize, y) {
      var b := if x <= y then y else x;
      assert !(Touches(xsize, x, b) && Touches(ysize, y, b));
    }
  }

  lemma {:induction false} NoConflictApart(xsize: int, x: Rtx, ysize: int, y: Rtx, c: int, regs: Registers)
    requires !Conflict(xsize, x, ysize, y, c)
    ensures xsize > 0 && ysize > 0
    ensures Address(x, regs) + xsize <= Address(y, regs) + c || Address(y, regs) + c + ysize <= Address(x, regs)
    decreases Size(x) + Size(y)
  {
    if Equal(x, y) {
      EqualAddress(x, y, regs);
    } else if x.Plus? && y.Plus? {
      if Equal(x.op1, y.op1) {
        EqualAddress(x.op1, y.op1, regs);
        NoConflictApart(xsize, x.op0, ysize, y.op0, c, regs);
      } else if Equal(x.op0, y.op0) {
        EqualAddress(x.op0, y.op0, regs);
        NoConflictApart(xsize, x.op1, ysize, y.op1, c, regs);
      } else if x.op1.ConstInt? && y.op1.ConstInt? {
        NoConflictApart(xsize, x.op0, ysize, y.op0, c - x.op1.value + y.op1.value, regs);
      } else if x.op1.ConstInt? {
        NoConflictApart(xsize, x.op0, ysize, y, c - x.op1.value, regs);
      } else {
        NoConflictApart(xsize, x, ysize, y.op0, c + y.op1.value, regs);
      }
    } else if x.Plus? {
      NoConflictApart(xsize, x.op0, ysize, y, c - x.op1.value, regs);
    } else if y.Plus? {
      NoConflictApart(xsize, x, ysize, y.op0, c + y.op1.value, regs);
    }
  }

  /** If no conflict is seen, the bytes are disjoint whatever the registers
      hold; a size that is not known always makes a conflict. */
  lemma NoConflictDisjoint(xsize: int, x: Rtx, ysize: int, y: Rtx, c: int, regs: Registers)
    requires !Conflict(xsize, x, ysize, y, c)
    ensures xsize > 0 && ysize > 0 && Disjoint(xsize, Address(x, regs), ysize, Address(y, regs) + c)
  {
    NoConflictApart(xsize, x, ysize, y, c, regs);
    DisjointEnds(xsize, Address(x, regs), ysize, Address(y, regs) + c);
  }

  /** The answer does not depend on which reference comes first. */
  lemma {:induction false} ConflictSymmetric(xsize: int, x: Rtx, ysize: int, y: Rtx, c: int)
    ensures Conflict(xsize, x, ysize, y, c) <==> Conflict(ysize, y, xsize, x, -c)
    decreases Size(x) + Size(y)
  {
    EqualSymmetric(x, y);
    if Equal(x, y) {
    } else if x.Plus? && y.Plus? {
      EqualSymmetric(x.op1, y.op1);
      EqualSymmetric(x.op0, y.op0);
      if Equal(x.op1, y.op1) {
        ConflictSymmetric(xsize, x.op0, ysize, y.op0, c);
      } else if Equal(x.op0, y.op0) {
        ConflictSymmetric(xsize, x.op1, ysize, y.op1, c);
      } else if x.op1.ConstInt? && y.op1.ConstInt? {
        ConflictSymmetric(xsize, x.op0, ysize, y.op0, c - x.op1.value + y.op1.value);
      } else if x.op1.ConstInt? {
        ConflictSymmetric(xsize, x.op0, ysize, y, c - x.op1.value);
      } else if y.op1.ConstInt? {
        ConflictSymmetric(xsize, x, ysize, y.op0, c + y.op1.value);
      }
    } else if x.Plus? && x.op1.ConstInt? {
      ConflictSymmetric(xsize, x.op0, ysize, y, c - x.op1.value);
    } else if y.Plus? && y.op1.ConstInt? {
      ConflictSymmetric(xsize, x, ysize, y.op0, c + y.op1.value);
    }
  }

  // ----- when two references can meet -----

  /** The constants in an address, added up. */
  function Offset(x: Rtx): int {
    match x
    case Reg(_) => 0
    case ConstInt(v) => v
    case Plus(a, b) => Offset(a) + Offset(b)
  }

  /** How often register `r` is added. */
  function Count(x: Rtx, r: nat): nat {
    match x
    case Reg(n) => if n == r then 1 else 0
    case ConstInt(_) => 0
    case Plus(a, b) => Count(a, r) + Count(b, r)
  }

  /** All registers of an address are numbered below this. */
  function Width(x: Rtx): nat {
    match x
    case Reg(n) => n + 1
    case ConstInt(_) => 0
    case Plus(a, b) => if Width(a) < Width(b) then Width(b) else Width(a)
  }

  /** The registers below `n`, as often as they are added. */
  function Weighted(x: Rtx, regs: Registers, n: nat): int {
    if n == 0 then 0 else Weighted(x, regs, n - 1) + Count(x, n - 1) * regs(n - 1)
  }

  lemma {:induction false} WeightedPlus(a: Rtx, b: Rtx, regs: Registers, n: nat)
    ensures Weighted(Plus(a, b), regs, n) == Weighted(a, regs, n) + Weighted(b, regs, n)
  {
    if n > 0 {
      WeightedPlus(a, b, regs, n - 1);
      CountPlus(a, b, n - 1);
      hide Count;
      Distributes(Count(a, n - 1), Count(b, n - 1), regs(n - 1));
    }
  }

  lemma CountPlus(a: Rtx, b: Rtx, r: nat)
    ensures Count(Plus(a, b), r) == Count(a, r) + Count(b, r)
  {
  }

  lemma Distributes(a: int, b: int, v: int)
    ensures (a + b) * v == a * v + b * v
  {
  }

  lemma {:induction false} WeightedLeaf(x: Rtx, regs: Registers, n: nat)
    requires !x.Plus?
    ensures Weighted(x, regs, n) == if x.Reg? && x.regno < n then regs(x.regno) else 0
  {
    if n > 0 {
      WeightedLeaf(x, regs, n - 1);
    }
  }

  lemma {:induction false} AddressIs(x: Rtx, regs: Registers, n: nat)
    requires Width(x) <= n
    ensures Address(x, regs) == Offset(x) + Weighted(x, regs, n)
  {
    if x.Plus? {
      AddressIs(x.op0, regs, n);
      AddressIs(x.op1, regs, n);
      WeightedPlus(x.op0, x.op1, regs, n);
    } else {
      WeightedLeaf(x, regs, n);
    }
  }

  function Gcd(a: nat, b: nat): nat
    decreases b
  {
    if b == 0 then a else Gcd(b, a % b)
  }

  lemma {:induction false} GcdDivides(a: nat, b: nat) returns (i: nat, j: nat)
    ensures a == i * Gcd(a, b) && b == j * Gcd(a, b)
    decreases b
  {
    i, j := 1, 0;
    if b > 0 {
      var k, l := GcdDivides(b, a % b);
      Multiple(a, b, k, l, Gcd(a, b));
      i, j := a / b * k + l, k;
    }
  }

  lemma Multiple(a: nat, b: nat, k: nat, l: nat, g: nat)
    requires b > 0 && b == k * g && a % b == l * g
    ensures a == (a / b * k + l) * g
  {
    assert a == a / b * b + a % b;
    assert a / b * (k * g) == a / b * k * g;
  }

  lemma {:induction false} Bezout(a: nat, b: nat) returns (p: int, q: int)
    ensures p * a + q * b == Gcd(a, b)
    decreases b
  {
    p, q := 1, 0;
    if b > 0 {
      var k, l := Bezout(b, a % b);
      assert k * b + l * (a % b) == k * b + l * (a - a / b * b) == l * a + (k - l * (a / b)) * b;
      p, q := l, k - l * (a / b);
    }
  }

  function Abs(d: int): nat {
    if d < 0 then -d else d
  }

  /** The greatest common divisor of what the counts of registers below `n`
      differ by: the distance of two addresses varies in steps of it. */
  function Stride(x: Rtx, y: Rtx, n: nat): nat {
    if n == 0 then 0 else Gcd(Stride(x, y, n - 1), Abs(Count(y, n - 1) - Count(x, n - 1)))
  }

  /** Every distance is a number of strides off the difference of the constants. */
  lemma {:induction false} StridesOff(x: Rtx, y: Rtx, regs: Registers, n: nat) returns (t: int)
    ensures Weighted(y, regs, n) - Weighted(x, regs, n) == Stride(x, y, n) * t
  {
    t := 0;
    if n > 0 {
      var u := StridesOff(x, y, regs, n - 1);
      var cy: int, cx: int := Count(y, n - 1), Count(x, n - 1);
      var i, j := GcdDivides(Stride(x, y, n - 1), Abs(cy - cx));
      var h: int := j;
      if cy < cx {
        h := -h;
      }
      t := i * u + h * regs(n - 1);
      Regroup(Stride(x, y, n - 1), Stride(x, y, n), i, u, cy, cx, j, h, regs(n - 1));
    }
  }

  lemma Regroup(s: int, g: int, i: int, u: int, cy: int, cx: int, j: int, h: int, v: int)
    requires s == i * g && Abs(cy - cx) == j * g && h == if cy < cx then 0 - j else j
    ensures s * u + cy * v - cx * v == g * (i * u + h * v)
  {
    assert cy - cx == h * g;
    Factor(cy, cx, h, g, v);
    assert i * g * u == g * (i * u);
  }

  lemma Factor(cy: int, cx: int, h: int, g: int, v: int)
    requires cy - cx == h * g
    ensures cy * v - cx * v == g * (h * v)
  {
    assert cy * v - cx * v == (cy - cx) * v;
  }

  /** And every number of strides occurs. */
  lemma {:induction false} StridesReached(x: Rtx, y: Rtx, n: nat, t: int) returns (regs: Registers)
    ensures Weighted(y, regs, n) - Weighted(x, regs, n) == Stride(x, y, n) * t
  {
    hide Count, Gcd;
    regs := r => 0;
    if n > 0 {
      var s, cy: int, cx: int := Stride(x, y, n - 1), Count(y, n - 1), Count(x, n - 1);
      var p, q := Bezout(s, Abs(cy - cx));
      var regs0 := StridesReached(x, y, n - 1, p * t);
      var v := if cy < cx then -(q * t) else q * t;
      regs := (r: nat) => if r == n - 1 then v else regs0(r);
      WeightedSame(x, regs, regs0, n - 1);
      WeightedSame(y, regs, regs0, n - 1);
      Distribute(s, p, cy, cx, q, t, v, Stride(x, y, n));
    }
  }

  lemma Distribute(s: int, p: int, cy: int, cx: int, q: int, t: int, v: int, g: int)
    requires v == (if cy < cx then -(q * t) else q * t) && g == p * s + q * Abs(cy - cx)
    ensures s * (p * t) + cy * v - cx * v == g * t
  {
    assert cy * v - cx * v == (cy - cx) * v;
    assert (cy - cx) * v == Abs(cy - cx) * (q * t) by {
      if cy < cx {
        assert (cy - cx) * -(q * t) == (cx - cy) * (q * t);
      }
    }
    assert s * (p * t) == p * s * t && Abs(cy - cx) * (q * t) == q * Abs(cy - cx) * t;
    Distributes(p * s, q * Abs(cy - cx), t);
  }

  lemma {:induction false} WeightedSame(x: Rtx, regs: Registers, regs': Registers, n: nat)
    requires forall r: nat :: r < n ==> regs(r) == regs'(r)
    ensures Weighted(x, regs, n) == Weighted(x, regs', n)
  {
    if n > 0 {
      WeightedSame(x, regs, regs', n - 1);
    }
  }

  /** Some distance `d + g * t` brings the references together. */
  predicate Meets(xsize: int, ysize: int, g: nat, d: int)
    requires xsize > 0 && ysize > 0
  {
    if g == 0 then Near(xsize, ysize, d) else (d + ysize - 1) % g < xsize + ysize - 1
  }

  lemma MeetsAt(xsize: int, ysize: int, g: nat, d: int) returns (t: int)
    requires xsize > 0 && ysize > 0 && Meets(xsize, ysize, g, d)
    ensures Near(xsize, ysize, d + g * t)
  {
    if g == 0 {
      t := 0;
    } else {
      var u := d + ysize - 1;
      t := -(u / g);
      assert u == u / g * g + u % g;
      assert g * t == -(u / g * g);
    }
  }

  lemma NearMeets(xsize: int, ysize: int, g: nat, d: int, t: int)
    requires xsize > 0 && ysize > 0 && Near(xsize, ysize, d + g * t)
    ensures Meets(xsize, ysize, g, d)
  {
    if g > 0 {
      var u := d + ysize - 1;
      Remainder(u, g, t);
    }
  }

  lemma Remainder(u: int, g: nat, t: int)
    requires g > 0 && u + g * t >= 0
    ensures u % g <= u + g * t
  {
    var q := u / g + t;
    assert u == u / g * g + u % g;
    assert u + g * t == q * g + u % g;
    assert q <= -1 ==> q * g + g <= 0;
    assert q >= 0 ==> q * g >= 0;
  }

  /** The stride of two addresses. */
  function StrideOf(x: Rtx, y: Rtx): nat {
    Stride(x, y, Width(Plus(x, y)))
  }

  /** The references `t` strides off the difference of their constants. */
  lemma StridesApart(xsize: int, x: Rtx, ysize: int, y: Rtx, c: int, regs: Registers, t: int)
    requires xsize > 0 && ysize > 0
    requires var n := Width(Plus(x, y)); Weighted(y, regs, n) - Weighted(x, regs, n) == StrideOf(x, y) * t
    ensures !Disjoint(xsize, Address(x, regs), ysize, Address(y, regs) + c) <==>
            Near(xsize, ysize, c + Offset(y) - Offset(x) + StrideOf(x, y) * t)
  {
    hide Disjoint, Address, Stride, Offset, Width, Weighted;
    WidthPlus(x, y);
    AddressIs(x, regs, Width(Plus(x, y)));
    AddressIs(y, regs, Width(Plus(x, y)));
    DisjointEnds(xsize, Address(x, regs), ysize, Address(y, regs) + c);
  }

  lemma WidthPlus(x: Rtx, y: Rtx)
    ensures Width(x) <= Width(Plus(x, y)) && Width(y) <= Width(Plus(x, y))
  {
  }

  /** Two references, whatever their addresses, meet for some contents of the
      registers exactly if the difference of their constants allows it. */
  lemma MeetExactly(xsize: int, x: Rtx, ysize: int, y: Rtx, c: int)
    requires xsize > 0 && ysize > 0
    ensures (exists regs: Registers :: !Disjoint(xsize, Address(x, regs), ysize, Address(y, regs) + c)) <==>
            Meets(xsize, ysize, StrideOf(x, y), c + Offset(y) - Offset(x))
  {
    hide Disjoint, Address, Meets, Near, Stride, Offset, Width, Weighted;
    var n, g, d := Width(Plus(x, y)), StrideOf(x, y), c + Offset(y) - Offset(x);
    if Meets(xsize, ysize, g, d) {
      var t := MeetsAt(xsize, ysize, g, d);
      var regs := StridesReached(x, y, n, t);
      StridesApart(xsize, x, ysize, y, c, regs, t);
    }
    if regs: Registers :| !Disjoint(xsize, Address(x, regs), ysize, Address(y, regs) + c) {
      var t := StridesOff(x, y, regs, n);
      StridesApart(xsize, x, ysize, y, c, regs, t);
      NearMeets(xsize, ysize, g, d, t);
    }
  }

  // ----- when a conflict that is seen is one -----

  /** A sum of registers. */
  predicate Sum(x: Rtx) {
    x.Reg? || (x.Plus? && Sum(x.op0) && Sum(x.op1))
  }

  /** An address as the compiler keeps it: a sum of registers, a constant, or
      a sum and a constant at its end. */
  predicate Canonical(x: Rtx) {
    x.ConstInt? || Sum(x) || (x.Plus? && Sum(x.op0) && x.op1.ConstInt?)
  }

  /** The registers of two addresses are added in the same way. */
  predicate SameSums(x: Rtx, y: Rtx)
    requires Canonical(x) && Canonical(y)
  {
    if x.ConstInt? || y.ConstInt? then x.ConstInt? && y.ConstInt? else Equal(SumPart(x), SumPart(y))
  }

  /** An address without the constant at its end. */
  function SumPart(x: Rtx): Rtx
    requires Canonical(x)
  {
    if x.Plus? && x.op1.ConstInt? then x.op0 else x
  }

  lemma SumPartIs(x: Rtx)
    requires Canonical(x) && !x.ConstInt?
    ensures Sum(SumPart(x)) && Offset(x) == if Sum(x) then 0 else x.op1.value
  {
    SumOffset(SumPart(x));
  }

  lemma {:induction false} EqualSums(x: Rtx, y: Rtx)
    requires Equal(x, y)
    ensures Size(x) == Size(y) && (Sum(x) <==> Sum(y))
  {
    if x != y {
      if Equal(x.op0, y.op0) && Equal(x.op1, y.op1) {
        EqualSums(x.op0, y.op0);
        EqualSums(x.op1, y.op1);
      } else {
        EqualSums(x.op0, y.op1);
        EqualSums(x.op1, y.op0);
      }
    }
  }

  lemma {:induction false} SumOffset(x: Rtx)
    requires Sum(x)
    ensures Offset(x) == 0
  {
    if x.Plus? {
      SumOffset(x.op0);
      SumOffset(x.op1);
    }
  }

  /** On sums of registers the test asks for equal sums, or it sees a conflict. */
  lemma {:induction false} SumConflict(xsize: int, x: Rtx, ysize: int, y: Rtx, c: int)
    requires Sum(x) && Sum(y)
    ensures Conflict(xsize, x, ysize, y, c) <==> !Equal(x, y) || Near(xsize, ysize, c)
    decreases Size(x) + Size(y)
  {
    if x.Plus? && y.Plus? {
      SumConflict(xsize, x.op0, ysize, y.op0, c);
      SumConflict(xsize, x.op1, ysize, y.op1, c);
    }
  }

  lemma MixedConflict(xsize: int, x: Rtx, ysize: int, y: Rtx, c: int)
    requires Sum(x) && y.Plus? && Sum(y.op0) && y.op1.ConstInt?
    ensures Conflict(xsize, x, ysize, y, c) <==> !Equal(x, y.op0) || Near(xsize, ysize, c + y.op1.value)
  {
    SumConflict(xsize, x, ysize, y.op0, c + y.op1.value);
    if Equal(x, y) {
      EqualSums(x, y);
    }
    if x.Plus? {
      if Equal(x.op1, y.op1) {
        EqualSums(x.op1, y.op1);
      } else if Equal(x.op0, y.op0) {
        assert Sum(x.op1) && (x.op1.Plus? ==> Sum(x.op1.op1));
        assert Conflict(xsize, x.op1, ysize, y.op1, c);
        EqualSums(x.op0, y.op0);
        if Equal(x, y.op0) {
          EqualSums(x, y.op0);
        }
      }
    }
  }

  lemma BothConflict(xsize: int, x: Rtx, ysize: int, y: Rtx, c: int)
    requires x.Plus? && Sum(x.op0) && x.op1.ConstInt? && y.Plus? && Sum(y.op0) && y.op1.ConstInt?
    ensures Conflict(xsize, x, ysize, y, c) <==>
            !Equal(x.op0, y.op0) || Near(xsize, ysize, c + y.op1.value - x.op1.value)
  {
    SumConflict(xsize, x.op0, ysize, y.op0, c);
    SumConflict(xsize, x.op0, ysize, y.op0, c - x.op1.value + y.op1.value);
    assert !Equal(x.op0, y.op1) by {
      if Equal(x.op0, y.op1) {
        EqualSums(x.op0, y.op1);
      }
    }
    if x.op1 != y.op1 {
      assert Conflict(xsize, x.op1, ysize, y.op1, c) <==> Near(xsize, ysize, c + y.op1.value - x.op1.value);
    }
  }

  /** On canonical addresses likewise, with the constants taken into account. */
  lemma CanonicalConflict(xsize: int, x: Rtx, ysize: int, y: Rtx, c: int)
    requires Canonical(x) && Canonical(y)
    ensures Conflict(xsize, x, ysize, y, c) <==>
            !SameSums(x, y) || Near(xsize, ysize, c + Offset(y) - Offset(x))
  {
    var s, t := SumPart(x), SumPart(y);
    if !x.ConstInt? { SumPartIs(x); }
    if !y.ConstInt? { SumPartIs(y); }
    if x.ConstInt? || y.ConstInt? {
      if x != y && x.Plus? && !Sum(x) {
        assert Conflict(xsize, x.op0, ysize, y, c - x.op1.value);
      } else if x != y && y.Plus? && !Sum(y) {
        assert Conflict(xsize, x, ysize, y.op0, c + y.op1.value);
      }
    } else {
      SumConflict(xsize, s, ysize, t, c + Offset(y) - Offset(x));
      if Sum(x) && !Sum(y) {
        MixedConflict(xsize, x, ysize, y, c);
      } else if !Sum(x) && Sum(y) {
        MixedConflict(ysize, y, xsize, x, -c);
        ConflictSymmetric(xsize, x, ysize, y, c);
        EqualSymmetric(s, t);
      } else if !Sum(x) {
        BothConflict(xsize, x, ysize, y, c);
      }
    }
  }

  /** The test agrees with what the registers allow exactly if the sums are equal, or
      the strides bring the references together. */
  lemma ConflictExactly(xsize: int, x: Rtx, ysize: int, y: Rtx, c: int)
    requires xsize > 0 && ysize > 0 && Canonical(x) && Canonical(y)
    ensures (Conflict(xsize, x, ysize, y, c) <==>
             exists regs: Registers :: !Disjoint(xsize, Address(x, regs), ysize, Address(y, regs) + c))
            <==> SameSums(x, y) || Meets(xsize, ysize, StrideOf(x, y), c + Offset(y) - Offset(x))
  {
    hide Disjoint, Address, Stride, Conflict;
    MeetExactly(xsize, x, ysize, y, c);
    CanonicalConflict(xsize, x, ysize, y, c);
    if SameSums(x, y) {
      SameStride(x, y);
    }
  }

  lemma {:induction false} EqualCounts(x: Rtx, y: Rtx, r: nat)
    requires Equal(x, y)
    ensures Count(x, r) == Count(y, r)
  {
    if x != y {
      if Equal(x.op0, y.op0) && Equal(x.op1, y.op1) {
        EqualCounts(x.op0, y.op0, r);
        EqualCounts(x.op1, y.op1, r);
      } else {
        EqualCounts(x.op0, y.op1, r);
        EqualCounts(x.op1, y.op0, r);
      }
    }
  }

  lemma SameCounts(x: Rtx, y: Rtx, r: nat)
    requires Canonical(x) && Canonical(y) && SameSums(x, y)
    ensures Count(x, r) == Count(y, r)
  {
    if !x.ConstInt? {
      EqualCounts(SumPart(x), SumPart(y), r);
    }
  }

  lemma {:induction false} NoStride(x: Rtx, y: Rtx, n: nat)
    requires Canonical(x) && Canonical(y) && SameSums(x, y)
    ensures Stride(x, y, n) == 0
  {
    if n > 0 {
      NoStride(x, y, n - 1);
      SameCounts(x, y, n - 1);
    }
  }

  lemma SameStride(x: Rtx, y: Rtx)
    requires Canonical(x) && Canonical(y) && SameSums(x, y)
    ensures StrideOf(x, y) == 0
  {
    NoStride(x, y, Width(Plus(x, y)));
  }

  /** In one address register `r` is added once more than in the other. */
  predicate OneMore(x: Rtx, y: Rtx, r: nat) {
    Count(x, r) == Count(y, r) + 1 || Count(y, r) == Count(x, r) + 1
  }

  lemma {:induction false} UnitStride(x: Rtx, y: Rtx, r: nat, n: nat)
    requires OneMore(x, y, r) && r < n
    ensures Stride(x, y, n) == 1
  {
    hide Gcd, Count;
    if r < n - 1 {
      UnitStride(x, y, r, n - 1);
      GcdOne(Abs(Count(y, n - 1) - Count(x, n - 1)));
    } else {
      GcdOne(Stride(x, y, r));
    }
  }

  lemma GcdOne(d: nat)
    ensures Gcd(1, d) == 1 && Gcd(d, 1) == 1
  {
    assert Gcd(d, 1) == Gcd(1, 0);
    assert d > 1 ==> Gcd(1, d) == Gcd(d, 1);
  }

  lemma {:induction false} CountedBelow(x: Rtx, r: nat)
    requires Count(x, r) > 0
    ensures r < Width(x)
  {
    if x.Plus? {
      if Count(x.op0, r) > 0 {
        CountedBelow(x.op0, r);
      } else {
        CountedBelow(x.op1, r);
      }
    }
  }

  /** So on canonical addresses whose sums are equal, or that differ by one in some
      register, a conflict is seen exactly if some contents of the registers
      bring the references together. */
  lemma ConflictExact(xsize: int, x: Rtx, ysize: int, y: Rtx, c: int)
    requires xsize > 0 && ysize > 0 && Canonical(x) && Canonical(y)
    requires SameSums(x, y) || exists r :: OneMore(x, y, r)
    ensures Conflict(xsize, x, ysize, y, c) <==>
              exists regs: Registers :: !Disjoint(xsize, Address(x, regs), ysize, Address(y, regs) + c)
  {
    hide Disjoint, Address, Conflict;
    ConflictExactly(xsize, x, ysize, y, c);
    if !SameSums(x, y) {
      var r :| OneMore(x, y, r);
      if Count(x, r) > 0 {
        CountedBelow(x, r);
      } else {
        CountedBelow(y, r);
      }
      UnitStride(x, y, r, Width(Plus(x, y)));
    }
  }

  /** This is so for a register, a constant, and a register with an offset. */
  lemma SimpleDiffer(x: Rtx, y: Rtx)
    requires Canonical(x) && Canonical(y)
    requires (x.Plus? ==> x.op0.Reg? && x.op1.ConstInt?) && (y.Plus? ==> y.op0.Reg? && y.op1.ConstInt?)
    ensures SameSums(x, y) || exists r :: OneMore(x, y, r)
  {
    if !SameSums(x, y) {
      var s := if x.ConstInt? then SumPart(y) else SumPart(x);
      assert OneMore(x, y, s.regno);
    }
  }

  /** Where the test sees a conflict that cannot be: the same registers added in
      another order, eight bytes apart, and two registers each added twice. */
  lemma PessimisticExamples()
    ensures var x := Plus(Plus(Reg(1), Reg(2)), Reg(3));
            var y := Plus(Plus(Plus(Reg(1), Reg(3)), Reg(2)), ConstInt(8));
            Conflict(4, x, 4, y, 0) && forall regs: Registers :: Disjoint(4, Address(x, regs), 4, Address(y, regs))
    ensures var x := Plus(Reg(1), Reg(1));
            var y := Plus(Plus(Reg(2), Reg(2)), ConstInt(1));
            Conflict(1, x, 1, y, 0) && forall regs: Registers :: Disjoint(1, Address(x, regs), 1, Address(y, regs))
  {
  }
}
