/**
 The value a sparse bitmap holds: a finite map from element index to the
 nonempty set of bit numbers set in that 128-bit element. `Combine` is the
 value-level form of `bitmap_operation`; the lemmas relate block maps to
 plain sets of naturals.
 */
module Blocks {

  const ELEMENT_BITS: nat := 128

  /** `(unsigned int) ~0`, the index that stands for "no element left". */
  const HIGHEST_INDEX: nat := 0xffff_ffff

  /** Bit numbers are unsigned ints, so element indices lie below this. */
  const INDEX_LIMIT: nat := 0x200_0000

  /** Bit numbers are unsigned ints. */
  const BIT_LIMIT: nat := 0x1_0000_0000

  type Blocks = map<nat, set<nat>>

  /** The operations of `enum bitmap_bits`. */
  datatype Op = And | AndCompl | Ior | Xor | IorCompl

  predicate IsBitNumber(k: nat) {
    k < ELEMENT_BITS
  }

  function AllBits(): set<nat> {
    set k: nat | k < ELEMENT_BITS && IsBitNumber(k)
  }

  /** One element's payload under an operation. */
  function BitsOp(op: Op, a: set<nat>, b: set<nat>): set<nat> {
    match op
    case And => a * b
    case AndCompl => a - b
    case Ior => a + b
    case Xor => (a - b) + (b - a)
    case IorCompl => a + (AllBits() - b)
  }

  /** What an operation does to one pair of truth values. */
  predicate BoolOp(op: Op, a: bool, b: bool) {
    match op
    case And => a && b
    case AndCompl => a && !b
    case Ior => a || b
    case Xor => a != b
    case IorCompl => a || !b
  }

  /** What an operation does to a pair of sets of naturals. */
  ghost function SetOp(op: Op, a: set<nat>, b: set<nat>): set<nat>
    requires op != IorCompl
  {
    match op
    case And => a * b
    case AndCompl => a - b
    case Ior => a + b
    case Xor => (a - b) + (b - a)
  }

  /** No zero element, no stray bit number, no index that looks like the sentinel. */
  ghost predicate Canonical(m: Blocks) {
    forall n :: n in m ==> n < HIGHEST_INDEX && m[n] != {} && m[n] <= AllBits()
  }

  /** The bits of element `n`, none if there is no such element. */
  function Get(m: Blocks, n: nat): set<nat> {
    if n in m then m[n] else {}
  }

  /** The set of naturals a block map stands for. */
  ghost function SetOf(m: Blocks): set<nat> {
    set n, k | n in m && k in m[n] :: n * ELEMENT_BITS + k
  }

  /** Element `n` of the result: combined only where a source has an element. */
  function Merged(op: Op, a: Blocks, b: Blocks, n: nat): set<nat> {
    if n in a || n in b then BitsOp(op, Get(a, n), Get(b, n)) else {}
  }

  ghost function Combine(op: Op, a: Blocks, b: Blocks): Blocks {
    map n | n in a.Keys + b.Keys && Merged(op, a, b, n) != {} :: Merged(op, a, b, n)
  }

  // ----- block maps and sets -----

  lemma InSetOf(m: Blocks, x: nat)
    requires Canonical(m)
    ensures x in SetOf(m) <==> x % ELEMENT_BITS in Get(m, x / ELEMENT_BITS)
  {
    if x % ELEMENT_BITS in Get(m, x / ELEMENT_BITS) {
      var n: nat, k: nat := x / ELEMENT_BITS, x % ELEMENT_BITS;
      assert n in m && k in m[n] && x == n * ELEMENT_BITS + k;
    }
    if x in SetOf(m) {
      var n: nat, k: nat :| n in m && k in m[n] && x == n * ELEMENT_BITS + k;
      assert k in AllBits();
    }
  }

  lemma GetCombine(op: Op, a: Blocks, b: Blocks, n: nat)
    ensures Get(Combine(op, a, b), n) == Merged(op, a, b, n)
  {
  }

  lemma BitsOpBit(op: Op, a: set<nat>, b: set<nat>, k: nat)
    requires k < ELEMENT_BITS
    ensures k in BitsOp(op, a, b) <==> BoolOp(op, k in a, k in b)
  {
    assert IsBitNumber(k);
  }

  lemma AllBitsHas(k: nat)
    requires k < ELEMENT_BITS
    ensures k in AllBits()
  {
    assert IsBitNumber(k);
  }

  lemma BitsOpBound(op: Op, a: set<nat>, b: set<nat>)
    requires a <= AllBits() && b <= AllBits()
    ensures BitsOp(op, a, b) <= AllBits()
  {
  }

  lemma CombineCanonical(op: Op, a: Blocks, b: Blocks)
    requires Canonical(a) && Canonical(b)
    ensures Canonical(Combine(op, a, b))
  {
  }

  lemma InCombine(op: Op, a: Blocks, b: Blocks, x: nat)
    requires Canonical(a) && Canonical(b)
    ensures x in SetOf(Combine(op, a, b)) <==>
            && (x / ELEMENT_BITS in a || x / ELEMENT_BITS in b)
            && BoolOp(op, x in SetOf(a), x in SetOf(b))
  {
    var n, k := x / ELEMENT_BITS, x % ELEMENT_BITS;
    CombineCanonical(op, a, b);
    InSetOf(a, x);
    InSetOf(b, x);
    InSetOf(Combine(op, a, b), x);
    GetCombine(op, a, b, n);
    BitsOpBit(op, Get(a, n), Get(b, n), k);
  }

  /** For the four set operations, the merge computes that operation. */
  lemma CombineIsSetOp(op: Op, a: Blocks, b: Blocks)
    requires Canonical(a) && Canonical(b) && op != IorCompl
    ensures SetOf(Combine(op, a, b)) == SetOp(op, SetOf(a), SetOf(b))
  {
    forall x: nat
      ensures x in SetOf(Combine(op, a, b)) <==> BoolOp(op, x in SetOf(a), x in SetOf(b))
    {
      InCombine(op, a, b, x);
      InSetOf(a, x);
      InSetOf(b, x);
    }
  }

  /** Ior with the complement complements only inside elements that one of
      the sources has: a bit anywhere else stays clear. */
  lemma CombineIorCompl(a: Blocks, b: Blocks, x: nat)
    requires Canonical(a) && Canonical(b)
    ensures x in SetOf(Combine(IorCompl, a, b)) <==>
            && (x / ELEMENT_BITS in a || x / ELEMENT_BITS in b)
            && (x in SetOf(a) || x !in SetOf(b))
  {
    InCombine(IorCompl, a, b, x);
  }

  lemma SameElement(a: Blocks, b: Blocks, n: nat)
    requires Canonical(a) && Canonical(b) && SetOf(a) == SetOf(b)
    ensures Get(a, n) == Get(b, n)
  {
    forall k: nat
      ensures k in Get(a, n) <==> k in Get(b, n)
    {
      if k < ELEMENT_BITS {
        var x := n * ELEMENT_BITS + k;
        assert x / ELEMENT_BITS == n && x % ELEMENT_BITS == k;
        InSetOf(a, x);
        InSetOf(b, x);
      }
    }
  }

  /** Canonical block maps that hold the same set are equal. */
  lemma CanonicalUnique(a: Blocks, b: Blocks)
    requires Canonical(a) && Canonical(b)
    ensures SetOf(a) == SetOf(b) <==> a == b
  {
    if SetOf(a) == SetOf(b) {
      forall n: nat
        ensures Get(a, n) == Get(b, n)
      {
        SameElement(a, b, n);
      }
      assert a.Keys == b.Keys by {
        forall n
          ensures n in a <==> n in b
        {
          assert Get(a, n) == Get(b, n);
        }
      }
      forall n | n in a
        ensures a[n] == b[n]
      {
        assert Get(a, n) == Get(b, n);
      }
    }
  }

  /** `m` with element `n` holding `bits`, or without it if `bits` is empty. */
  ghost function Put(m: Blocks, n: nat, bits: set<nat>): Blocks {
    if bits == {} then m - {n} else m[n := bits]
  }

  lemma PutSet(m: Blocks, x: nat)
    requires Canonical(m) && x / ELEMENT_BITS < HIGHEST_INDEX
    ensures Canonical(Put(m, x / ELEMENT_BITS, Get(m, x / ELEMENT_BITS) + {x % ELEMENT_BITS}))
    ensures SetOf(Put(m, x / ELEMENT_BITS, Get(m, x / ELEMENT_BITS) + {x % ELEMENT_BITS})) == SetOf(m) + {x}
    ensures Canonical(Put(m, x / ELEMENT_BITS, Get(m, x / ELEMENT_BITS) - {x % ELEMENT_BITS}))
    ensures SetOf(Put(m, x / ELEMENT_BITS, Get(m, x / ELEMENT_BITS) - {x % ELEMENT_BITS})) == SetOf(m) - {x}
  {
    var n, k := x / ELEMENT_BITS, x % ELEMENT_BITS;
    assert IsBitNumber(k);
    var p := Put(m, n, Get(m, n) + {k});
    var q := Put(m, n, Get(m, n) - {k});
    forall y: nat
      ensures y in SetOf(p) <==> y in SetOf(m) || y == x
      ensures y in SetOf(q) <==> y in SetOf(m) && y != x
    {
      InSetOf(m, y);
      InSetOf(p, y);
      InSetOf(q, y);
      assert y == x <==> y / ELEMENT_BITS == n && y % ELEMENT_BITS == k;
    }
  }

  // ----- merging in index order -----

  /** The part of a block map below index `lo`. */
  ghost function Below(m: Blocks, lo: nat): Blocks {
    map n | n in m && n < lo :: m[n]
  }

  lemma BelowNone(m: Blocks)
    ensures Below(m, 0) == map[]
  {
  }

  /** Merging one more index, when neither source has an element in between. */
  lemma MergeOne(op: Op, a: Blocks, b: Blocks, t: Blocks, lo: nat, k: nat)
    requires Canonical(t) && lo <= k && (k in a || k in b)
    requires forall n :: (n in a || n in b) && lo <= n ==> k <= n
    ensures var r := BitsOp(op, Get(a, k), Get(b, k));
            var c := Combine(op, a, b);
            && Below(c, k + 1) == (if r == {} then Below(c, lo) else Below(c, lo)[k := r])
            && (Below(c, k + 1) != Below(t, k + 1) <==>
                Below(c, lo) != Below(t, lo) || (exists n :: n in t && lo <= n < k) || r != Get(t, k))
  {
    hide BitsOp;
    GetCombine(op, a, b, k);
    BelowOne(Combine(op, a, b), lo, k);
    SplitEqual(Combine(op, a, b), t, lo, k);
  }

  lemma BelowNext(b: Blocks, lo: nat, k: nat)
    requires lo <= k && k in b && forall n :: n in b && lo <= n ==> k <= n
    ensures Below(b, k + 1) == Below(b, lo)[k := b[k]]
  {
  }

  lemma BelowOne(c: Blocks, lo: nat, k: nat)
    requires lo <= k && (forall n :: n in c && lo <= n ==> k <= n) && (k in c ==> c[k] != {})
    ensures Below(c, k + 1) == if Get(c, k) == {} then Below(c, lo) else Below(c, lo)[k := Get(c, k)]
  {
  }

  /** Equality below `k + 1`, split at `lo` and at `k`. */
  lemma SplitEqual(c: Blocks, t: Blocks, lo: nat, k: nat)
    requires Canonical(t) && lo <= k && (forall n :: n in c && lo <= n ==> k <= n) && (k in c ==> c[k] != {})
    ensures Below(c, k + 1) == Below(t, k + 1) <==>
            Below(c, lo) == Below(t, lo) && (forall n :: n in t && lo <= n ==> k <= n) && Get(c, k) == Get(t, k)
  {
    var x, y := Below(c, k + 1), Below(t, k + 1);
    if x == y {
      assert Below(c, lo) == Below(x, lo) && Below(t, lo) == Below(y, lo);
      assert forall n :: n in t && lo <= n < k ==> n in y;
      assert Get(c, k) == Get(x, k) && Get(t, k) == Get(y, k);
    }
    if Below(c, lo) == Below(t, lo) && (forall n :: n in t && lo <= n ==> k <= n) && Get(c, k) == Get(t, k) {
      forall n | n in x.Keys + y.Keys
        ensures n in x && n in y && x[n] == y[n]
      {
        if n < lo {
          assert n in Below(c, lo) <==> n in c;
          assert n in Below(t, lo) <==> n in t;
          assert n in x ==> Below(c, lo)[n] == c[n];
          assert n in y ==> Below(t, lo)[n] == t[n];
        }
      }
      assert x == y;
    }
  }

  /** When both sources are used up, what is below `lo` is all there is. */
  lemma MergeDone(op: Op, a: Blocks, b: Blocks, t: Blocks, lo: nat)
    requires forall n :: n in a || n in b ==> n < lo
    ensures Below(Combine(op, a, b), lo) == Combine(op, a, b)
    ensures Combine(op, a, b) != t <==> Below(Combine(op, a, b), lo) != Below(t, lo) || exists n :: n in t && lo <= n
  {
    var c := Combine(op, a, b);
    assert Below(c, lo) == c;
    if forall n :: n in t ==> n < lo {
      assert Below(t, lo) == t;
    }
  }
}
