/**
 Small definitions that several parts share.
 */
module Helpers {

  datatype Option<T> = None | Some(value: T)

  function Pow2(n: nat): (r: int)
    ensures r > 0
  {
    if n == 0 then 1 else 2 * Pow2(n - 1)
  }

  lemma Powers()
    ensures Pow2(1) == 2 && Pow2(2) == 4 && Pow2(4) == 16 && Pow2(16) == 0x1_0000
    ensures Pow2(7) == 128 && Pow2(8) == 256 && Pow2(31) == 0x8000_0000 && Pow2(32) == 0x1_0000_0000
    ensures Pow2(63) == 0x8000_0000_0000_0000 && Pow2(64) == 0x1_0000_0000_0000_0000
  {
    Pow2Byte(0);
    Pow2Byte(8);
    Pow2Byte(16);
    Pow2Byte(24);
    Pow2Byte(32);
    Pow2Byte(40);
    Pow2Byte(48);
    Pow2Byte(56);
  }

  lemma Pow2Byte(n: nat)
    ensures Pow2(n + 8) == 256 * Pow2(n) && Pow2(n + 7) == 128 * Pow2(n)
  {
    assert Pow2(n + 4) == 2 * Pow2(n + 3) == 4 * Pow2(n + 2) == 8 * Pow2(n + 1);
    assert Pow2(n + 8) == 2 * Pow2(n + 7) == 4 * Pow2(n + 6) == 8 * Pow2(n + 5);
  }

  /** What `m` holds for `k`, 0 if nothing. */
  function At(m: map<nat, nat>, k: nat): nat {
    if k in m then m[k] else 0
  }

  /** No element occurs twice. */
  ghost predicate NoDup(c: seq<nat>) {
    forall i, j {:trigger c[i], c[j]} :: 0 <= i < j < |c| ==> c[i] != c[j]
  }

  lemma {:induction false} Smaller(a: set<nat>, b: set<nat>)
    requires a <= b
    ensures |a| <= |b| && (a != b ==> |a| < |b|)
  {
    if x :| x in a {
      Smaller(a - {x}, b - {x});
    }
  }
}
