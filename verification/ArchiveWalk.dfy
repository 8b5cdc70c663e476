/**
 The walk from header to header in `list` (ar370.c): where it goes for any
 bytes, and when it ends.
 */
module ArchiveWalk {
  import opened ArchiveFormat

  /** A whole header can be read at `q`. */
  predicate Here(a: Bytes, q: int) {
    0 <= q && q + 60 <= |a|
  }

  function Next(a: Bytes, q: nat): int {
    q + Stride(SizeAt(a, q))
  }

  /** The offset after `k` rounds of the loop that starts at `s`; it stays where
      no header can be read. */
  function After(a: Bytes, s: int, k: nat): int {
    if k == 0 then s
    else
      var p := After(a, s, k - 1);
      if Here(a, p) then Next(a, p) else p
  }

  /** How the walk goes: past the end, with the headers it read; to an offset
      before the file; or round and round. */
  datatype Trip = Past(headers: seq<nat>) | Before | Endless

  ghost function Below(n: nat): (r: set<int>)
    ensures forall x :: x in r <==> 0 <= x < n
  {
    if n == 0 then {} else Below(n - 1) + {n - 1}
  }

  function Walk(a: Bytes, q: int, seen: set<int>): Trip
    decreases Below(|a|) - seen
  {
    if q + 60 > |a| then Past([])
    else if q < 0 then Before
    else if q in seen then Endless
    else
      assert q in Below(|a|);
      Joined([q], Walk(a, Next(a, q), seen + {q}))
  }

  function Joined(hs: seq<nat>, t: Trip): Trip {
    if t.Past? then Past(hs + t.headers) else t
  }

  // ----- runs of the loop -----

  lemma {:induction false} StaysOut(a: Bytes, s: int, i: nat, j: nat)
    requires i <= j && !Here(a, After(a, s, i))
    ensures After(a, s, j) == After(a, s, i)
  {
    if i < j {
      StaysOut(a, s, i, j - 1);
    }
  }

  lemma {:induction false} Shifted(a: Bytes, s: int, i: nat, j: nat, m: nat)
    requires After(a, s, i) == After(a, s, j)
    ensures After(a, s, i + m) == After(a, s, j + m)
  {
    if m > 0 {
      Shifted(a, s, i, j, m - 1);
    }
  }

  /** A walk that comes back to a header never ends. */
  lemma {:induction false} Repeats(a: Bytes, s: int, i: nat, j: nat, n: nat)
    requires i < j && After(a, s, i) == After(a, s, j) && Here(a, After(a, s, i))
    ensures Here(a, After(a, s, n))
    decreases n
  {
    if n <= j {
      if !Here(a, After(a, s, n)) {
        StaysOut(a, s, n, j);
      }
    } else {
      Shifted(a, s, i, j, n - j);
      Repeats(a, s, i, j, n - j + i);
    }
  }

  ghost predicate Revisits(a: Bytes, s: int, i: nat, j: nat) {
    i < j && After(a, s, i) == After(a, s, j) && Here(a, After(a, s, i))
  }

  ghost function Trail(a: Bytes, s: int, k: nat): set<int> {
    if k == 0 then {} else Trail(a, s, k - 1) + {After(a, s, k - 1)}
  }

  lemma {:induction false} TrailAt(a: Bytes, s: int, k: nat, q: int) returns (i: nat)
    requires q in Trail(a, s, k)
    ensures i < k && After(a, s, i) == q
  {
    i := k - 1;
    if After(a, s, k - 1) != q {
      i := TrailAt(a, s, k - 1, q);
    }
  }

  /** What each outcome of `Walk` says about the rounds of the loop. */
  ghost predicate Told(a: Bytes, s: int, k: nat, t: Trip) {
    match t
    case Past(hs) =>
      && After(a, s, k + |hs|) + 60 > |a|
      && forall m {:trigger hs[m]} :: 0 <= m < |hs| ==> hs[m] == After(a, s, k + m) && Here(a, hs[m])
    case Before => exists n: nat :: After(a, s, n) < 0 && After(a, s, n) + 60 <= |a|
    case Endless => exists i: nat, j: nat :: Revisits(a, s, i, j)
  }

  lemma {:induction false} WalkTells(a: Bytes, s: int, k: nat)
    requires forall m: nat :: m < k ==> Here(a, After(a, s, m))
    ensures Told(a, s, k, Walk(a, After(a, s, k), Trail(a, s, k)))
    decreases Below(|a|) - Trail(a, s, k)
  {
    hide SizeAt;
    var q, seen := After(a, s, k), Trail(a, s, k);
    if Here(a, q) && q !in seen {
      assert q in Below(|a|);
      WalkTells(a, s, k + 1);
      var rest := Walk(a, Next(a, q), seen + {q});
      if rest.Past? {
        var hs := [q] + rest.headers;
        forall m {:trigger hs[m]} | 0 <= m < |hs|
          ensures hs[m] == After(a, s, k + m) && Here(a, hs[m])
        {
          if m > 0 {
            assert hs[m] == rest.headers[m - 1];
          }
        }
        assert k + |hs| == k + 1 + |rest.headers|;
      }
    } else if Here(a, q) {
      var i := TrailAt(a, s, k, q);
      assert Revisits(a, s, i, k);
    }
  }

  /** The walk of `list` ends exactly if it gets past the last header, leaves
      the file exactly if it steps before it, and never ends exactly if it comes
      back to a header it has read. */
  lemma WalkExact(a: Bytes, s: int)
    ensures Walk(a, s, {}).Past? <==> exists n: nat :: After(a, s, n) + 60 > |a|
    ensures Walk(a, s, {}).Before? <==> exists n: nat :: After(a, s, n) < 0 && After(a, s, n) + 60 <= |a|
    ensures Walk(a, s, {}).Endless? <==> forall n: nat :: Here(a, After(a, s, n))
    ensures Walk(a, s, {}).Endless? <==> exists i: nat, j: nat :: Revisits(a, s, i, j)
  {
    var t := Walk(a, s, {});
    WalkTells(a, s, 0);
    assert Told(a, s, 0, t);
    if t.Endless? {
      var i: nat, j: nat :| Revisits(a, s, i, j);
      forall n: nat
        ensures Here(a, After(a, s, n))
      {
        Repeats(a, s, i, j, n);
      }
    } else {
      var n: nat := if t.Past? then |t.headers| else var m: nat :| After(a, s, m) < 0 && After(a, s, m) + 60 <= |a|; m;
      assert !Here(a, After(a, s, n));
      OutOnce(a, s, n);
    }
  }

  /** It leaves in one way only. */
  lemma OutOnce(a: Bytes, s: int, n: nat)
    requires !Here(a, After(a, s, n))
    ensures forall m: nat :: !Here(a, After(a, s, m)) ==> After(a, s, m) == After(a, s, n)
    ensures !exists i: nat, j: nat :: Revisits(a, s, i, j)
  {
    forall m: nat | !Here(a, After(a, s, m))
      ensures After(a, s, m) == After(a, s, n)
    {
      if m <= n {
        StaysOut(a, s, m, n);
      } else {
        StaysOut(a, s, n, m);
      }
    }
    if i: nat, j: nat :| Revisits(a, s, i, j) {
      Repeats(a, s, i, j, n);
    }
  }

  ghost predicate Increasing(hs: seq<nat>) {
    forall i, j {:trigger hs[i], hs[j]} :: 0 <= i < j < |hs| ==> hs[i] < hs[j]
  }

  /** No header that is read has a size of -60 or less. */
  ghost predicate Advances(a: Bytes, s: int) {
    forall n: nat :: Here(a, After(a, s, n)) ==> SizeAt(a, After(a, s, n)) > -60
  }

  lemma {:induction false} Rises(a: Bytes, s: nat, n: nat)
    requires Advances(a, s)
    ensures After(a, s, n) >= 0 && (After(a, s, n) >= s + n || After(a, s, n) + 60 > |a|)
  {
    if n > 0 {
      Rises(a, s, n - 1);
    }
  }

  lemma {:induction false} Climbs(a: Bytes, s: int, i: nat, j: nat)
    requires Advances(a, s) && i < j && Here(a, After(a, s, j - 1))
    ensures After(a, s, i) < After(a, s, j)
  {
    if i < j - 1 {
      Climbs(a, s, i, j - 1);
    }
  }

  /** It ends without ever stepping back exactly if no header it reads has a size
      of -60 or less. */
  lemma AdvancesExactly(a: Bytes, s: nat)
    ensures Walk(a, s, {}).Past? && Increasing(Walk(a, s, {}).headers) <==> Advances(a, s)
  {
    hide SizeAt;
    WalkTells(a, s, 0);
    if Advances(a, s) {
      Rises(a, s, |a|);
      WalkExact(a, s);
      var hs := Walk(a, s, {}).headers;
      forall i, j {:trigger hs[i], hs[j]} | 0 <= i < j < |hs|
        ensures hs[i] < hs[j]
      {
        assert hs[j - 1] == After(a, s, j - 1) && hs[i] == After(a, s, i) && hs[j] == After(a, s, j);
        Climbs(a, s, i, j);
      }
    } else if Walk(a, s, {}).Past? {
      var n: nat :| Here(a, After(a, s, n)) && SizeAt(a, After(a, s, n)) <= -60;
      var hs := Walk(a, s, {}).headers;
      assert n < |hs| by {
        if n >= |hs| {
          StaysOut(a, s, |hs|, n);
        }
      }
      assert After(a, s, n + 1) <= After(a, s, n);
      assert n + 1 < |hs|;
      assert hs[n] == After(a, s, n) && hs[n + 1] == After(a, s, n + 1);
    }
  }

  // ----- two files -----

  function Blanks(n: nat): (r: Bytes)
    ensures |r| == n && forall i :: 0 <= i < n ==> r[i] == SPACE
  {
    seq(n, _ => SPACE)
  }

  /** 68 bytes: one header, whose size is -60. */
  function Standing(): Bytes {
    MAGIC + Blanks(48) + [45, 54, 48] + (Blanks(7) + [96, 10])
  }

  /** A header of size 60 and its data. */
  function Forward(): (r: Bytes)
    ensures |r| == 128
  {
    MAGIC + Blanks(48) + [54, 48] + (Blanks(8) + [96, 10] + Blanks(60))
  }

  /** 188 bytes: a header at 8 of size 60, and one at 128 of size -90, whose
      date makes a header at 98 of size 999999. */
  function Backward(): Bytes {
    Forward() + Blanks(18) + [57, 57, 57, 57, 57, 57] + Blanks(24) + [45, 57, 48] + (Blanks(7) + [96, 10])
  }

  /** A number that stands in a file after `pre`. */
  lemma NumberAt(a: Bytes, pre: Bytes, n: nat, post: Bytes)
    requires a == pre + Digits(n) + post && post != [] && !IsDigit(post[0])
    ensures Atol(a, |pre|) == n
  {
    assert a[|pre|..|pre| + |Digits(n)|] == Digits(n);
    AtolReads(a, |pre|, n);
  }

  lemma NegativeAt(a: Bytes, pre: Bytes, n: nat, post: Bytes)
    requires a == pre + [45] + Digits(n) + post && post != [] && !IsDigit(post[0])
    ensures Atol(a, |pre|) == 0 - n
  {
    var i := |pre| + 1;
    assert a[i..i + |Digits(n)|] == Digits(n);
    assert a[|pre|] == 45;
    NumberReads(a, i, Digits(n), 0);
    DigitsValue(n);
    assert Digits(n)[..0] == [];
  }

  /** The walk never leaves the first header of the first file. */
  lemma {:induction false} StandingStill(n: nat)
    ensures |Standing()| == 68 && Standing()[..8] == MAGIC && After(Standing(), 8, n) == 8
    ensures Walk(Standing(), 8, {}) == Endless
  {
    hide SizeAt, Walk;
    StandingSize();
    if n > 0 {
      StandingStill(n - 1);
    }
    StandingWalk();
  }

  lemma StandingSize()
    ensures |Standing()| == 68 && Standing()[..8] == MAGIC && SizeAt(Standing(), 8) == -60
  {
    var pre := MAGIC + Blanks(48);
    assert Digits(60) == [54, 48];
    assert Standing() == pre + [45] + Digits(60) + (Blanks(7) + [96, 10]);
    NegativeAt(Standing(), pre, 60, Blanks(7) + [96, 10]);
  }

  lemma StandingWalk()
    ensures Walk(Standing(), 8, {}) == Endless
  {
    hide SizeAt, Standing;
    StandingSize();
    assert Walk(Standing(), 8, {8}) == Endless;
  }

  lemma BackwardSizes()
    ensures |Backward()| == 188 && Backward()[..8] == MAGIC
    ensures SizeAt(Backward(), 8) == 60 && SizeAt(Backward(), 128) == -90 && SizeAt(Backward(), 98) == 999999
  {
    var a := Backward();
    assert Digits(60) == [54, 48];
    var p1 := MAGIC + Blanks(48);
    var q1 :=
        Blanks(8) + [96, 10] + Blanks(60) + Blanks(18) + [57, 57, 57, 57, 57, 57] + Blanks(24) + [45, 57,
              48] + (Blanks(7) + [96, 10]);
    assert a == p1 + Digits(60) + q1;
    NumberAt(a, p1, 60, q1);
    Nines();
    var p2, q2 := Forward() + Blanks(18), Blanks(24) + [45, 57, 48] + (Blanks(7) + [96, 10]);
    assert a == p2 + Digits(999999) + q2;
    NumberAt(a, p2, 999999, q2);
    var p3, q3 := Forward() + Blanks(18) + [57, 57, 57, 57, 57, 57] + Blanks(24), Blanks(7) + [96, 10];
    assert a == p3 + [45] + Digits(90) + q3;
    NegativeAt(a, p3, 90, q3);
  }

  lemma Nines()
    ensures Digits(999999) == [57, 57, 57, 57, 57, 57] && Digits(90) == [57, 48]
  {
    assert Digits(999) == [57, 57, 57];
    assert Digits(99999) == Digits(9999) + [57] && Digits(9999) == Digits(999) + [57];
  }

  /** It steps back in the second and ends all the same. */
  lemma BackwardEnds()
    ensures |Backward()| == 188 && Backward()[..8] == MAGIC && Walk(Backward(), 8, {}) == Past([8, 128, 98])
  {
    hide SizeAt, Backward;
    BackwardSizes();
    var a := Backward();
    var none: set<int> := {};
    assert none + {8} == {8} && {8} + {128} == {8, 128};
    assert Walk(a, 98, {8, 128}) == Past([98]);
    assert [128] + [98] == [128, 98] && Next(a, 128) == 98;
    assert Walk(a, 128, {8}) == Past([128, 98]);
    assert [8] + [128, 98] == [8, 128, 98] && Next(a, 8) == 128;
  }
}
