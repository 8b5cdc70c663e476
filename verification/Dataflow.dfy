/**
 Reaching definitions of branch-target registers (bt-load.c, with the set
 operations of sbitmap.c it uses): an iterative dataflow solution, and the
 paths it stands for.
 */
module Dataflow {
  import opened Helpers

  /** The entry block, which has no index among the basic blocks. */
  const ENTRY: int := -1

  /** For each basic block its predecessors, and the definitions it generates
      and kills. */
  datatype Flow = Flow(preds: seq<seq<int>>, gen: seq<set<nat>>, kill: seq<set<nat>>) {
    predicate Valid() {
      && |gen| == |preds| && |kill| == |preds|
      && (forall b, k :: 0 <= b < |preds| && 0 <= k < |preds[b]| ==> ENTRY <= preds[b][k] < |preds|)
    }
  }

  // ----- the equations -----

  /** The union of the sets of the predecessors, the entry block aside. */
  ghost function In(preds: seq<int>, out: seq<set<nat>>): set<nat>
    requires forall k :: 0 <= k < |preds| ==> ENTRY <= preds[k] < |out|
  {
    set k, d | 0 <= k < |preds| && preds[k] != ENTRY && d in out[preds[k]] :: d
  }

  /** `gen + (in - kill)` */
  ghost function Transfer(f: Flow, out: seq<set<nat>>, b: nat): set<nat>
    requires f.Valid() && |out| == |f.preds| && b < |out|
  {
    f.gen[b] + (In(f.preds[b], out) - f.kill[b])
  }

  ghost predicate Solution(f: Flow, out: seq<set<nat>>)
    requires f.Valid()
  {
    |out| == |f.preds| && forall b: nat :: b < |out| ==> out[b] == Transfer(f, out, b)
  }

  // ----- paths -----

  /** `p` leads from a block that generates `d` along edges of the flow graph,
      and no block after the first kills it. */
  ghost predicate Carries(f: Flow, d: nat, p: seq<nat>)
    requires f.Valid()
  {
    && p != [] && (forall i :: 0 <= i < |p| ==> p[i] < |f.preds|)
    && d in f.gen[p[0]]
    && (forall i {:trigger p[i]} :: 0 < i < |p| ==> p[i - 1] in f.preds[p[i]] && d !in f.kill[p[i]])
  }

  /** `d` reaches the end of block `b`. */
  ghost predicate Reaches(f: Flow, d: nat, b: nat)
    requires f.Valid()
  {
    exists p :: Carries(f, d, p) && p[|p| - 1] == b
  }

  /** Every set holds only definitions that reach the end of its block. */
  ghost predicate Sound(f: Flow, out: seq<set<nat>>)
    requires f.Valid() && |out| == |f.preds|
  {
    forall b: nat, d :: b < |out| && d in out[b] ==> Reaches(f, d, b)
  }

  lemma GenReaches(f: Flow, d: nat, b: nat)
    requires f.Valid() && b < |f.preds| && d in f.gen[b]
    ensures Reaches(f, d, b)
  {
    assert Carries(f, d, [b]);
  }

  lemma StepReaches(f: Flow, d: nat, a: nat, b: nat)
    requires f.Valid() && a < |f.preds| && b < |f.preds| && a in f.preds[b]
    requires Reaches(f, d, a) && d !in f.kill[b]
    ensures Reaches(f, d, b)
  {
    var p :| Carries(f, d, p) && p[|p| - 1] == a;
    var q := p + [b];
    forall i {:trigger q[i]} | 0 < i < |q|
      ensures q[i - 1] in f.preds[q[i]] && d !in f.kill[q[i]]
    {
      if i < |p| {
        assert p[i - 1] in f.preds[p[i]];
      }
    }
    assert Carries(f, d, q) && q[|q| - 1] == b;
  }

  lemma TransferSound(f: Flow, out: seq<set<nat>>, b: nat)
    requires f.Valid() && |out| == |f.preds| && b < |out| && Sound(f, out)
    ensures forall d :: d in Transfer(f, out, b) ==> Reaches(f, d, b)
  {
    forall d | d in Transfer(f, out, b)
      ensures Reaches(f, d, b)
    {
      if d in f.gen[b] {
        GenReaches(f, d, b);
      } else {
        var k :| 0 <= k < |f.preds[b]| && f.preds[b][k] != ENTRY && d in out[f.preds[b][k]];
        StepReaches(f, d, f.preds[b][k], b);
      }
    }
  }

  /** A set that satisfies the equations, or is larger, holds every definition that reaches. */
  lemma {:induction false} CarriedIn(f: Flow, out: seq<set<nat>>, d: nat, p: seq<nat>)
    requires f.Valid() && |out| == |f.preds| && Carries(f, d, p)
    requires forall b: nat :: b < |out| ==> Transfer(f, out, b) <= out[b]
    ensures d in out[p[|p| - 1]]
  {
    var b := p[|p| - 1];
    if |p| == 1 {
      assert d in Transfer(f, out, b);
    } else {
      var q := p[..|p| - 1];
      assert Carries(f, d, q);
      CarriedIn(f, out, d, q);
      var a := q[|q| - 1];
      assert a in f.preds[b];
      assert d in In(f.preds[b], out);
      assert d in Transfer(f, out, b);
    }
  }

  /** The definitions that reach are the least solution: any solution contains them. */
  lemma LeastSolution(f: Flow, out: seq<set<nat>>, d: nat, b: nat)
    requires f.Valid() && Solution(f, out) && Reaches(f, d, b)
    ensures b < |out| && d in out[b]
  {
    var p :| Carries(f, d, p) && p[|p| - 1] == b;
    CarriedIn(f, out, d, p);
  }

  // ----- the iteration -----

  /** `sbitmap_union_of_preds` */
  method UnionOfPreds(preds: seq<int>, src: array<set<nat>>) returns (dst: set<nat>)
    requires forall k :: 0 <= k < |preds| ==> ENTRY <= preds[k] < src.Length
    ensures dst == In(preds, src[..])
  {
    var e := 0;
    while e < |preds| && preds[e] == ENTRY
      invariant 0 <= e <= |preds| && forall k :: 0 <= k < e ==> preds[k] == ENTRY
    {
      e := e + 1;
    }
    if e == |preds| {
      dst := {};
    } else {
      dst := src[preds[e]];
      e := e + 1;
      while e < |preds|
        invariant 0 <= e <= |preds|
        invariant dst == In(preds[..e], src[..])
      {
        InMore(preds, src[..], e);
        if preds[e] != ENTRY {
          dst := dst + src[preds[e]];
        }
        e := e + 1;
      }
      assert preds[..e] == preds;
    }
  }

  lemma InMore(preds: seq<int>, out: seq<set<nat>>, e: nat)
    requires e < |preds| && forall k :: 0 <= k < |preds| ==> ENTRY <= preds[k] < |out|
    ensures In(preds[..e + 1], out) == In(preds[..e], out) + if preds[e] == ENTRY then {} else out[preds[e]]
  {
    assert preds[..e + 1] == preds[..e] + [preds[e]];
  }

  /** How many definitions may still be added. */
  ghost function Slack(out: seq<set<nat>>, universe: set<nat>): int {
    if out == [] then 0 else |universe| - |out[0]| + Slack(out[1..], universe)
  }

  lemma {:induction false} SlackUpdate(out: seq<set<nat>>, universe: set<nat>, b: nat, s: set<nat>)
    requires b < |out|
    ensures Slack(out[b := s], universe) == Slack(out, universe) + |out[b]| - |s|
  {
    var t := out[b := s];
    if b > 0 {
      assert t[1..] == out[1..][b - 1 := s];
      SlackUpdate(out[1..], universe, b - 1, s);
    } else {
      assert t[1..] == out[1..];
    }
  }

  lemma {:induction false} SlackNatural(out: seq<set<nat>>, universe: set<nat>)
    requires forall b :: 0 <= b < |out| ==> out[b] <= universe
    ensures Slack(out, universe) >= 0
  {
    if out != [] {
      Smaller(out[0], universe);
      SlackNatural(out[1..], universe);
    }
  }

  /** The sets have not outgrown the equations, and lie within `u`. */
  ghost predicate Growing(f: Flow, out: seq<set<nat>>, u: set<nat>)
    requires f.Valid()
  {
    && |out| == |f.preds|
    && (forall b: nat :: b < |out| ==> out[b] <= Transfer(f, out, b) && out[b] <= u)
  }

  lemma InMono(preds: seq<int>, out: seq<set<nat>>, out': seq<set<nat>>)
    requires |out'| == |out| && (forall k :: 0 <= k < |preds| ==> ENTRY <= preds[k] < |out|)
    requires forall b :: 0 <= b < |out| ==> out[b] <= out'[b]
    ensures In(preds, out) <= In(preds, out')
  {
    forall d | d in In(preds, out)
      ensures d in In(preds, out')
    {
      var k :| 0 <= k < |preds| && preds[k] != ENTRY && d in out[preds[k]];
      assert d in out'[preds[k]];
    }
  }

  lemma GrowingStep(f: Flow, out: seq<set<nat>>, u: set<nat>, b: nat)
    requires f.Valid() && Growing(f, out, u) && b < |out| && f.gen[b] <= u
    ensures Growing(f, out[b := Transfer(f, out, b)], u)
  {
    var s := Transfer(f, out, b);
    var t := out[b := s];
    forall c: nat | c < |out|
      ensures t[c] <= Transfer(f, t, c) && t[c] <= u
    {
      assert out[c] <= Transfer(f, out, c) && out[c] <= u;
      InMono(f.preds[c], out, t);
    }
  }

  ghost function AllDefs(f: Flow): set<nat> {
    set b, d | 0 <= b < |f.gen| && d in f.gen[b] :: d
  }

  /** One pass over the blocks of `compute_out`. */
  method Pass(f: Flow, out: array<set<nat>>) returns (changed: bool)
    requires f.Valid() && Growing(f, out[..], AllDefs(f)) && Sound(f, out[..])
    modifies out
    ensures Growing(f, out[..], AllDefs(f)) && Sound(f, out[..])
    ensures changed ==> Slack(out[..], AllDefs(f)) < Slack(old(out[..]), AllDefs(f))
    ensures !changed ==> Slack(out[..], AllDefs(f)) == Slack(old(out[..]), AllDefs(f)) && Solution(f, out[..])
  {
    ghost var u, start := AllDefs(f), out[..];
    changed := false;
    for i := 0 to out.Length
      invariant Growing(f, out[..], u) && Sound(f, out[..])
      invariant changed ==> Slack(out[..], u) < Slack(start, u)
      invariant !changed ==> out[..] == start && forall b: nat :: b < i ==> start[b] == Transfer(f, start, b)
    {
      hide Growing, Sound;
      ghost var before := out[..];
      var bbIn := UnionOfPreds(f.preds[i], out);
      var s := f.gen[i] + (bbIn - f.kill[i]);
      assert s == Transfer(f, before, i);
      OneStep(f, before, u, i);
      changed := changed || s != out[i];
      out[i] := s;
      assert out[..] == before[i := s];
    }
  }

  lemma OneStep(f: Flow, out: seq<set<nat>>, u: set<nat>, i: nat)
    requires f.Valid() && Growing(f, out, u) && i < |out| == |f.preds| && Sound(f, out) && u == AllDefs(f)
    ensures Growing(f, out[i := Transfer(f, out, i)], u) && Sound(f, out[i := Transfer(f, out, i)])
    ensures out[i] == Transfer(f, out, i) || Slack(out[i := Transfer(f, out, i)], u) < Slack(out, u)
    ensures out[i] == Transfer(f, out, i) ==> out[i := Transfer(f, out, i)] == out
  {
    hide Transfer;
    GenIn(f, i);
    GrowingStep(f, out, u, i);
    TransferSound(f, out, i);
    SlackUpdate(out, u, i, Transfer(f, out, i));
    Smaller(out[i], Transfer(f, out, i));
  }

  lemma GenIn(f: Flow, i: nat)
    requires i < |f.gen|
    ensures f.gen[i] <= AllDefs(f)
  {
  }

  lemma StartOk(f: Flow, out: seq<set<nat>>)
    requires f.Valid() && out == f.gen
    ensures Growing(f, out, AllDefs(f)) && Sound(f, out)
  {
    forall b: nat | b < |out|
      ensures out[b] <= Transfer(f, out, b) && out[b] <= AllDefs(f)
    {
      GenIn(f, b);
    }
    forall b: nat, d | b < |out| && d in out[b]
      ensures Reaches(f, d, b)
    {
      GenReaches(f, d, b);
    }
  }

  /** `compute_out`: `bb_out[b]` becomes the set of the definitions that reach
      the end of `b`, which is the least solution of the equations. */
  method ComputeOut(f: Flow, out: array<set<nat>>)
    requires f.Valid() && out.Length == |f.preds|
    modifies out
    ensures Solution(f, out[..])
    ensures forall b: nat, d :: b < out.Length ==> (d in out[b] <==> Reaches(f, d, b))
  {
    for i := 0 to out.Length
      invariant out[..i] == f.gen[..i]
    {
      out[i] := f.gen[i];
    }
    assert out[..] == f.gen;
    StartOk(f, out[..]);
    var changed := true;
    ghost var u := AllDefs(f);
    Within(f, out[..], u);
    while changed
      invariant Growing(f, out[..], u) && Sound(f, out[..]) && Slack(out[..], u) >= 0
      invariant !changed ==> Solution(f, out[..])
      decreases Slack(out[..], u), changed
    {
      hide Growing, Sound, Solution;
      changed := Pass(f, out);
      Within(f, out[..], u);
    }
    forall b: nat, d | b < out.Length && Reaches(f, d, b)
      ensures d in out[b]
    {
      LeastSolution(f, out[..], d, b);
    }
  }

  lemma Within(f: Flow, out: seq<set<nat>>, u: set<nat>)
    requires f.Valid() && Growing(f, out, u)
    ensures Slack(out, u) >= 0
  {
    SlackNatural(out, u);
  }
}
