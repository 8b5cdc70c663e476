/**
 The choices of `connect_traces` (bb-reorder.c) as values: which trace is
 stitched to which, and the runs that these choices make up.
 */
module LayoutMoves {
  import opened Helpers
  import opened TraceChains
  import opened FlowEdges

  /** Below these an edge out of a copied block is not followed. */
  datatype Limits = Limits(freq: int, count: int)

  /** What the choices depend on besides the traces: the thresholds, `optimize_size`,
      and what `copy_bb_p` answers. */
  datatype Rules = Rules(lim: Limits, optimizeSize: bool, copies: CopyTest)

  /** The traces and the edges at some time. */
  datatype View = View(edges: seq<Edge>, startOf: map<Block, nat>, endOf: map<Block, nat>, traces: seq<Trace>,
                       connected: seq<bool>, limit: Block) {

    predicate PredOk(t: nat, e: Edge)
      requires t < |traces|
    {
      && e.dest == traces[t].first && e.src != NONE && e.Usable()
      && e.src in endOf && endOf[e.src] < |connected| == |traces| && !connected[endOf[e.src]]
    }

    predicate SuccOk(t: nat, e: Edge)
      requires t < |traces|
    {
      && e.src == traces[t].last && e.dest != NONE && e.Usable() && Fresh(e.dest)
    }

    /** `b` starts a trace that is not connected yet. */
    predicate Fresh(b: Block) {
      b in startOf && startOf[b] < |connected| == |traces| && !connected[startOf[b]]
    }

    /** Edge `e2` leads on from a copied block: to the exit or to an unconnected trace. */
    predicate Onward(e2: Edge, lim: Limits) {
      e2.dest == NONE || (e2.Usable() && Fresh(e2.dest) && e2.freq >= lim.freq && e2.count >= lim.count)
    }

    /** The destination of `e` is worth copying after trace `t`: it is a trace
        of one block, or leads on. */
    predicate Worth(e: Edge, t: nat, lim: Limits)
      requires t < |traces|
    {
      && e.src == traces[t].last && e.dest != NONE && e.Usable()
      && (OneBlock(e.dest) || exists j :: 0 <= j < |edges| && edges[j].src == e.dest && Onward(edges[j], lim))
    }

    predicate OneBlock(b: Block) {
      b in startOf && startOf[b] < |traces| && traces[startOf[b]].length == 1
    }

    /** Edge `i` is worth copying along and more probable than all such edges before it. */
    ghost predicate Selected(i: int, t: nat, lim: Limits)
      requires t < |traces|
    {
      && 0 <= i < |edges| && Worth(edges[i], t, lim)
      && forall j :: 0 <= j < i && Worth(edges[j], t, lim) ==> edges[j].prob < edges[i].prob
    }

    /** How long the trace is that edge `e` leads on to; the exit counts as the longest. */
    function Reach(e: Edge): nat {
      if e.dest == NONE then INT_MAX
      else if e.dest in startOf && startOf[e.dest] < |traces| then traces[startOf[e.dest]].length
      else 0
    }

    /** Edge `e` is less probable than `f`, or as probable and leads less far. */
    predicate Less(e: Edge, f: Edge) {
      e.prob < f.prob || (e.prob == f.prob && Reach(e) < Reach(f))
    }

    /** The same for edges that come from the end of a trace. */
    predicate LessBack(e: Edge, f: Edge)
      requires e.src in endOf && endOf[e.src] < |traces| && f.src in endOf && endOf[f.src] < |traces|
    {
      e.prob < f.prob || (e.prob == f.prob && traces[endOf[e.src]].length < traces[endOf[f.src]].length)
    }

    /** Edge `r` leads back from trace `t`: none that leads back is better, and all
        before it are worse; -1 if none leads back. */
    ghost predicate BestBack(t: nat, r: int)
      requires t < |traces|
    {
      if r == -1 then forall i {:trigger edges[i]} :: 0 <= i < |edges| ==> !PredOk(t, edges[i])
      else
        && 0 <= r < |edges| && PredOk(t, edges[r])
        && forall i {:trigger edges[i]} :: 0 <= i < |edges| && PredOk(t, edges[i]) ==>
             !LessBack(edges[r], edges[i]) && (i < r ==> LessBack(edges[i], edges[r]))
    }

    /** The same for the edges that lead on from trace `t`. */
    ghost predicate BestOn(t: nat, r: int)
      requires t < |traces|
    {
      if r == -1 then forall i {:trigger edges[i]} :: 0 <= i < |edges| ==> !SuccOk(t, edges[i])
      else
        && 0 <= r < |edges| && SuccOk(t, edges[r])
        && forall i {:trigger edges[i]} :: 0 <= i < |edges| && SuccOk(t, edges[i]) ==>
             !Less(edges[r], edges[i]) && (i < r ==> Less(edges[i], edges[r]))
    }

    /** Among the first `n` edges one after the `k`-th leads from `b` to the exit. */
    ghost predicate ExitAfter(b: Block, k: int, n: nat) {
      exists m :: k < m < n && m < |edges| && 0 <= m && edges[m].src == b && edges[m].dest == NONE
    }

    /** Of the first `n` edges, `p` is the one followed from `b`: of those that
        lead on and are not before the last to the exit, the first that is not less than another. */
    ghost predicate Picked(b: Block, lim: Limits, p: int, n: nat) {
      && 0 <= p < n <= |edges| && edges[p].src == b && Onward(edges[p], lim) && !ExitAfter(b, p, n)
      && forall k {:trigger edges[k]} ::
           0 <= k < n && edges[k].src == b && Onward(edges[k], lim) && !ExitAfter(b, k, n) ==>
           !Less(edges[p], edges[k]) && (k < p ==> Less(edges[k], edges[p]))
    }

    /** The edge followed from block `b` leads to `n`. */
    ghost predicate Continues(b: Block, lim: Limits, n: Block) {
      exists p :: Picked(b, lim, p, |edges|) && edges[p].dest == n
    }

    /** A copy of the destination of edge `best` goes after trace `t`, and the
        trace that starts with `nextBb` after it, if that is a block. It is the
        continuation of the last selected edge `from` whose destination is no
        one-block trace; there is none if `from` is -1. */
    ghost predicate BestCopy(t: nat, lim: Limits, best: int, nextBb: Block, from: int)
      requires t < |traces|
    {
      && Selected(best, t, lim)
      && (forall i {:trigger edges[i]} :: 0 <= i < |edges| && Worth(edges[i], t, lim) ==>
            edges[i].prob <= edges[best].prob)
      && (forall i :: Selected(i, t, lim) && !OneBlock(edges[i].dest) ==> i <= from)
      && (if from == -1 then nextBb == NONE
          else Selected(from, t, lim) && !OneBlock(edges[from].dest) && Continues(edges[from].dest, lim, nextBb))
    }

    /** Nothing is worth copying. */
    ghost predicate NothingWorth(t: nat, lim: Limits)
      requires t < |traces|
    {
      forall i {:trigger edges[i]} :: 0 <= i < |edges| ==> !Worth(edges[i], t, lim)
    }

    /** There is only one such edge, so the continuation of a block is determined. */
    lemma PickedOnce(b: Block, lim: Limits, p: int, q: int, n: nat)
      requires Picked(b, lim, p, n) && Picked(b, lim, q, n)
      ensures p == q
    {
      assert !Less(edges[p], edges[q]) && !Less(edges[q], edges[p]);
    }

    /** And so are the choices. */
    lemma BackOnce(t: nat, r: int, s: int)
      requires t < |traces| && BestBack(t, r) && BestBack(t, s)
      ensures r == s
    {
      if r >= 0 && s >= 0 {
        assert !LessBack(edges[r], edges[s]) && !LessBack(edges[s], edges[r]);
      }
    }

    lemma OnOnce(t: nat, r: int, s: int)
      requires t < |traces| && BestOn(t, r) && BestOn(t, s)
      ensures r == s
    {
      if r >= 0 && s >= 0 {
        assert !Less(edges[r], edges[s]) && !Less(edges[s], edges[r]);
      }
    }

    lemma CopyOnce(t: nat, lim: Limits, best: int, nextBb: Block, from: int, best': int, nextBb': Block, from': int)
      requires t < |traces| && BestCopy(t, lim, best, nextBb, from) && BestCopy(t, lim, best', nextBb', from')
      ensures best == best' && nextBb == nextBb' && from == from'
    {
      assert edges[best].prob == edges[best'].prob;
      if from != -1 && from' != -1 {
        var p :| Picked(edges[from].dest, lim, p, |edges|) && edges[p].dest == nextBb;
        var q :| Picked(edges[from'].dest, lim, q, |edges|) && edges[q].dest == nextBb';
        PickedOnce(edges[from].dest, lim, p, q, |edges|);
      }
    }

    /** `copy_bb_p` is asked about the destination of edge `e`; code may grow if it is
        frequent enough and size is not what matters. */
    predicate Copied(rules: Rules, e: Edge) {
      rules.copies(e.dest, !rules.optimizeSize && e.freq >= rules.lim.freq && e.count >= rules.lim.count, limit)
    }
  }

  // ----- runs -----

  /** The layout so far, a run that is to follow it, and whether the layout is
      closed: its last block was copied and leads on to no trace. */
  datatype State = State(view: View, order: seq<nat>, extra: seq<nat>, closed: bool)

  ghost predicate Ready(s: State) {
    && (forall i :: 0 <= i < |s.order| ==> s.order[i] < |s.view.traces|)
    && (forall i :: 0 <= i < |s.extra| ==> s.extra[i] < |s.view.traces|)
    && |s.view.connected| == |s.view.traces|
  }

  /** Nothing goes on from the end of the layout: no trace follows, and no block is copied. */
  ghost predicate Stuck(rules: Rules, s: State)
    requires Ready(s) && s.order != []
  {
    var v, t := s.view, Last(s.order);
    v.BestOn(t, -1)
    && (v.NothingWorth(t, rules.lim)
        || exists best, nextBb, from :: v.BestCopy(t, rules.lim, best, nextBb, from) && !v.Copied(rules, v.edges[best]))
  }

  ghost predicate AtRest(rules: Rules, s: State)
    requires Ready(s)
  {
    s.extra == [] && (s.order == [] || s.closed || Stuck(rules, s))
  }

  function Connected(v: View, k: nat): View
    requires k < |v.connected|
  {
    v.(connected := v.connected[k := true])
  }

  /** The first trace that is not connected is taken, when the layout goes no further. */
  ghost predicate Takes(rules: Rules, a: State, b: State)
    requires Ready(a)
  {
    AtRest(rules, a)
    && exists i: nat ::
         i < |a.view.connected| && !a.view.connected[i] && (forall j :: 0 <= j < i ==> a.view.connected[j])
                        && b == State(Connected(a.view, i), a.order, [i], false)
  }

  /** The trace from which the best edge leads to the run goes before it. */
  ghost predicate Precedes(a: State, b: State)
    requires Ready(a)
  {
    a.extra != [] && a.extra[0] > 0
    && exists r: nat ::
         a.view.BestBack(a.extra[0], r)
         && var k := a.view.endOf[a.view.edges[r].src];
         b == a.(view := Connected(a.view, k), extra := [k] + a.extra)
  }

  /** The run goes to the layout when nothing precedes it. */
  ghost predicate Settles(a: State, b: State)
    requires Ready(a)
  {
    a.extra != [] && (a.extra[0] == 0 || a.view.BestBack(a.extra[0], -1))
    && b == a.(order := a.order + a.extra, extra := [])
  }

  /** The trace to which the best edge leads from the layout goes after it. */
  ghost predicate Succeeds(a: State, b: State)
    requires Ready(a)
  {
    a.extra == [] && a.order != [] && !a.closed
    && exists r: nat ::
         a.view.BestOn(Last(a.order), r)
         && var k := a.view.startOf[a.view.edges[r].dest];
         b == a.(view := Connected(a.view, k), order := a.order + [k])
  }

  /** `v'` is `v` with a copy of the destination of edge `best` after trace `t`. */
  ghost predicate WithCopy(v: View, t: nat, best: nat, v': View) {
    && best < |v.edges| && t < |v.traces| && SameGraph(v'.edges, Duplicated(v.edges, best, v.limit))
    && v' == v.(edges := v'.edges, traces := v.traces[t := v.traces[t].(last := v.limit)], limit := v.limit + 1)
  }

  /** When no trace follows, a block is copied, and the trace it is copied for
      goes after it, if there is one. */
  ghost predicate Copies(rules: Rules, a: State, b: State)
    requires Ready(a)
  {
    a.extra == [] && a.order != [] && !a.closed && a.view.BestOn(Last(a.order), -1)
    && exists v', best: nat, nextBb, from {:trigger CopyMove(rules, a, v', best, nextBb, from)} ::
         CopyMove(rules, a, v', best, nextBb, from)
         && if nextBb == NONE then b == a.(view := v', closed := true)
            else b == a.(view := Connected(v', v'.startOf[nextBb]), order := a.order + [v'.startOf[nextBb]])
  }

  ghost predicate CopyMove(rules: Rules, a: State, v': View, best: nat, nextBb: Block, from: int)
    requires Ready(a) && a.order != []
  {
    var v, t := a.view, Last(a.order);
    && v.BestCopy(t, rules.lim, best, nextBb, from) && v.Copied(rules, v.edges[best]) && WithCopy(v, t, best, v')
    && (nextBb != NONE ==> nextBb in v'.startOf && v'.startOf[nextBb] < |v'.connected|)
  }

  ghost predicate Move(rules: Rules, a: State, b: State) {
    Ready(a) && (Takes(rules, a, b) || Precedes(a, b) || Settles(a, b) || Succeeds(a, b) || Copies(rules, a, b))
  }

  /** Each state of the log comes from the one before it by a move. */
  ghost predicate Ran(rules: Rules, log: seq<State>) {
    log != [] && forall i {:trigger log[i]} :: 0 < i < |log| ==> Move(rules, log[i - 1], log[i])
  }

  lemma RanMore(rules: Rules, log: seq<State>, s: State)
    requires Ran(rules, log) && Move(rules, Last(log), s)
    ensures Ran(rules, log + [s])
  {
    hide Move;
  }

  /** The move from `a` to `b` puts trace `t` right after trace `s`: along the best
      edge out of `s` or into `t`, for the sake of a copied block, or because the
      layout that ends with `s` goes no further and nothing precedes `t`. */
  ghost predicate Joins(rules: Rules, a: State, b: State, s: nat, t: nat) {
    Ready(a)
    && (|| (Succeeds(a, b) && Last(a.order) == s && b.order == a.order + [t])
        || (Precedes(a, b) && a.extra[0] == t && b.extra == [s] + a.extra)
        || (Copies(rules, a, b) && Last(a.order) == s && b.order == a.order + [t])
        || (Settles(a, b) && a.order != [] && Last(a.order) == s && a.extra[0] == t))
  }

  /** One of the first `n` moves joined `s` and `t`. */
  ghost predicate JoinedBy(rules: Rules, log: seq<State>, n: nat, s: nat, t: nat) {
    exists i {:trigger log[i]} :: 0 < i <= n && i < |log| && Joins(rules, log[i - 1], log[i], s, t)
  }

  lemma JoinedMore(rules: Rules, log: seq<State>, n: nat, s: nat, t: nat)
    requires n + 1 < |log| && (JoinedBy(rules, log, n, s, t) || Joins(rules, log[n], log[n + 1], s, t))
    ensures JoinedBy(rules, log, n + 1, s, t)
  {
    if Joins(rules, log[n], log[n + 1], s, t) {
      assert log[n + 1] == log[n + 1];
    }
  }

  /** Any two traces that are neighbours in a run were joined by some move. */
  lemma {:induction false} RunJoined(rules: Rules, log: seq<State>, n: nat, j: nat)
    requires Ran(rules, log) && log[0].extra == [] && n < |log| && j + 1 < |log[n].extra|
    ensures JoinedBy(rules, log, n, log[n].extra[j], log[n].extra[j + 1])
  {
    hide JoinedBy, Move;
    if n > 0 {
      RunStep(rules, log, n, j);
      if j > 0 {
        RunJoined(rules, log, n - 1, j - 1);
      }
    }
  }

  lemma RunStep(rules: Rules, log: seq<State>, n: nat, j: nat)
    requires Ran(rules, log) && 0 < n < |log| && j + 1 < |log[n].extra|
    ensures var a, b := log[n - 1], log[n];
            if j == 0 then JoinedBy(rules, log, n, b.extra[0], b.extra[1])
            else j < |a.extra| && (JoinedBy(rules, log, n - 1, a.extra[j - 1], a.extra[j]) ==>
                                   JoinedBy(rules, log, n, b.extra[j], b.extra[j + 1]))
  {
    hide JoinedBy, Joins, Move;
    var a, b := log[n - 1], log[n];
    assert Move(rules, a, b);
    hide Ran;
    ShapeAt(rules, a, b, j);
    if JoinedBy(rules, log, n - 1, b.extra[j], b.extra[j + 1]) || Joins(rules, a, b, b.extra[j], b.extra[j + 1]) {
      JoinedMore(rules, log, n - 1, b.extra[j], b.extra[j + 1]);
    }
  }

  /** And so were any two that are neighbours in the layout. */
  lemma {:induction false} AllJoined(rules: Rules, log: seq<State>, n: nat, j: nat)
    requires Ran(rules, log) && log[0].order == log[0].extra == [] && n < |log| && j + 1 < |log[n].order|
    ensures JoinedBy(rules, log, n, log[n].order[j], log[n].order[j + 1])
  {
    hide JoinedBy, Move;
    if n > 0 {
      var m := |log[n - 1].order|;
      if j + 1 < m {
        AllJoined(rules, log, n - 1, j);
      }
      JoinedStep(rules, log, n, j);
      if j >= m {
        RunJoined(rules, log, n - 1, j - m);
      }
    }
  }

  lemma JoinedStep(rules: Rules, log: seq<State>, n: nat, j: nat)
    requires Ran(rules, log) && 0 < n < |log| && j + 1 < |log[n].order|
    ensures var a, b := log[n - 1], log[n];
            if j + 1 < |a.order| then
              JoinedBy(rules, log, n - 1, a.order[j], a.order[j + 1]) ==>
              JoinedBy(rules, log, n, b.order[j], b.order[j + 1])
            else if j + 1 == |a.order| then JoinedBy(rules, log, n, b.order[j], b.order[j + 1])
            else var k := j - |a.order|;
              k + 1 < |a.extra| && (JoinedBy(rules, log, n - 1, a.extra[k], a.extra[k + 1]) ==>
                                    JoinedBy(rules, log, n, b.order[j], b.order[j + 1]))
  {
    hide JoinedBy, Joins, Move;
    var a, b := log[n - 1], log[n];
    assert Move(rules, a, b);
    hide Ran;
    ShapeAt(rules, a, b, j);
    if JoinedBy(rules, log, n - 1, b.order[j], b.order[j + 1]) || Joins(rules, a, b, b.order[j], b.order[j + 1]) {
      JoinedMore(rules, log, n - 1, b.order[j], b.order[j + 1]);
    }
  }

  /** Neighbours after a move were neighbours before, or are joined by it. */
  lemma ShapeAt(rules: Rules, a: State, b: State, j: nat)
    requires Move(rules, a, b)
    ensures j + 1 < |b.order| && j + 1 < |a.order| ==> b.order[j] == a.order[j] && b.order[j + 1] == a.order[j + 1]
    ensures j + 1 < |b.order| && j + 1 == |a.order| ==> Joins(rules, a, b, b.order[j], b.order[j + 1])
    ensures j + 1 < |b.order| && j >= |a.order| ==>
              var k := j - |a.order|; k + 1 < |a.extra| && b.order[j] == a.extra[k] && b.order[j + 1] == a.extra[k + 1]
    ensures j + 1 < |b.extra| ==>
              if j == 0 then Joins(rules, a, b, b.extra[0], b.extra[1])
              else j < |a.extra| && b.extra[j] == a.extra[j - 1] && b.extra[j + 1] == a.extra[j]
  {
    hide Joins;
    Shape(rules, a, b);
    hide Move;
  }

  /** What a move does to the layout and the run: it takes a new run, or lengthens
      the run at its front or the layout at its end, which joins two traces. */
  lemma Shape(rules: Rules, a: State, b: State)
    requires Move(rules, a, b)
    ensures b.order == a.order || b.order == a.order + a.extra || b.order == a.order + [Last(b.order)]
    ensures |b.extra| <= 1 || b.extra == [b.extra[0]] + a.extra
    ensures 0 < |a.order| < |b.order| ==> Joins(rules, a, b, b.order[|a.order| - 1], b.order[|a.order|])
    ensures |b.extra| > 1 ==> Joins(rules, a, b, b.extra[0], b.extra[1])
  {
    hide View.BestBack, View.BestOn, CopyMove, AtRest;
  }
}
