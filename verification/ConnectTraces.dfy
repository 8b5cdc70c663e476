/**
 `connect_traces` of bb-reorder.c: stitching the traces into one layout.
 */
module ConnectTraces {
  import opened Helpers
  import opened TraceChains
  import opened FlowEdges
  import opened LayoutMoves

  class Layouter {
    var edges: seq<Edge>
    /** `rbi->next` */
    var next: map<Block, Block>
    /** `bbd[].start_of_trace` and `bbd[].end_of_trace`, absent where -1. */
    var startOf: map<Block, nat>
    var endOf: map<Block, nat>
    var traces: seq<Trace>
    var connected: seq<bool>
    /** The number the next new block gets. */
    var limit: Block
    const rules: Rules
    ghost var chains: seq<seq<Block>>
    ghost var owner: map<Block, nat>
    ghost var pos: map<Block, nat>
    /** The states since the beginning. */
    ghost var log: seq<State>

    /** The state that the search for traces leaves behind. */
    constructor (edges: seq<Edge>, next: map<Block, Block>, startOf: map<Block, nat>, endOf: map<Block, nat>,
                 traces: seq<Trace>, limit: Block, rules: Rules,
                 ghost chains: seq<seq<Block>>, ghost owner: map<Block, nat>, ghost pos: map<Block, nat>)
      ensures this.edges == edges && this.next == next && this.startOf == startOf && this.endOf == endOf
              && this.traces == traces && this.limit == limit && this.rules == rules
      ensures this.chains == chains && this.owner == owner && this.pos == pos
    {
      this.edges, this.next, this.startOf, this.endOf, this.traces, this.limit, this.rules :=
          edges, next, startOf, endOf, traces, limit, rules;
      this.chains, this.owner, this.pos, connected, log := chains, owner, pos, [], [];
    }

    /** The traces are disjoint chains, and blocks know which they start. */
    ghost predicate Valid()
      reads this
    {
      && Ends(traces, chains) && AllLinked(next, chains) && Placed(owner, pos, chains)
      && NONE < limit && (forall b: Block :: At(owner, b) != 0 ==> b < limit)
      && KnownStarts(startOf, chains)
    }

    /** A block that ends a trace knows it, while the trace is unconnected. */
    ghost predicate EndsKnown()
      reads this
    {
      |connected| == |traces| == |chains| && KnownEnds(endOf, connected, chains)
    }

    ghost predicate Stitched(order: seq<nat>, extra: seq<nat>)
      reads this
    {
      |connected| == |traces| && Stitching(next, chains, connected, order, extra)
    }

    /** What the choices look at. */
    function Now(): View
      reads this
    {
      View(edges, startOf, endOf, traces, connected, limit)
    }

    /** A run of moves led here. */
    ghost predicate Logged(order: seq<nat>, extra: seq<nat>, closed: bool)
      reads this
    {
      log != [] && Ran(rules, log) && Last(log) == State(Now(), order, extra, closed)
    }

    /** And the layout goes no further. */
    ghost predicate Resting(order: seq<nat>)
      reads this
    {
      log != [] && Logged(order, [], Last(log).closed) && Ready(Last(log)) && AtRest(rules, Last(log))
    }

    /** One more move. */
    ghost method Record(order: seq<nat>, extra: seq<nat>, closed: bool)
      requires log != [] && Ran(rules, log) && Move(rules, Last(log), State(Now(), order, extra, closed))
      modifies `log
      ensures Logged(order, extra, closed) && log == old(log) + [State(Now(), order, extra, closed)]
    {
      hide Ran, Move;
      RanMore(rules, log, State(Now(), order, extra, closed));
      log := log + [State(Now(), order, extra, closed)];
    }

    // ----- choosing the next trace -----

    /** The best edge from the end of an unconnected trace to the start of trace
        `t`: the most probable, then the longest trace, then the first; -1 if there is none. */
    method BestPred(t: nat) returns (r: int)
      requires t < |traces| == |connected|
      ensures Now().BestBack(t, r)
    {
      var v := Now();
      r := -1;
      var bestLen := 0;
      for i := 0 to |v.edges|
        invariant r == -1 || (0 <= r < i && v.PredOk(t, v.edges[r]) && bestLen == traces[endOf[edges[r].src]].length)
        invariant r == -1 ==> forall j {:trigger v.edges[j]} :: 0 <= j < i ==> !v.PredOk(t, v.edges[j])
        invariant r != -1 ==> forall j {:trigger v.edges[j]} :: 0 <= j < i && v.PredOk(t, v.edges[j]) ==>
                    !v.LessBack(v.edges[r], v.edges[j]) && (j < r ==> v.LessBack(v.edges[j], v.edges[r]))
      {
        var e := edges[i];
        if v.PredOk(t, e)
           && (r == -1 || e.prob > edges[r].prob
               || (e.prob == edges[r].prob && traces[endOf[e.src]].length > bestLen)) {
          r := i;
          bestLen := traces[endOf[e.src]].length;
        }
      }
    }

    /** The same for a way on from trace `t`. */
    method BestSucc(t: nat) returns (r: int)
      requires t < |traces| == |connected|
      ensures Now().BestOn(t, r)
    {
      var v := Now();
      r := -1;
      var bestLen := 0;
      for i := 0 to |v.edges|
        invariant r == -1 || (0 <= r < i && v.SuccOk(t, v.edges[r]) && bestLen == traces[startOf[edges[r].dest]].length)
        invariant r == -1 ==> forall j {:trigger v.edges[j]} :: 0 <= j < i ==> !v.SuccOk(t, v.edges[j])
        invariant r != -1 ==> forall j {:trigger v.edges[j]} :: 0 <= j < i && v.SuccOk(t, v.edges[j]) ==>
                    !v.Less(v.edges[r], v.edges[j]) && (j < r ==> v.Less(v.edges[j], v.edges[r]))
      {
        var e := edges[i];
        if v.SuccOk(t, e)
           && (r == -1 || e.prob > edges[r].prob
               || (e.prob == edges[r].prob && traces[startOf[e.dest]].length > bestLen)) {
          r := i;
          bestLen := traces[startOf[e.dest]].length;
        }
      }
    }

    // ----- the predecessors of a trace -----

    /** The loop that finds the predecessor traces of trace `t`: `t2` is the
        trace the new run starts with, and no trace is to go before it. */
    method ConnectPreds(t: nat, ghost order: seq<nat>) returns (t2: nat, ghost extra: seq<nat>)
      requires Valid() && EndsKnown() && Stitched(order, [t]) && Logged(order, [t], false)
      modifies `next, `connected, `log
      ensures Valid() && EndsKnown() && Stitched(order, extra) && Logged(order, extra, false) && old(log) <= log
      ensures t2 == 0 || (t2 < |traces| && Now().BestBack(t2, -1))
      ensures extra != [] && extra[0] == t2 && Last(extra) == t && (t == 0 ==> extra == [0])
      ensures forall k :: 0 <= k < |connected| && old(connected[k]) ==> connected[k]
    {
      hide Placed, AllLinked, Stitching, Ends, Ran;
      t2, extra := t, [t];
      while t2 > 0
        invariant Valid() && EndsKnown() && Stitched(order, extra) && Logged(order, extra, false) && old(log) <= log
        invariant extra != [] && extra[0] == t2 && Last(extra) == t && (t == 0 ==> extra == [0])
        invariant forall k :: 0 <= k < |connected| && old(connected[k]) ==> connected[k]
        decreases Unconnected(connected)
      {
        RunHead(traces, next, chains, connected, order, extra);
        var best := BestPred(t2);
        if best == -1 {
          break;
        }
        t2, extra := StitchPred(best, order, extra);
      }
    }

    /** Leads the source of an edge, the end of a trace, to its destination. */
    method StitchPred(best: nat, ghost order: seq<nat>, ghost extra: seq<nat>) returns (t2: nat, ghost more: seq<nat>)
      requires Valid() && EndsKnown() && Stitched(order, extra) && extra != [] && extra[0] > 0
      requires extra[0] < |traces| && Now().BestBack(extra[0], best) && Logged(order, extra, false)
      modifies `next, `connected, `log
      ensures Valid() && EndsKnown() && Stitched(order, more) && more == [t2] + extra
      ensures Logged(order, more, false) && old(log) <= log
      ensures |connected| == |old(connected)| && Unconnected(connected) < Unconnected(old(connected))
      ensures forall k :: 0 <= k < |connected| && old(connected[k]) ==> connected[k]
    {
      hide Placed, AllLinked, Stitching, Ran;
      var e := edges[best];
      t2 := endOf[e.src];
      StitchReady(next, chains, connected, order, extra, Last(log));
      KnownMarked(endOf, connected, chains, t2);
      StitchFront(next, owner, pos, chains, connected, order, extra, t2);
      MarkConnected(connected, t2);
      next := next[e.src := e.dest];
      connected := connected[t2 := true];
      more := [t2] + extra;
      PrecedesMove(rules, Last(log), best, State(Now(), order, more, false));
      Record(order, more, false);
    }

    // ----- the successors of a trace -----

    /** Appends trace `k` to the layout. */
    method Append(k: nat, t: nat, ghost order: seq<nat>)
      requires Valid() && EndsKnown() && Stitched(order, []) && order != [] && Last(order) == t
      requires k < |traces| && !connected[k]
      modifies `next, `connected
      ensures Valid() && EndsKnown() && Stitched(order + [k], []) && |connected| == |old(connected)|
      ensures connected == old(connected)[k := true] && Unconnected(connected) < Unconnected(old(connected))
      ensures forall m :: 0 <= m < |connected| && old(connected[m]) ==> connected[m]
    {
      hide Placed, AllLinked, Stitching;
      StitchStart(next, chains, connected, order, k);
      MarkConnected(connected, k);
      StitchBack(next, owner, pos, chains, connected[k := true], order, [k]);
      next := next[traces[t].last := traces[k].first];
      connected := connected[k := true];
      KnownMarked(endOf, old(connected), chains, k);
    }

    /** `copy_bb` at the end of the layout: a copy of the destination of edge
        `e` goes after the last block of trace `t` and becomes its last. */
    method CopyLast(e: nat, t: nat, ghost order: seq<nat>)
      requires Valid() && EndsKnown() && Stitched(order, []) && order != [] && Last(order) == t && e < |edges|
      modifies `edges, `next, `traces, `limit, `chains, `owner, `pos
      ensures Valid() && EndsKnown() && Stitched(order, []) && |traces| == |old(traces)|
      ensures limit == old(limit) + 1 && WithCopy(old(Now()), t, e, Now())
      ensures chains == Grown(old(chains), t, old(limit)) && owner == old(owner)[old(limit) := t + 1]
      ensures traces == old(traces)[t := old(traces)[t].(last := old(limit))]
    {
      hide Placed, AllLinked, Stitching, SameGraph, KnownEnds, KnownStarts;
      OnOrder(next, chains, connected, order, t);
      var b, copy := traces[t].last, limit;
      assert At(owner, copy) == 0;
      StartsGrown(startOf, traces, chains, t, copy);
      StitchGrown(next, owner, pos, chains, connected, order, copy);
      var es := Duplicate(edges, e, copy);
      edges, limit, next, traces, owner, pos, chains :=
        es,
        limit + 1,
        next[copy := At(next, b)][b := copy],
        traces[t := traces[t].(last := copy)],
        owner[copy := t + 1], pos[copy := |chains[t]|], Grown(chains, t, copy);
      OwnedBelow(old(owner), owner, t + 1, old(limit));
      KnownGrown(endOf, connected, old(chains), t, copy);
    }

    /** The search for a block whose copy leads on from trace `t`: the most
        probable edge worth copying along, and the continuation found last. */
    method FindCopy(t: nat) returns (tryCopy: bool, best: nat, nextBb: Block, ghost from: int)
      requires t < |traces| == |connected|
      ensures if tryCopy then Now().BestCopy(t, rules.lim, best, nextBb, from) else Now().NothingWorth(t, rules.lim)
      ensures nextBb != NONE ==> tryCopy && Now().Fresh(nextBb)
      ensures tryCopy ==> (from == best <==> !Now().OneBlock(edges[best].dest))
    {
      hide View.Worth, View.Onward, View.Continues;
      var v, lim := Now(), rules.lim;
      tryCopy, best, nextBb, from := false, 0, NONE, -1;
      for i := 0 to |v.edges|
        invariant !tryCopy ==> forall j {:trigger v.edges[j]} :: 0 <= j < i ==> !v.Worth(v.edges[j], t, lim)
        invariant tryCopy ==> best < i && v.Selected(best, t, lim)
        invariant tryCopy ==> forall j {:trigger v.edges[j]} :: 0 <= j < i && v.Worth(v.edges[j], t, lim) ==>
                    v.edges[j].prob <= v.edges[best].prob
        invariant nextBb != NONE ==> tryCopy && v.Fresh(nextBb)
        invariant from == -1 ==> nextBb == NONE
        invariant from != -1 ==>
                    from < i && v.Selected(from, t, lim) && !v.OneBlock(v.edges[from].dest)
                    && v.Continues(v.edges[from].dest, lim, nextBb)
        invariant forall j :: j < i && v.Selected(j, t, lim) && !v.OneBlock(v.edges[j].dest) ==> j <= from
        invariant tryCopy ==> (from == best <==> !v.OneBlock(v.edges[best].dest))
      {
        var e := v.edges[i];
        WorthIs(v, e, t, lim);
        if e.src == traces[t].last && e.dest != NONE && e.Usable() && (!tryCopy || e.prob > v.edges[best].prob) {
          if v.OneBlock(e.dest) {
            best, tryCopy := i, true;
          } else {
            var found, onward := BestOnward(e.dest);
            if found {
              best, tryCopy, nextBb, from := i, true, onward, i;
            }
          }
        }
      }
    }

    /** The inner loop over the edges out of a block that may be copied; an edge
        to the exit is always taken. */
    method BestOnward(b: Block) returns (found: bool, nextBb: Block)
      requires |traces| == |connected|
      ensures found <==> exists j :: 0 <= j < |edges| && edges[j].src == b && Now().Onward(edges[j], rules.lim)
      ensures nextBb != NONE ==> found && Now().Fresh(nextBb)
      ensures found ==> Now().Continues(b, rules.lim, nextBb)
    {
      hide View.Picked;
      var v, lim := Now(), rules.lim;
      var best2, best2Len := -1, 0;
      nextBb := NONE;
      for j := 0 to |v.edges|
        invariant -1 <= best2 < j
        invariant best2 >= 0 ==>
                    v.Picked(b, lim, best2, j) && nextBb == v.edges[best2].dest && best2Len == v.Reach(v.edges[best2])
        invariant best2 >= 0 ==> v.edges[best2].src == b && v.Onward(v.edges[best2], lim)
        invariant best2 == -1 ==>
                    nextBb == NONE && forall k {:trigger v.edges[k]} :: 0 <= k < j && v.edges[k].src == b ==>
                        !v.Onward(v.edges[k], lim)
      {
        var e2 := v.edges[j];
        PickedMore(v, b, lim, best2, j);
        if e2.src == b && v.Onward(e2, lim)
           && (e2.dest == NONE || best2 == -1 || e2.prob > v.edges[best2].prob
               || (e2.prob == v.edges[best2].prob && traces[startOf[e2.dest]].length > best2Len)) {
          best2 := j;
          best2Len := if e2.dest != NONE then traces[startOf[e2.dest]].length else INT_MAX;
          nextBb := e2.dest;
        }
      }
      found := best2 != -1;
    }

    /** One round of the loop that finds successor traces: the best of them
        follows, or a block is copied, or nothing goes on. */
    method ConnectNext(t0: nat, ghost order0: seq<nat>) returns (t: nat, more: bool, ghost order: seq<nat>)
      requires Valid() && EndsKnown() && Stitched(order0, []) && order0 != [] && Last(order0) == t0
      requires Logged(order0, [], false)
      modifies `edges, `next, `traces, `connected, `limit, `chains, `owner, `pos, `log
      ensures Valid() && EndsKnown() && Stitched(order, []) && order0 <= order && Last(order) == t
      ensures (if more then Logged(order, [], false) else Resting(order)) && old(log) <= log
      ensures more ==> Unconnected(connected) < Unconnected(old(connected))
      ensures |traces| == |old(traces)| && Later(old(owner), old(chains), old(limit), owner, chains, limit)
      ensures forall m :: 0 <= m < |old(connected)| && old(connected[m]) ==> m < |connected| && connected[m]
    {
      hide Placed, AllLinked, Stitching, Ends, Ran, View.BestCopy, View.BestOn, View.Fresh, View.Copied;
      t, order, more := t0, order0, true;
      LaterSelf(owner, chains, limit);
      OnOrder(next, chains, connected, order, t);
      StitchReady(next, chains, connected, order, [], Last(log));
      var best := BestSucc(t);
      if best != -1 {
        OnFresh(Now(), t, best);
        var k := startOf[edges[best].dest];
        Append(k, t, order);
        t, order := k, order + [k];
        SucceedsMove(rules, Last(log), best, State(Now(), order, [], false));
        Record(order, [], false);
      } else {
        var tryCopy, e, nextBb;
        ghost var from;
        tryCopy, e, nextBb, from := FindCopy(t);
        if tryCopy {
          CopyInside(Now(), t, rules.lim, e, nextBb, from);
        }
        if !tryCopy || !Now().Copied(rules, edges[e]) {
          StuckHere(rules, Last(log), tryCopy, e, nextBb, from);
          more := false;
        } else {
          t, more, order := CopyOn(e, nextBb, from, t, order);
        }
      }
    }

    /** A block is copied after trace `t0`, and the trace it leads on to follows. */
    method CopyOn(e: nat, nextBb: Block, ghost from: int, t0: nat, ghost order0: seq<nat>)
        returns (t: nat, more: bool, ghost order: seq<nat>)
      requires Valid() && EndsKnown() && Stitched(order0, []) && order0 != [] && Last(order0) == t0 && t0 < |traces|
      requires Logged(order0, [], false) && Now().BestOn(t0, -1) && e < |edges|
      requires Now().BestCopy(t0, rules.lim, e, nextBb, from) && Now().Copied(rules, edges[e])
      requires nextBb != NONE ==> Now().Fresh(nextBb)
      modifies `edges, `next, `traces, `connected, `limit, `chains, `owner, `pos, `log
      ensures Valid() && EndsKnown() && Stitched(order, []) && order0 <= order && Last(order) == t
      ensures (if more then Logged(order, [], false) else Resting(order)) && old(log) <= log
      ensures more ==> Unconnected(connected) < Unconnected(old(connected))
      ensures |traces| == |old(traces)| && Later(old(owner), old(chains), old(limit), owner, chains, limit)
      ensures forall m :: 0 <= m < |old(connected)| && old(connected[m]) ==> m < |connected| && connected[m]
    {
      hide Placed, AllLinked, Stitching, Ends, Ran, View.BestCopy, View.BestOn, View.Copied, WithCopy, Move;
      t, order, more := t0, order0, nextBb != NONE;
      ghost var a := Last(log);
      StitchReady(next, chains, connected, order, [], a);
      LaterSelf(owner, chains, limit);
      CopyLast(e, t, order);
      ghost var v := Now();
      LaterCopy(old(owner), old(chains), old(limit), old(owner), old(chains), old(limit), owner, chains, limit, t);
      if nextBb != NONE {
        FreshAfter(a.view, t, e, v, nextBb);
        var k := startOf[nextBb];
        Append(k, t, order);
        t, order := k, order + [k];
      }
      CopiesMove(rules, a, v, e, nextBb, from, State(Now(), order, [], !more));
      Record(order, [], !more);
      StitchReady(next, chains, connected, order, [], Last(log));
    }

    /** The loop that finds the successor traces. When it ends, nothing goes on
        from the end of the layout, or that is a copy that leads on to no trace. */
    method ConnectSuccs(t0: nat, ghost order0: seq<nat>) returns (t: nat, ghost order: seq<nat>)
      requires Valid() && EndsKnown() && Stitched(order0, []) && order0 != [] && Last(order0) == t0
      requires Logged(order0, [], false)
      modifies `edges, `next, `traces, `connected, `limit, `chains, `owner, `pos, `log
      ensures Valid() && EndsKnown() && Stitched(order, []) && order0 <= order && Last(order) == t
      ensures Resting(order) && old(log) <= log
      ensures |traces| == |old(traces)| && Later(old(owner), old(chains), old(limit), owner, chains, limit)
      ensures forall m :: 0 <= m < |old(connected)| && old(connected[m]) ==> m < |connected| && connected[m]
    {
      t, order := t0, order0;
      LaterSelf(owner, chains, limit);
      var more := true;
      while more
        invariant Valid() && EndsKnown() && Stitched(order, []) && order0 <= order && order != [] && Last(order) == t
        invariant (if more then Logged(order, [], false) else Resting(order)) && old(log) <= log
        invariant |traces| == |old(traces)| && Later(old(owner), old(chains), old(limit), owner, chains, limit)
        invariant forall m :: 0 <= m < |old(connected)| && old(connected[m]) ==> m < |connected| && connected[m]
        decreases more, Unconnected(connected)
      {
        hide Valid, EndsKnown, Later, Logged, Resting, Stitched;
        ghost var owner1, chains1, limit1 := owner, chains, limit;
        t, more, order := ConnectNext(t, order);
        LaterTwice(old(owner), old(chains), old(limit), owner1, chains1, limit1, owner, chains, limit);
      }
    }

    /** `connect_traces`. Following `rbi->next` from the first block of the first
        trace visits every block of every trace, and the copies made on the
        way, exactly once before it ends. The layout is the traces in some order,
        each only grown by copies at its end; the order comes from a run of moves, each
        of which follows the best edge there is. */
    method Connect() returns (ghost layout: seq<Block>, ghost order: seq<nat>)
      requires Valid() && Unlinked()
      modifies `edges, `next, `traces, `connected, `limit, `chains, `owner, `pos, `log
      ensures Linked(next, layout)
      ensures forall i, j :: 0 <= i < j < |layout| ==> layout[i] != layout[j]
      ensures forall b: Block :: b in layout <==> At(owner, b) != 0
      ensures forall b: Block :: At(old(owner), b) != 0 ==> b in layout
      ensures forall b :: b in layout && At(old(owner), b) == 0 ==> old(limit) <= b
      ensures Later(old(owner), old(chains), old(limit), owner, chains, limit)
      ensures Run(next, chains, order) && layout == Layout(chains, order) && forall k: nat :: k < |chains| ==>
                k in order
      ensures old(traces) != [] ==> layout != [] && layout[0] == old(traces[0].first) && At(next, Last(layout)) == NONE
      ensures Resting(order) && log[0] == Unstitched(old(Now()))
    {
      hide Placed, AllLinked, Stitching, Ends, Ran, AtRest, Ready, Later;
      order := [];
      SameCount(traces, chains);
      connected := seq(|traces|, _ => false);
      StitchNone(next, traces, chains, connected);
      LaterSelf(owner, chains, limit);
      log := [State(Now(), order, [], false)];
      RanNone(rules, log[0]);
      var lastTrace: int := -1;
      for i := 0 to |traces|
        invariant |traces| == |old(traces)| && Valid() && EndsKnown() && Stitched(order, [])
        invariant forall m :: 0 <= m < i ==> m < |connected| && connected[m]
        invariant if lastTrace == -1 then order == [] && i == 0
                    else order != [] && Last(order) == lastTrace && order[0] == 0
        invariant lastTrace == -1 ==> forall m :: 0 <= m < |connected| ==> !connected[m]
        invariant Later(old(owner), old(chains), old(limit), owner, chains, limit)
        invariant Resting(order) && log[0] == Unstitched(old(Now()))
      {
        if !connected[i] {
          ghost var owner1, chains1, limit1 := owner, chains, limit;
          lastTrace, order := ConnectOne(i, lastTrace, order);
          LaterTwice(old(owner), old(chains), old(limit), owner1, chains1, limit1, owner, chains, limit);
        }
      }
      AllThere(next, traces, owner, pos, chains, connected, order);
      LaterOwned(old(owner), old(chains), old(limit), owner, chains, limit);
      layout := Layout(chains, order);
      if traces != [] {
        FirstStays(old(traces), old(chains), old(owner), old(limit), owner, chains, limit);
      }
    }

    /** One round of the outer loop: trace `t` with its predecessors goes to the
        end of the layout, and its successors after it. */
    method ConnectOne(i: nat, lastTrace: int, ghost order0: seq<nat>) returns (t: nat, ghost order: seq<nat>)
      requires Valid() && EndsKnown() && Stitched(order0, []) && i < |traces| && !connected[i]
      requires forall m :: 0 <= m < i ==> connected[m]
      requires if lastTrace == -1 then order0 == [] && i == 0 else order0 != [] && Last(order0) == lastTrace
      requires Resting(order0)
      modifies `edges, `next, `traces, `connected, `limit, `chains, `owner, `pos, `log
      ensures Valid() && EndsKnown() && Stitched(order, []) && order != [] && Last(order) == t
      ensures if order0 == [] then order[0] == 0 else order0 <= order
      ensures |traces| == |old(traces)| && Later(old(owner), old(chains), old(limit), owner, chains, limit)
      ensures Resting(order) && old(log) <= log
      ensures i < |connected| && connected[i]
      ensures forall m :: 0 <= m < |old(connected)| && old(connected[m]) ==> m < |connected| && connected[m]
    {
      hide Placed, AllLinked, Stitching, Ends, Logged, Resting;
      SameCount(traces, chains);
      StartRun(i, order0);
      ghost var extra;
      var t2;
      t2, extra := ConnectPreds(i, order0);
      ghost var mid := JoinLayout(t2, lastTrace, order0, extra);
      t, order := ConnectSuccs(i, mid);
    }

    /** Trace `i` is taken: it is to follow the layout. */
    method StartRun(i: nat, ghost order: seq<nat>)
      requires Valid() && EndsKnown() && Stitched(order, []) && i < |traces| && !connected[i]
      requires forall m :: 0 <= m < i ==> connected[m]
      requires Resting(order)
      modifies `connected, `log
      ensures Valid() && EndsKnown() && Stitched(order, [i]) && connected == old(connected)[i := true]
      ensures Logged(order, [i], false) && old(log) <= log
    {
      hide Placed, AllLinked, Stitching, Ran, AtRest, Ready;
      StitchStart(next, chains, connected, order, i);
      connected := connected[i := true];
      KnownMarked(endOf, old(connected), chains, i);
      TakesMove(rules, Last(log), i, State(Now(), order, [i], false));
      Record(order, [i], false);
    }

    /** The run goes to the end of the layout. */
    method JoinLayout(t2: nat, lastTrace: int, ghost order: seq<nat>, ghost extra: seq<nat>)
        returns (ghost both: seq<nat>)
      requires Valid() && EndsKnown() && Stitched(order, extra) && extra != [] && extra[0] == t2
      requires if lastTrace == -1 then order == [] else order != [] && Last(order) == lastTrace
      requires Logged(order, extra, false) && (t2 == 0 || (t2 < |traces| && Now().BestBack(t2, -1)))
      modifies `next, `log
      ensures Valid() && EndsKnown() && Stitched(both, []) && both == order + extra
      ensures Logged(both, [], false) && old(log) <= log
    {
      hide Placed, AllLinked, Stitching, Ran, View.BestBack;
      StitchReady(next, chains, connected, order, extra, Last(log));
      both := order + extra;
      if lastTrace >= 0 {
        StitchBack(next, owner, pos, chains, connected, order, extra);
        next := next[traces[lastTrace].last := traces[t2].first];
      } else {
        assert both == extra;
        StitchFirst(next, chains, connected, extra);
      }
      SettlesMove(rules, Last(log), State(Now(), both, [], false));
      Record(both, [], false);
    }

    /** Before traces are connected their last blocks lead nowhere and are known
        as such. */
    ghost predicate Unlinked()
      reads this
    {
      && (forall k: nat :: k < |chains| ==> LeadsNowhere(next, chains, k))
      && (forall b :: b in endOf ==> endOf[b] < |chains| && chains[endOf[b]] != [] && Last(chains[endOf[b]]) == b)
    }
  }

  // ----- the moves -----

  /** No trace is connected. */
  function Unstitched(v: View): State {
    State(v.(connected := seq(|v.traces|, _ => false)), [], [], false)
  }

  lemma StitchReady(next: map<Block, Block>, chains: seq<seq<Block>>, connected: seq<bool>, order: seq<nat>,
                    extra: seq<nat>, s: State)
    requires Stitching(next, chains, connected, order, extra) && s.order == order && s.extra == extra
    requires s.view.connected == connected && |s.view.traces| == |connected|
    ensures Ready(s)
  {
  }

  lemma RanNone(rules: Rules, s: State)
    ensures Ran(rules, [s]) && (s.order == s.extra == [] && |s.view.connected| == |s.view.traces| ==>
                                  Ready(s) && AtRest(rules, s))
  {
  }

  lemma PrecedesMove(rules: Rules, a: State, r: nat, b: State)
    requires Ready(a) && a.extra != [] && a.extra[0] > 0 && a.view.BestBack(a.extra[0], r)
    requires var k := a.view.endOf[a.view.edges[r].src]; b == a.(view := Connected(a.view, k), extra := [k] + a.extra)
    ensures Move(rules, a, b)
  {
    hide View.BestBack;
    assert Precedes(a, b);
  }

  lemma SucceedsMove(rules: Rules, a: State, r: nat, b: State)
    requires Ready(a) && a.extra == [] && a.order != [] && !a.closed && a.view.BestOn(Last(a.order), r)
    requires r < |a.view.edges| && a.view.edges[r].dest in a.view.startOf
    requires var k := a.view.startOf[a.view.edges[r].dest];
             k < |a.view.connected| && b == a.(view := Connected(a.view, k), order := a.order + [k])
    ensures Move(rules, a, b)
  {
    assert Succeeds(a, b);
  }

  lemma TakesMove(rules: Rules, a: State, i: nat, b: State)
    requires Ready(a) && AtRest(rules, a) && i < |a.view.connected| && !a.view.connected[i]
    requires forall j :: 0 <= j < i ==> a.view.connected[j]
    requires b == State(Connected(a.view, i), a.order, [i], false)
    ensures Move(rules, a, b)
  {
    hide AtRest, Ready;
    assert Takes(rules, a, b);
  }

  lemma SettlesMove(rules: Rules, a: State, b: State)
    requires Ready(a) && a.extra != [] && (a.extra[0] == 0 || a.view.BestBack(a.extra[0], -1))
    requires b == a.(order := a.order + a.extra, extra := [])
    ensures Move(rules, a, b)
  {
    hide View.BestBack;
    assert Settles(a, b);
  }

  lemma CopiesMove(rules: Rules, a: State, v: View, best: nat, nextBb: Block, from: int, b: State)
    requires Ready(a) && a.extra == [] && a.order != [] && !a.closed && a.view.BestOn(Last(a.order), -1)
    requires a.view.BestCopy(Last(a.order), rules.lim, best, nextBb, from) && best < |a.view.edges|
    requires a.view.Copied(rules, a.view.edges[best]) && WithCopy(a.view, Last(a.order), best, v)
    requires if nextBb == NONE then b == a.(view := v, closed := true)
             else nextBb in v.startOf && v.startOf[nextBb] < |v.connected|
                  && b == a.(view := Connected(v, v.startOf[nextBb]), order := a.order + [v.startOf[nextBb]])
    ensures Move(rules, a, b)
  {
    hide View.BestCopy, View.BestOn, View.Copied, WithCopy;
    assert CopyMove(rules, a, v, best, nextBb, from);
    assert Copies(rules, a, b);
  }

  lemma OnFresh(v: View, t: nat, r: nat)
    requires t < |v.traces| && v.BestOn(t, r)
    ensures r < |v.edges| && v.edges[r].dest in v.startOf
    ensures v.startOf[v.edges[r].dest] < |v.connected| == |v.traces| && !v.connected[v.startOf[v.edges[r].dest]]
  {
  }

  lemma StuckHere(rules: Rules, s: State, tryCopy: bool, best: nat, nextBb: Block, from: int)
    requires Ready(s) && s.order != [] && s.extra == [] && s.view.BestOn(Last(s.order), -1)
    requires if tryCopy then s.view.BestCopy(Last(s.order), rules.lim, best, nextBb, from) && best < |s.view.edges|
                             && !s.view.Copied(rules, s.view.edges[best])
             else s.view.NothingWorth(Last(s.order), rules.lim)
    ensures AtRest(rules, s)
  {
    hide View.BestOn, View.BestCopy, View.NothingWorth, View.Copied;
    assert Stuck(rules, s);
  }

  lemma CopyInside(v: View, t: nat, lim: Limits, best: nat, nextBb: Block, from: int)
    requires t < |v.traces| && v.BestCopy(t, lim, best, nextBb, from)
    ensures best < |v.edges|
  {
  }

  lemma FreshAfter(v: View, t: nat, best: nat, v': View, b: Block)
    requires WithCopy(v, t, best, v') && v.Fresh(b)
    ensures v'.startOf == v.startOf && v'.connected == v.connected && v'.Fresh(b) && |v'.traces| == |v.traces|
  {
  }

  lemma WorthIs(v: View, e: Edge, t: nat, lim: Limits)
    requires t < |v.traces|
    ensures v.Worth(e, t, lim) <==>
            && e.src == v.traces[t].last && e.dest != NONE && e.Usable()
            && (v.OneBlock(e.dest)
                || exists j :: 0 <= j < |v.edges| && v.edges[j].src == e.dest && v.Onward(v.edges[j], lim))
  {
  }

  /** One more edge is looked at. */
  lemma PickedMore(v: View, b: Block, lim: Limits, p: int, n: nat)
    requires n < |v.edges| && -1 <= p < n
    requires if p == -1 then forall k {:trigger v.edges[k]} :: 0 <= k < n && v.edges[k].src == b ==>
               !v.Onward(v.edges[k], lim)
             else v.Picked(b, lim, p, n)
    ensures var e := v.edges[n];
            if e.src == b && v.Onward(e, lim) && (e.dest == NONE || p == -1 || v.Less(v.edges[p], e))
                then v.Picked(b, lim, n, n + 1)
            else p != -1 ==> v.Picked(b, lim, p, n + 1)
  {
    hide View.ExitAfter, View.Onward;
    forall k | k < n
      ensures v.ExitAfter(b, k, n + 1) <==> v.ExitAfter(b, k, n) || (v.edges[n].src == b && v.edges[n].dest == NONE)
    {
      ExitMore(v, b, k, n);
    }
    ExitMore(v, b, n, n);
    OnwardExit(v, v.edges[n], lim);
    var e := v.edges[n];
    if e.src == b && v.Onward(e, lim) && (e.dest == NONE || p == -1 || v.Less(v.edges[p], e)) {
      forall k {:trigger v.edges[k]} | 0 <= k < n + 1 && v.edges[k].src == b && v.Onward(v.edges[k], lim)
          && !v.ExitAfter(b, k, n + 1)
        ensures !v.Less(v.edges[n], v.edges[k]) && (k < n ==> v.Less(v.edges[k], v.edges[n]))
      {
        if k < n {
          assert !v.ExitAfter(b, k, n) && p != -1;
          assert !v.Less(v.edges[p], v.edges[k]);
        }
      }
    }
  }

  lemma ExitMore(v: View, b: Block, k: int, n: nat)
    requires k <= n < |v.edges|
    ensures k < n ==> (v.ExitAfter(b, k, n + 1) <==>
                       v.ExitAfter(b, k, n) || (v.edges[n].src == b && v.edges[n].dest == NONE))
    ensures !v.ExitAfter(b, n, n + 1)
  {
    if k < n && v.edges[n].src == b && v.edges[n].dest == NONE {
      assert k < n < n + 1;
    }
  }

  lemma OnwardExit(v: View, e: Edge, lim: Limits)
    ensures e.dest == NONE ==> v.Onward(e, lim)
  {
  }

  lemma LaterOwned(owner: map<Block, nat>, chains: seq<seq<Block>>, limit: Block,
                   owner': map<Block, nat>, chains': seq<seq<Block>>, limit': Block)
    requires Later(owner, chains, limit, owner', chains', limit')
    ensures forall b: Block :: At(owner, b) != 0 ==> At(owner', b) != 0
    ensures forall b: Block :: At(owner', b) != 0 && At(owner, b) == 0 ==> limit <= b
  {
    forall b: Block
      ensures At(owner, b) != 0 ==> At(owner', b) != 0
      ensures At(owner', b) != 0 && At(owner, b) == 0 ==> limit <= b
    {
      assert At(owner', b) == At(owner', b);
    }
  }

  /** Chains have only grown at their ends, by new blocks. */
  ghost predicate Later(owner: map<Block, nat>, chains: seq<seq<Block>>, limit: Block,
                        owner': map<Block, nat>, chains': seq<seq<Block>>, limit': Block) {
    && |chains'| == |chains| && limit <= limit'
    && (forall k {:trigger chains'[k]} :: 0 <= k < |chains| ==> chains[k] <= chains'[k])
    && (forall b {:trigger At(owner', b)} :: At(owner, b) != 0 ==> At(owner', b) != 0)
    && (forall b {:trigger At(owner', b)} :: At(owner', b) != 0 && At(owner, b) == 0 ==> limit <= b)
  }

  lemma LaterSelf(owner: map<Block, nat>, chains: seq<seq<Block>>, limit: Block)
    ensures Later(owner, chains, limit, owner, chains, limit)
  {
  }

  lemma LaterTwice(owner: map<Block, nat>, chains: seq<seq<Block>>, limit: Block,
                   owner1: map<Block, nat>, chains1: seq<seq<Block>>, limit1: Block,
                   owner2: map<Block, nat>, chains2: seq<seq<Block>>, limit2: Block)
    requires Later(owner, chains, limit, owner1, chains1, limit1)
             && Later(owner1, chains1, limit1, owner2, chains2, limit2)
    ensures Later(owner, chains, limit, owner2, chains2, limit2)
  {
    forall k {:trigger chains2[k]} | 0 <= k < |chains|
      ensures chains[k] <= chains2[k]
    {
      assert chains[k] <= chains1[k];
    }
    forall b {:trigger At(owner2, b)} | At(owner2, b) != 0 && At(owner, b) == 0
      ensures limit <= b
    {
      assert At(owner1, b) == 0 || limit <= b;
    }
    forall b {:trigger At(owner2, b)} | At(owner, b) != 0
      ensures At(owner2, b) != 0
    {
      assert At(owner1, b) != 0;
    }
  }

  lemma LaterCopy(owner: map<Block, nat>, chains: seq<seq<Block>>, limit: Block,
                  owner1: map<Block, nat>, chains1: seq<seq<Block>>, limit1: Block,
                  owner2: map<Block, nat>, chains2: seq<seq<Block>>, limit2: Block, t: nat)
    requires Later(owner, chains, limit, owner1, chains1, limit1) && t < |chains1|
    requires limit2 == limit1 + 1 && chains2 == Grown(chains1, t, limit1) && owner2 == owner1[limit1 := t + 1]
    ensures Later(owner, chains, limit, owner2, chains2, limit2)
  {
    forall b {:trigger At(owner2, b)} | true
      ensures b != limit1 ==> At(owner2, b) == At(owner1, b)
    {
    }
    LaterTwice(owner, chains, limit, owner1, chains1, limit1, owner2, chains2, limit2);
  }

  lemma SameCount(traces: seq<Trace>, chains: seq<seq<Block>>)
    requires Ends(traces, chains)
    ensures |traces| == |chains|
  {
  }

  /** A block that ends a trace knows it, while the trace is unconnected. */
  ghost predicate KnownEnds(endOf: map<Block, nat>, connected: seq<bool>, chains: seq<seq<Block>>) {
    forall b :: b in endOf ==> endOf[b] < |connected| && endOf[b] < |chains|
                               && (connected[endOf[b]] || (chains[endOf[b]] != [] && Last(chains[endOf[b]]) == b))
  }

  /** A block that is said to start a trace does. */
  ghost predicate KnownStarts(startOf: map<Block, nat>, chains: seq<seq<Block>>) {
    forall b :: b in startOf ==> startOf[b] < |chains| && chains[startOf[b]] != [] && chains[startOf[b]][0] == b
  }

  lemma StartsGrown(startOf: map<Block, nat>, traces: seq<Trace>, chains: seq<seq<Block>>, t: nat, b: Block)
    requires KnownStarts(startOf, chains) && Ends(traces, chains) && t < |chains|
    ensures KnownStarts(startOf, Grown(chains, t, b)) && Ends(traces[t := traces[t].(last := b)], Grown(chains, t, b))
  {
  }

  lemma KnownMarked(endOf: map<Block, nat>, connected: seq<bool>, chains: seq<seq<Block>>, k: nat)
    requires KnownEnds(endOf, connected, chains) && k < |connected|
    ensures KnownEnds(endOf, connected[k := true], chains)
  {
  }

  lemma KnownGrown(endOf: map<Block, nat>, connected: seq<bool>, chains: seq<seq<Block>>, t: nat, b: Block)
    requires KnownEnds(endOf, connected, chains) && t < |connected| && t < |chains| && connected[t]
    ensures KnownEnds(endOf, connected, Grown(chains, t, b))
  {
  }

  lemma RunHead(traces: seq<Trace>, next: map<Block, Block>, chains: seq<seq<Block>>, connected: seq<bool>,
                order: seq<nat>, extra: seq<nat>)
    requires Stitching(next, chains, connected, order, extra) && extra != [] && Ends(traces, chains)
    ensures extra[0] < |traces| == |chains|
  {
  }

  lemma StitchNone(next: map<Block, Block>, traces: seq<Trace>, chains: seq<seq<Block>>, connected: seq<bool>)
    requires |connected| == |chains| && (forall k :: 0 <= k < |connected| ==> !connected[k])
    requires forall k: nat :: k < |chains| ==> LeadsNowhere(next, chains, k)
    ensures Stitching(next, chains, connected, [], [])
  {
  }

  /** When every trace is connected the layout holds every block of every trace once. */
  lemma AllThere(next: map<Block, Block>, traces: seq<Trace>, owner: map<Block, nat>, pos: map<Block, nat>,
                 chains: seq<seq<Block>>,
                 connected: seq<bool>, order: seq<nat>)
    requires AllLinked(next, chains) && Placed(owner, pos, chains) && Stitching(next, chains, connected, order, [])
    requires forall m :: 0 <= m < |connected| ==> connected[m]
    ensures Run(next, chains, order) && Linked(next, Layout(chains, order))
    ensures forall i, j :: 0 <= i < j < |Layout(chains, order)| ==> Layout(chains, order)[i] != Layout(chains, order)[j]
    ensures forall b: Block :: b in Layout(chains, order) <==> At(owner, b) != 0
    ensures forall k: nat :: k < |chains| ==> k in order
    ensures order != [] ==> Layout(chains, order) != [] && Layout(chains, order)[0] == chains[order[0]][0]
                            && At(next, Last(Layout(chains, order))) == NONE
  {
    LayoutLinked(next, chains, order);
    LayoutDistinct(owner, pos, chains, order);
    forall b: Block
      ensures b in Layout(chains, order) <==> At(owner, b) != 0
    {
      LayoutBlocks(owner, pos, chains, order, b);
    }
    if order != [] {
      LayoutEnds(next, chains, order);
      assert LeadsNowhere(next, chains, Last(order));
    }
  }

  lemma FirstStays(traces: seq<Trace>, chains: seq<seq<Block>>, owner: map<Block, nat>, limit: Block,
                   owner': map<Block, nat>, chains': seq<seq<Block>>, limit': Block)
    requires Ends(traces, chains) && Later(owner, chains, limit, owner', chains', limit') && traces != []
    ensures chains' != [] && chains'[0] != [] && chains'[0][0] == traces[0].first
  {
    assert chains[0] <= chains'[0];
  }

  lemma OwnedBelow(owner: map<Block, nat>, owner': map<Block, nat>, k: nat, limit: Block)
    requires (forall b: Block :: At(owner, b) != 0 ==> b < limit) && owner' == owner[limit := k]
    ensures forall b: Block :: At(owner', b) != 0 ==> b < limit + 1
  {
    forall b: Block | At(owner', b) != 0
      ensures b < limit + 1
    {
      assert b == limit || At(owner, b) != 0;
    }
  }

  lemma OnOrder(next: map<Block, Block>, chains: seq<seq<Block>>, connected: seq<bool>, order: seq<nat>, t: nat)
    requires Stitching(next, chains, connected, order, []) && order != [] && Last(order) == t
    ensures t < |connected| == |chains| && connected[t]
  {
    assert t in order;
  }

  /** A new block at the end of the layout. */
  lemma StitchGrown(next: map<Block, Block>, owner: map<Block, nat>, pos: map<Block, nat>, chains: seq<seq<Block>>,
                    connected: seq<bool>, order: seq<nat>, b: Block)
    requires AllLinked(next, chains) && Placed(owner, pos, chains) && Stitching(next, chains, connected, order, [])
    requires order != [] && At(owner, b) == 0 && b != NONE
    ensures Last(order) < |chains| && chains[Last(order)] != [] && At(next, Last(chains[Last(order)])) == NONE
    ensures AllLinked(next[b := NONE][Last(chains[Last(order)]) := b], Grown(chains, Last(order), b))
    ensures Placed(owner[b := Last(order) + 1], pos[b := |chains[Last(order)]|], Grown(chains, Last(order), b))
    ensures Stitching(next[b := NONE][Last(chains[Last(order)]) := b], Grown(chains, Last(order), b), connected, order,
                      [])
  {
    hide Placed, AllLinked, Joint;
    var k := Last(order);
    assert LeadsNowhere(next, chains, k);
    var next', chains' := next[b := NONE][Last(chains[k]) := b], Grown(chains, k, b);
    GrownPlaced(owner, pos, chains, k, b);
    GrownLinked(next, owner, pos, chains, k, b, NONE);
    RunGrown(next, owner, pos, chains, order, b, NONE);
    NotLast(owner, pos, chains, k, b);
    forall m: nat {:trigger LeadsNowhere(next', chains', m)} | m < |chains'| && Open(order, m) && Open([], m)
      ensures LeadsNowhere(next', chains', m)
    {
      assert LeadsNowhere(next, chains, m);
      if m != k {
        Distinct(owner, pos, chains, m, |chains[m]| - 1, k, |chains[k]| - 1);
        NotLast(owner, pos, chains, m, b);
      }
    }
  }

  lemma NotLast(owner: map<Block, nat>, pos: map<Block, nat>, chains: seq<seq<Block>>, k: nat, b: Block)
    requires Placed(owner, pos, chains) && k < |chains| && chains[k] != [] && At(owner, b) == 0
    ensures Last(chains[k]) != b
  {
    assert chains[k][|chains[k]| - 1] != b;
  }

  /** The first run becomes the layout. */
  lemma StitchFirst(next: map<Block, Block>, chains: seq<seq<Block>>, connected: seq<bool>, extra: seq<nat>)
    requires Stitching(next, chains, connected, [], extra)
    ensures Stitching(next, chains, connected, extra, [])
  {
    forall m: nat {:trigger LeadsNowhere(next, chains, m)} | m < |chains| && Open(extra, m) && Open([], m)
      ensures LeadsNowhere(next, chains, m)
    {
      assert Open([], m);
    }
  }

  ghost function Unconnected(connected: seq<bool>): nat {
    if connected == [] then 0 else (if connected[0] then 0 else 1) + Unconnected(connected[1..])
  }

  lemma {:induction false} MarkConnected(connected: seq<bool>, k: nat)
    requires k < |connected| && !connected[k]
    ensures Unconnected(connected[k := true]) < Unconnected(connected)
  {
    var c := connected[k := true];
    if k > 0 {
      assert c[1..] == connected[1..][k - 1 := true];
      MarkConnected(connected[1..], k - 1);
    } else {
      assert c[1..] == connected[1..];
    }
  }

  /** Trace `k` is not on the run, or ends it. */
  ghost predicate Open(run: seq<nat>, k: nat) {
    k !in run || k == Last(run)
  }

  /** `order` is the layout so far and `extra` a run that is to follow; the
      traces in neither, and the last ones of both, lead nowhere yet. */
  ghost predicate Stitching(next: map<Block, Block>, chains: seq<seq<Block>>, connected: seq<bool>, order: seq<nat>,
                            extra: seq<nat>) {
    && |connected| == |chains|
    && Run(next, chains, order) && Run(next, chains, extra)
    && (forall k: nat :: k < |chains| ==> (connected[k] <==> k in order || k in extra))
    && (forall k :: k in order ==> k !in extra)
    && (forall k: nat {:trigger LeadsNowhere(next, chains, k)} :: k < |chains| && Open(order, k) && Open(extra, k) ==>
          LeadsNowhere(next, chains, k))
  }

  /** Leading the end of an unconnected trace to the start of `extra`. */
  lemma StitchFront(next: map<Block, Block>, owner: map<Block, nat>, pos: map<Block, nat>, chains: seq<seq<Block>>,
                    connected: seq<bool>, order: seq<nat>, extra: seq<nat>, k: nat)
    requires AllLinked(next, chains) && Placed(owner, pos, chains) && Stitching(next, chains, connected, order, extra)
    requires k < |chains| && !connected[k] && extra != []
    ensures chains[k] != [] && extra[0] < |chains| && chains[extra[0]] != []
    ensures AllLinked(next[Last(chains[k]) := chains[extra[0]][0]], chains)
    ensures Stitching(next[Last(chains[k]) := chains[extra[0]][0]], chains, connected[k := true], order, [k] + extra)
  {
    hide Placed, AllLinked, Joint;
    assert LeadsNowhere(next, chains, k);
    var y := chains[extra[0]][0];
    var next', run := next[Last(chains[k]) := y], [k] + extra;
    EndsFree(next, owner, pos, chains, k, y);
    RunFree(next, owner, pos, chains, order, k, y);
    SingleRun(next, chains, k);
    JoinRuns(next, owner, pos, chains, [k], extra);
    assert forall m :: m in run <==> m == k || m in extra;
    forall m: nat {:trigger LeadsNowhere(next', chains, m)} | m < |chains| && Open(order, m) && Open(run, m)
      ensures LeadsNowhere(next', chains, m)
    {
      assert LeadsNowhere(next, chains, m);
      Distinct(owner, pos, chains, m, |chains[m]| - 1, k, |chains[k]| - 1);
    }
  }

  /** Leading the end of the layout to the start of `extra`. */
  lemma StitchBack(next: map<Block, Block>, owner: map<Block, nat>, pos: map<Block, nat>, chains: seq<seq<Block>>,
                   connected: seq<bool>, order: seq<nat>, extra: seq<nat>)
    requires AllLinked(next, chains) && Placed(owner, pos, chains) && Stitching(next, chains, connected, order, extra)
    requires order != [] && extra != []
    ensures Last(order) < |chains| && chains[Last(order)] != [] && extra[0] < |chains| && chains[extra[0]] != []
    ensures AllLinked(next[Last(chains[Last(order)]) := chains[extra[0]][0]], chains)
    ensures Stitching(next[Last(chains[Last(order)]) := chains[extra[0]][0]], chains, connected, order + extra, [])
  {
    hide Placed, AllLinked, Joint;
    var k, y := Last(order), chains[extra[0]][0];
    forall i, j | 0 <= i < |order| && 0 <= j < |extra|
      ensures order[i] != extra[j]
    {
      assert order[i] in order;
    }
    var next', run := next[Last(chains[k]) := y], order + extra;
    EndsFree(next, owner, pos, chains, k, y);
    JoinRuns(next, owner, pos, chains, order, extra);
    assert forall m :: m in run <==> m in order || m in extra;
    forall m: nat {:trigger LeadsNowhere(next', chains, m)} | m < |chains| && Open(run, m) && Open([], m)
      ensures LeadsNowhere(next', chains, m)
    {
      assert LeadsNowhere(next, chains, m);
      Distinct(owner, pos, chains, m, |chains[m]| - 1, k, |chains[k]| - 1);
    }
  }

  /** Marking an unconnected trace as the run to follow. */
  lemma StitchStart(next: map<Block, Block>, chains: seq<seq<Block>>, connected: seq<bool>, order: seq<nat>, k: nat)
    requires Stitching(next, chains, connected, order, []) && k < |chains| && !connected[k]
    ensures Stitching(next, chains, connected[k := true], order, [k])
  {
    assert LeadsNowhere(next, chains, k);
    SingleRun(next, chains, k);
    forall m: nat {:trigger LeadsNowhere(next, chains, m)} | m < |chains| && Open(order, m) && Open([k], m)
      ensures LeadsNowhere(next, chains, m)
    {
    }
  }
}
