/**
 A run of `connect_traces` in which the trace appended after a copy does not
 start with a successor of the copied block.

 Block 1 leads to 2 and 5, block 2 to 3 and 6, block 3 to the exit and,
 with a probability too low for a trace to go on, to 4; block 5 leads to 2 and,
 more probably, to 4; 4 and 6 lead to the exit.
 */
module StaleContinuation {
  import opened Helpers
  import opened TraceChains
  import opened FlowEdges
  import opened LayoutMoves
  import opened ConnectTraces

  function Edges(): seq<Edge> {
    [Edge(NONE, 1, 10000, 1000, 0, true, false, false),
     Edge(1, 2, 6000, 600, 0, true, false, false), Edge(1, 5, 4000, 400, 0, true, false, false),
     Edge(2, 3, 8000, 608, 0, true, false, false), Edge(2, 6, 2000, 152, 0, true, false, false),
     Edge(3, 4, 1000, 61, 0, true, false, false), Edge(3, NONE, 9000, 547, 0, true, false, false),
     Edge(5, 2, 4000, 160, 0, true, false, false), Edge(5, 4, 6000, 240, 0, true, false, false),
     Edge(4, NONE, 10000, 301, 0, true, false, false), Edge(6, NONE, 10000, 152, 0, true, false, false)]
  }

  function Traces(): seq<Trace> {
    [Trace(1, 3, 0, 3), Trace(4, 4, 1, 1), Trace(5, 5, 1, 1), Trace(6, 6, 2, 1)]
  }

  function Chains(): seq<seq<Block>> {
    [[1, 2, 3], [4], [5], [6]]
  }

  function Links(): map<Block, Block> {
    map[1 := 2, 2 := 3]
  }

  function Owner(): map<Block, nat> {
    map[1 := 1, 2 := 1, 3 := 1, 4 := 2, 5 := 3, 6 := 4]
  }

  function Pos(): map<Block, nat> {
    map[1 := 0, 2 := 1, 3 := 2, 4 := 0, 5 := 0, 6 := 0]
  }

  function Starts(): map<Block, nat> {
    map[1 := 0, 4 := 1, 5 := 2, 6 := 3]
  }

  function Lasts(): map<Block, nat> {
    map[3 := 0, 4 := 1, 5 := 2, 6 := 3]
  }

  /** The blocks of a trace follow edges. */
  lemma ChainsFollow()
    ensures forall k :: 0 <= k < |Chains()| ==> Followed(Edges(), Chains()[k])
  {
    assert Edges()[1].dest == 2 && Edges()[3].dest == 3;
    assert Leads(Edges(), 1, 2) && Leads(Edges(), 2, 3);
  }

  lemma Where(b: Block)
    ensures At(Owner(), b) == (if 1 <= b <= 3 then 1 else if 4 <= b <= 6 then b - 2 else 0)
    ensures At(Pos(), b) == (if 2 <= b <= 3 then b - 1 else 0)
  {
  }

  lemma AllPlaced()
    ensures Placed(Owner(), Pos(), Chains()) && forall b: Block :: At(Owner(), b) != 0 ==> b < 7
  {
    hide Owner, Pos, At;
    forall b: Block
      ensures At(Owner(), b) == (if 1 <= b <= 3 then 1 else if 4 <= b <= 6 then b - 2 else 0)
      ensures At(Pos(), b) == (if 2 <= b <= 3 then b - 1 else 0)
    {
      Where(b);
    }
    forall k, i {:trigger Chains()[k][i]} | 0 <= k < |Chains()| && 0 <= i < |Chains()[k]|
      ensures Chains()[k][i] == k + (if k == 0 then i + 1 else 3)
    {
    }
  }

  lemma AllKnown()
    ensures Ends(Traces(), Chains()) && AllLinked(Links(), Chains())
    ensures KnownStarts(Starts(), Chains()) && KnownEnds(Lasts(), [false, false, false, false], Chains())
    ensures forall k: nat :: k < |Chains()| ==> LeadsNowhere(Links(), Chains(), k)
  {
    AllEnd();
    AllLink();
    forall b: nat
      ensures b in Starts() ==> Starts()[b] < 4 && Chains()[Starts()[b]][0] == b
      ensures b in Lasts() ==> Lasts()[b] < 4 && Last(Chains()[Lasts()[b]]) == b
    {
    }
    hide Chains, Starts, Lasts, Last;
  }

  lemma AllEnd()
    ensures Ends(Traces(), Chains()) && |Chains()| == 4 && forall k :: 0 <= k < 4 ==> Chains()[k] != []
  {
  }

  lemma AllLink()
    ensures AllLinked(Links(), Chains())
    ensures forall k: nat :: k < |Chains()| ==> LeadsNowhere(Links(), Chains(), k)
  {
  }

  /** `max_entry_frequency` is 1000, and block 4 may be copied where code may grow. */
  function TheRules(): Rules {
    Rules(Limits(100, 0), false, (b, grow, n) => b == 4 && grow && n == 7)
  }

  function Here(connected: seq<bool>): View {
    View(Edges(), Starts(), Lasts(), Traces(), connected, 7)
  }

  /** What the steps before the copy leave as it is. */
  ghost predicate Graph(l: Layouter, connected: seq<bool>)
    reads l
  {
    l.Now() == Here(connected) && l.rules == TheRules() && l.Valid() && l.EndsKnown()
  }

  /** The state at the start of `connect_traces`. */
  method Found() returns (l: Layouter)
    ensures fresh(l) && Graph(l, [false, false, false, false]) && l.chains == Chains()
    ensures l.Stitched([], []) && l.Resting([]) && l.Unlinked()
  {
    hide Placed, AllLinked, Stitching, Ends, KnownStarts, KnownEnds, LeadsNowhere, Ran, AtRest;
    AllPlaced();
    AllKnown();
    l := new Layouter(Edges(), Links(), Starts(), Lasts(), Traces(), 7, TheRules(), Chains(), Owner(), Pos());
    l.connected := [false, false, false, false];
    l.log := [State(l.Now(), [], [], false)];
    RanNone(l.rules, l.log[0]);
    StitchNone(l.next, l.traces, l.chains, l.connected);
  }

  /** The steps of `connect_traces` until trace 2 is at hand: trace 0 is
      followed by trace 1, which leads nowhere, and trace 2 is no successor or
      predecessor of any. */
  method Reached() returns (l: Layouter)
    ensures fresh(l) && Graph(l, [true, true, true, false]) && l.chains == Chains()
    ensures l.Stitched([0, 1, 2], []) && l.Logged([0, 1, 2], [], false)
  {
    hide Placed, AllLinked, Stitching, Ends, KnownStarts, KnownEnds, Ran, AtRest, LeadsNowhere;
    hide Edges, Starts, Lasts;
    l := Found();
    First(l);
    NothingAfterSecond(l);
    Third(l);
  }

  /** Which edges leave the last blocks of traces, and which lead to a first one. */
  lemma Around(i: nat)
    requires i < |Edges()|
    ensures var e := Edges()[i];
            && (e.src == 3 <==> i == 5 || i == 6) && (e.src == 4 <==> i == 9) && (e.src == 5 <==> i == 7 || i == 8)
            && (e.src == 2 <==> i == 3 || i == 4) && (e.dest == 5 <==> i == 2) && (e.dest == 6 <==> i == 4)
            && e.Usable()
    ensures Edges()[2].src == 1 && Edges()[3].dest == 3 && Edges()[4].dest == 6
            && Edges()[5].dest == 4 && Edges()[6].dest == NONE
    ensures Edges()[7].dest == 2 && Edges()[8].dest == 4 && Edges()[9].dest == NONE
    ensures Edges()[8].freq == 240 && Edges()[8].count == 0
    ensures Edges()[7].prob == 4000 && Edges()[8].prob == 6000 && Edges()[4].freq == 152 && Edges()[4].count == 0
  {
  }

  lemma StartsAt(b: Block)
    ensures b in Starts() <==> b == 1 || 4 <= b <= 6
    ensures b in Starts() ==> Starts()[b] == (if b == 1 then 0 else b - 3)
    ensures b in Lasts() <==> 3 <= b <= 6
  {
  }

  /** Trace 0 is taken first, and trace 1 is its best successor. */
  method First(l: Layouter)
    requires Graph(l, [false, false, false, false]) && l.Stitched([], []) && l.Resting([])
    modifies l`next, l`connected, l`log
    ensures Graph(l, [true, true, false, false]) && l.Stitched([0, 1], []) && l.Logged([0, 1], [], false)
  {
    hide Placed, AllLinked, Stitching, Ends, KnownStarts, KnownEnds, Ran, AtRest, View.BestOn;
    hide Edges, Starts, Lasts;
    l.StartRun(0, []);
    assert l.connected == [true, false, false, false];
    ghost var order := l.JoinLayout(0, -1, [], [0]);
    AfterFirst();
    var best := l.BestSucc(0);
    l.Now().OnOnce(0, best, 5);
    l.Append(1, 0, order);
    assert l.connected == [true, true, false, false];
    assert order + [1] == [0, 1];
    SucceedsMove(l.rules, Last(l.log), 5, State(l.Now(), [0, 1], [], false));
    l.Record([0, 1], [], false);
  }

  lemma AfterFirst()
    ensures Here([true, false, false, false]).BestOn(0, 5) && |Edges()| == 11
    ensures Edges()[5].dest in Starts() && Starts()[Edges()[5].dest] == 1
  {
    var v := Here([true, false, false, false]);
    assert |Edges()| == 11;
    forall i | 0 <= i < |Edges()|
      ensures v.SuccOk(0, v.edges[i]) <==> i == 5
    {
      hide Edges, Starts, Lasts;
      Around(i);
      StartsAt(4);
    }
    Around(5);
    StartsAt(4);
  }

  /** Trace 1 leads to the exit only: it is followed by no trace and no copy. */
  ghost method NothingAfterSecond(l: Layouter)
    requires Graph(l, [true, true, false, false]) && l.Logged([0, 1], [], false)
    ensures l.Resting([0, 1])
  {
    hide Edges, Starts, Lasts, Ran, View.BestOn, View.NothingWorth, AtRest;
    NothingAfter();
    StuckHere(l.rules, Last(l.log), false, 0, NONE, -1);
  }

  lemma NothingAfter()
    ensures var v := Here([true, true, false, false]); v.BestOn(1, -1) && v.NothingWorth(1, Limits(100, 0))
  {
    var v := Here([true, true, false, false]);
    forall i | 0 <= i < |Edges()|
      ensures !v.SuccOk(1, v.edges[i]) && !v.Worth(v.edges[i], 1, Limits(100, 0))
    {
      hide Edges, Starts, Lasts;
      Around(i);
    }
  }

  /** Trace 2 is taken next and has no predecessor. */
  method Third(l: Layouter)
    requires Graph(l, [true, true, false, false]) && l.Stitched([0, 1], []) && l.Resting([0, 1])
    modifies l`next, l`connected, l`log
    ensures Graph(l, [true, true, true, false]) && l.Stitched([0, 1, 2], []) && l.Logged([0, 1, 2], [], false)
  {
    hide Placed, AllLinked, Stitching, Ends, KnownStarts, KnownEnds, Ran, AtRest, View.BestBack;
    hide Edges, Starts, Lasts;
    l.StartRun(2, [0, 1]);
    assert l.connected == [true, true, true, false];
    NothingBeforeThird();
    ghost var order := l.JoinLayout(2, 1, [0, 1], [2]);
    assert order == [0, 1, 2];
  }

  lemma NothingBeforeThird()
    ensures Here([true, true, true, false]).BestBack(2, -1)
  {
    var v := Here([true, true, true, false]);
    forall i | 0 <= i < |Edges()|
      ensures !v.PredOk(2, v.edges[i])
    {
      hide Edges, Starts, Lasts;
      Around(i);
      StartsAt(1);
    }
  }

  /** Trace 2 has no successor, so a copy is looked for: block 4, as the more
      probable destination, with the continuation found for block 2. */
  method CopiedAfterThird() returns (l: Layouter, best: nat, nextBb: Block)
    ensures Graph(l, [true, true, true, false]) && l.chains == Chains()
    ensures l.Stitched([0, 1, 2], []) && l.Logged([0, 1, 2], [], false)
    ensures l.Now().BestOn(2, -1)
    ensures exists from :: l.Now().BestCopy(2, l.rules.lim, best, nextBb, from)
    ensures best < |l.edges| && l.edges[best].dest == 4 && l.Now().OneBlock(4)
    ensures l.Now().Copied(l.rules, l.edges[best])
    ensures nextBb == 6 && l.Now().Fresh(6) && !Leads(l.edges, 4, 6)
  {
    l := Reached();
    best, nextBb := Stale(l);
  }

  method Stale(l: Layouter) returns (best: nat, nextBb: Block)
    requires Graph(l, [true, true, true, false])
    ensures l.Now().BestOn(2, -1)
    ensures exists from :: l.Now().BestCopy(2, l.rules.lim, best, nextBb, from)
    ensures best < |l.edges| && l.edges[best].dest == 4 && l.Now().OneBlock(4)
    ensures l.Now().Copied(l.rules, l.edges[best])
    ensures nextBb == 6 && l.Now().Fresh(6) && !Leads(l.edges, 4, 6)
  {
    hide Edges, Starts, Lasts;
    hide View.BestCopy, View.NothingWorth;
    StaleChoice();
    var tryCopy;
    ghost var from;
    tryCopy, best, nextBb, from := l.FindCopy(2);
    l.Now().CopyOnce(2, l.rules.lim, best, nextBb, from, 8, 6, 7);
  }

  lemma StaleChoice()
    ensures var v := Here([true, true, true, false]);
            && |v.edges| == 11 && v.BestOn(2, -1) && v.BestCopy(2, Limits(100, 0), 8, 6, 7)
            && !v.NothingWorth(2, Limits(100, 0)) && v.edges[8].dest == 4 && v.edges[8].freq == 240
            && v.edges[8].count == 0 && v.OneBlock(4) && v.Fresh(6)
            && !Leads(v.edges, 4, 6)
  {
    var v, lim := Here([true, true, true, false]), Limits(100, 0);
    Choices();
    hide Edges, Starts, Lasts;
    hide View.Worth, View.Onward, View.SuccOk;
    assert v.Worth(v.edges[7], 2, lim) && v.Worth(v.edges[8], 2, lim);
    assert v.Picked(2, lim, 4, 11);
    assert v.Continues(2, lim, 6);
    assert v.edges[9].src == 4;
  }

  /** The edges that `Stale` has to choose from. */
  lemma Choices()
    ensures var v := Here([true, true, true, false]);
            && |v.edges| == 11 && v.edges[4].dest == 6 && v.edges[7].dest == 2 && v.edges[8].dest == 4
            && v.edges[7].prob < v.edges[8].prob && v.Fresh(6) && v.OneBlock(4) && !v.OneBlock(2)
            && v.edges[9].dest == NONE && v.edges[8].freq == 240 && v.edges[8].count == 0
            && forall i {:trigger v.edges[i]} :: 0 <= i < |v.edges| ==>
                 && !v.SuccOk(2, v.edges[i]) && (v.edges[i].src == 4 <==> i == 9)
                 && (v.Worth(v.edges[i], 2, Limits(100, 0)) <==> i == 7 || i == 8)
                 && (v.edges[i].src == 2 && v.Onward(v.edges[i], Limits(100, 0)) <==> i == 4)
                 && (v.edges[i].src == 2 ==> v.edges[i].dest != NONE)
  {
    var v := Here([true, true, true, false]);
    assert |Edges()| == 11;
    forall i {:trigger v.edges[i]} | 0 <= i < |v.edges|
      ensures !v.SuccOk(2, v.edges[i]) && (v.edges[i].src == 4 <==> i == 9)
      ensures v.Worth(v.edges[i], 2, Limits(100, 0)) <==> i == 7 || i == 8
      ensures v.edges[i].src == 2 && v.Onward(v.edges[i], Limits(100, 0)) <==> i == 4
      ensures v.edges[i].src == 2 ==> v.edges[i].dest != NONE
    {
      hide Edges, Starts, Lasts;
      Around(i);
      Around(4);
      StartsAt(2);
      StartsAt(3);
      StartsAt(4);
      StartsAt(6);
    }
    Around(0);
    StartsAt(2);
    StartsAt(4);
    StartsAt(6);
  }
}
