/**
 The choices of `find_traces` (bb-reorder.c) as functions of what they look at:
 which block goes on a trace, when the trace ends, how its end is closed, and in
 what order blocks are taken from the heap.
 */
module TraceChoices {
  import opened Helpers
  import opened TraceChains
  import opened FlowEdges
  import opened TraceSearch

  const N_ROUNDS: nat := 4
  const BRANCH_THRESHOLD: seq<nat> := [400, 200, 100, 0]
  const EXEC_THRESHOLD: seq<nat> := [500, 200, 50, 0]
  const REG_BR_PROB_BASE: nat := 10000
  const BB_FREQ_MAX: nat := 10000
  const INT_MIN: int := -0x8000_0000

  /** C's division, which truncates. */
  function CDiv(a: int, b: nat): int
    requires b > 0
  {
    if a < 0 then -((-a) / b) else a / b
  }

  function Value(m: map<Block, int>, b: Block): int {
    if b in m then m[b] else 0
  }

  /** What a round demands of the edges within its traces. */
  datatype Thresholds = Thresholds(branch: nat, exec: int, count: int)

  predicate Suitable(e: Edge, th: Thresholds) {
    e.Usable() && e.prob >= th.branch && e.freq >= th.exec && e.count >= th.count
  }

  function Apart(a: int, b: int): int {
    if a < b then b - a else a - b
  }

  /** Only edges that can fall through are suitable; the bounds are included, and
      looser bounds admit more. */
  lemma SuitableBounds(e: Edge, th: Thresholds, th': Thresholds)
    requires e.prob >= 0
    ensures Suitable(e, Thresholds(e.prob, e.freq, e.count)) <==> e.fallthru && !e.complex
    ensures !Suitable(e, Thresholds(e.prob + 1, e.freq, e.count))
            && !Suitable(e, Thresholds(e.prob, e.freq + 1, e.count))
            && !Suitable(e, Thresholds(e.prob, e.freq, e.count + 1))
    ensures Suitable(e, th) && th'.branch <= th.branch && th'.exec <= th.exec && th'.count <= th.count ==>
              Suitable(e, th')
  {
  }

  /** What does not change: the first block of the function, `prev_bb`,
      `optimize_size`, and what `copy_bb_p` and `any_condjump_p` answer. */
  datatype Target = Target(firstBlock: Block, prevBb: map<Block, Block>, optimizeSize: bool, copies: CopyTest,
                           condJump: Block -> bool)

  /** The best exit of a loop so far: the edge, or -1. */
  datatype Best = Best(edge: int, preferred: bool, freq: int, count: int)

  const NO_EXIT: Best := Best(-1, false, -1, -1)

  /** The graph with its profile, and the traces so far, by `rbi->visited` and
      `bbd[].start_of_trace` and `bbd[].end_of_trace`. */
  datatype Scene = Scene(edges: seq<Edge>, frequency: map<Block, int>, count: map<Block, int>, cold: set<Block>,
                         visited: map<Block, nat>, startOf: map<Block, nat>, endOf: map<Block, nat>, limit: Block) {

    // ----- keys -----

    /** An edge that gives its destination priority: its source ends a trace, or
        it closes a loop. */
    predicate Prior(e: Edge, bb: Block) {
      e.dest == bb && ((e.src != NONE && e.src in endOf) || e.back)
    }

    /** The greatest frequency of such an edge among the first `k`, or 0. */
    function Priority(bb: Block, k: nat): (p: nat)
      requires k <= |edges|
    {
      if k == 0 then 0
      else var p := Priority(bb, k - 1);
        if Prior(edges[k - 1], bb) && edges[k - 1].freq > p then edges[k - 1].freq else p
    }

    /** `bb_to_key` */
    function Key(bb: Block): int {
      if bb in cold then BB_FREQ_MAX
      else var p := Priority(bb, |edges|);
        if p != 0 then -(100 * BB_FREQ_MAX + 100 * p + Value(frequency, bb)) else -Value(frequency, bb)
    }

    /** A block entered with priority comes before all others, by the frequency
        of the best such edge; otherwise frequent blocks come first. */
    lemma KeyIs(bb: Block)
      ensures bb in cold ==> Key(bb) == BB_FREQ_MAX
      ensures bb !in cold && (forall i :: 0 <= i < |edges| && Prior(edges[i], bb) ==> edges[i].freq <= 0) ==>
                Key(bb) == -Value(frequency, bb)
      ensures forall i :: 0 <= i < |edges| && Prior(edges[i], bb) && edges[i].freq > 0 && bb !in cold
                          && (forall j :: 0 <= j < |edges| && Prior(edges[j], bb) ==>
                                edges[j].freq <= edges[i].freq) ==>
                Key(bb) == -(100 * BB_FREQ_MAX + 100 * edges[i].freq + Value(frequency, bb))
    {
      PriorityIs(bb, |edges|);
    }

    lemma {:induction false} PriorityIs(bb: Block, k: nat)
      requires k <= |edges|
      ensures forall i :: 0 <= i < k && Prior(edges[i], bb) ==> edges[i].freq <= Priority(bb, k)
      ensures Priority(bb, k) > 0 ==> exists i :: 0 <= i < k && Prior(edges[i], bb) && edges[i].freq == Priority(bb, k)
    {
      if k > 0 {
        PriorityIs(bb, k - 1);
      }
    }

    // ----- the next block -----

    /** Edge `e` may continue trace `n` after `bb`. */
    predicate Candidate(n: nat, bb: Block, e: Edge, th: Thresholds) {
      && e.src == bb && e.dest != NONE && (At(visited, e.dest) == 0 || At(visited, e.dest) == n)
      && Suitable(e, th)
    }

    /** `better_edge_p` for an edge out of `bb` */
    predicate Better(tg: Target, bb: Block, e: Edge, bestProb: int, bestFreq: int) {
      var diffProb, diffFreq := CDiv(bestProb, 10), CDiv(bestFreq, 10);
      if e.prob > bestProb + diffProb then true
      else if e.prob < bestProb - diffProb then false
      else if e.freq < bestFreq - diffFreq then true
      else if e.freq > bestFreq + diffFreq then false
      else e.dest in tg.prevBb && tg.prevBb[e.dest] == bb
    }

    /** An edge is better if it is more probable by more than a tenth, or about as
        probable and less frequent by more than a tenth, or about as frequent and its destination
        follows `bb` already. */
    lemma BetterIs(tg: Target, bb: Block, e: Edge, bestProb: int, bestFreq: int)
      requires bestProb >= 0 && bestFreq >= 0
      ensures 10 * (e.prob - bestProb) > bestProb ==> Better(tg, bb, e, bestProb, bestFreq)
      ensures 10 * (bestProb - e.prob) > bestProb ==> !Better(tg, bb, e, bestProb, bestFreq)
      ensures 10 * Apart(e.prob, bestProb) <= bestProb && 10 * (bestFreq - e.freq) > bestFreq ==>
                Better(tg, bb, e, bestProb, bestFreq)
      ensures 10 * Apart(e.prob, bestProb) <= bestProb && 10 * (e.freq - bestFreq) > bestFreq ==>
                !Better(tg, bb, e, bestProb, bestFreq)
      ensures 10 * Apart(e.prob, bestProb) <= bestProb && 10 * Apart(e.freq, bestFreq) <= bestFreq ==>
                (Better(tg, bb, e, bestProb, bestFreq) <==> e.dest in tg.prevBb && tg.prevBb[e.dest] == bb)
    {
    }

    /** What the loop over the first `k` edges selects; -1 if there is no candidate. */
    function Pick(tg: Target, n: nat, bb: Block, th: Thresholds, k: nat): (r: int)
      requires k <= |edges|
      ensures r == -1 || (0 <= r < k && Candidate(n, bb, edges[r], th))
    {
      if k == 0 then -1
      else var r := Pick(tg, n, bb, th, k - 1);
        if Candidate(n, bb, edges[k - 1], th) && Better(tg, bb, edges[k - 1], ProbOf(r), FreqOf(r)) then k - 1 else r
    }

    function ProbOf(r: int): int
      requires r == -1 || 0 <= r < |edges|
    {
      if r == -1 then CDiv(INT_MIN, 2) else edges[r].prob
    }

    function FreqOf(r: int): int
      requires r == -1 || 0 <= r < |edges|
    {
      if r == -1 then CDiv(INT_MIN, 2) else edges[r].freq
    }

    /** There is one whenever there is a candidate, and no candidate after it is better. */
    lemma {:induction false} PickIs(tg: Target, n: nat, bb: Block, th: Thresholds, k: nat)
      requires k <= |edges|
      ensures var r := Pick(tg, n, bb, th, k);
              && (r == -1 <==> forall i :: 0 <= i < k ==> !Candidate(n, bb, edges[i], th))
              && (r != -1 ==> forall i :: r < i < k && Candidate(n, bb, edges[i], th) ==>
                                !Better(tg, bb, edges[i], edges[r].prob, edges[r].freq))
    {
      if k > 0 {
        PickIs(tg, n, bb, th, k - 1);
      }
    }

    /** More than one edge leads to `b`. */
    predicate ManyPreds(b: Block) {
      exists i, j :: 0 <= i < j < |edges| && edges[i].dest == b && edges[j].dest == b
    }

    /** Edge `e` is the only one out of `b`. */
    predicate OnlyOut(b: Block, e: int) {
      0 <= e < |edges| && edges[e].src == b && forall i :: 0 <= i < |edges| && edges[i].src == b ==> i == e
    }

    /** The edge along which trace `n` goes on from `bb`, or -1: none if the selected one leads to
        a block with several predecessors that is to be copied later. */
    function NextEdge(tg: Target, n: nat, bb: Block, th: Thresholds): (r: int)
      ensures r == -1 || (0 <= r < |edges| && Candidate(n, bb, edges[r], th))
    {
      var r := Pick(tg, n, bb, th, |edges|);
      if r != -1 && ManyPreds(edges[r].dest) && tg.copies(edges[r].dest, false, limit) then -1 else r
    }

    /** Edge `i` leads from `bb` to a block reached only from there and leading only to the
        destination of edge `best`, both ways as frequent as that edge. */
    predicate Between(bb: Block, best: nat, i: nat)
      requires best < |edges| && i < |edges|
    {
      var e := edges[i];
      && i != best && e.src == bb && e.Usable() && e.dest != NONE && At(visited, e.dest) == 0
      && 2 * Value(frequency, e.dest) >= edges[best].freq && !ManyPreds(e.dest)
      && exists o :: 0 <= o < |edges| && OnlyOut(e.dest, o) && edges[o].Usable() && edges[o].dest == edges[best].dest
    }

    /** Edge `d` is the first such edge, or `best` if there is none. */
    ghost predicate Detour(bb: Block, best: nat, d: nat)
      requires best < |edges|
    {
      && d < |edges|
      && if d == best then forall i: nat :: i < |edges| ==> !Between(bb, best, i)
         else Between(bb, best, d) && forall i: nat :: i < d ==> !Between(bb, best, i)
    }

    /** Trace `n` goes on from `bb` to `b`. */
    ghost predicate Goes(tg: Target, n: nat, bb: Block, th: Thresholds, b: Block) {
      var e := NextEdge(tg, n, bb, th);
      e != -1 && At(visited, edges[e].dest) == 0 && exists d: nat :: Detour(bb, e, d) && edges[d].dest == b
    }

    /** Trace `n` ends at `bb`, or comes back to one of its blocks. */
    ghost predicate Stops(tg: Target, n: nat, bb: Block, th: Thresholds) {
      var e := NextEdge(tg, n, bb, th);
      e == -1 || At(visited, edges[e].dest) != 0
    }

    // ----- the end of a trace -----

    /** Edge `e` leaves trace `n`. */
    predicate Exit(n: nat, e: Edge) {
      e.dest != NONE && At(visited, e.dest) != n && e.Usable()
    }

    predicate Preferred(e: Edge) {
      At(visited, e.dest) == 0 || e.dest in startOf
    }

    /** The exit `b` or, if that is better, edge `i`. */
    function BetterExit(n: nat, b: Best, i: nat): Best
      requires i < |edges|
    {
      var e := edges[i];
      if !Exit(n, e) then b
      else if b.preferred then
        (if Preferred(e) && (e.freq > b.freq || e.count > b.count) then Best(i, true, e.freq, e.count) else b)
      else if Preferred(e) then Best(i, true, e.freq, e.count)
      else if b.edge == -1 || e.freq > b.freq || e.count > b.count then Best(i, false, e.freq, e.count)
      else b
    }

    /** The best exit once the first `k` edges of `bb` were looked at. */
    function ScanEdges(n: nat, b: Best, bb: Block, k: nat): Best
      requires k <= |edges|
    {
      if k == 0 then b
      else var c := ScanEdges(n, b, bb, k - 1); if edges[k - 1].src == bb then BetterExit(n, c, k - 1) else c
    }

    /** The best exit from the blocks `from`. */
    function Scan(n: nat, from: seq<Block>): Best {
      if from == [] then NO_EXIT else ScanEdges(n, Scan(n, from[..|from| - 1]), Last(from), |edges|)
    }

    /** There is an exit if any edge leaves, and it is preferred if any is. */
    ghost predicate Found(n: nat, b: Best, from: seq<Block>) {
      && (b.edge == -1 ==> !b.preferred)
      && (b.edge != -1 ==>
            0 <= b.edge < |edges| && Exit(n, edges[b.edge]) && edges[b.edge].src in from
            && (b.preferred <==> Preferred(edges[b.edge])))
      && (forall i :: 0 <= i < |edges| && Exit(n, edges[i]) && edges[i].src in from ==>
            b.edge != -1 && (Preferred(edges[i]) ==> b.preferred))
    }

    /** After the first `k` edges of `bb`. */
    ghost predicate FoundUpTo(n: nat, b: Best, from: seq<Block>, bb: Block, k: nat) {
      && (b.edge == -1 ==> !b.preferred)
      && (b.edge != -1 ==>
            0 <= b.edge < |edges| && Exit(n, edges[b.edge]) && edges[b.edge].src in from + [bb]
            && (b.preferred <==> Preferred(edges[b.edge])))
      && (forall j ::
            0 <= j < |edges| && Exit(n, edges[j]) && (edges[j].src in from || (j < k && edges[j].src == bb)) ==>
            b.edge != -1 && (Preferred(edges[j]) ==> b.preferred))
    }

    lemma {:induction false} EdgesFound(n: nat, b: Best, from: seq<Block>, bb: Block, k: nat)
      requires Found(n, b, from) && k <= |edges|
      ensures FoundUpTo(n, ScanEdges(n, b, bb, k), from, bb, k)
    {
      if k > 0 {
        EdgesFound(n, b, from, bb, k - 1);
      }
    }

    lemma {:induction false} ScanFound(n: nat, from: seq<Block>)
      ensures Found(n, Scan(n, from), from)
    {
      if from != [] {
        var l := from[..|from| - 1];
        ScanFound(n, l);
        EdgesFound(n, Scan(n, l), l, Last(from), |edges|);
        assert l + [Last(from)] == from;
      }
    }

    /** Where edges carry no counts, it is the most frequent of the preferred exits, or of all if none is preferred. */
    ghost predicate Most(n: nat, b: Best, from: seq<Block>) {
      && (b.edge == -1 ==> b == NO_EXIT)
      && (b.edge != -1 ==> b.count == 0 && 0 <= b.edge < |edges| && b.freq == edges[b.edge].freq)
      && forall i :: 0 <= i < |edges| && edges[i].src in from && Rival(n, b, edges[i]) ==> edges[i].freq <= b.freq
    }

    /** An exit that is not worse than `b` from the start. */
    predicate Rival(n: nat, b: Best, e: Edge) {
      Exit(n, e) && (b.preferred ==> Preferred(e))
    }

    lemma {:induction false} EdgesMost(n: nat, from: seq<Block>, bb: Block, k: nat)
      requires k <= |edges| && Most(n, Scan(n, from), from) && forall i :: 0 <= i < |edges| ==>
                 edges[i].count == 0 && edges[i].freq >= 0
      ensures var b := ScanEdges(n, Scan(n, from), bb, k);
              && (b.edge == -1 ==> b == NO_EXIT)
              && (b.edge != -1 ==> b.count == 0 && 0 <= b.edge < |edges| && b.freq == edges[b.edge].freq)
              && forall i :: 0 <= i < |edges| && Rival(n, b, edges[i]) ==>
                   edges[i].src in from || (i < k && edges[i].src == bb) ==> edges[i].freq <= b.freq
    {
      if k > 0 {
        EdgesMost(n, from, bb, k - 1);
        ScanFound(n, from);
        EdgesFound(n, Scan(n, from), from, bb, k - 1);
      }
    }

    lemma {:induction false} ScanMost(n: nat, from: seq<Block>)
      requires forall i :: 0 <= i < |edges| ==> edges[i].count == 0 && edges[i].freq >= 0
      ensures Most(n, Scan(n, from), from)
    {
      if from != [] {
        var l := from[..|from| - 1];
        ScanMost(n, l);
        EdgesMost(n, l, Last(from), |edges|);
        assert l + [Last(from)] == from;
      }
    }

    /** The loop from `c[h]` on is to end at `c[j]`: at the block of the best exit,
        or where it ends now if there is none. */
    ghost predicate LoopEnd(n: nat, c: seq<Block>, h: nat, j: nat)
      requires h <= |c|
    {
      var b := Scan(n, c[h..]);
      h <= j < |c| && if b.edge == -1 then j == |c| - 1 else 0 <= b.edge < |edges| && c[j] == edges[b.edge].src
    }

    /** An edge leaves the trace from there if any edge leaves it from the loop, and to
        a preferred block if any does. */
    lemma LoopEndExit(n: nat, c: seq<Block>, h: nat, j: nat, i: nat)
      requires h <= |c| && LoopEnd(n, c, h, j) && i < |edges| && Exit(n, edges[i]) && edges[i].src in c[h..]
      ensures exists k :: 0 <= k < |edges| && Exit(n, edges[k]) && edges[k].src == c[j]
                          && (Preferred(edges[i]) ==> Preferred(edges[k]))
    {
      hide Scan;
      ScanFound(n, c[h..]);
      assert edges[Scan(n, c[h..]).edge].src == c[j];
    }

    /** Whether the header `c[h]` of a loop that is turned to end at `c[j]` is copied. */
    ghost predicate HeaderCopied(tg: Target, n: nat, c: seq<Block>, h: nat)
      requires h < |c|
    {
      Scan(n, c[h..]).edge != -1 && h > 0 && tg.condJump(c[h]) && tg.copies(c[h], false, limit)
      && OneOut(c[h - 1])
    }

    ghost predicate OneOut(b: Block) {
      exists e :: OnlyOut(b, e)
    }

    /** The loop that edge `e` closes has at least four iterations. */
    predicate Frequent(e: Edge) {
      e.freq > CDiv(4 * Value(frequency, e.dest), 5)
    }

    /** The edge is taken more than four times when its destination is reached five times. */
    lemma FrequentIs(e: Edge)
      requires Value(frequency, e.dest) >= 0
      ensures Frequent(e) <==> 5 * e.freq > 4 * Value(frequency, e.dest)
    {
    }

    /** A short loop is not entered at its end: the header is copied there. */
    ghost predicate EndCopied(tg: Target, e: nat)
      requires e < |edges|
    {
      && !Frequent(edges[e]) && OnlyOut(edges[e].src, e) && tg.copies(edges[e].dest, !tg.optimizeSize, limit)
    }

    /** The blocks of `c` are visited in trace `n`. */
    ghost function Marked(c: seq<Block>, n: nat): Scene {
      this.(visited := visited + map b | b in c :: n)
    }
  }

  // ----- whole traces -----

  ghost predicate GrowStep(tg: Target, s: Scene, n: nat, th: Thresholds, g: seq<Block>, i: int) {
    0 <= i < |g| - 1 && s.Marked(g[..i + 1], n).Goes(tg, n, g[i], th, g[i + 1])
  }

  /** Trace `n` grows along `g`: each block is the one it goes on to from the block before. */
  ghost predicate Grows(tg: Target, s: Scene, n: nat, th: Thresholds, g: seq<Block>) {
    g != [] && forall i {:trigger GrowStep(tg, s, n, th, g, i)} :: 0 <= i < |g| - 1 ==> GrowStep(tg, s, n, th, g, i)
  }

  /** What becomes of a trace that has grown to `g` and ends there, or comes back to one of its blocks along edge `e`.
      */
  ghost predicate ClosedBy(tg: Target, s: Scene, n: nat, e: int, g: seq<Block>, c: seq<Block>)
    requires g != [] && (e == -1 || 0 <= e < |s.edges|)
  {
    if e == -1 || s.edges[e].dest == Last(g) then c == g
    else if s.Frequent(s.edges[e]) then
      if s.edges[e].dest == tg.firstBlock then c == g
      else exists h: nat, j: nat :: TurnedTo(tg, s, n, s.edges[e].dest, g, c, h, j)
    else c == if s.EndCopied(tg, e) then g + [s.limit] else g
  }

  /** The loop from `dest`, which is `g[h]`, is turned to end at `g[j]`. */
  ghost predicate TurnedTo(tg: Target, s: Scene, n: nat, dest: Block, g: seq<Block>, c: seq<Block>, h: nat, j: nat) {
    && h < |g| && g[h] == dest && s.LoopEnd(n, g, h, j)
    && c == Rotated(g, h, j, if s.HeaderCopied(tg, n, g, h) then [s.limit] else [])
  }

  /** Chain `c` is trace `n`, started from `b` in scene `s`: it grew block by block until
      it stopped, `length` blocks long, and was closed. */
  ghost predicate RightTrace(tg: Target, s: Scene, n: nat, th: Thresholds, b: Block, c: seq<Block>, length: nat) {
    exists g :: GrownTo(tg, s, n, th, b, g, c) && |g| == length
  }

  ghost predicate GrownTo(tg: Target, s: Scene, n: nat, th: Thresholds, b: Block, g: seq<Block>, c: seq<Block>) {
    && Grows(tg, s, n, th, g) && g[0] == b && s.Marked(g, n).Stops(tg, n, Last(g), th)
    && ClosedBy(tg, s.Marked(g, n), n, s.Marked(g, n).NextEdge(tg, n, Last(g), th), g, c)
  }

  /** Between `s` and `s'` at most one block was copied, for trace `n`; nothing else changed. */
  ghost predicate CopiedOnce(s: Scene, s': Scene, n: nat) {
    s' == s
    || (&& s'.limit == s.limit + 1 && s'.visited == s.visited[s.limit := n] && s'.startOf == s.startOf
        && s'.endOf == s.endOf
        && exists e: nat :: e < |s.edges| && SameGraph(s'.edges, Duplicated(s.edges, e, s.limit)))
  }

  /** Scene `s'` is `s` once chain `c` is finished as trace `n`: its blocks are visited and its ends
      are known, and the graph is the same unless a block was copied. */
  ghost predicate Follows(s: Scene, n: nat, c: seq<Block>, s': Scene) {
    && n > 0 && c != []
    && (forall b: Block {:trigger At(s'.visited, b)} :: At(s'.visited, b) == if b in c then n else At(s.visited, b))
    && s'.startOf == s.startOf[c[0] := n - 1] && s'.endOf == s.endOf[Last(c) := n - 1]
    && if s'.limit == s.limit
       then s'.edges == s.edges && s'.frequency == s.frequency && s'.count == s.count && s'.cold == s.cold
       else s'.limit == s.limit + 1
            && exists e: nat :: e < |s.edges| && SameGraph(s'.edges, Duplicated(s.edges, e, s.limit))
  }

  // ----- keys in a heap -----

  /** Every key in a heap is the key its block has now. */
  ghost predicate KeysRight(s: Scene, heap: Heap) {
    forall b {:trigger heap[b]} :: b in heap ==> heap[b] == s.Key(b)
  }

  /** One of the first `k` edges, other than `best`, leads from `bb` to `b`. */
  ghost predicate Reached(s: Scene, bb: Block, best: int, k: nat, b: Block) {
    exists j :: 0 <= j < k && j < |s.edges| && j != best && s.edges[j].src == bb && s.edges[j].dest == b
  }

  /** The blocks that these edges lead to have the keys they have now, the others
      what they had in `heap0`. */
  ghost predicate Rekeyed(s: Scene, bb: Block, best: int, k: nat, heap0: Heap, heap: Heap) {
    forall b {:trigger heap[b]} :: b in heap ==>
      if Reached(s, bb, best, k, b) then heap[b] == s.Key(b) else b in heap0 && heap[b] == heap0[b]
  }

  lemma RekeyedNone(s: Scene, bb: Block, best: int, heap: Heap, newHeap: Heap)
    ensures Rekeyed(s, bb, best, 0, heap, heap) && Rekeyed(s, bb, best, 0, newHeap, newHeap)
  {
  }

  lemma ReachedMore(s: Scene, bb: Block, best: int, k: nat, b: Block)
    requires k < |s.edges|
    ensures Reached(s, bb, best, k + 1, b) <==>
            Reached(s, bb, best, k, b) || (k != best && s.edges[k].src == bb && s.edges[k].dest == b)
  {
    if k != best && s.edges[k].src == bb && s.edges[k].dest == b {
      assert k < k + 1;
    }
  }

  lemma RekeyedMore(s: Scene, bb: Block, best: int, k: nat, heap0: Heap, heap1: Heap, heap: Heap)
    requires Rekeyed(s, bb, best, k, heap0, heap1) && k < |s.edges|
    requires var d := s.edges[k].dest;
             if k != best && s.edges[k].src == bb
             then (heap == heap1 || heap == heap1[d := s.Key(d)]) && (d in heap ==> heap[d] == s.Key(d))
             else heap == heap1
    ensures Rekeyed(s, bb, best, k + 1, heap0, heap)
  {
    hide Reached, Scene.Key;
    forall b {:trigger heap[b]} | b in heap
      ensures if Reached(s, bb, best, k + 1, b) then heap[b] == s.Key(b) else b in heap0 && heap[b] == heap0[b]
    {
      ReachedMore(s, bb, best, k, b);
      assert b != s.edges[k].dest ==> b in heap1 && heap[b] == heap1[b];
    }
  }

  lemma KeysRekeyed(s: Scene, bb: Block, best: int, k: nat, heap0: Heap, heap: Heap)
    requires KeysRight(s, heap0) && Rekeyed(s, bb, best, k, heap0, heap)
    ensures KeysRight(s, heap)
  {
    hide Reached, Scene.Key;
  }

  /** A key depends on the profile, and on which of the predecessors end traces. */
  lemma {:induction false} PrioritySame(s: Scene, s': Scene, b: Block, k: nat)
    requires s'.edges == s.edges && k <= |s.edges|
    requires forall j :: 0 <= j < k && s.edges[j].dest == b ==>
               (s.edges[j].src in s'.endOf <==> s.edges[j].src in s.endOf)
    ensures s'.Priority(b, k) == s.Priority(b, k)
  {
    if k > 0 {
      PrioritySame(s, s', b, k - 1);
    }
  }

  /** When `bb` becomes the end of a trace, only the keys of its successors change. */
  lemma KeysFinish(s: Scene, s': Scene, bb: Block, heap0: Heap, heap: Heap)
    requires KeysRight(s, heap0) && Rekeyed(s', bb, -1, |s.edges|, heap0, heap)
    requires s'.edges == s.edges && s'.frequency == s.frequency && s'.cold == s.cold
    requires forall x :: x != bb ==> (x in s'.endOf <==> x in s.endOf)
    ensures KeysRight(s', heap)
  {
    forall b {:trigger heap[b]} | b in heap
      ensures heap[b] == s'.Key(b)
    {
      if !Reached(s', bb, -1, |s.edges|, b) {
        assert forall j :: 0 <= j < |s.edges| && s.edges[j].src == bb ==> s.edges[j].dest != b;
        PrioritySame(s, s', b, |s.edges|);
      }
    }
  }

  /** Visiting a block changes no key. */
  lemma KeysVisit(s: Scene, heap: Heap, newHeap: Heap, bb: Block, n: nat)
    ensures KeysRight(s, heap) ==> KeysRight(s.(visited := s.visited[bb := n]), heap - {bb})
    ensures KeysRight(s, newHeap) ==> KeysRight(s.(visited := s.visited[bb := n]), newHeap - {bb})
  {
    forall b: Block
      ensures s.(visited := s.visited[bb := n]).Key(b) == s.Key(b)
    {
      KeySame(s, s.(visited := s.visited[bb := n]), b);
    }
  }

  lemma KeySame(s: Scene, s': Scene, b: Block)
    requires s'.edges == s.edges && s'.frequency == s.frequency && s'.cold == s.cold && s'.endOf == s.endOf
    ensures s'.Key(b) == s.Key(b)
  {
    PrioritySame(s, s', b, |s.edges|);
  }

  /** When a block may have been copied for a trace, keys are right if none was. */
  lemma KeysCopied(s: Scene, s': Scene, n: nat, heap: Heap)
    requires CopiedOnce(s, s', n) && KeysRight(s, heap)
    ensures s'.limit == s.limit ==> KeysRight(s', heap)
  {
  }

  // ----- growing a trace -----

  lemma MarkedNone(s: Scene, n: nat)
    ensures s.Marked([], n) == s
  {
    assert s.visited + map[] == s.visited;
    assert (map b: Block | b in [] :: n) == map[];
  }

  lemma MarkedMore(s: Scene, n: nat, g: seq<Block>, b: Block)
    ensures s.Marked(g + [b], n) == s.Marked(g, n).(visited := s.Marked(g, n).visited[b := n])
  {
    assert s.Marked(g + [b], n).visited == s.Marked(g, n).visited[b := n];
  }

  lemma MarkedAt(s: Scene, n: nat, g: seq<Block>, b: Block)
    ensures At(s.Marked(g, n).visited, b) == if b in g then n else At(s.visited, b)
  {
  }

  lemma GrowsOne(tg: Target, s: Scene, n: nat, th: Thresholds, b: Block)
    ensures Grows(tg, s, n, th, [b])
  {
  }

  lemma GrowsMore(tg: Target, s: Scene, n: nat, th: Thresholds, g: seq<Block>, b: Block)
    requires Grows(tg, s, n, th, g) && s.Marked(g, n).Goes(tg, n, Last(g), th, b)
    ensures Grows(tg, s, n, th, g + [b])
  {
    hide Scene.Goes, Scene.Marked;
    var h := g + [b];
    forall i {:trigger GrowStep(tg, s, n, th, h, i)} | 0 <= i < |h| - 1
      ensures GrowStep(tg, s, n, th, h, i)
    {
      if i < |g| - 1 {
        assert GrowStep(tg, s, n, th, g, i);
        assert h[..i + 1] == g[..i + 1];
      } else {
        assert h[..i + 1] == g;
      }
    }
  }

  // ----- all traces -----

  /** What is known of finished traces: each grew as it should from the block it
      was started from, in the scene that the trace before it left, and its length is that of what it grew to. */
  ghost predicate History(tg: Target, first: Scene, traces: seq<Trace>, chains: seq<seq<Block>>, starts: seq<Block>,
                          scenes: seq<Scene>, demands: seq<Thresholds>, now: Scene) {
    && |traces| == |chains| == |starts| == |scenes| == |demands|
    && (if scenes == [] then now == first else scenes[0] == first)
    && forall k {:trigger scenes[k]} :: 0 <= k < |scenes| ==>
         && RightTrace(tg, scenes[k], k + 1, demands[k], starts[k], chains[k], traces[k].length)
         && Follows(scenes[k], k + 1, chains[k], if k + 1 < |scenes| then scenes[k + 1] else now)
  }

  lemma HistoryMore(tg: Target, first: Scene, traces: seq<Trace>, chains: seq<seq<Block>>, starts: seq<Block>,
                    scenes: seq<Scene>, demands: seq<Thresholds>, now: Scene, t: Trace, c: seq<Block>, b: Block,
                    th: Thresholds, now': Scene)
    requires History(tg, first, traces, chains, starts, scenes, demands, now)
    requires RightTrace(tg, now, |scenes| + 1, th, b, c, t.length) && Follows(now, |scenes| + 1, c, now')
    ensures History(tg, first, traces + [t], chains + [c], starts + [b], scenes + [now], demands + [th], now')
  {
    hide RightTrace, Follows;
  }

  /** Only the last trace changed, and not its round. */
  ghost predicate OnlyLastTrace(t: seq<Trace>, t': seq<Trace>) {
    |t'| == |t| && t != [] && t' == t[|t| - 1 := Last(t')] && Last(t').round == Last(t).round
  }

  lemma LastTraceTwice(t: seq<Trace>, t1: seq<Trace>, t2: seq<Trace>)
    requires OnlyLastTrace(t, t1) && OnlyLastTrace(t1, t2)
    ensures OnlyLastTrace(t, t2)
  {
  }

  lemma LastTraceSelf(t: seq<Trace>)
    requires t != []
    ensures OnlyLastTrace(t, t)
  {
    assert t == t[|t| - 1 := Last(t)];
  }
}
