/**
 `find_traces` of bb-reorder.c: four rounds that cut the flow graph into
 traces, taking start blocks from a heap.
 */
module FindTraces {
  import opened Helpers
  import opened TraceChains
  import opened FlowEdges
  import opened TraceSearch
  import opened TraceChoices

  /** All blocks are numbered below `limit`, copies from `limit0` on. */
  ghost predicate Numbered(blocks: set<Block>, edges: seq<Edge>, visited: map<Block, nat>, limit0: Block,
                           limit: Block) {
    && NONE < limit && limit0 <= limit && NONE !in blocks && (forall b :: b in blocks ==> b < limit)
    && (forall b: Block {:trigger At(visited, b)} :: At(visited, b) != 0 ==> b < limit && (b in blocks || limit0 <= b))
    && (forall i {:trigger edges[i]} :: 0 <= i < |edges| ==> edges[i].src < limit)
  }

  lemma NumberedVisit(blocks: set<Block>, edges: seq<Edge>, visited: map<Block, nat>, limit0: Block, limit: Block,
                      bb: Block, n: nat)
    requires Numbered(blocks, edges, visited, limit0, limit) && bb in blocks
    ensures bb != NONE && Numbered(blocks, edges, visited[bb := n], limit0, limit)
  {
    forall b: Block {:trigger At(visited[bb := n], b)} | At(visited[bb := n], b) != 0
      ensures b < limit && (b in blocks || limit0 <= b)
    {
      assert b == bb || At(visited, b) != 0;
    }
  }

  /** The chains of the traces, where each block is, and for each trace the block
      it was started from, in what scene, and what its edges had to be. */
  datatype Plan = Plan(chains: seq<seq<Block>>, pos: map<Block, nat>, starts: seq<Block>,
                       scenes: seq<Scene>, demands: seq<Thresholds>)

  /** Only the last chain changed, and with it the places of blocks. */
  ghost predicate OnlyLast(p: Plan, p': Plan) {
    && p' == p.(chains := p'.chains, pos := p'.pos) && p.chains != [] && p'.chains != []
    && p'.chains == p.chains[|p.chains| - 1 := Last(p'.chains)]
  }

  lemma OnlyLastSelf(p: Plan)
    requires p.chains != []
    ensures OnlyLast(p, p)
  {
    assert p.chains == p.chains[|p.chains| - 1 := Last(p.chains)];
  }

  lemma OnlyLastTwice(p: Plan, p1: Plan, p2: Plan)
    requires OnlyLast(p, p1) && OnlyLast(p1, p2)
    ensures OnlyLast(p, p2)
  {
  }

  /** One of the first `n` edges, from `bb` to `d` and not `best`, is suitable,
      or unsuitable, as `fits` says. */
  ghost predicate Sent(edges: seq<Edge>, bb: Block, best: int, th: Thresholds, n: nat, d: Block, fits: bool) {
    exists i ::
        0 <= i < n && i < |edges| && i != best && edges[i].src == bb && edges[i].dest == d
        && Suitable(edges[i], th) == fits
  }

  lemma SentMore(edges: seq<Edge>, bb: Block, best: int, th: Thresholds, n: nat)
    requires n < |edges|
    ensures forall d, fits {:trigger Sent(edges, bb, best, th, n + 1, d, fits)} ::
              Sent(edges, bb, best, th, n + 1, d, fits) <==>
              Sent(edges, bb, best, th, n, d, fits)
                  || (n != best && edges[n].src == bb && edges[n].dest == d && Suitable(edges[n], th) == fits)
  {
  }

  class Finder {
    /** The graph, and which blocks are on traces. */
    var scene: Scene
    const target: Target
    /** `rbi->next` */
    var next: map<Block, Block>
    /** The heaps of this round and the next: blocks with their keys. */
    var heap: Heap
    var newHeap: Heap
    var traces: seq<Trace>
    ghost var plan: Plan
    /** The flow graph before any block was copied. */
    ghost const blocks: set<Block>
    ghost const edges0: seq<Edge>
    ghost const limit0: Block
    var maxEntryFrequency: int
    var maxEntryCount: int

    /** The blocks and edges of the function, nothing of the pass done yet. */
    constructor (edges: seq<Edge>, frequency: map<Block, int>, count: map<Block, int>, cold: set<Block>,
                 target: Target, limit: Block, ghost blocks: set<Block>)
      requires NONE < limit && NONE !in blocks && (forall b :: b in blocks ==> b < limit)
      requires forall i {:trigger edges[i]} :: 0 <= i < |edges| ==>
                 && (edges[i].src == NONE || edges[i].src in blocks)
                 && (edges[i].dest == NONE || edges[i].dest in blocks)
                 && (edges[i].src == NONE ==> edges[i].dest != NONE)
      ensures scene == Scene(edges, frequency, count, cold, map[], map[], map[], limit) && edges0 == edges
              && limit0 == limit && this.blocks == blocks && this.target == target
              && plan == Plan([], map[], [], [], [])
      ensures traces == [] && heap == newHeap == map[] && Bounded() && Traced(0) && Ready()
    {
      scene := Scene(edges, frequency, count, cold, map[], map[], map[], limit);
      this.edges0, this.limit0, this.blocks, this.target := edges, limit, blocks, target;
      next, heap, newHeap, traces, plan := map[], map[], map[], [], Plan([], map[], [], [], []);
      maxEntryFrequency, maxEntryCount := 0, 0;
    }

    // ----- what holds throughout -----

    ghost predicate Bounded()
      reads this
    {
      Numbered(blocks, scene.edges, scene.visited, limit0, scene.limit)
    }

    ghost function Now(): Trail
      reads this
    {
      Trail(blocks, target.firstBlock, next, scene.visited, plan.pos, traces, plan.chains, plan.starts, scene.startOf,
            scene.endOf)
    }

    /** The first `n` traces are finished. */
    ghost predicate Traced(n: nat)
      reads this
    {
      && |traces| == |plan.chains| == |plan.starts| && n <= |traces|
      && Chained(Now(), n)
    }

    /** Successors of visited blocks are on traces or in heaps, up to `a` and the successors of `b`. */
    ghost predicate Covered(a: Block, b: Block)
      reads this
    {
      Cover(blocks, edges0, scene.edges, scene.visited, heap, newHeap, a, b)
    }

    /** As long as no block was copied, all keys are right. */
    ghost predicate Keyed()
      reads this
    {
      scene.limit == limit0 ==> KeysRight(scene, heap) && KeysRight(scene, newHeap)
    }

    /** No block is visited and no entry point is in a heap yet. */
    ghost predicate Ready()
      reads this
    {
      && scene.edges == edges0 && scene.visited == map[]
      && forall i {:trigger scene.edges[i]} :: 0 <= i < |scene.edges| ==>
           (scene.edges[i].dest == NONE || scene.edges[i].dest in blocks)
               && (scene.edges[i].src == NONE ==> scene.edges[i].dest != NONE)
    }

    /** The trace that grows is about to take block `bb`. */
    ghost predicate Head(bb: Block)
      reads this
    {
      && traces != [] && Bounded() && Traced(|traces| - 1) && bb in blocks && At(scene.visited, bb) == 0
      && var t, c := Last(traces), Last(plan.chains);
      && Followed(scene.edges, c)
      && if c == [] then bb == Last(plan.starts) == t.first
           else At(next, Last(c)) == bb && t.first == c[0] && Leads(scene.edges, Last(c), bb)
    }

    /** The trace that grows ends at block `bb`. */
    ghost predicate Tail(bb: Block)
      reads this
    {
      && traces != [] && Bounded() && Traced(|traces| - 1)
      && var c := Last(plan.chains);
      && c != [] && Last(c) == bb && At(next, bb) == NONE && Last(traces).first == c[0]
    }

    /** How many original blocks are on no trace. */
    ghost function Unvisited(): nat
      reads this
    {
      Left(blocks, scene.visited)
    }

    // ----- growing a trace -----

    /** `mark_bb_visited`: block `bb` joins the growing trace and leaves its heap. */
    method MarkVisited(bb: Block)
      requires Head(bb) && Covered(bb, bb)
      modifies `scene, `heap, `newHeap, `traces, `plan
      ensures Tail(bb) && Covered(NONE, bb) && Followed(scene.edges, Last(plan.chains))
              && Unvisited() < old(Unvisited())
      ensures scene == old(scene).(visited := old(scene.visited)[bb := |traces|]) && heap == old(heap) - {bb}
              && newHeap == old(newHeap) - {bb}
      ensures OnlyLastTrace(old(traces), traces) && Last(traces).length == old(Last(traces).length) + 1
      ensures plan == old(plan).(chains := plan.chains, pos := plan.pos)
              && plan.chains == Grown(old(plan.chains), |traces| - 1, bb)
    {
      hide Chained, Cover, Numbered, Followed, Leads, Left;
      var n, t := |traces| - 1, traces[|traces| - 1];
      NumberedVisit(blocks, scene.edges, scene.visited, limit0, scene.limit, bb, n + 1);
      CoverVisit(blocks, edges0, scene.edges, scene.visited, heap, newHeap, bb, n + 1);
      ChainVisit(Now(), n, t.(length := t.length + 1), bb);
      FewerLeft(blocks, scene.visited, bb, n + 1);
      FollowedMore(scene.edges, Last(plan.chains), bb);
      scene, heap, newHeap, traces, plan := scene.(visited := scene.visited[bb := n + 1]), heap - {bb}, newHeap - {bb},
        traces[n := t.(length := t.length + 1)],
            plan.(chains := Grown(plan.chains, n, bb), pos := plan.pos[bb := |plan.chains[n]|]);
    }

    // ----- keys -----

    /** `bb_to_key` */
    method BbToKey(bb: Block) returns (key: int)
      ensures key == scene.Key(bb)
    {
      var s := scene;
      if bb in scene.cold {
        return BB_FREQ_MAX;
      }
      var priority := 0;
      for i := 0 to |s.edges|
        invariant priority == s.Priority(bb, i)
      {
        if s.Prior(s.edges[i], bb) && s.edges[i].freq > priority {
          priority := s.edges[i].freq;
        }
      }
      key := if priority != 0 then -(100 * BB_FREQ_MAX + 100 * priority + Value(scene.frequency, bb))
          else -Value(scene.frequency, bb);
    }

    // ----- choosing the next block -----

    /** The edge that continues the trace; -1 if there is none. */
    method SelectBest(bb: Block, th: Thresholds) returns (best: int)
      ensures best == scene.Pick(target, |traces|, bb, th, |scene.edges|)
    {
      var s := scene;
      var bestProb, bestFreq := CDiv(INT_MIN, 2), CDiv(INT_MIN, 2);
      best := -1;
      for i := 0 to |s.edges|
        invariant best == s.Pick(target, |traces|, bb, th, i) && bestProb == s.ProbOf(best)
                  && bestFreq == s.FreqOf(best)
      {
        var e := s.edges[i];
        if s.Candidate(|traces|, bb, e, th) && s.Better(target, bb, e, bestProb, bestFreq) {
          best, bestProb, bestFreq := i, e.prob, e.freq;
        }
      }
    }

    /** Whether more than one edge leads to `b`. */
    method ManyPreds(b: Block) returns (r: bool)
      ensures r <==> scene.ManyPreds(b)
    {
      var s := scene;
      var first := -1;
      for i := 0 to |s.edges|
        invariant -1 <= first < i && (first >= 0 ==> s.edges[first].dest == b)
        invariant forall j :: 0 <= j < i && s.edges[j].dest == b ==> j == first
      {
        if s.edges[i].dest == b {
          if first >= 0 {
            return true;
          }
          first := i;
        }
      }
      r := false;
    }

    /** The only edge out of `b`; -1 if there are none or several. */
    method OnlySucc(b: Block) returns (r: int)
      ensures if r == -1 then !scene.OneOut(b) else scene.OnlyOut(b, r)
    {
      var s := scene;
      r := -1;
      for i := 0 to |s.edges|
        invariant r != -1 ==> 0 <= r < i && s.edges[r].src == b
        invariant forall j :: 0 <= j < i && s.edges[j].src == b ==> j == r
      {
        if s.edges[i].src == b {
          if r >= 0 {
            assert !s.OnlyOut(b, r) && !s.OnlyOut(b, i);
            return -1;
          }
          r := i;
        }
      }
    }

    // ----- the other successors -----

    /** Block `d` gets a new key in its heap, or goes to a heap. */
    method Queue(d: Block, later: bool)
      requires HeapsOk(blocks, scene.visited, heap, newHeap) && d in blocks && At(scene.visited, d) == 0
      modifies `heap, `newHeap
      ensures HeapsOk(blocks, scene.visited, heap, newHeap)
      ensures if d in old(heap) || (d !in old(newHeap) && !later)
              then heap == old(heap)[d := scene.Key(d)] && newHeap == old(newHeap)
              else heap == old(heap) && newHeap == old(newHeap)[d := scene.Key(d)]
    {
      hide Scene.Key;
      var key := BbToKey(d);
      if d in heap {
        heap := heap[d := key];
      } else if d in newHeap {
        newHeap := newHeap[d := key];
      } else if later {
        newHeap := newHeap[d := key];
      } else {
        heap := heap[d := key];
      }
    }

    /** All successors of `bb` but the one along edge `best` go to a heap, those
        unsuitable for this round to the next round's, unless this is the last;
        they get the keys they have now, and no other key changes. */
    method AddSuccs(bb: Block, best: int, th: Thresholds, round: nat)
      requires Covered(NONE, bb) && Bounded() && -1 <= best < |scene.edges|
      modifies `heap, `newHeap
      ensures Covered(if best == -1 then NONE else scene.edges[best].dest, NONE)
      ensures round == N_ROUNDS - 1 ==> newHeap.Keys == old(newHeap).Keys
      ensures forall d :: d in newHeap && d !in old(newHeap) ==>
                Sent(scene.edges, bb, best, th, |scene.edges|, d, false)
      ensures forall d :: d in heap && d !in old(heap) ==>
                Sent(scene.edges, bb, best, th, |scene.edges|, d, true) || round >= N_ROUNDS - 1
      ensures Rekeyed(scene, bb, best, |scene.edges|, old(heap), heap)
      ensures Rekeyed(scene, bb, best, |scene.edges|, old(newHeap), newHeap)
    {
      hide Frontier, Descends, HeapsOk, Leads, Suitable, Scene.Key, Rekeyed, Numbered;
      BlocksReal(blocks, scene.edges, scene.visited, limit0, scene.limit);
      RekeyedNone(scene, bb, best, heap, newHeap);
      for i := 0 to |scene.edges|
        invariant HeapsOk(blocks, scene.visited, heap, newHeap)
        invariant old(heap).Keys <= heap.Keys && old(newHeap).Keys <= newHeap.Keys
        invariant forall j :: 0 <= j < i && j != best && scene.edges[j].src == bb ==>
                    Known(scene.visited, heap, newHeap, scene.edges[j].dest)
        invariant round == N_ROUNDS - 1 ==> newHeap.Keys == old(newHeap).Keys
        invariant forall d :: d in newHeap && d !in old(newHeap) ==> Sent(scene.edges, bb, best, th, i, d, false)
        invariant forall d :: d in heap && d !in old(heap) ==>
                    Sent(scene.edges, bb, best, th, i, d, true) || round >= N_ROUNDS - 1
        invariant Rekeyed(scene, bb, best, i, old(heap), heap)
        invariant Rekeyed(scene, bb, best, i, old(newHeap), newHeap)
      {
        var e := scene.edges[i];
        SentMore(scene.edges, bb, best, th, i);
        ghost var heap1, newHeap1 := heap, newHeap;
        if e.src == bb && i != best && e.dest != NONE && At(scene.visited, e.dest) == 0 {
          Queue(e.dest, !Suitable(e, th) && round < N_ROUNDS - 1);
        }
        HeapFacts(blocks, scene.visited, heap, newHeap, e.dest);
        RekeyedMore(scene, bb, best, i, old(heap), heap1, heap);
        RekeyedMore(scene, bb, best, i, old(newHeap), newHeap1, newHeap);
      }
      CoverSuccs(blocks, edges0, scene.edges, scene.visited, old(heap), old(newHeap), heap, newHeap, bb, best);
    }

    /** Once the trace is finished, the keys of the successors of its end are
        computed again. */
    method RecountKeys(bb: Block)
      requires Covered(NONE, NONE) && Bounded()
      modifies `heap, `newHeap
      ensures Covered(NONE, NONE) && heap.Keys == old(heap).Keys && newHeap.Keys == old(newHeap).Keys
      ensures Rekeyed(scene, bb, -1, |scene.edges|, old(heap), heap)
      ensures Rekeyed(scene, bb, -1, |scene.edges|, old(newHeap), newHeap)
    {
      hide Frontier, Descends, HeapsOk, EdgesOk, Scene.Key, Rekeyed, Numbered;
      BlocksReal(blocks, scene.edges, scene.visited, limit0, scene.limit);
      RekeyedNone(scene, bb, -1, heap, newHeap);
      for i := 0 to |scene.edges|
        invariant heap.Keys == old(heap).Keys && newHeap.Keys == old(newHeap).Keys
        invariant HeapsOk(blocks, scene.visited, heap, newHeap)
        invariant Rekeyed(scene, bb, -1, i, old(heap), heap)
        invariant Rekeyed(scene, bb, -1, i, old(newHeap), newHeap)
      {
        var e := scene.edges[i];
        ghost var heap1, newHeap1 := heap, newHeap;
        if e.src == bb && e.dest != NONE && At(scene.visited, e.dest) == 0 {
          if e.dest in heap {
            var key := BbToKey(e.dest);
            heap := heap[e.dest := key];
          } else if e.dest in newHeap {
            var key := BbToKey(e.dest);
            newHeap := newHeap[e.dest := key];
          }
        }
        HeapKept(blocks, scene.visited, heap1, newHeap1, heap, newHeap);
        HeapFacts(blocks, scene.visited, heap, newHeap, e.dest);
        RekeyedMore(scene, bb, -1, i, old(heap), heap1, heap);
        RekeyedMore(scene, bb, -1, i, old(newHeap), newHeap1, newHeap);
      }
      CoverKeys(blocks, edges0, scene.edges, scene.visited, old(heap), old(newHeap), heap, newHeap);
    }

    // ----- loops at the end of a trace -----

    /** `copy_bb`: a copy of the destination of edge `e`, a visited block, goes
        after `bb`. */
    method CopyBb(e: nat, bb: Block) returns (copy: Block)
      requires traces != [] && Bounded() && Covered(NONE, NONE) && e < |scene.edges|
               && At(scene.visited, scene.edges[e].dest) != 0
      modifies `scene, `next
      ensures Bounded() && Covered(NONE, NONE) && Unvisited() == old(Unvisited())
      ensures copy == old(scene.limit) && copy != NONE && At(old(scene.visited), copy) == 0 && scene.limit == copy + 1
      ensures scene.visited == old(scene.visited)[copy := |traces|]
              && next == old(next)[copy := At(old(next), bb)][bb := copy]
      ensures CopiedOnce(old(scene), scene, |traces|) && SameEnds(old(scene), scene)
    {
      hide Cover, Numbered, SameGraph, Left, CopiedOnce;
      ghost var s := scene;
      copy := scene.limit;
      NumberedFresh(blocks, scene.edges, scene.visited, limit0, scene.limit);
      var es := Duplicate(scene.edges, e, copy);
      var f: map<Block, int> := *;
      var g: map<Block, int> := *;
      var c: set<Block> := *;
      NumberedCopy(blocks, scene.edges, scene.visited, limit0, scene.limit, e, |traces|, es);
      CoverCopy(blocks, edges0, scene.edges, scene.visited, heap, newHeap, es, e, copy, |traces|);
      LeftCopy(blocks, scene.visited, copy, |traces|);
      scene := Scene(es, f, g, c, scene.visited[copy := |traces|], scene.startOf, scene.endOf, copy + 1);
      next := next[copy := At(next, bb)][bb := copy];
      CopiedIs(s, scene, e, |traces|);
    }

    /** The exits of one block of the loop. */
    method ScanBlock(bb: Block, b0: Best) returns (b: Best)
      ensures b == scene.ScanEdges(|traces|, b0, bb, |scene.edges|)
    {
      var s := scene;
      b := b0;
      for i := 0 to |s.edges|
        invariant b == s.ScanEdges(|traces|, b0, bb, i)
      {
        var e := s.edges[i];
        if e.src == bb && s.Exit(|traces|, e) {
          if b.preferred {
            if s.Preferred(e) && (e.freq > b.freq || e.count > b.count) {
              b := Best(i, true, e.freq, e.count);
            }
          } else if s.Preferred(e) {
            b := Best(i, true, e.freq, e.count);
          } else if b.edge == -1 || e.freq > b.freq || e.count > b.count {
            b := Best(i, false, e.freq, e.count);
          }
        }
      }
    }

    /** The first walk of `rotate_loop`, once around the loop. */
    method BestExit(header: Block, ghost h: nat) returns (b: Best)
      requires traces != [] && Traced(|traces| - 1) && h < |Last(plan.chains)|
      requires header == Last(plan.chains)[h] && At(next, Last(Last(plan.chains))) == header
      ensures b == scene.Scan(|traces|, Part(Last(plan.chains), h, |Last(plan.chains)|))
    {
      ghost var c, k := Last(plan.chains), h;
      hide Chained, Part, StepOk, Scene.Scan, Scene.ScanEdges;
      LoopSteps(Now(), |traces| - 1, h);
      ScanNone(scene, |traces|, c, h);
      var bb := header;
      b := NO_EXIT;
      while true
        invariant h <= k < |c| && bb == c[k] && b == scene.Scan(|traces|, Part(c, h, k))
        decreases |c| - k
      {
        b := ScanBlock(bb, b);
        ScanMore(scene, |traces|, c, h, k);
        assert StepOk(next, c, h, k);
        StepIs(next, c, h, k);
        bb := At(next, bb);
        if bb == header {
          break;
        }
        k := k + 1;
      }
    }

    /** The second walk: the block before the loop. */
    method BeforeLoop(header: Block, ghost h: nat) returns (prev: Block)
      requires traces != [] && Traced(|traces| - 1) && 0 < h < |Last(plan.chains)|
      requires header == Last(plan.chains)[h] && Last(traces).first == Last(plan.chains)[0]
      ensures prev == Last(plan.chains)[h - 1]
    {
      hide Chained;
      ghost var c, k := Last(plan.chains), 0;
      ChainFacts(Now(), |traces| - 1);
      prev := traces[|traces| - 1].first;
      while At(next, prev) != header
        invariant 0 <= k < h && prev == c[k]
        decreases h - k
      {
        prev := At(next, prev);
        k := k + 1;
      }
    }

    /** `rotate_loop`: the loop that edge `backEdge` closes at the end of the
        trace is turned to end at block `last`, from which an edge leaves the
        trace if there is any; the blocks before the loop stay, and the header may be
        copied after them. */
    method RotateLoop(backEdge: nat, ghost h: nat) returns (last: Block, ghost j: nat, ghost mid: seq<Block>)
      requires traces != [] && Bounded() && Traced(|traces| - 1) && Covered(NONE, NONE) && backEdge < |scene.edges|
      requires h < |Last(plan.chains)| && Last(traces).first == Last(plan.chains)[0]
               && Followed(scene.edges, Last(plan.chains))
      requires scene.edges[backEdge].src == Last(Last(plan.chains))
               && scene.edges[backEdge].dest == Last(plan.chains)[h] != target.firstBlock
      requires At(next, Last(Last(plan.chains))) == scene.edges[backEdge].dest
      modifies `scene, `next, `traces, `plan
      ensures Tail(last) && Covered(NONE, NONE) && Unvisited() == old(Unvisited())
      ensures OnlyLastTrace(old(traces), traces) && Last(traces).length == old(Last(traces).length)
      ensures plan == old(plan).(chains := plan.chains, pos := plan.pos)
      ensures |mid| <= 1 && (mid != [] ==> mid[0] == old(scene.limit)) && h <= j < |old(Last(plan.chains))|
              && last == old(Last(plan.chains))[j]
      ensures plan.chains == old(plan.chains)[|traces| - 1 := Rotated(old(Last(plan.chains)), h, j, mid)]
      ensures old(scene.LoopEnd(|traces|, Last(plan.chains), h, j))
      ensures mid == if old(scene.HeaderCopied(target, |traces|, Last(plan.chains), h)) then [old(scene.limit)] else []
      ensures CopiedOnce(old(scene), scene, |traces|)
    {
      hide Chained, Cover, Numbered, Left, Followed, SameGraph, Rotated, Repositioned, Linked, Part, CopiedOnce,
          Scene.Scan;
      hide Scene.LoopEnd, Scene.HeaderCopied, Scene.OneOut;
      ghost var n, c, s := |traces| - 1, Last(plan.chains), scene;
      var header := scene.edges[backEdge].dest;
      mid := [];
      ChainFacts(Now(), n);
      var best := BestExit(header, h);
      ScanEnd(s, |traces|, c, h);
      if best.edge == -1 {
        last, j := scene.edges[backEdge].src, |c| - 1;
        NotRotated(plan.chains, n, h);
        CopiedNone(s, |traces|);
        NoExit(target, s, |traces|, c, h);
        ChainLink(Now(), n, NONE);
        next := next[last := NONE];
        return;
      }
      last := scene.edges[best.edge].src;
      j := IndexFrom(c, h, last);
      CopiedNone(s, |traces|);
      EndIs(target, s, |traces|, c, h, j);
      if header == traces[|traces| - 1].first {
        assert h == 0;
        TurnLoop(last, At(next, last), h, j, mid, next, scene.visited);
      } else {
        ghost var next0, visited0 := next, scene.visited;
        mid := Detach(header, last, h, j);
        TurnLoop(last, traces[|traces| - 1].first, h, j, mid, next0, visited0);
      }
    }

    /** The blocks before the loop lead to its new start, perhaps by way of a copy
        of the header. */
    method Detach(header: Block, last: Block, ghost h: nat, ghost j: nat) returns (ghost mid: seq<Block>)
      requires traces != [] && Bounded() && Traced(|traces| - 1) && Covered(NONE, NONE)
      requires 0 < h <= j < |Last(plan.chains)| && Last(traces).first == Last(plan.chains)[0]
               && Followed(scene.edges, Last(plan.chains))
      requires header == Last(plan.chains)[h] && last == Last(plan.chains)[j]
      modifies `scene, `next
      ensures Bounded() && Covered(NONE, NONE) && Unvisited() == old(Unvisited())
      ensures |mid| <= 1
              && (mid != [] ==> mid[0] == old(scene.limit) && mid[0] != NONE && At(old(scene.visited), mid[0]) == 0)
      ensures scene.visited == if mid == [] then old(scene.visited) else old(scene.visited)[mid[0] := |traces|]
      ensures next[last := NONE] == Turned(old(next), Last(plan.chains), h, j, mid)
      ensures mid != [] <==> target.condJump(header) && target.copies(header, false, old(scene.limit))
                             && old(scene.OneOut(Last(plan.chains)[h - 1]))
      ensures CopiedOnce(old(scene), scene, |traces|) && SameEnds(old(scene), scene)
    {
      hide Chained, Cover, Numbered, Left, Followed, SameGraph, CopiedOnce;
      CopiedNone(scene, |traces|);
      ghost var c := Last(plan.chains);
      ChainFacts(Now(), |traces| - 1);
      mid := [];
      var prev := BeforeLoop(header, h);
      next := next[prev := At(next, last)];
      var e := OnlySucc(prev);
      if e != -1 {
        FollowedOnly(scene.edges, c, h, e);
        assert c[h] in c;
        if target.condJump(scene.edges[e].dest) && target.copies(scene.edges[e].dest, false, scene.limit) {
          var copy := CopyBb(e, prev);
          mid := [copy];
        }
      }
    }

    /** The loop ends at `last`, and the trace starts at `first`. */
    method TurnLoop(last: Block, first: Block, ghost h: nat, ghost j: nat, ghost mid: seq<Block>,
                    ghost next0: map<Block, Block>, ghost visited0: map<Block, nat>)
      requires traces != [] && Bounded() && |plan.chains| == |plan.starts| == |traces|
      requires Chained(Now().(next := next0, visited := visited0), |traces| - 1)
      requires h <= j < |Last(plan.chains)|
               && At(next0, Last(Last(plan.chains))) == Last(plan.chains)[h] != target.firstBlock
      requires |mid| <= 1 && (mid != [] ==> h > 0 && mid[0] != NONE && At(visited0, mid[0]) == 0)
      requires scene.visited == if mid == [] then visited0 else visited0[mid[0] := |traces|]
      requires next[last := NONE] == Turned(next0, Last(plan.chains), h, j, mid) && last == Last(plan.chains)[j]
      requires first == if h > 0 then Last(plan.chains)[0] else At(next0, last)
      modifies `next, `traces, `plan
      ensures Tail(last) && OnlyLastTrace(old(traces), traces) && Last(traces).length == old(Last(traces).length)
      ensures plan == old(plan).(chains := plan.chains, pos := plan.pos)
      ensures plan.chains == old(plan.chains)[|traces| - 1 := Rotated(old(Last(plan.chains)), h, j, mid)]
    {
      hide Chained, Numbered, Rotated, Repositioned, Linked, Turned;
      ghost var n, c := |traces| - 1, Last(plan.chains);
      ChainFacts(Now().(next := next0, visited := visited0), n);
      LinkedAt(next0, c, j);
      var t := traces[|traces| - 1].(first := first);
      ChainRotate(Now().(next := next0, visited := visited0), n, h, j, mid, scene.visited, t);
      next, traces, plan := next[last := NONE], traces[|traces| - 1 := t],
        plan.(chains := plan.chains[n := Rotated(c, h, j, mid)], pos := Repositioned(plan.pos, Rotated(c, h, j, mid)));
    }

    /** The end of a trace that came back to one of its own blocks along edge
        `best`: a frequent loop is rotated, unless its header is the first block
        of the function; otherwise the header may be copied to the end. */
    method CloseLoop(bb: Block, best: nat) returns (last: Block)
      requires Tail(bb) && Covered(NONE, NONE) && Followed(scene.edges, Last(plan.chains))
      requires best < |scene.edges| && scene.edges[best].src == bb
               && At(scene.visited, scene.edges[best].dest) == |traces|
      modifies `scene, `next, `traces, `plan
      ensures Tail(last) && Covered(NONE, NONE) && Unvisited() == old(Unvisited())
      ensures OnlyLastTrace(old(traces), traces) && Last(traces).length == old(Last(traces).length)
      ensures plan == old(plan).(chains := plan.chains, pos := plan.pos)
      ensures plan.chains == old(plan.chains)[|traces| - 1 := Last(plan.chains)]
      ensures ClosedBy(target, old(scene), |traces|, best, old(Last(plan.chains)), Last(plan.chains))
      ensures CopiedOnce(old(scene), scene, |traces|)
    {
      hide Chained, Cover, Numbered, Left, Followed, Rotated, CopiedOnce, ClosedBy, TurnedTo, Scene.Frequent,
          Scene.EndCopied;
      ghost var s, c := scene, Last(plan.chains);
      CopiedNone(s, |traces|);
      var dest := scene.edges[best].dest;
      last := bb;
      if dest != bb {
        if scene.Frequent(scene.edges[best]) {
          if dest != target.firstBlock {
            ghost var h := InTrace(dest);
            ChainLink(Now(), |traces| - 1, dest);
            next := next[bb := dest];
            ghost var j, mid;
            last, j, mid := RotateLoop(best, h);
            TurnedNow(target, s, |traces|, best, c, Last(plan.chains), h, j, mid);
          }
        } else {
          var only := OnlySucc(bb);
          OnlyIs(s, bb, only, best);
          EndCopiedIs(target, s, |traces|, best, c);
          if only != -1 && target.copies(dest, !target.optimizeSize, scene.limit) {
            last := CopyToEnd(best, bb);
          }
        }
      }
      SelfLoop(target, s, |traces|, best, c);
    }

    lemma InTrace(b: Block) returns (h: nat)
      requires traces != [] && Traced(|traces| - 1) && At(scene.visited, b) == |traces|
      ensures h < |Last(plan.chains)| && Last(plan.chains)[h] == b
    {
      hide Chained;
      OnTrail(Now(), |traces| - 1, b);
      h := At(plan.pos, b);
    }

    /** `copy_bb` after the end of the trace. */
    method CopyToEnd(e: nat, bb: Block) returns (copy: Block)
      requires Tail(bb) && Covered(NONE, NONE) && e < |scene.edges| && At(scene.visited, scene.edges[e].dest) != 0
      modifies `scene, `next, `plan
      ensures Tail(copy) && Covered(NONE, NONE) && Unvisited() == old(Unvisited())
      ensures plan == old(plan).(chains := plan.chains, pos := plan.pos) && copy == old(scene.limit)
              && CopiedOnce(old(scene), scene, |traces|)
      ensures plan.chains == old(plan.chains)[|traces| - 1 := old(Last(plan.chains)) + [copy]]
    {
      hide Chained, Cover, Numbered, Left, SameGraph, Repositioned, CopiedOnce;
      ghost var n, c := |traces| - 1, Last(plan.chains);
      copy := CopyBb(e, bb);
      ChainCopy(Now().(next := old(next), visited := old(scene.visited)), n, copy);
      plan := plan.(chains := plan.chains[n := c + [copy]], pos := Repositioned(plan.pos, c + [copy]));
    }

    /** A block reached only from `bb` and leading only to the destination of
        edge `best0`, both ways as frequent as that edge, goes in between. */
    method Detour(bb: Block, best0: nat) returns (best: nat)
      requires best0 < |scene.edges| && scene.edges[best0].src == bb && scene.edges[best0].dest != NONE
               && At(scene.visited, scene.edges[best0].dest) == 0
      ensures scene.Detour(bb, best0, best)
      ensures scene.edges[best].src == bb && scene.edges[best].dest != NONE
              && At(scene.visited, scene.edges[best].dest) == 0
      ensures best == best0 || Leads(scene.edges, scene.edges[best].dest, scene.edges[best0].dest)
    {
      var s := scene;
      best := best0;
      for i := 0 to |scene.edges|
        invariant forall j: nat :: j < i ==> !s.Between(bb, best0, j)
      {
        var e := scene.edges[i];
        if i != best0 && e.src == bb && e.Usable() && e.dest != NONE && At(scene.visited, e.dest) == 0
           && 2 * Value(scene.frequency, e.dest) >= scene.edges[best0].freq {
          var many := ManyPreds(e.dest);
          var only := OnlySucc(e.dest);
          if !many && only != -1 && scene.edges[only].Usable() && scene.edges[only].dest == scene.edges[best0].dest {
            return i;
          }
          NotBetween(s, bb, best0, i, only);
        }
      }
    }

    /** Trace grown so far: `g`, from scene `s`, and `bb` is next. */
    ghost predicate Growing(s: Scene, th: Thresholds, bb0: Block, g: seq<Block>, bb: Block)
      reads this
    {
      && plan.chains != [] && scene == s.Marked(g, |traces|) && Last(plan.chains) == g
      && traces != [] && Last(traces).length == |g|
      && Grows(target, s, |traces|, th, g + [bb]) && (g + [bb])[0] == bb0
    }

    /** The trace has grown to `g` and was closed. */
    ghost predicate Ended(s: Scene, th: Thresholds, bb0: Block, g: seq<Block>)
      reads this
    {
      && plan.chains != [] && GrownTo(target, s, |traces|, th, bb0, g, Last(plan.chains))
      && CopiedOnce(s.Marked(g, |traces|), scene, |traces|) && traces != [] && Last(traces).length == |g|
    }

    /** The inner loop of `find_traces_1_round`: the trace started at `bb0` grows
        along `g` until it stops, and is closed. */
    method GrowTrace(bb0: Block, th: Thresholds, round: nat) returns (bb: Block, ghost g: seq<Block>)
      requires Head(bb0) && Covered(bb0, bb0) && plan.chains != [] && Last(plan.chains) == [] && Keyed()
      requires traces != [] && Last(traces).length == 0
      requires round == N_ROUNDS - 1 ==> newHeap == map[]
      modifies `scene, `next, `heap, `newHeap, `traces, `plan
      ensures Tail(bb) && Covered(NONE, NONE) && Unvisited() < old(Unvisited()) && Keyed()
      ensures OnlyLastTrace(old(traces), traces) && OnlyLast(old(plan), plan)
      ensures round == N_ROUNDS - 1 ==> newHeap == map[]
      ensures Ended(old(scene), th, bb0, g)
    {
      hide Head, Tail, Cover, Left, Keyed, Growing, Ended, OnlyLast;
      GrowingOne(bb0, th);
      LastTraceSelf(traces);
      ghost var s := scene;
      bb, g := bb0, [];
      var more := true;
      while more
        invariant if more then Head(bb) && Covered(bb, bb) && Unvisited() <= old(Unvisited())
                  else Tail(bb) && Covered(NONE, NONE) && Unvisited() < old(Unvisited())
        invariant OnlyLastTrace(old(traces), traces) && OnlyLast(old(plan), plan) && Keyed()
        invariant round == N_ROUNDS - 1 ==> newHeap == map[]
        invariant if more then Growing(s, th, bb0, g, bb) else Ended(s, th, bb0, g)
        decreases more, Unvisited()
      {
        ghost var plan1, traces1 := plan, traces;
        bb, more, g := GrowOn(bb, th, round, s, bb0, g);
        OnlyLastTwice(old(plan), plan1, plan);
        LastTraceTwice(old(traces), traces1, traces);
      }
    }

    lemma GrowingOne(bb0: Block, th: Thresholds)
      requires Head(bb0) && plan.chains != [] && Last(plan.chains) == [] && Last(traces).length == 0
      ensures Growing(scene, th, bb0, [], bb0) && OnlyLast(plan, plan)
    {
      OnlyLastSelf(plan);
      MarkedNone(scene, |traces|);
      GrowsOne(target, scene, |traces|, th, bb0);
      var none: seq<Block> := [];
      assert none + [bb0] == [bb0];
    }

    /** One more block. */
    method GrowOn(b: Block, th: Thresholds, round: nat, ghost s: Scene, ghost bb0: Block, ghost g: seq<Block>)
        returns (bb: Block, more: bool, ghost g': seq<Block>)
      requires Head(b) && Covered(b, b) && Keyed() && Growing(s, th, bb0, g, b)
      requires round == N_ROUNDS - 1 ==> newHeap == map[]
      modifies `scene, `next, `heap, `newHeap, `traces, `plan
      ensures if more then Head(bb) && Covered(bb, bb) else Tail(bb) && Covered(NONE, NONE)
      ensures Unvisited() < old(Unvisited()) && OnlyLastTrace(old(traces), traces) && Keyed()
      ensures round == N_ROUNDS - 1 ==> newHeap == map[]
      ensures OnlyLast(old(plan), plan)
      ensures if more then Growing(s, th, bb0, g', bb) else Ended(s, th, bb0, g')
    {
      hide Head, Tail, Cover, Left, Keyed, GrownTo, Grows, CopiedOnce, ClosedBy, Scene.Goes, Scene.Stops, Scene.Marked;
      hide Scene.NextEdge;
      MarkedMore(s, |traces|, g, b);
      bb, more := Extend(b, th, round);
      g' := g + [b];
      if more {
        GrowsMore(target, s, |traces|, th, g', bb);
      } else {
        GrownNow(target, s, |traces|, th, bb0, g', Last(plan.chains));
      }
    }

    /** Block `bb0` joins the trace, and the best suitable successor becomes the
        next block, perhaps by a detour, if there is one outside the trace; otherwise the
        trace is closed. */
    method Extend(bb0: Block, th: Thresholds, round: nat) returns (bb: Block, more: bool)
      requires Head(bb0) && Covered(bb0, bb0) && Keyed()
      requires round == N_ROUNDS - 1 ==> newHeap == map[]
      modifies `scene, `next, `heap, `newHeap, `traces, `plan
      ensures if more then Head(bb) && Covered(bb, bb) else Tail(bb) && Covered(NONE, NONE)
      ensures Unvisited() < old(Unvisited()) && OnlyLastTrace(old(traces), traces) && Keyed()
      ensures Last(traces).length == old(Last(traces).length) + 1
      ensures round == N_ROUNDS - 1 ==> newHeap == map[]
      ensures OnlyLast(old(plan), plan)
      ensures var s, n := old(scene).(visited := old(scene.visited)[bb0 := |traces|]), |traces|;
              var c, c' := old(Last(plan.chains)) + [bb0], Last(plan.chains);
              if more then c' == c && scene == s && s.Goes(target, n, bb0, th, bb)
              else s.Stops(target, n, bb0, th) && ClosedBy(target, s, n, s.NextEdge(target, n, bb0, th), c, c')
                   && CopiedOnce(s, scene, n)
    {
      hide Chained, Cover, Numbered, Left, Followed, Leads, Suitable, KeysRight, Rekeyed, ClosedBy, CopiedOnce;
      hide Scene.NextEdge, Scene.Goes, Scene.Stops;
      ghost var s0, heap0, newHeap0 := scene, heap, newHeap;
      MarkVisited(bb0);
      KeysVisit(s0, heap0, newHeap0, bb0, |traces|);
      ghost var s, heap1, newHeap1 := scene, heap, newHeap;
      var best := ChooseNext(bb0, th);
      AddSuccs(bb0, best, th, round);
      KeysAdded(s, bb0, best, limit0, heap1, heap);
      KeysAdded(s, bb0, best, limit0, newHeap1, newHeap);
      bb, more := Onward(bb0, best, th);
    }

    /** What becomes of the trace that ends at `bb0`, with `best` as its next edge. */
    method Onward(bb0: Block, best: int, ghost th: Thresholds) returns (bb: Block, more: bool)
      requires Tail(bb0) && Followed(scene.edges, Last(plan.chains)) && Keyed()
      requires -1 <= best < |scene.edges| && Covered(if best == -1 then NONE else scene.edges[best].dest, NONE)
      requires best == scene.NextEdge(target, |traces|, bb0, th)
      modifies `scene, `next, `traces, `plan
      ensures if more then Head(bb) && Covered(bb, bb) else Tail(bb) && Covered(NONE, NONE)
      ensures Unvisited() == old(Unvisited()) && Keyed()
      ensures OnlyLastTrace(old(traces), traces) && Last(traces).length == old(Last(traces).length)
      ensures OnlyLast(old(plan), plan)
      ensures var s, n, c, c' := old(scene), |traces|, old(Last(plan.chains)), Last(plan.chains);
              if more then c' == c && scene == s && s.Goes(target, n, bb0, th, bb)
              else s.Stops(target, n, bb0, th) && ClosedBy(target, s, n, best, c, c') && CopiedOnce(s, scene, n)
    {
      hide Chained, Cover, Numbered, Left, Followed, Leads, KeysRight, ClosedBy, CopiedOnce, Scene.NextEdge,
          Scene.Detour;
      ghost var s, n := scene, |traces|;
      if best == -1 {
        bb, more := bb0, false;
        CopiedNone(s, n);
        ClosedNone(target, s, n, Last(plan.chains));
      } else if At(scene.visited, scene.edges[best].dest) == |traces| {
        NextIs(s, target, n, bb0, th);
        CoverShut(blocks, edges0, scene.edges, scene.visited, heap, newHeap, scene.edges[best].dest);
        LimitAbove(blocks, scene.edges, scene.visited, limit0, scene.limit);
        bb := CloseLoop(bb0, best);
        KeysClosed(s, scene, n, limit0, heap, newHeap);
        more := false;
      } else {
        NextIs(s, target, n, bb0, th);
        bb := Proceed(bb0, best);
        more := true;
      }
    }

    /** The edge along which the trace goes on, or -1: none if the best leads to a
        block with several predecessors that is to be copied later. */
    method ChooseNext(bb: Block, th: Thresholds) returns (best: int)
      ensures best == scene.NextEdge(target, |traces|, bb, th)
      ensures best == -1 || (0 <= best < |scene.edges| && scene.Candidate(|traces|, bb, scene.edges[best], th))
    {
      best := SelectBest(bb, th);
      if best != -1 {
        var many := ManyPreds(scene.edges[best].dest);
        if many && target.copies(scene.edges[best].dest, false, scene.limit) {
          best := -1;
        }
      }
    }

    /** The trace goes on along edge `best0`, perhaps by a detour. */
    method Proceed(bb: Block, best0: nat) returns (bb': Block)
      requires Tail(bb) && Followed(scene.edges, Last(plan.chains))
      requires best0 < |scene.edges| && scene.edges[best0].src == bb && scene.edges[best0].dest != NONE
               && At(scene.visited, scene.edges[best0].dest) == 0
      requires Covered(scene.edges[best0].dest, NONE)
      modifies `next
      ensures Head(bb') && Covered(bb', bb')
      ensures exists d: nat :: scene.Detour(bb, best0, d) && d < |scene.edges| && scene.edges[d].dest == bb'
    {
      hide Chained, Numbered, Left, Followed, Frontier, HeapsOk, Descends, Scene.Detour;
      var best := Detour(bb, best0);
      DetourInside(scene, bb, best0, best);
      bb' := scene.edges[best].dest;
      CoverOpen(blocks, edges0, scene.edges, scene.visited, heap, newHeap, scene.edges[best0].dest, bb');
      ChainLink(Now(), |traces| - 1, bb');
      InBlocks(blocks, scene.edges, scene.visited, best);
      OnNone(Now(), |traces| - 1);
      next := next[bb := bb'];
    }

    // ----- rounds -----

    /** Between traces: all are finished, and every successor of theirs is on a
        trace or in a heap, with the right key as long as no block was copied. */
    ghost predicate Sound()
      reads this
    {
      Bounded() && Traced(|traces|) && Covered(NONE, NONE) && Keyed()
    }

    /** Each trace grew as it should. */
    ghost predicate Grew(first: Scene)
      reads this
    {
      History(target, first, traces, plan.chains, plan.starts, plan.scenes, plan.demands, scene)
    }

    /** The first trace is started from an entry point. */
    ghost predicate Origins()
      reads this
    {
      if plan.starts == [] then (forall b :: b in heap || b in newHeap ==> Entered(edges0, b))
          else Entered(edges0, plan.starts[0])
    }

    /** `fibheap_extract_min` */
    method ExtractMin() returns (bb: Block)
      requires heap != map[]
      modifies `heap
      ensures bb in old(heap) && (forall b :: b in old(heap) ==> old(heap)[bb] <= old(heap)[b])
              && heap == old(heap) - {bb}
    {
      ghost var least := LeastKey(heap);
      bb :| bb in heap && forall b :: b in heap ==> heap[bb] <= heap[b];
      heap := heap - {bb};
    }

    /** `find_traces_1_round`: it ends, and in the last round nothing is left over. */
    method Round(th: Thresholds, round: nat, ghost first: Scene)
      requires Sound() && Origins() && newHeap == map[] && round < N_ROUNDS && Grew(first)
      modifies `scene, `next, `heap, `newHeap, `traces, `plan
      ensures Sound() && Origins() && newHeap == map[] && (round == N_ROUNDS - 1 ==> heap == map[])
      ensures Grew(first) && Added(old(traces), old(plan.demands), traces, plan.demands, th, round)
    {
      hide Chained, Cover, Numbered, Left, KeysRight, History, Added;
      AddedNone(traces, plan.demands, th, round);
      HistoryLength(target, first, traces, plan.chains, plan.starts, plan.scenes, plan.demands, scene);
      while heap != map[]
        invariant Sound() && Origins() && (round == N_ROUNDS - 1 ==> newHeap == map[]) && Grew(first)
                  && Added(old(traces), old(plan.demands), traces, plan.demands, th, round)
        decreases Unvisited(), |heap|
      {
        ghost var traces1, demands1 := traces, plan.demands;
        var bb, started := StartOne(th, round, first);
        AddedTwice(old(traces), old(plan.demands), traces1, demands1, traces, plan.demands, th, round);
      }
      CoverKeys(blocks, edges0, scene.edges, scene.visited, heap, newHeap, newHeap, map[]);
      KeysNone(scene);
      heap, newHeap := newHeap, map[];
    }

    /** The block with the least key is put off to the next round, or, if it is
        frequent enough for this one, a trace is started from it. */
    method StartOne(th: Thresholds, round: nat, ghost first: Scene) returns (bb: Block, started: bool)
      requires Sound() && Origins() && heap != map[] && (round == N_ROUNDS - 1 ==> newHeap == map[]) && Grew(first)
      modifies `scene, `next, `heap, `newHeap, `traces, `plan
      ensures Sound() && Origins() && (round == N_ROUNDS - 1 ==> newHeap == map[])
      ensures Unvisited() < old(Unvisited()) || (Unvisited() == old(Unvisited()) && |heap| < |old(heap)|)
      ensures bb in old(heap) && forall b :: b in old(heap) ==> old(heap)[bb] <= old(heap)[b]
      ensures started ==>
                |traces| == |old(traces)| + 1 && plan.starts == old(plan.starts) + [bb]
                    && At(scene.visited, bb) == |traces|
      ensures started <==> round >= N_ROUNDS - 1
                           || (old(Value(scene.frequency, bb)) >= th.exec && old(Value(scene.count, bb)) >= th.count
                               && bb !in old(scene.cold))
      ensures !started ==> traces == old(traces) && scene.visited == old(scene.visited)
      ensures !started ==> heap == old(heap) - {bb} && newHeap == old(newHeap)[bb := old(scene).Key(bb)]
      ensures Grew(first) && Added(old(traces), old(plan.demands), traces, plan.demands, th, round)
    {
      hide Chained, Cover, Numbered, Left, Entered, KeysRight, Scene.Key, History, Added;
      AddedNone(traces, plan.demands, th, round);
      HistoryLength(target, first, traces, plan.chains, plan.starts, plan.scenes, plan.demands, scene);
      bb := ExtractMin();
      KeysLess(scene, old(heap), bb);
      if round < N_ROUNDS - 1
          && (Value(scene.frequency, bb) < th.exec || Value(scene.count, bb) < th.count || bb in scene.cold) {
        PutOff(bb, old(heap));
        started := false;
      } else {
        NewTrace(bb, th, round, old(heap), first);
        started := true;
      }
    }

    /** Block `bb`, which has just left the heap, goes to the next round's. */
    method PutOff(bb: Block, ghost heap0: Heap)
      requires Bounded() && Traced(|traces|)
               && Cover(blocks, edges0, scene.edges, scene.visited, heap0, newHeap, NONE, NONE)
      requires bb in heap0 && heap == heap0 - {bb} && Keyed()
      requires if plan.starts == [] then forall b :: b in heap0 || b in newHeap ==> Entered(edges0, b)
                 else Entered(edges0, plan.starts[0])
      modifies `newHeap
      ensures Sound() && Origins() && |heap| < |heap0| && newHeap == old(newHeap)[bb := scene.Key(bb)]
    {
      hide Chained, Cover, Numbered, Left, Entered, Scene.Key, KeysRight;
      var key := BbToKey(bb);
      CoverDefer(blocks, edges0, scene.edges, scene.visited, heap0, newHeap, bb, key);
      SmallerHeap(heap0, bb);
      KeysPut(scene, newHeap, bb);
      newHeap := newHeap[bb := key];
    }

    /** A whole trace from block `bb`, which has just left the heap. */
    method NewTrace(bb: Block, th: Thresholds, round: nat, ghost heap0: Heap, ghost first: Scene)
      requires Bounded() && Traced(|traces|)
               && Cover(blocks, edges0, scene.edges, scene.visited, heap0, newHeap, NONE, NONE)
      requires bb in heap0 && heap == heap0 - {bb} && (round == N_ROUNDS - 1 ==> newHeap == map[]) && Keyed()
      requires if plan.starts == [] then Entered(edges0, bb) else Entered(edges0, plan.starts[0])
      requires Grew(first)
      modifies `scene, `next, `heap, `newHeap, `traces, `plan
      ensures Sound() && Origins() && (round == N_ROUNDS - 1 ==> newHeap == map[]) && Unvisited() < old(Unvisited())
      ensures |traces| == |old(traces)| + 1 && plan.starts == old(plan.starts) + [bb]
              && At(scene.visited, bb) == |traces|
      ensures Grew(first) && Added(old(traces), old(plan.demands), traces, plan.demands, th, round)
    {
      hide Chained, Cover, Numbered, Left, Entered, Leads, KeysRight, History, RightTrace, Follows;
      ghost var s, plan0, traces0, n := scene, plan, traces, |traces| + 1;
      HistoryLength(target, first, traces, plan0.chains, plan0.starts, plan0.scenes, plan0.demands, s);
      CoverExtract(blocks, edges0, scene.edges, scene.visited, heap0, newHeap, bb);
      ChainBegin(Now(), |traces|, Trace(bb, NONE, round, 0), bb);
      traces := traces + [Trace(bb, NONE, round, 0)];
      plan := Plan(plan0.chains + [[]], plan0.pos, plan0.starts + [bb], plan0.scenes + [s], plan0.demands + [th]);
      var last := Grow(bb, th, round, s);
      HistoryMore(target, first, traces0, plan0.chains, plan0.starts, plan0.scenes, plan0.demands, s, Last(traces),
                  Last(plan.chains), bb, th, scene);
      assert traces == traces0 + [Last(traces)];
      assert plan.chains == plan0.chains + [Last(plan.chains)];
      StartVisited(Now(), |traces|, |traces| - 1);
    }

    /** The trace grows and is recorded as finished, and keys are counted again. */
    method Grow(bb: Block, th: Thresholds, round: nat, ghost s: Scene) returns (last: Block)
      requires Head(bb) && Covered(bb, bb) && plan.chains != [] && Last(plan.chains) == [] && Keyed() && s == scene
      requires traces != [] && Last(traces).length == 0
      requires round == N_ROUNDS - 1 ==> newHeap == map[]
      modifies `scene, `next, `heap, `newHeap, `traces, `plan
      ensures Sound() && (round == N_ROUNDS - 1 ==> newHeap == map[]) && Unvisited() < old(Unvisited())
      ensures OnlyLastTrace(old(traces), traces)
      ensures plan == old(plan).(chains := plan.chains, pos := plan.pos)
      ensures plan.chains == old(plan.chains)[|traces| - 1 := Last(plan.chains)]
      ensures RightTrace(target, s, |traces|, th, bb, Last(plan.chains), Last(traces).length)
      ensures Follows(s, |traces|, Last(plan.chains), scene)
    {
      hide Chained, Cover, Numbered, Left, Followed, Leads, GrownTo, CopiedOnce, Scene.Marked, Keyed, Follows;
      ghost var g;
      last, g := GrowTrace(bb, th, round);
      Finish(last, th, bb, g, s);
    }

    /** What `find_traces_1_round` does at the end of a trace. */
    method Finish(last: Block, ghost th: Thresholds, ghost bb0: Block, ghost g: seq<Block>, ghost s: Scene)
      requires Tail(last) && Covered(NONE, NONE) && Keyed() && Ended(s, th, bb0, g)
      modifies `scene, `heap, `newHeap, `traces
      ensures Sound() && OnlyLastTrace(old(traces), traces) && newHeap.Keys == old(newHeap).Keys
      ensures RightTrace(target, s, |traces|, th, bb0, Last(plan.chains), Last(traces).length)
      ensures Follows(s, |traces|, Last(plan.chains), scene) && Unvisited() == old(Unvisited())
    {
      hide Chained, Cover, Numbered, Left, GrownTo, CopiedOnce, Scene.Marked, KeysRight, Rekeyed, Follows;
      ghost var s1, heap1, newHeap1 := scene, heap, newHeap;
      ChainFacts(Now(), |traces| - 1);
      FinishTrace(last);
      FollowsNow(s, |traces|, g, Last(plan.chains), s1, scene);
      RecountKeys(last);
      KeysEnd(s1, scene, last, |traces| - 1, limit0, heap1, heap);
      KeysEnd(s1, scene, last, |traces| - 1, limit0, newHeap1, newHeap);
    }

    /** The trace that grew is recorded as finished. */
    method FinishTrace(bb: Block)
      requires Tail(bb)
      modifies `traces, `scene
      ensures Bounded() && Traced(|traces|) && Last(plan.chains) != []
      ensures OnlyLastTrace(old(traces), traces) && Last(traces).length == old(Last(traces).length)
      ensures Last(Last(plan.chains)) == bb
      ensures scene == old(scene).(startOf := old(scene.startOf)[Last(plan.chains)[0] := |traces| - 1],
                                   endOf := old(scene.endOf)[bb := |traces| - 1])
    {
      hide Chained, Numbered;
      ChainDone(Now(), |traces| - 1);
      var n := |traces| - 1;
      traces := traces[n := traces[n].(last := bb)];
      scene := scene.(startOf := scene.startOf[traces[n].first := n], endOf := scene.endOf[bb := n]);
    }

    /** The entry points of the function go into the heap. */
    method EnterHeap()
      requires Ready() && Bounded() && heap == newHeap == map[] && plan.starts == []
      modifies `heap, `maxEntryFrequency, `maxEntryCount
      ensures Covered(NONE, NONE) && Origins() && Keyed()
      ensures EntryMax(scene.edges, scene.frequency, |scene.edges|, maxEntryFrequency)
              && EntryMax(scene.edges, scene.count, |scene.edges|, maxEntryCount)
    {
      hide Numbered, Scene.Key, EntryMax, KeysRight;
      KeysNone(scene);
      maxEntryFrequency, maxEntryCount := 0, 0;
      EntryMaxMore(scene.edges, scene.frequency, 0, 0);
      EntryMaxMore(scene.edges, scene.count, 0, 0);
      for i := 0 to |scene.edges|
        invariant forall b :: b in heap ==> b in blocks && Entered(edges0, b)
        invariant forall j {:trigger scene.edges[j]} :: 0 <= j < i && scene.edges[j].src == NONE ==>
                    scene.edges[j].dest in heap
        invariant KeysRight(scene, heap)
        invariant EntryMax(scene.edges, scene.frequency, i, maxEntryFrequency)
                  && EntryMax(scene.edges, scene.count, i, maxEntryCount)
      {
        var e := scene.edges[i];
        EntryMaxMore(scene.edges, scene.frequency, i, maxEntryFrequency);
        EntryMaxMore(scene.edges, scene.count, i, maxEntryCount);
        if e.src == NONE {
          var key := BbToKey(e.dest);
          assert Entered(edges0, e.dest);
          KeysPut(scene, heap, e.dest);
          heap := heap[e.dest := key];
          if Value(scene.frequency, e.dest) > maxEntryFrequency {
            maxEntryFrequency := Value(scene.frequency, e.dest);
          }
          if Value(scene.count, e.dest) > maxEntryCount {
            maxEntryCount := Value(scene.count, e.dest);
          }
        }
      }
    }

    /** `find_traces`. Every block reachable from the entry block is on exactly
        one trace, no block is left in a heap, and there are no more traces than
        there were blocks; if all entry edges lead to the first block of the function, the first
        trace starts with it. Each trace grew as it should, by the demands of some round. */
    method Find()
      requires Ready() && Bounded() && Traced(0) && traces == [] && heap == newHeap == map[]
      requires plan.scenes == [] && plan.demands == []
      modifies this
      ensures Sound() && heap == newHeap == map[]
      ensures forall b: Block :: Reachable(edges0, b) ==> At(scene.visited, b) != 0
      ensures |traces| <= |blocks|
      ensures (exists b: Block :: Entered(edges0, b)) ==> traces != []
      ensures (forall b: Block :: Entered(edges0, b) ==> b == target.firstBlock) && traces != [] ==>
                traces[0].first == target.firstBlock
      ensures Grew(old(scene)) && RoundDemands(plan.demands, traces, N_ROUNDS, maxEntryFrequency, maxEntryCount)
      ensures EntryMax(old(scene.edges), old(scene.frequency), |old(scene.edges)|, maxEntryFrequency)
      ensures EntryMax(old(scene.edges), old(scene.count), |old(scene.edges)|, maxEntryCount)
    {
      hide Chained, Cover, Numbered, Entered, Reachable, Keyed, History, EntryMax, Demand;
      ghost var first := scene;
      EnterHeap();
      HistoryNone(target, first, plan);
      assert RoundDemands([], [], 0, maxEntryFrequency, maxEntryCount);
      for i := 0 to N_ROUNDS
        invariant Sound() && Origins() && newHeap == map[] && (i == N_ROUNDS ==> heap == map[])
        invariant Grew(first) && RoundDemands(plan.demands, traces, i, maxEntryFrequency, maxEntryCount)
        invariant EntryMax(first.edges, first.frequency, |first.edges|, maxEntryFrequency)
        invariant EntryMax(first.edges, first.count, |first.edges|, maxEntryCount)
      {
        var countThreshold := if maxEntryCount < INT_MAX / 1000
          then CDiv(maxEntryCount * EXEC_THRESHOLD[i], 1000)
          else CDiv(maxEntryCount, 1000) * EXEC_THRESHOLD[i];
        ghost var demands, traces0 := plan.demands, traces;
        HistoryLength(target, first, traces, plan.chains, plan.starts, plan.scenes, demands, scene);
        var th := Thresholds(REG_BR_PROB_BASE * BRANCH_THRESHOLD[i] / 1000,
                             CDiv(maxEntryFrequency * EXEC_THRESHOLD[i], 1000), countThreshold);
        DemandIs(maxEntryFrequency, maxEntryCount, i, countThreshold);
        Round(th, i, first);
        HistoryLength(target, first, traces, plan.chains, plan.starts, plan.scenes, plan.demands, scene);
        MoreDemands(traces0, demands, traces, plan.demands, i, maxEntryFrequency, maxEntryCount);
      }
      AllOnTraces();
    }

    lemma AllOnTraces()
      requires Sound() && heap == newHeap == map[] && Origins()
      requires forall i {:trigger edges0[i]} :: 0 <= i < |edges0| && edges0[i].src == NONE ==> edges0[i].dest != NONE
      ensures forall b: Block :: Reachable(edges0, b) ==> At(scene.visited, b) != 0
      ensures |traces| <= |blocks|
      ensures (exists b: Block :: Entered(edges0, b)) ==> traces != []
      ensures (forall b: Block :: Entered(edges0, b) ==> b == target.firstBlock) && traces != [] ==>
                traces[0].first == target.firstBlock
    {
      hide Chained, Cover, Numbered, Entered, Reachable, Keyed;
      StartsDistinct(Now(), |traces|);
      forall b: Block | Reachable(edges0, b)
        ensures At(scene.visited, b) != 0
      {
        AllReached(blocks, edges0, scene.edges, scene.visited, b);
      }
      if b: Block :| Entered(edges0, b) {
        EnteredReachable(edges0, b);
        AllReached(blocks, edges0, scene.edges, scene.visited, b);
        SomeTrace(Now(), |traces|, b);
      }
    }
  }

  lemma NotRotated(chains: seq<seq<Block>>, n: nat, h: nat)
    requires n < |chains| && h < |chains[n]|
    ensures Rotated(chains[n], h, |chains[n]| - 1, []) == chains[n]
    ensures chains[n := Rotated(chains[n], h, |chains[n]| - 1, [])] == chains
  {
    assert Rotated(chains[n], h, |chains[n]| - 1, []) == chains[n];
  }

  /** The blocks of the chain from the `h`-th up to the `k`-th. */
  ghost function Part(c: seq<Block>, h: nat, k: nat): (r: seq<Block>)
    requires h <= k <= |c|
    ensures |r| == k - h
  {
    c[h..k]
  }

  lemma PartMore(c: seq<Block>, h: nat, k: nat)
    requires h <= k < |c|
    ensures Part(c, h, k) + [c[k]] == Part(c, h, k + 1)
  {
  }

  lemma ScanNone(s: Scene, n: nat, c: seq<Block>, h: nat)
    requires h <= |c|
    ensures s.Scan(n, Part(c, h, h)) == NO_EXIT
  {
  }

  lemma ScanMore(s: Scene, n: nat, c: seq<Block>, h: nat, k: nat)
    requires h <= k < |c|
    ensures s.Scan(n, Part(c, h, k + 1)) == s.ScanEdges(n, s.Scan(n, Part(c, h, k)), c[k], |s.edges|)
  {
    var from := Part(c, h, k + 1);
    assert from[..|from| - 1] == Part(c, h, k) && Last(from) == c[k];
  }

  lemma ScanEnd(s: Scene, n: nat, c: seq<Block>, h: nat)
    requires h <= |c|
    ensures Part(c, h, |c|) == c[h..]
    ensures var b := s.Scan(n, Part(c, h, |c|));
            b.edge == -1 || (0 <= b.edge < |s.edges| && s.edges[b.edge].src in Part(c, h, |c|))
  {
    s.ScanFound(n, Part(c, h, |c|));
  }

  /** A heap gives up a block, or takes one with its key. */
  lemma KeysLess(s: Scene, heap: Heap, bb: Block)
    ensures KeysRight(s, heap) ==> KeysRight(s, heap - {bb})
  {
  }

  lemma KeysPut(s: Scene, heap: Heap, bb: Block)
    ensures KeysRight(s, heap) ==> KeysRight(s, heap[bb := s.Key(bb)])
  {
    hide Scene.Key;
  }

  lemma KeysNone(s: Scene)
    ensures KeysRight(s, map[])
  {
  }

  lemma KeysAdded(s: Scene, bb: Block, best: int, limit0: Block, heap0: Heap, heap: Heap)
    requires (s.limit == limit0 ==> KeysRight(s, heap0)) && Rekeyed(s, bb, best, |s.edges|, heap0, heap)
    ensures s.limit == limit0 ==> KeysRight(s, heap)
  {
    if s.limit == limit0 {
      KeysRekeyed(s, bb, best, |s.edges|, heap0, heap);
    }
  }

  lemma KeysClosed(s: Scene, s': Scene, n: nat, limit0: Block, heap: Heap, newHeap: Heap)
    requires CopiedOnce(s, s', n) && limit0 <= s.limit
    requires s.limit == limit0 ==> KeysRight(s, heap) && KeysRight(s, newHeap)
    ensures s'.limit == limit0 ==> KeysRight(s', heap) && KeysRight(s', newHeap)
  {
    hide KeysRight;
  }

  lemma KeysEnd(s: Scene, s': Scene, bb: Block, n: nat, limit0: Block, heap0: Heap, heap: Heap)
    requires (s.limit == limit0 ==> KeysRight(s, heap0)) && Rekeyed(s', bb, -1, |s.edges|, heap0, heap)
    requires s'.limit == s.limit && s'.edges == s.edges && s'.frequency == s.frequency && s'.cold == s.cold
    requires s'.endOf == s.endOf[bb := n]
    ensures s'.limit == limit0 ==> KeysRight(s', heap)
  {
    if s.limit == limit0 {
      KeysFinish(s, s', bb, heap0, heap);
    }
  }

  lemma LimitAbove(blocks: set<Block>, edges: seq<Edge>, visited: map<Block, nat>, limit0: Block, limit: Block)
    requires Numbered(blocks, edges, visited, limit0, limit)
    ensures limit0 <= limit
  {
  }

  lemma BlocksReal(blocks: set<Block>, edges: seq<Edge>, visited: map<Block, nat>, limit0: Block, limit: Block)
    requires Numbered(blocks, edges, visited, limit0, limit)
    ensures NONE !in blocks
  {
  }

  lemma HeapFacts(blocks: set<Block>, visited: map<Block, nat>, heap: Heap, newHeap: Heap, d: Block)
    requires HeapsOk(blocks, visited, heap, newHeap)
    ensures d in heap ==> d !in newHeap && d in blocks && At(visited, d) == 0
    ensures d in newHeap ==> d in blocks && At(visited, d) == 0
  {
  }

  lemma HeapKept(blocks: set<Block>, visited: map<Block, nat>, heap: Heap, newHeap: Heap, heap': Heap, newHeap': Heap)
    requires HeapsOk(blocks, visited, heap, newHeap) && heap'.Keys == heap.Keys && newHeap'.Keys == newHeap.Keys
    ensures HeapsOk(blocks, visited, heap', newHeap')
  {
    assert forall b :: b in heap' <==> b in heap.Keys;
    assert forall b :: b in newHeap' <==> b in newHeap.Keys;
  }

  lemma NotBetween(s: Scene, bb: Block, best: nat, i: nat, only: int)
    requires best < |s.edges| && i < |s.edges|
    requires var e := s.edges[i];
             && (if only == -1 then !s.OneOut(e.dest) else s.OnlyOut(e.dest, only))
             && (s.ManyPreds(e.dest) || only == -1
                 || !(s.edges[only].Usable() && s.edges[only].dest == s.edges[best].dest))
    ensures !s.Between(bb, best, i)
  {
  }

  lemma NextIs(s: Scene, tg: Target, n: nat, bb: Block, th: Thresholds)
    requires s.NextEdge(tg, n, bb, th) != -1
    ensures var e := s.edges[s.NextEdge(tg, n, bb, th)];
            e.src == bb && e.dest != NONE && (At(s.visited, e.dest) == 0 || At(s.visited, e.dest) == n)
  {
  }

  lemma DetourInside(s: Scene, bb: Block, best: nat, d: nat)
    requires best < |s.edges| && s.Detour(bb, best, d)
    ensures d < |s.edges|
  {
  }

  /** What closing a trace comes to in each case. */
  lemma TurnedNow(tg: Target, s: Scene, n: nat, e: nat, g: seq<Block>, c: seq<Block>, h: nat, j: nat, mid: seq<Block>)
    requires g != [] && e < |s.edges| && h < |g| && g[h] == s.edges[e].dest != Last(g) && g[h] != tg.firstBlock
    requires s.Frequent(s.edges[e]) && s.LoopEnd(n, g, h, j) && c == Rotated(g, h, j, mid)
    requires mid == if s.HeaderCopied(tg, n, g, h) then [s.limit] else []
    ensures ClosedBy(tg, s, n, e, g, c)
  {
    hide Scene.LoopEnd, Scene.HeaderCopied, Rotated, Scene.Frequent;
    assert h <= j < |g| by {
      EndInside(s, n, g, h, j);
    }
    assert TurnedTo(tg, s, n, s.edges[e].dest, g, c, h, j);
  }

  lemma EndInside(s: Scene, n: nat, g: seq<Block>, h: nat, j: nat)
    requires h <= |g| && s.LoopEnd(n, g, h, j)
    ensures h <= j < |g|
  {
  }

  lemma EndCopiedIs(tg: Target, s: Scene, n: nat, e: nat, g: seq<Block>)
    requires g != [] && e < |s.edges| && s.edges[e].dest != Last(g) && !s.Frequent(s.edges[e])
    ensures if s.OnlyOut(s.edges[e].src, e) && tg.copies(s.edges[e].dest, !tg.optimizeSize, s.limit)
            then ClosedBy(tg, s, n, e, g, g + [s.limit]) else ClosedBy(tg, s, n, e, g, g)
  {
  }

  lemma SelfLoop(tg: Target, s: Scene, n: nat, e: nat, g: seq<Block>)
    requires g != [] && e < |s.edges|
    ensures s.edges[e].dest == Last(g) || (s.Frequent(s.edges[e]) && s.edges[e].dest == tg.firstBlock) ==>
              ClosedBy(tg, s, n, e, g, g)
  {
  }

  lemma ClosedNone(tg: Target, s: Scene, n: nat, g: seq<Block>)
    requires g != []
    ensures ClosedBy(tg, s, n, -1, g, g)
  {
  }

  lemma GrownNow(tg: Target, s: Scene, n: nat, th: Thresholds, b: Block, g: seq<Block>, c: seq<Block>)
    requires Grows(tg, s, n, th, g) && g[0] == b && s.Marked(g, n).Stops(tg, n, Last(g), th)
    requires ClosedBy(tg, s.Marked(g, n), n, s.Marked(g, n).NextEdge(tg, n, Last(g), th), g, c)
    ensures GrownTo(tg, s, n, th, b, g, c)
  {
  }

  /** What a finished trace leaves. */
  lemma FollowsNow(s: Scene, n: nat, g: seq<Block>, c: seq<Block>, s1: Scene, s2: Scene)
    requires CopiedOnce(s.Marked(g, n), s1, n) && n > 0 && c != []
    requires forall b :: b in c <==> At(s1.visited, b) == n
    requires s2 == s1.(startOf := s1.startOf[c[0] := n - 1], endOf := s1.endOf[Last(c) := n - 1])
    ensures Follows(s, n, c, s2)
  {
    forall b: Block {:trigger At(s2.visited, b)} | true
      ensures At(s2.visited, b) == if b in c then n else At(s.visited, b)
    {
      MarkedAt(s, n, g, b);
    }
  }

  lemma HistoryLength(tg: Target, first: Scene, traces: seq<Trace>, chains: seq<seq<Block>>, starts: seq<Block>,
                      scenes: seq<Scene>, demands: seq<Thresholds>, now: Scene)
    requires History(tg, first, traces, chains, starts, scenes, demands, now)
    ensures |traces| == |chains| == |starts| == |scenes| == |demands|
  {
  }

  lemma HistoryNone(tg: Target, first: Scene, plan: Plan)
    requires plan.chains == [] && plan.starts == [] && plan.scenes == [] && plan.demands == []
    ensures History(tg, first, [], plan.chains, plan.starts, plan.scenes, plan.demands, first)
  {
  }

  /** The greatest value of a block that one of the first `n` edges enters the function by, or 0. */
  ghost predicate EntryMax(edges: seq<Edge>, m: map<Block, int>, n: nat, v: int) {
    && n <= |edges| && v >= 0
    && (forall i {:trigger edges[i]} :: 0 <= i < n && edges[i].src == NONE ==> Value(m, edges[i].dest) <= v)
    && (v > 0 ==> exists i {:trigger edges[i]} :: 0 <= i < n && edges[i].src == NONE && Value(m, edges[i].dest) == v)
  }

  lemma EntryMaxMore(edges: seq<Edge>, m: map<Block, int>, n: nat, v: int)
    requires n <= |edges|
    ensures n == 0 ==> EntryMax(edges, m, 0, 0)
    ensures n < |edges| && EntryMax(edges, m, n, v) ==>
              EntryMax(edges, m, n + 1, if edges[n].src == NONE && Value(m, edges[n].dest) > v
                                          then Value(m, edges[n].dest) else v)
  {
  }

  /** The thresholds of round `i`. */
  function Demand(maxFrequency: int, maxCount: int, i: nat): Thresholds
    requires i < N_ROUNDS
  {
    Thresholds(REG_BR_PROB_BASE * BRANCH_THRESHOLD[i] / 1000, CDiv(maxFrequency * EXEC_THRESHOLD[i], 1000),
               if maxCount < INT_MAX / 1000 then CDiv(maxCount * EXEC_THRESHOLD[i], 1000)
               else CDiv(maxCount, 1000) * EXEC_THRESHOLD[i])
  }

  lemma DemandIs(maxFrequency: int, maxCount: int, i: nat, countThreshold: int)
    requires i < N_ROUNDS
    requires countThreshold == if maxCount < INT_MAX / 1000 then CDiv(maxCount * EXEC_THRESHOLD[i], 1000)
                               else CDiv(maxCount, 1000) * EXEC_THRESHOLD[i]
    ensures Demand(maxFrequency, maxCount, i) ==
            Thresholds(REG_BR_PROB_BASE * BRANCH_THRESHOLD[i] / 1000, CDiv(maxFrequency * EXEC_THRESHOLD[i], 1000),
                       countThreshold)
  {
  }

  /** Trace `t` belongs to one of the first `n` rounds, and its edges had to be as that demands. */
  ghost predicate RoundDemand(th: Thresholds, t: Trace, n: nat, maxFrequency: int, maxCount: int) {
    t.round < n && t.round < N_ROUNDS && th == Demand(maxFrequency, maxCount, t.round)
  }

  ghost predicate RoundDemands(demands: seq<Thresholds>, traces: seq<Trace>, n: nat, maxFrequency: int, maxCount: int) {
    |demands| == |traces|
    && forall k {:trigger demands[k]} :: 0 <= k < |demands| ==>
         RoundDemand(demands[k], traces[k], n, maxFrequency, maxCount)
  }

  /** Traces were added in round `round`, and their edges had to be as `th` demands. */
  ghost predicate Added(traces: seq<Trace>, demands: seq<Thresholds>, traces': seq<Trace>, demands': seq<Thresholds>,
                        th: Thresholds, round: nat) {
    && demands <= demands' && traces <= traces' && |traces| == |demands| && |traces'| == |demands'|
    && forall k {:trigger demands'[k]} :: |traces| <= k < |traces'| ==> demands'[k] == th && traces'[k].round == round
  }

  lemma AddedNone(traces: seq<Trace>, demands: seq<Thresholds>, th: Thresholds, round: nat)
    ensures |traces| == |demands| ==> Added(traces, demands, traces, demands, th, round)
  {
  }

  lemma AddedTwice(traces: seq<Trace>, demands: seq<Thresholds>, traces1: seq<Trace>, demands1: seq<Thresholds>,
                   traces2: seq<Trace>, demands2: seq<Thresholds>, th: Thresholds, round: nat)
    requires Added(traces, demands, traces1, demands1, th, round)
             && Added(traces1, demands1, traces2, demands2, th, round)
    ensures Added(traces, demands, traces2, demands2, th, round)
  {
    forall k {:trigger demands2[k]} | |traces| <= k < |traces2|
      ensures demands2[k] == th && traces2[k].round == round
    {
      if k < |traces1| {
        assert demands2[k] == demands1[k] && traces2[k] == traces1[k];
      }
    }
  }

  lemma MoreDemands(traces: seq<Trace>, demands: seq<Thresholds>, traces': seq<Trace>, demands': seq<Thresholds>,
                    i: nat, maxFrequency: int, maxCount: int)
    requires RoundDemands(demands, traces, i, maxFrequency, maxCount) && i < N_ROUNDS
    requires Added(traces, demands, traces', demands', Demand(maxFrequency, maxCount, i), i)
    ensures RoundDemands(demands', traces', i + 1, maxFrequency, maxCount)
  {
    forall k {:trigger demands'[k]} | 0 <= k < |demands'|
      ensures RoundDemand(demands'[k], traces'[k], i + 1, maxFrequency, maxCount)
    {
      if k < |demands| {
        assert demands'[k] == demands[k] && traces'[k] == traces[k];
      } else {
        assert demands'[k] == Demand(maxFrequency, maxCount, i);
      }
    }
  }

  /** Early rounds take edges of at least 40, 20 and 10 per cent, and blocks of at
      least 50, 20 and 5 per cent of the greatest entry frequency; the last takes all. */
  lemma DemandsAre(maxFrequency: nat)
    ensures Demand(maxFrequency, 0, 0).branch == 4000 && Demand(maxFrequency, 0, 0).exec == maxFrequency / 2
    ensures Demand(maxFrequency, 0, 1).branch == 2000 && Demand(maxFrequency, 0, 1).exec == maxFrequency / 5
    ensures Demand(maxFrequency, 0, 2).branch == 1000 && Demand(maxFrequency, 0, 2).exec == maxFrequency / 20
    ensures forall c: nat :: Demand(maxFrequency, c, 3) == Thresholds(0, 0, 0)
  {
  }

  lemma NoExit(tg: Target, s: Scene, n: nat, c: seq<Block>, h: nat)
    requires h < |c| && s.Scan(n, c[h..]).edge == -1
    ensures s.LoopEnd(n, c, h, |c| - 1) && !s.HeaderCopied(tg, n, c, h)
  {
  }

  lemma EndIs(tg: Target, s: Scene, n: nat, c: seq<Block>, h: nat, j: nat)
    requires h <= j < |c|
    requires var b := s.Scan(n, c[h..]); b.edge != -1 && 0 <= b.edge < |s.edges| && c[j] == s.edges[b.edge].src
    ensures s.LoopEnd(n, c, h, j)
    ensures s.HeaderCopied(tg, n, c, h) <==>
            h > 0 && tg.condJump(c[h]) && tg.copies(c[h], false, s.limit) && s.OneOut(c[h - 1])
  {
    hide Scene.Scan;
  }

  /** The same blocks start and end traces. */
  ghost predicate SameEnds(s: Scene, s': Scene) {
    s'.startOf == s.startOf && s'.endOf == s.endOf
  }

  lemma CopiedIs(s: Scene, s': Scene, e: nat, n: nat)
    requires e < |s.edges| && SameGraph(s'.edges, Duplicated(s.edges, e, s.limit)) && s'.limit == s.limit + 1
    requires s'.visited == s.visited[s.limit := n] && s'.startOf == s.startOf && s'.endOf == s.endOf
    ensures CopiedOnce(s, s', n)
  {
    hide SameGraph;
  }

  lemma CopiedNone(s: Scene, n: nat)
    ensures CopiedOnce(s, s, n)
  {
  }

  /** The edge that closes the loop is the only one out of the end, or there are several. */
  lemma OnlyIs(s: Scene, bb: Block, only: int, best: nat)
    requires best < |s.edges| && s.edges[best].src == bb
    requires if only == -1 then !s.OneOut(bb) else s.OnlyOut(bb, only)
    ensures only != -1 <==> s.OnlyOut(bb, best)
  {
  }

  /** One step around the loop `c[h..]`. */
  ghost predicate StepOk(next: map<Block, Block>, c: seq<Block>, h: nat, k: nat) {
    && h <= k < |c| && (At(next, c[k]) == c[h] <==> k == |c| - 1)
    && (k < |c| - 1 ==> At(next, c[k]) == c[k + 1])
  }

  lemma StepIs(next: map<Block, Block>, c: seq<Block>, h: nat, k: nat)
    requires StepOk(next, c, h, k)
    ensures At(next, c[k]) == c[h] <==> k == |c| - 1
    ensures k < |c| - 1 ==> At(next, c[k]) == c[k + 1]
  {
  }

  /** The loop at the end of the growing trace. */
  lemma LoopSteps(s: Trail, n: nat, h: nat)
    requires Chained(s, n) && n < |s.chains| && h < |s.chains[n]| && At(s.next, Last(s.chains[n])) == s.chains[n][h]
    ensures forall k: nat {:trigger StepOk(s.next, s.chains[n], h, k)} :: h <= k < |s.chains[n]| ==>
              StepOk(s.next, s.chains[n], h, k)
  {
    hide Chained;
    ChainFacts(s, n);
    var c := s.chains[n];
    forall k: nat {:trigger StepOk(s.next, c, h, k)} | h <= k < |c|
      ensures StepOk(s.next, c, h, k)
    {
      assert k < |c| - 1 ==> At(s.next, c[k]) == c[k + 1];
    }
  }

  lemma LinkedAt(next: map<Block, Block>, c: seq<Block>, j: nat)
    requires Linked(next, c) && j < |c|
    ensures j + 1 < |c| ==> At(next, c[j]) == c[j + 1]
  {
  }

  /** Chain `c'` is `c` with the loop from `c[h]` on turned to end at `c[j]`. */
  ghost predicate Turning(c: seq<Block>, c': seq<Block>, dest: Block, copy: Block, h: nat, j: nat, mid: seq<Block>) {
    h <= j < |c| && c[h] == dest && |mid| <= 1 && (mid != [] ==> mid[0] == copy) && c' == Rotated(c, h, j, mid)
  }

  /** Chain `c'` is `c` with the loop from block `dest` on turned around, and
      perhaps `copy` before it. */
  ghost predicate TurnedAround(c: seq<Block>, c': seq<Block>, dest: Block, copy: Block) {
    exists h: nat, j: nat, mid :: Turning(c, c', dest, copy, h, j, mid)
  }

  ghost function Left(blocks: set<Block>, visited: map<Block, nat>): nat {
    |set b | b in blocks && At(visited, b) == 0|
  }

  lemma FewerLeft(blocks: set<Block>, visited: map<Block, nat>, bb: Block, n: nat)
    requires bb in blocks && At(visited, bb) == 0 && n > 0
    ensures Left(blocks, visited[bb := n]) < Left(blocks, visited)
  {
    var s, s' := set b | b in blocks && At(visited, b) == 0, set b | b in blocks && At(visited[bb := n], b) == 0;
    assert s == s' + {bb};
  }

  lemma FollowedMore(edges: seq<Edge>, c: seq<Block>, b: Block)
    requires Followed(edges, c) && (c != [] ==> Leads(edges, Last(c), b))
    ensures Followed(edges, c + [b])
  {
    var d := c + [b];
    forall i {:trigger Step(edges, d, i)} | 0 < i < |d|
      ensures Step(edges, d, i)
    {
      assert i < |c| ==> Step(edges, c, i);
    }
  }

  lemma LeftCopy(blocks: set<Block>, visited: map<Block, nat>, copy: Block, n: nat)
    requires copy !in blocks
    ensures Left(blocks, visited[copy := n]) == Left(blocks, visited)
  {
    assert (set b | b in blocks && At(visited, b) == 0) == set b | b in blocks && At(visited[copy := n], b) == 0;
  }

  lemma NumberedFresh(blocks: set<Block>, edges: seq<Edge>, visited: map<Block, nat>, limit0: Block, limit: Block)
    requires Numbered(blocks, edges, visited, limit0, limit)
    ensures limit != NONE && limit !in blocks && At(visited, limit) == 0 && forall i :: 0 <= i < |edges| ==>
              edges[i].src != limit
  {
  }

  lemma NumberedCopy(blocks: set<Block>, edges: seq<Edge>, visited: map<Block, nat>, limit0: Block, limit: Block,
                     e: nat, n: nat, edges': seq<Edge>)
    requires Numbered(blocks, edges, visited, limit0, limit) && e < |edges|
             && SameGraph(edges', Duplicated(edges, e, limit))
    ensures Numbered(blocks, edges', visited[limit := n], limit0, limit + 1)
  {
    forall b: Block {:trigger At(visited[limit := n], b)} | At(visited[limit := n], b) != 0
      ensures b < limit + 1 && (b in blocks || limit0 <= b)
    {
      assert b == limit || At(visited, b) != 0;
    }
    var dup := Duplicated(edges, e, limit);
    forall i {:trigger edges'[i]} | 0 <= i < |edges'|
      ensures edges'[i].src < limit + 1
    {
      assert edges'[i].src == dup[i].src;
      assert i < |edges| ==> dup[i].src == edges[i].src;
    }
  }

  /** What `rbi->next` says along the chain of the growing trace. */
  lemma ChainFacts(s: Trail, n: nat)
    requires Chained(s, n) && n < |s.chains|
    ensures Linked(s.next, s.chains[n]) && NoDup(s.chains[n])
    ensures forall b :: b in s.chains[n] <==> At(s.visited, b) == n + 1
  {
    ChainNoDup(s.visited, s.pos, s.chains, n);
    assert Linked(s.next, s.chains[n]);
    forall b
      ensures b in s.chains[n] <==> At(s.visited, b) == n + 1
    {
      OnChain(s.visited, s.pos, s.chains, n, b);
    }
  }

  lemma FollowedOnly(edges: seq<Edge>, c: seq<Block>, h: nat, e: nat)
    requires Followed(edges, c) && 0 < h < |c| && e < |edges| && forall i ::
               0 <= i < |edges| && edges[i].src == c[h - 1] ==> i == e
    ensures edges[e].dest == c[h]
  {
    assert Step(edges, c, h);
  }

  lemma IndexFrom(c: seq<Block>, h: nat, b: Block) returns (j: nat)
    requires h <= |c| && b in Part(c, h, |c|)
    ensures h <= j < |c| && c[j] == b
  {
    var i :| 0 <= i < |Part(c, h, |c|)| && Part(c, h, |c|)[i] == b;
    j := h + i;
  }

  lemma InBlocks(blocks: set<Block>, edges: seq<Edge>, visited: map<Block, nat>, i: nat)
    requires EdgesOk(blocks, edges, visited) && i < |edges| && edges[i].dest != NONE && At(visited, edges[i].dest) == 0
    ensures edges[i].dest in blocks
  {
  }

  /** The end of the growing trace is a block. */
  lemma OnNone(s: Trail, n: nat)
    requires Chained(s, n) && n < |s.chains| && s.chains[n] != []
    ensures Last(s.chains[n]) != NONE
  {
    OnChain(s.visited, s.pos, s.chains, n, Last(s.chains[n]));
  }

  lemma AllReached(blocks: set<Block>, edges0: seq<Edge>, edges: seq<Edge>, visited: map<Block, nat>, b: Block)
    requires Cover(blocks, edges0, edges, visited, map[], map[], NONE, NONE) && Reachable(edges0, b)
    ensures At(visited, b) != 0
  {
    var p: seq<Block> :| PathFromEntry(edges0, p) && Last(p) == b;
    CoverAll(blocks, edges0, edges, visited, p);
  }

  lemma {:induction false} LeastKey(heap: Heap) returns (b: Block)
    requires heap != map[]
    ensures b in heap && forall x :: x in heap ==> heap[b] <= heap[x]
    decreases |heap|
  {
    b :| b in heap;
    var rest := heap - {b};
    if rest != map[] {
      SmallerHeap(heap, b);
      var c := LeastKey(rest);
      assert forall x :: x in heap ==> x == b || x in rest;
      if heap[c] < heap[b] {
        b := c;
      }
    } else {
      assert forall x :: x in heap ==> x == b || x in rest;
    }
  }

  lemma SmallerHeap(heap: Heap, b: Block)
    requires b in heap
    ensures |heap - {b}| < |heap|
  {
    assert heap.Keys == (heap - {b}).Keys + {b};
  }

  lemma EnteredReachable(edges: seq<Edge>, b: Block)
    requires Entered(edges, b) && forall i {:trigger edges[i]} :: 0 <= i < |edges| && edges[i].src == NONE ==>
               edges[i].dest != NONE
    ensures Reachable(edges, b)
  {
    var p: seq<Block> := [b];
    assert PathFromEntry(edges, p) && Last(p) == b;
  }

  lemma SomeTrace(s: Trail, n: nat, b: Block)
    requires Chained(s, n) && At(s.visited, b) != 0
    ensures s.traces != []
  {
  }

  /** A finished trace holds the block it was started from. */
  lemma StartVisited(s: Trail, n: nat, k: nat)
    requires Chained(s, n) && k < n
    ensures k < |s.starts| && At(s.visited, s.starts[k]) == k + 1
  {
    assert StartOk(s.starts, s.chains, s.visited, s.blocks, s.firstBlock, k);
    assert DoneTrace(s.traces, s.chains, s.next, s.startOf, s.endOf, k);
  }
}
