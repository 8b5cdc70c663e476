/**
 What the search for traces (bb-reorder.c, `find_traces`) keeps: which blocks
 the heaps must hold, and the chains of finished and growing traces.
 */
module TraceSearch {
  import opened Helpers
  import opened TraceChains
  import opened FlowEdges

  type Heap = map<Block, int>

  // ----- the heaps -----

  /** Block `d` needs no more attention: it is on a trace or in a heap. */
  ghost predicate Known(visited: map<Block, nat>, heap: Heap, newHeap: Heap, d: Block) {
    d == NONE || At(visited, d) != 0 || d in heap || d in newHeap
  }

  /** Successors of visited blocks and of the entry block are known, except
      perhaps block `a` and the successors of block `b`. */
  ghost predicate Frontier(edges: seq<Edge>, visited: map<Block, nat>, heap: Heap, newHeap: Heap, a: Block, b: Block) {
    forall i {:trigger edges[i]} :: 0 <= i < |edges| && (edges[i].src == NONE || At(visited, edges[i].src) != 0) ==>
      Known(visited, heap, newHeap, edges[i].dest) || edges[i].dest == a || Leads(edges, b, edges[i].dest)
  }

  /** The heaps hold original blocks that are not visited, each in one heap. */
  ghost predicate HeapsOk(blocks: set<Block>, visited: map<Block, nat>, heap: Heap, newHeap: Heap) {
    && (forall b {:trigger b in heap} :: b in heap ==> b in blocks && At(visited, b) == 0 && b !in newHeap)
    && (forall b {:trigger b in newHeap} :: b in newHeap ==> b in blocks && At(visited, b) == 0)
  }

  /** Edges lead to original blocks, or to copies, which are on traces. */
  ghost predicate EdgesOk(blocks: set<Block>, edges: seq<Edge>, visited: map<Block, nat>) {
    forall i {:trigger edges[i]} :: 0 <= i < |edges| ==>
      edges[i].dest == NONE || edges[i].dest in blocks || At(visited, edges[i].dest) != 0
  }

  /** An original edge still leads where it did, or its destination is on a trace. */
  ghost predicate Descends(edges0: seq<Edge>, edges: seq<Edge>, visited: map<Block, nat>) {
    && |edges0| <= |edges|
    && forall i {:trigger edges[i]} {:trigger edges0[i]} :: 0 <= i < |edges0| ==>
         edges[i].src == edges0[i].src && (edges[i].dest == edges0[i].dest || At(visited, edges0[i].dest) != 0)
  }

  ghost predicate Cover(blocks: set<Block>, edges0: seq<Edge>, edges: seq<Edge>, visited: map<Block, nat>, heap: Heap,
                        newHeap: Heap, a: Block, b: Block) {
    && Frontier(edges, visited, heap, newHeap, a, b) && HeapsOk(blocks, visited, heap, newHeap)
    && EdgesOk(blocks, edges, visited) && Descends(edges0, edges, visited)
  }

  /** `mark_bb_visited` */
  lemma CoverVisit(blocks: set<Block>, edges0: seq<Edge>, edges: seq<Edge>, visited: map<Block, nat>, heap: Heap,
                   newHeap: Heap, bb: Block, n: nat)
    requires Cover(blocks, edges0, edges, visited, heap, newHeap, bb, bb) && n > 0 && bb != NONE
    ensures Cover(blocks, edges0, edges, visited[bb := n], heap - {bb}, newHeap - {bb}, NONE, bb)
  {
    var visited' := visited[bb := n];
    assert forall b {:trigger At(visited', b)} :: At(visited, b) != 0 ==> At(visited', b) != 0;
    forall i {:trigger edges[i]} | 0 <= i < |edges| && (edges[i].src == NONE || At(visited', edges[i].src) != 0)
      ensures Known(visited', heap - {bb}, newHeap - {bb}, edges[i].dest) || Leads(edges, bb, edges[i].dest)
    {
      if edges[i].src != bb {
        assert At(visited', edges[i].src) == At(visited, edges[i].src);
      }
    }
  }

  /** Once all successors of `bb` but the one along edge `best` are known, only
      that one is open. */
  lemma CoverSuccs(blocks: set<Block>, edges0: seq<Edge>, edges: seq<Edge>, visited: map<Block, nat>, heap: Heap,
                   newHeap: Heap,
                   heap': Heap, newHeap': Heap, bb: Block, best: int)
    requires Cover(blocks, edges0, edges, visited, heap, newHeap, NONE, bb) && HeapsOk(blocks, visited, heap', newHeap')
    requires -1 <= best < |edges|
    requires heap.Keys <= heap'.Keys && newHeap.Keys <= newHeap'.Keys
    requires forall i :: 0 <= i < |edges| && i != best && edges[i].src == bb ==>
               Known(visited, heap', newHeap', edges[i].dest)
    ensures Cover(blocks, edges0, edges, visited, heap', newHeap', if best == -1 then NONE else edges[best].dest, NONE)
  {
    var d := if best == -1 then NONE else edges[best].dest;
    forall i {:trigger edges[i]} | 0 <= i < |edges| && (edges[i].src == NONE || At(visited, edges[i].src) != 0)
      ensures Known(visited, heap', newHeap', edges[i].dest) || edges[i].dest == d
    {
      if !Known(visited, heap, newHeap, edges[i].dest) {
        var j :| 0 <= j < |edges| && edges[j].src == bb && edges[j].dest == edges[i].dest;
      }
    }
  }

  /** The open block is the next one, is not open after all, or is led to by the next one. */
  lemma CoverOpen(blocks: set<Block>, edges0: seq<Edge>, edges: seq<Edge>, visited: map<Block, nat>, heap: Heap,
                  newHeap: Heap, d: Block, bb: Block)
    requires Cover(blocks, edges0, edges, visited, heap, newHeap, d, NONE)
    requires bb == d || At(visited, d) != 0 || Leads(edges, bb, d)
    ensures Cover(blocks, edges0, edges, visited, heap, newHeap, bb, bb)
  {
  }

  lemma CoverShut(blocks: set<Block>, edges0: seq<Edge>, edges: seq<Edge>, visited: map<Block, nat>, heap: Heap,
                  newHeap: Heap, d: Block)
    requires Cover(blocks, edges0, edges, visited, heap, newHeap, d, NONE) && At(visited, d) != 0
    ensures Cover(blocks, edges0, edges, visited, heap, newHeap, NONE, NONE)
  {
  }

  /** Taking block `bb` out of a heap leaves it open. */
  lemma CoverExtract(blocks: set<Block>, edges0: seq<Edge>, edges: seq<Edge>, visited: map<Block, nat>, heap: Heap,
                     newHeap: Heap, bb: Block)
    requires Cover(blocks, edges0, edges, visited, heap, newHeap, NONE, NONE) && bb in heap
    ensures Cover(blocks, edges0, edges, visited, heap - {bb}, newHeap, bb, bb)
    ensures bb in blocks && At(visited, bb) == 0 && bb !in newHeap
  {
  }

  /** Moving it to the heap of the next round. */
  lemma CoverDefer(blocks: set<Block>, edges0: seq<Edge>, edges: seq<Edge>, visited: map<Block, nat>, heap: Heap,
                   newHeap: Heap, bb: Block, key: int)
    requires Cover(blocks, edges0, edges, visited, heap, newHeap, NONE, NONE) && bb in heap
    ensures Cover(blocks, edges0, edges, visited, heap - {bb}, newHeap[bb := key], NONE, NONE)
  {
  }

  /** Only which blocks the heaps hold matters, and a round's new heap becomes the next one's. */
  lemma CoverKeys(blocks: set<Block>, edges0: seq<Edge>, edges: seq<Edge>, visited: map<Block, nat>, heap: Heap,
                  newHeap: Heap, heap': Heap, newHeap': Heap)
    requires Cover(blocks, edges0, edges, visited, heap, newHeap, NONE, NONE)
    requires (heap'.Keys == heap.Keys && newHeap'.Keys == newHeap.Keys)
             || (heap == map[] && heap' == newHeap && newHeap' == map[])
    ensures Cover(blocks, edges0, edges, visited, heap', newHeap', NONE, NONE)
  {
    assert forall b {:trigger b in heap} :: b in heap <==> b in heap.Keys;
    assert forall b {:trigger b in newHeap} :: b in newHeap <==> b in newHeap.Keys;
    assert forall b {:trigger b in heap'} :: b in heap' <==> b in heap'.Keys;
    assert forall b {:trigger b in newHeap'} :: b in newHeap' <==> b in newHeap'.Keys;
    forall i {:trigger edges[i]} | 0 <= i < |edges| && (edges[i].src == NONE || At(visited, edges[i].src) != 0)
      ensures Known(visited, heap', newHeap', edges[i].dest)
    {
      assert Known(visited, heap, newHeap, edges[i].dest);
    }
  }

  /** Copying a block that is on a trace, along an edge to it. */
  lemma CoverCopy(blocks: set<Block>, edges0: seq<Edge>, edges: seq<Edge>, visited: map<Block, nat>, heap: Heap,
                  newHeap: Heap,
                  edges': seq<Edge>, e: nat, copy: Block, n: nat)
    requires Cover(blocks, edges0, edges, visited, heap, newHeap, NONE, NONE) && n > 0
    requires e < |edges| && SameGraph(edges', Duplicated(edges, e, copy)) && At(visited, edges[e].dest) != 0
    requires copy != NONE && copy !in blocks && At(visited, copy) == 0
    requires forall i :: 0 <= i < |edges| ==> edges[i].src != copy
    ensures Cover(blocks, edges0, edges', visited[copy := n], heap, newHeap, NONE, NONE)
  {
    var visited' := visited[copy := n];
    assert forall b {:trigger At(visited', b)} :: At(visited, b) != 0 ==> At(visited', b) != 0;
    var dup := Duplicated(edges, e, copy);
    forall i {:trigger edges'[i]} | 0 <= i < |edges'|
      ensures edges'[i].dest == NONE || edges'[i].dest in blocks || At(visited', edges'[i].dest) != 0
      ensures edges'[i].src == NONE || At(visited', edges'[i].src) != 0 ==>
                Known(visited', heap, newHeap, edges'[i].dest)
    {
      assert edges'[i].src == dup[i].src && edges'[i].dest == dup[i].dest;
      if i >= |edges| {
        var k := OutEdgeFrom(edges, edges[e].dest, i - |edges|);
        assert Known(visited, heap, newHeap, edges[k].dest);
      } else {
        assert dup[i].src == edges[i].src;
      }
    }
    forall i {:trigger edges'[i]} {:trigger edges0[i]} | 0 <= i < |edges0|
      ensures edges'[i].src == edges0[i].src && (edges'[i].dest == edges0[i].dest || At(visited', edges0[i].dest) != 0)
    {
      assert edges'[i].src == dup[i].src && edges'[i].dest == dup[i].dest;
      assert edges[i].src == edges0[i].src;
    }
  }

  /** When the heaps are empty every block reachable along the original edges is on a trace. */
  lemma {:induction false} CoverAll(blocks: set<Block>, edges0: seq<Edge>, edges: seq<Edge>, visited: map<Block, nat>,
                                    p: seq<Block>)
    requires Cover(blocks, edges0, edges, visited, map[], map[], NONE, NONE) && PathFromEntry(edges0, p)
    ensures At(visited, Last(p)) != 0
  {
    if |p| == 1 {
      var i :| 0 <= i < |edges0| && edges0[i].src == NONE && edges0[i].dest == p[0];
      assert edges[i].src == NONE;
    } else {
      var q := p[..|p| - 1];
      forall i {:trigger Step(edges0, q, i)} | 0 < i < |q|
        ensures Step(edges0, q, i)
      {
        assert Step(edges0, p, i);
      }
      CoverAll(blocks, edges0, edges, visited, q);
      assert Step(edges0, p, |p| - 1);
      var i :| 0 <= i < |edges0| && edges0[i].src == Last(q) && edges0[i].dest == Last(p);
      assert edges[i].src == Last(q);
    }
  }

  // ----- finished traces -----

  /** Trace `k` is finished: it starts and ends where its chain does, nothing
      follows it, and its end blocks know it. */
  ghost predicate DoneTrace(traces: seq<Trace>, chains: seq<seq<Block>>, next: map<Block, Block>,
                            startOf: map<Block, nat>, endOf: map<Block, nat>, k: nat) {
    && k < |traces| && StartsAt(chains, k, traces[k].first) && EndsAt(chains, k, traces[k].last)
    && At(next, traces[k].last) == NONE
    && traces[k].first in startOf && startOf[traces[k].first] == k && traces[k].last in endOf
    && endOf[traces[k].last] == k
  }

  ghost predicate StartsAt(chains: seq<seq<Block>>, k: nat, b: Block) {
    k < |chains| && chains[k] != [] && chains[k][0] == b
  }

  ghost predicate EndsAt(chains: seq<seq<Block>>, k: nat, b: Block) {
    k < |chains| && chains[k] != [] && Last(chains[k]) == b
  }

  /** The first `n` traces are finished, and no block takes another for its trace. */
  ghost predicate Done(traces: seq<Trace>, chains: seq<seq<Block>>, next: map<Block, Block>, startOf: map<Block, nat>,
                       endOf: map<Block, nat>, n: nat) {
    && n <= |traces| && n <= |chains|
    && (forall k {:trigger DoneTrace(traces, chains, next, startOf, endOf, k)} :: 0 <= k < n ==>
          DoneTrace(traces, chains, next, startOf, endOf, k))
    && (forall b :: b in startOf ==> startOf[b] < n && StartsAt(chains, startOf[b], b))
    && (forall b :: b in endOf ==> endOf[b] < n && EndsAt(chains, endOf[b], b))
  }

  /** Blocks that are on no trace lead nowhere. */
  ghost predicate Idle(next: map<Block, Block>, visited: map<Block, nat>) {
    forall b {:trigger At(next, b)} {:trigger At(visited, b)} :: At(visited, b) == 0 ==> At(next, b) == NONE
  }

  /** Changes outside the chains of the first `n` traces leave those finished. */
  lemma DoneKept(traces: seq<Trace>, chains: seq<seq<Block>>, next: map<Block, Block>, startOf: map<Block, nat>,
                 endOf: map<Block, nat>, n: nat,
                 visited: map<Block, nat>, pos: map<Block, nat>, traces': seq<Trace>, chains': seq<seq<Block>>,
                     next': map<Block, Block>)
    requires Done(traces, chains, next, startOf, endOf, n) && Placed(visited, pos, chains)
    requires n <= |traces'| && n <= |chains'|
    requires forall k :: 0 <= k < n ==> traces'[k] == traces[k] && chains'[k] == chains[k]
    requires forall b {:trigger At(next', b)} :: 0 < At(visited, b) <= n ==> At(next', b) == At(next, b)
    ensures Done(traces', chains', next', startOf, endOf, n)
  {
    hide Placed;
    forall k {:trigger DoneTrace(traces', chains', next', startOf, endOf, k)} | 0 <= k < n
      ensures DoneTrace(traces', chains', next', startOf, endOf, k)
    {
      assert DoneTrace(traces, chains, next, startOf, endOf, k);
      OnChain(visited, pos, chains, k, traces[k].last);
    }
  }

  /** Finishing the trace that was growing. */
  lemma DoneMore(traces: seq<Trace>, chains: seq<seq<Block>>, next: map<Block, Block>, startOf: map<Block, nat>,
                 endOf: map<Block, nat>,
                 visited: map<Block, nat>, pos: map<Block, nat>, n: nat)
    requires Done(traces, chains, next, startOf, endOf, n) && Placed(visited, pos, chains)
    requires |traces| == |chains| == n + 1 && chains[n] != [] && traces[n].first == chains[n][0]
             && At(next, Last(chains[n])) == NONE
    ensures Done(traces[n := traces[n].(last := Last(chains[n]))], chains, next, startOf[chains[n][0] := n],
                 endOf[Last(chains[n]) := n], n + 1)
  {
    hide Placed;
    var traces', startOf', endOf' :=
        traces[n := traces[n].(last := Last(chains[n]))], startOf[chains[n][0] := n], endOf[Last(chains[n]) := n];
    forall k {:trigger DoneTrace(traces', chains, next, startOf', endOf', k)} | 0 <= k < n + 1
      ensures DoneTrace(traces', chains, next, startOf', endOf', k)
    {
      if k < n {
        assert DoneTrace(traces, chains, next, startOf, endOf, k);
        Distinct(visited, pos, chains, k, 0, n, 0);
        Distinct(visited, pos, chains, k, |chains[k]| - 1, n, |chains[n]| - 1);
      }
    }
  }

  // ----- the growing trace -----

  /** The block that `rbi->next` of the last block leads to joins the chain. */
  lemma GrownAlong(next: map<Block, Block>, chains: seq<seq<Block>>, k: nat, b: Block)
    requires AllLinked(next, chains) && k < |chains| && (chains[k] == [] || At(next, Last(chains[k])) == b)
    ensures AllLinked(next, Grown(chains, k, b))
  {
    var chains' := Grown(chains, k, b);
    forall m {:trigger chains'[m]} | 0 <= m < |chains'|
      ensures Linked(next, chains'[m])
    {
      assert Linked(next, chains[m]);
      if m == k {
        var c := chains'[m];
        forall i {:trigger At(next, c[i])} | 0 <= i < |c| - 1
          ensures At(next, c[i]) == c[i + 1]
        {
          assert c[i] == chains[k][i];
          if i < |chains[k]| - 1 {
            assert At(next, chains[k][i]) == chains[k][i + 1];
          }
        }
      }
    }
  }

  /** Trace `k` holds the block it was started from; the first block of the
      function stays in front. */
  ghost predicate StartOk(starts: seq<Block>, chains: seq<seq<Block>>, visited: map<Block, nat>, blocks: set<Block>,
                          firstBlock: Block, k: nat) {
    && k < |starts| == |chains| && starts[k] in blocks
    && (chains[k] != [] ==> At(visited, starts[k]) == k + 1 && (starts[k] == firstBlock ==> chains[k][0] == firstBlock))
  }

  /** The traces as the search leaves them behind: the original blocks and the first
      of them, links and marks, the traces, and for each its chain and the block it
      was started from. */
  datatype Trail = Trail(blocks: set<Block>, firstBlock: Block, next: map<Block, Block>, visited: map<Block, nat>,
                         pos: map<Block, nat>, traces: seq<Trace>, chains: seq<seq<Block>>, starts: seq<Block>,
                         startOf: map<Block, nat>, endOf: map<Block, nat>)

  /** The traces are disjoint chains, the first `n` of them finished. */
  ghost predicate Chained(s: Trail, n: nat) {
    && |s.traces| == |s.chains| == |s.starts| && n <= |s.chains|
    && Placed(s.visited, s.pos, s.chains) && AllLinked(s.next, s.chains) && Idle(s.next, s.visited)
    && Done(s.traces, s.chains, s.next, s.startOf, s.endOf, n)
    && (forall k {:trigger StartOk(s.starts, s.chains, s.visited, s.blocks, s.firstBlock, k)} :: 0 <= k < |s.starts| ==>
          StartOk(s.starts, s.chains, s.visited, s.blocks, s.firstBlock, k))
  }

  /** An empty trace at the end. */
  lemma ChainBegin(s: Trail, n: nat, t: Trace, b: Block)
    requires Chained(s, n) && n == |s.chains| && b in s.blocks
    ensures Chained(s.(traces := s.traces + [t], chains := s.chains + [[]], starts := s.starts + [b]), n)
  {
    var traces', chains', starts' := s.traces + [t], s.chains + [[]], s.starts + [b];
    DoneKept(s.traces, s.chains, s.next, s.startOf, s.endOf, n, s.visited, s.pos, traces', chains', s.next);
    forall k {:trigger StartOk(starts', chains', s.visited, s.blocks, s.firstBlock, k)} | 0 <= k < |starts'|
      ensures StartOk(starts', chains', s.visited, s.blocks, s.firstBlock, k)
    {
      if k < n {
        assert StartOk(s.starts, s.chains, s.visited, s.blocks, s.firstBlock, k);
      }
    }
  }

  /** Block `bb`, which the growing trace `n` leads to, joins it. */
  lemma ChainVisit(s: Trail, n: nat, t: Trace, bb: Block)
    requires Chained(s, n) && |s.chains| == n + 1
    requires At(s.visited, bb) == 0 && bb != NONE
             && (if s.chains[n] == [] then bb == s.starts[n] else At(s.next, Last(s.chains[n])) == bb)
    ensures Chained(s.(visited := s.visited[bb := n + 1], pos := s.pos[bb := |s.chains[n]|], traces := s.traces[n := t],
                       chains := Grown(s.chains, n, bb)), n)
    ensures At(s.next, bb) == NONE
  {
    hide Placed, AllLinked;
    var visited', traces', chains' := s.visited[bb := n + 1], s.traces[n := t], Grown(s.chains, n, bb);
    assert At(s.visited, bb) == 0 ==> At(s.next, bb) == NONE;
    GrownPlaced(s.visited, s.pos, s.chains, n, bb);
    GrownAlong(s.next, s.chains, n, bb);
    DoneKept(s.traces, s.chains, s.next, s.startOf, s.endOf, n, s.visited, s.pos, traces', chains', s.next);
    forall k {:trigger StartOk(s.starts, chains', visited', s.blocks, s.firstBlock, k)} | 0 <= k < |s.starts|
      ensures StartOk(s.starts, chains', visited', s.blocks, s.firstBlock, k)
    {
      assert StartOk(s.starts, s.chains, s.visited, s.blocks, s.firstBlock, k);
    }
  }

  /** The end of the growing trace is led to a block. */
  lemma ChainLink(s: Trail, n: nat, d: Block)
    requires Chained(s, n) && |s.chains| == n + 1 && s.chains[n] != []
    ensures Chained(s.(next := s.next[Last(s.chains[n]) := d]), n)
  {
    hide Placed, AllLinked;
    var b := Last(s.chains[n]);
    OnChain(s.visited, s.pos, s.chains, n, b);
    EndsFree(s.next, s.visited, s.pos, s.chains, n, d);
    DoneKept(s.traces, s.chains, s.next, s.startOf, s.endOf, n, s.visited, s.pos, s.traces, s.chains, s.next[b := d]);
  }

  /** The chain of the growing trace becomes `c`. */
  lemma ChainReplace(s: Trail, n: nat,
                     t: Trace, c: seq<Block>, next': map<Block, Block>, visited': map<Block, nat>)
    requires Chained(s, n) && |s.chains| == n + 1 && s.chains[n] != []
    requires NoDup(c) && c != [] && Linked(next', c)
    requires forall b :: b in s.chains[n] ==> b in c
    requires forall b :: b in c && b !in s.chains[n] ==> b != NONE && At(s.visited, b) == 0
    requires forall b {:trigger At(visited', b)} :: At(visited', b) == if b in c then n + 1 else At(s.visited, b)
    requires forall b {:trigger At(next', b)} :: b !in c ==> At(next', b) == At(s.next, b)
    requires s.starts[n] == s.firstBlock ==> c[0] == s.firstBlock
    ensures Chained(s.(next := next', visited := visited', pos := Repositioned(s.pos, c), traces := s.traces[n := t],
                       chains := s.chains[n := c]), n)
  {
    hide Placed, AllLinked, NoDup, Repositioned;
    var chains', traces' := s.chains[n := c], s.traces[n := t];
    ReplacedPlaced(s.visited, s.pos, s.chains, n, c, visited');
    forall b {:trigger At(next', b)} | At(s.visited, b) != 0 && At(s.visited, b) != n + 1
      ensures At(next', b) == At(s.next, b)
    {
      OnChain(s.visited, s.pos, s.chains, n, b);
    }
    ReplacedLinked(s.next, s.visited, s.pos, s.chains, n, c, next');
    DoneKept(s.traces, s.chains, s.next, s.startOf, s.endOf, n, s.visited, s.pos, traces', chains', next');
    forall k {:trigger StartOk(s.starts, chains', visited', s.blocks, s.firstBlock, k)} | 0 <= k < |s.starts|
      ensures StartOk(s.starts, chains', visited', s.blocks, s.firstBlock, k)
    {
      assert StartOk(s.starts, s.chains, s.visited, s.blocks, s.firstBlock, k);
      OnChain(s.visited, s.pos, s.chains, n, s.starts[k]);
    }
    forall b {:trigger At(next', b)} {:trigger At(visited', b)} | At(visited', b) == 0
      ensures At(next', b) == NONE
    {
      assert At(s.visited, b) == 0 ==> At(s.next, b) == NONE;
    }
  }

  lemma ReplacedLinked(next: map<Block, Block>, visited: map<Block, nat>, pos: map<Block, nat>, chains: seq<seq<Block>>,
                       n: nat, c: seq<Block>, next': map<Block, Block>)
    requires AllLinked(next, chains) && Placed(visited, pos, chains) && n < |chains| && Linked(next', c)
    requires forall b {:trigger At(next', b)} :: At(visited, b) != 0 && At(visited, b) != n + 1 ==>
               At(next', b) == At(next, b)
    ensures AllLinked(next', chains[n := c])
  {
    var chains' := chains[n := c];
    forall m {:trigger chains'[m]} | 0 <= m < |chains'|
      ensures Linked(next', chains'[m])
    {
      assert Linked(next, chains[m]);
      if m != n {
        forall i {:trigger At(next', chains'[m][i])} | 0 <= i < |chains'[m]| - 1
          ensures At(next', chains'[m][i]) == chains'[m][i + 1]
        {
          assert At(next, chains[m][i]) == chains[m][i + 1];
          assert At(visited, chains[m][i]) == m + 1;
        }
      }
    }
  }

  /** The growing trace is finished. */
  lemma ChainDone(s: Trail, n: nat)
    requires Chained(s, n) && |s.chains| == n + 1
    requires s.chains[n] != [] && s.traces[n].first == s.chains[n][0] && At(s.next, Last(s.chains[n])) == NONE
    ensures Chained(s.(traces := s.traces[n := s.traces[n].(last := Last(s.chains[n]))],
                       startOf := s.startOf[s.chains[n][0] := n], endOf := s.endOf[Last(s.chains[n]) := n]), n + 1)
  {
    DoneMore(s.traces, s.chains, s.next, s.startOf, s.endOf, s.visited, s.pos, n);
  }

  /** There are no more traces than original blocks. */
  lemma {:induction false} TracesBound(blocks: set<Block>, starts: seq<Block>)
    requires forall k :: 0 <= k < |starts| ==> starts[k] in blocks
    requires NoDup(starts)
    ensures |starts| <= |blocks|
  {
    if starts != [] {
      var m := |starts| - 1;
      TracesBound(blocks - {starts[m]}, starts[..m]);
    }
  }

  lemma StartsDistinct(s: Trail, n: nat)
    requires Chained(s, n) && n == |s.chains|
    ensures |s.traces| <= |s.blocks|
    ensures s.traces != [] ==>
              s.chains[0] != [] && s.traces[0].first == s.chains[0][0]
              && (s.starts[0] == s.firstBlock ==> s.traces[0].first == s.firstBlock)
  {
    forall k | 0 <= k < |s.starts|
      ensures s.starts[k] in s.blocks && At(s.visited, s.starts[k]) == k + 1
    {
      assert StartOk(s.starts, s.chains, s.visited, s.blocks, s.firstBlock, k);
      assert DoneTrace(s.traces, s.chains, s.next, s.startOf, s.endOf, k);
    }
    TracesBound(s.blocks, s.starts);
    if s.traces != [] {
      assert StartOk(s.starts, s.chains, s.visited, s.blocks, s.firstBlock, 0);
      assert DoneTrace(s.traces, s.chains, s.next, s.startOf, s.endOf, 0);
    }
  }

  // ----- replacing the chain of the growing trace -----

  lemma ChainNoDup(visited: map<Block, nat>, pos: map<Block, nat>, chains: seq<seq<Block>>, k: nat)
    requires Placed(visited, pos, chains) && k < |chains|
    ensures NoDup(chains[k])
  {
    forall i, j {:trigger chains[k][i], chains[k][j]} | 0 <= i < j < |chains[k]|
      ensures chains[k][i] != chains[k][j]
    {
      Distinct(visited, pos, chains, k, i, k, j);
    }
  }

  ghost function IndexOf(c: seq<Block>, b: Block): (i: nat)
    requires b in c
    ensures i < |c| && c[i] == b
  {
    var i: nat :| i < |c| && c[i] == b;
    i
  }

  ghost function Repositioned(pos: map<Block, nat>, c: seq<Block>): map<Block, nat> {
    pos + map b | b in c :: IndexOf(c, b)
  }

  /** Chain `k` may be replaced by one of the same blocks, perhaps with a new one. */
  lemma ReplacedPlaced(visited: map<Block, nat>, pos: map<Block, nat>, chains: seq<seq<Block>>, k: nat, c: seq<Block>,
                       visited': map<Block, nat>)
    requires Placed(visited, pos, chains) && k < |chains| && NoDup(c)
    requires forall b :: b in chains[k] ==> b in c
    requires forall b :: b in c && b !in chains[k] ==> b != NONE && At(visited, b) == 0
    requires forall b {:trigger At(visited', b)} :: At(visited', b) == if b in c then k + 1 else At(visited, b)
    ensures Placed(visited', Repositioned(pos, c), chains[k := c])
  {
    hide Repositioned, NoDup;
    var pos', chains' := Repositioned(pos, c), chains[k := c];
    forall m, i {:trigger chains'[m][i]} | 0 <= m < |chains'| && 0 <= i < |chains'[m]|
      ensures chains'[m][i] != NONE && At(visited', chains'[m][i]) == m + 1 && At(pos', chains'[m][i]) == i
    {
      var b := chains'[m][i];
      RepositionedAt(pos, c, b);
      if m == k {
        assert b in c;
        RepositionedIn(pos, c, i);
        OnChain(visited, pos, chains, k, b);
      } else {
        assert chains[m][i] == b;
        OnChain(visited, pos, chains, k, b);
      }
    }
    forall b {:trigger At(visited', b)} | At(visited', b) != 0
      ensures At(visited', b) <= |chains'| && At(pos', b) < |chains'[At(visited', b) - 1]|
              && chains'[At(visited', b) - 1][At(pos', b)] == b
    {
      RepositionedAt(pos, c, b);
      OnChain(visited, pos, chains, k, b);
      if b in c {
        RepositionedIn(pos, c, IndexOf(c, b));
      }
    }
  }

  lemma OnChain(visited: map<Block, nat>, pos: map<Block, nat>, chains: seq<seq<Block>>, k: nat, b: Block)
    requires Placed(visited, pos, chains) && k < |chains|
    ensures b in chains[k] <==> At(visited, b) == k + 1
    ensures b in chains[k] ==> b != NONE
  {
  }

  lemma OnTrail(s: Trail, n: nat, b: Block)
    requires Chained(s, n) && n < |s.chains| && At(s.visited, b) == n + 1
    ensures At(s.pos, b) < |s.chains[n]| && s.chains[n][At(s.pos, b)] == b
  {
    hide AllLinked, Idle, Done, StartOk;
  }

  lemma RepositionedAt(pos: map<Block, nat>, c: seq<Block>, b: Block)
    ensures b !in c ==> At(Repositioned(pos, c), b) == At(pos, b)
  {
  }

  lemma RepositionedIn(pos: map<Block, nat>, c: seq<Block>, i: nat)
    requires NoDup(c) && i < |c|
    ensures At(Repositioned(pos, c), c[i]) == i
  {
    var j := IndexOf(c, c[i]);
    assert c[j] == c[i];
  }

  // ----- rotating a loop at the end of a chain -----

  /** The loop `c[h..]` turned so that it ends at `c[j]`, with `mid` before it. */
  ghost function Rotated(c: seq<Block>, h: nat, j: nat, mid: seq<Block>): seq<Block>
    requires h <= j < |c|
  {
    c[..h] + mid + c[j + 1..] + c[h..j + 1]
  }

  /** `rbi->next` after `rotate_loop`. */
  ghost function Turned(next: map<Block, Block>, c: seq<Block>, h: nat, j: nat, mid: seq<Block>): map<Block, Block>
    requires h <= j < |c| && |mid| <= 1 && (mid != [] ==> h > 0)
  {
    var next1 := if h == 0 then next else next[c[h - 1] := At(next, c[j])];
    var next2 := if mid == [] then next1 else next1[mid[0] := At(next1, c[h - 1])][c[h - 1] := mid[0]];
    next2[c[j] := NONE]
  }

  /** Rotation keeps the blocks, and adds at most the copied header. */
  lemma RotatedSame(c: seq<Block>, h: nat, j: nat, mid: seq<Block>)
    requires h <= j < |c|
    ensures multiset(Rotated(c, h, j, mid)) == multiset(c) + multiset(mid)
    ensures |Rotated(c, h, j, mid)| == |c| + |mid| && Last(Rotated(c, h, j, mid)) == c[j]
            && c[..h] <= Rotated(c, h, j, mid)
  {
    assert c == c[..h] + c[h..j + 1] + c[j + 1..];
    PartsSame(c[..h], mid, c[j + 1..], c[h..j + 1]);
  }

  lemma PartsSame(p: seq<Block>, mid: seq<Block>, r: seq<Block>, q: seq<Block>)
    ensures multiset(p + mid + r + q) == multiset(p + q + r) + multiset(mid)
  {
    assert multiset(p + mid + r + q) == multiset(p) + multiset(mid) + multiset(r) + multiset(q);
    assert multiset(p + q + r) == multiset(p) + multiset(q) + multiset(r);
  }

  /** Where the `x`-th block of the rotated chain was; -1 for the copy. */
  ghost function Origin(c: seq<Block>, h: nat, j: nat, mid: seq<Block>, x: nat): int
    requires h <= j < |c|
  {
    var m := h + |mid|;
    if x < h then x else if x < m then -1 else if x < m + |c| - j - 1 then x - m + j + 1 else x - m - (|c| - j - 1) + h
  }

  lemma RotatedAt(c: seq<Block>, h: nat, j: nat, mid: seq<Block>, x: nat)
    requires h <= j < |c| && |mid| <= 1 && x < |Rotated(c, h, j, mid)|
    ensures var o := Origin(c, h, j, mid, x);
            if o == -1 then mid != [] && Rotated(c, h, j, mid)[x] == mid[0]
                else 0 <= o < |c| && Rotated(c, h, j, mid)[x] == c[o]
  {
  }

  lemma RotatedNoDup(c: seq<Block>, h: nat, j: nat, mid: seq<Block>)
    requires h <= j < |c| && NoDup(c) && |mid| <= 1 && (mid != [] ==> mid[0] !in c)
    ensures NoDup(Rotated(c, h, j, mid))
    ensures forall b :: b in Rotated(c, h, j, mid) <==> b in c || b in mid
  {
    hide Rotated;
    var r := Rotated(c, h, j, mid);
    RotatedSame(c, h, j, mid);
    forall i, k {:trigger r[i], r[k]} | 0 <= i < k < |r|
      ensures r[i] != r[k]
    {
      RotatedAt(c, h, j, mid, i);
      RotatedAt(c, h, j, mid, k);
      var o, q := Origin(c, h, j, mid, i), Origin(c, h, j, mid, k);
      if o != -1 && q != -1 {
        assert c[o] != c[q];
      }
    }
    forall b
      ensures b in r <==> b in c || b in mid
    {
      assert b in r <==> b in multiset(r);
    }
  }

  lemma RotatedLinked(next: map<Block, Block>, c: seq<Block>, h: nat, j: nat, mid: seq<Block>)
    requires h <= j < |c| && NoDup(c) && |mid| <= 1 && (mid != [] ==> h > 0 && mid[0] !in c)
    requires Linked(next, c) && At(next, Last(c)) == c[h]
    ensures Linked(Turned(next, c, h, j, mid), Rotated(c, h, j, mid))
    ensures At(Turned(next, c, h, j, mid), c[j]) == NONE
    ensures forall b :: b !in c && b !in mid ==> At(Turned(next, c, h, j, mid), b) == At(next, b)
  {
    hide Rotated, NoDup;
    var r, next' := Rotated(c, h, j, mid), Turned(next, c, h, j, mid);
    RotatedSame(c, h, j, mid);
    forall i {:trigger At(next', r[i])} | 0 <= i < |r| - 1
      ensures At(next', r[i]) == r[i + 1]
    {
      RotatedAt(c, h, j, mid, i);
      RotatedAt(c, h, j, mid, i + 1);
      TurnedAt(next, c, h, j, mid, Origin(c, h, j, mid, i));
    }
    assert c[j] in c;
  }

  /** The new successor of a block of the loop's chain, or of the copy (-1). */
  lemma TurnedAt(next: map<Block, Block>, c: seq<Block>, h: nat, j: nat, mid: seq<Block>, o: int)
    requires h <= j < |c| && NoDup(c) && |mid| <= 1 && (mid != [] ==> h > 0 && mid[0] !in c)
    requires Linked(next, c) && At(next, Last(c)) == c[h]
    requires -1 <= o < |c| && o != j && (o == -1 ==> mid != [])
    ensures var d := if j + 1 < |c| then c[j + 1] else c[h];
            At(Turned(next, c, h, j, mid), if o == -1 then mid[0] else c[o]) ==
            if o == -1 then d else if h > 0 && o == h - 1 then (if mid == [] then d else mid[0])
                else if o + 1 < |c| then c[o + 1] else c[h]
  {
    assert At(next, c[j]) == if j + 1 < |c| then c[j + 1] else c[h];
    if o == -1 {
      assert c[j] in c && c[h - 1] in c;
      assert h > 0 ==> c[h - 1] != c[j];
    } else {
      assert At(next, c[o]) == if o + 1 < |c| then c[o + 1] else c[h];
      assert c[o] in c && c[o] != c[j];
      assert h > 0 && o != h - 1 ==> c[o] != c[h - 1];
    }
  }

  /** The trail with `copy` after the end of trace `n`. */
  ghost function CopiedEnd(s: Trail, n: nat, copy: Block): Trail
    requires n < |s.chains| && s.chains[n] != []
  {
    var c := s.chains[n] + [copy];
    s.(next := s.next[copy := NONE][Last(s.chains[n]) := copy], visited := s.visited[copy := n + 1],
       pos := Repositioned(s.pos, c), chains := s.chains[n := c])
  }

  lemma ChainCopy(s: Trail, n: nat, copy: Block)
    requires Chained(s, n) && |s.chains| == n + 1
    requires s.chains[n] != [] && copy != NONE && At(s.visited, copy) == 0 && At(s.next, Last(s.chains[n])) == NONE
    ensures Chained(CopiedEnd(s, n, copy), n)
    ensures At(s.next[copy := NONE][Last(s.chains[n]) := copy], copy) == NONE
  {
    hide Placed, Done, Idle, Repositioned;
    var b, c := Last(s.chains[n]), s.chains[n] + [copy];
    var next', visited' := s.next[copy := NONE][b := copy], s.visited[copy := n + 1];
    OnChain(s.visited, s.pos, s.chains, n, copy);
    OnChain(s.visited, s.pos, s.chains, n, b);
    ChainNoDup(s.visited, s.pos, s.chains, n);
    assert Linked(s.next, s.chains[n]);
    forall i {:trigger At(next', c[i])} | 0 <= i < |c| - 1
      ensures At(next', c[i]) == c[i + 1]
    {
      assert c[i] == s.chains[n][i] && c[i] in s.chains[n];
      if i < |s.chains[n]| - 1 {
        assert At(s.next, s.chains[n][i]) == s.chains[n][i + 1];
        assert s.chains[n][i] != b;
      }
    }
    forall x {:trigger At(visited', x)}
      ensures At(visited', x) == if x in c then n + 1 else At(s.visited, x)
    {
      OnChain(s.visited, s.pos, s.chains, n, x);
    }
    assert StartOk(s.starts, s.chains, s.visited, s.blocks, s.firstBlock, n);
    assert s.traces[n := s.traces[n]] == s.traces;
    ChainReplace(s, n, s.traces[n], c, next', visited');
  }

  /** The loop `c[h..]` at the end of the growing trace is rotated. */
  lemma ChainRotate(s: Trail, n: nat,
                    h: nat, j: nat, mid: seq<Block>, visited': map<Block, nat>, t: Trace)
    requires Chained(s, n) && |s.chains| == n + 1
    requires h <= j < |s.chains[n]| && At(s.next, Last(s.chains[n])) == s.chains[n][h] && s.chains[n][h] != s.firstBlock
    requires |mid| <= 1 && (mid != [] ==> h > 0 && mid[0] != NONE && At(s.visited, mid[0]) == 0)
    requires visited' == if mid == [] then s.visited else s.visited[mid[0] := n + 1]
    ensures var c := Rotated(s.chains[n], h, j, mid);
            && Chained(s.(next := Turned(s.next, s.chains[n], h, j, mid), visited := visited',
                          pos := Repositioned(s.pos, c), traces := s.traces[n := t], chains := s.chains[n := c]), n)
            && c != [] && Last(c) == s.chains[n][j] && c[0] == if h > 0 then s.chains[n][0]
                 else if j + 1 < |s.chains[n]| then s.chains[n][j + 1] else s.chains[n][0]
    ensures At(Turned(s.next, s.chains[n], h, j, mid), s.chains[n][j]) == NONE
  {
    hide Placed, Done, Idle, Repositioned, NoDup, Turned, Rotated, Linked;
    var c := Rotated(s.chains[n], h, j, mid);
    ChainNoDup(s.visited, s.pos, s.chains, n);
    if mid != [] {
      OnChain(s.visited, s.pos, s.chains, n, mid[0]);
    }
    assert Linked(s.next, s.chains[n]);
    RotatedNoDup(s.chains[n], h, j, mid);
    RotatedLinked(s.next, s.chains[n], h, j, mid);
    RotatedSame(s.chains[n], h, j, mid);
    RotatedAt(s.chains[n], h, j, mid, 0);
    forall x {:trigger At(visited', x)}
      ensures At(visited', x) == if x in c then n + 1 else At(s.visited, x)
    {
      OnChain(s.visited, s.pos, s.chains, n, x);
    }
    assert StartOk(s.starts, s.chains, s.visited, s.blocks, s.firstBlock, n);
    ChainReplace(s, n, t, c, Turned(s.next, s.chains[n], h, j, mid), visited');
  }
}
