/**
 `reorder_basic_blocks` of bb-reorder.c: the traces are found and connected.
 */
module Reorder {
  import opened Helpers
  import opened TraceChains
  import opened FlowEdges
  import opened TraceSearch
  import opened TraceChoices
  import opened FindTraces
  import opened LayoutMoves
  import opened ConnectTraces

  const DUPLICATION_THRESHOLD: nat := 100

  /** The thresholds for copying blocks. */
  function CopyLimits(maxFrequency: int, maxCount: int): Limits {
    Limits(CDiv(maxFrequency * DUPLICATION_THRESHOLD, 1000),
           if maxCount < INT_MAX / 1000 then CDiv(maxCount * DUPLICATION_THRESHOLD, 1000)
           else CDiv(maxCount, 1000) * DUPLICATION_THRESHOLD)
  }

  /** They are a tenth of what the most frequent entry block has. */
  lemma CopyLimitsAre(maxFrequency: nat, maxCount: nat)
    requires maxCount < INT_MAX / 1000
    ensures CopyLimits(maxFrequency, maxCount) == Limits(maxFrequency / 10, maxCount / 10)
  {
  }

  /** Following `next` from block `first` visits each block of `layout` once and
      ends. Every block reachable from the entry block is in it, the others are blocks of
      the function or copies, and if all entry edges lead to the first block of
      the function, it starts with that. Each trace grew as it should, and the traces were
      put in order by a run of moves. */
  method ReorderBlocks(f: Finder) returns (first: Block, next: map<Block, Block>, ghost layout: seq<Block>,
                                           ghost chains: seq<seq<Block>>, ghost log: seq<State>)
    requires f.Ready() && f.Bounded() && f.Traced(0) && f.traces == [] && f.heap == f.newHeap == map[]
    requires f.plan.scenes == [] && f.plan.demands == []
    requires f.scene.limit == f.limit0 && exists b: Block :: Entered(f.edges0, b)
    modifies f
    ensures layout != [] && layout[0] == first && Linked(next, layout) && At(next, Last(layout)) == NONE
    ensures forall i, j :: 0 <= i < j < |layout| ==> layout[i] != layout[j]
    ensures forall b: Block :: Reachable(f.edges0, b) ==> b in layout
    ensures forall b :: b in layout ==> b in f.blocks || f.limit0 <= b
    ensures (forall b: Block :: Entered(f.edges0, b) ==> b == f.target.firstBlock) ==> first == f.target.firstBlock
    ensures f.Grew(old(f.scene))
    ensures var rules :=
              Rules(CopyLimits(f.maxEntryFrequency, f.maxEntryCount), f.target.optimizeSize, f.target.copies);
            && log != [] && Ran(rules, log) && Ready(Last(log)) && AtRest(rules, Last(log))
            && log[0] == Unstitched(View(f.scene.edges, f.scene.startOf, f.scene.endOf, f.traces, [], f.scene.limit))
    ensures var order := Last(log).order;
            && (forall i :: 0 <= i < |order| ==> order[i] < |chains|) && (forall k: nat :: k < |chains| ==> k in order)
            && layout == Layout(chains, order) && |chains| == |f.plan.chains|
            && forall k :: 0 <= k < |chains| ==> f.plan.chains[k] <= chains[k]
  {
    hide Chained, Cover, Numbered, Reachable, Entered, Linked, Placed, History, Ran, AtRest, KeysRight, EntryMax;
    f.Find();
    first := f.traces[0].first;
    var freqThreshold := CDiv(f.maxEntryFrequency * DUPLICATION_THRESHOLD, 1000);
    var countThreshold := if f.maxEntryCount < INT_MAX / 1000
      then CDiv(f.maxEntryCount * DUPLICATION_THRESHOLD, 1000)
      else CDiv(f.maxEntryCount, 1000) * DUPLICATION_THRESHOLD;
    var rules := Rules(Limits(freqThreshold, countThreshold), f.target.optimizeSize, f.target.copies);
    var l := new Layouter(f.scene.edges, f.next, f.scene.startOf, f.scene.endOf, f.traces, f.scene.limit, rules,
                          f.plan.chains, f.scene.visited, f.plan.pos);
    Finished(f.Now(), |f.traces|);
    NumberedBelow(f.blocks, f.scene.edges, f.scene.visited, f.limit0, f.scene.limit);
    ghost var order;
    layout, order := l.Connect();
    next, chains, log := l.next, l.chains, l.log;
  }

  /** Finished traces are ready to be connected. */
  lemma Finished(s: Trail, n: nat)
    requires Chained(s, n) && n == |s.chains|
    ensures Ends(s.traces, s.chains) && AllLinked(s.next, s.chains) && Placed(s.visited, s.pos, s.chains)
    ensures KnownStarts(s.startOf, s.chains)
    ensures forall k: nat :: k < |s.chains| ==> LeadsNowhere(s.next, s.chains, k)
    ensures forall b :: b in s.endOf ==>
              s.endOf[b] < |s.chains| && s.chains[s.endOf[b]] != [] && Last(s.chains[s.endOf[b]]) == b
  {
    hide Placed, AllLinked;
    forall k: nat | k < n
      ensures s.chains[k] != [] && s.traces[k].first == s.chains[k][0] && s.traces[k].last == Last(s.chains[k])
              && LeadsNowhere(s.next, s.chains, k)
    {
      assert DoneTrace(s.traces, s.chains, s.next, s.startOf, s.endOf, k);
    }
  }

  lemma NumberedBelow(blocks: set<Block>, edges: seq<Edge>, visited: map<Block, nat>, limit0: Block, limit: Block)
    requires Numbered(blocks, edges, visited, limit0, limit)
    ensures NONE < limit && limit0 <= limit && forall b: Block {:trigger At(visited, b)} :: At(visited, b) != 0 ==>
              b < limit && (b in blocks || limit0 <= b)
  {
  }
}
