/**
 Chains of basic blocks (bb-reorder.c): the traces, linked through
 `rbi->next`, and what splicing does to them.
 */
module TraceChains {
  import opened Helpers

  type Block = nat

  /** No block; as a destination, the exit block. */
  const NONE: Block := 0

  /** `rbi->next` leads along `c`. */
  ghost predicate Linked(next: map<Block, Block>, c: seq<Block>) {
    forall i {:trigger At(next, c[i])} :: 0 <= i < |c| - 1 ==> At(next, c[i]) == c[i + 1]
  }

  /** `visited` and `pos` say of each block which chain it is on, counted from
      1, and where. */
  ghost predicate Placed(visited: map<Block, nat>, pos: map<Block, nat>, chains: seq<seq<Block>>) {
    && (forall k, i {:trigger chains[k][i]} :: 0 <= k < |chains| && 0 <= i < |chains[k]| ==>
          chains[k][i] != NONE && At(visited, chains[k][i]) == k + 1 && At(pos, chains[k][i]) == i)
    && (forall b {:trigger At(visited, b)} :: At(visited, b) != 0 ==>
          At(visited, b) <= |chains| && At(pos, b) < |chains[At(visited, b) - 1]|
              && chains[At(visited, b) - 1][At(pos, b)] == b)
  }

  /** No block is on a chain twice, or on two chains. */
  lemma Distinct(visited: map<Block, nat>, pos: map<Block, nat>, chains: seq<seq<Block>>, k: nat, i: nat, m: nat,
                 j: nat)
    requires Placed(visited, pos, chains) && k < |chains| && i < |chains[k]| && m < |chains| && j < |chains[m]|
    ensures chains[k][i] == chains[m][j] <==> k == m && i == j
  {
  }

  function Last<T>(s: seq<T>): T
    requires s != []
  {
    s[|s| - 1]
  }

  /** `struct trace` */
  datatype Trace = Trace(first: Block, last: Block, round: nat, length: nat)

  /** Each trace starts and ends where its chain does. */
  ghost predicate Ends(traces: seq<Trace>, chains: seq<seq<Block>>) {
    && |traces| == |chains|
    && (forall k {:trigger traces[k]} {:trigger chains[k]} :: 0 <= k < |chains| ==>
          chains[k] != [] && traces[k].first == chains[k][0] && traces[k].last == Last(chains[k]))
  }

  ghost predicate AllLinked(next: map<Block, Block>, chains: seq<seq<Block>>) {
    forall k {:trigger chains[k]} :: 0 <= k < |chains| ==> Linked(next, chains[k])
  }

  /** Redirecting the end of a chain disturbs no chain. */
  lemma EndsFree(next: map<Block, Block>, owner: map<Block, nat>, pos: map<Block, nat>, chains: seq<seq<Block>>, k: nat,
                 y: Block)
    requires AllLinked(next, chains) && Placed(owner, pos, chains) && k < |chains| && chains[k] != []
    ensures AllLinked(next[Last(chains[k]) := y], chains)
  {
    var next' := next[Last(chains[k]) := y];
    forall m {:trigger chains[m]} | 0 <= m < |chains|
      ensures Linked(next', chains[m])
    {
      assert Linked(next, chains[m]);
      forall i {:trigger At(next', chains[m][i])} | 0 <= i < |chains[m]| - 1
        ensures At(next', chains[m][i]) == chains[m][i + 1]
      {
        Distinct(owner, pos, chains, m, i, k, |chains[k]| - 1);
        assert At(next, chains[m][i]) == chains[m][i + 1];
      }
    }
  }

  /** Nothing follows chain `k` yet. */
  ghost predicate LeadsNowhere(next: map<Block, Block>, chains: seq<seq<Block>>, k: nat) {
    k < |chains| && chains[k] != [] && At(next, Last(chains[k])) == NONE
  }

  // ----- appending a new block to a chain -----

  ghost function Grown(chains: seq<seq<Block>>, k: nat, b: Block): seq<seq<Block>>
    requires k < |chains|
  {
    chains[k := chains[k] + [b]]
  }

  lemma GrownPlaced(owner: map<Block, nat>, pos: map<Block, nat>, chains: seq<seq<Block>>, k: nat, b: Block)
    requires Placed(owner, pos, chains) && k < |chains| && At(owner, b) == 0 && b != NONE
    ensures Placed(owner[b := k + 1], pos[b := |chains[k]|], Grown(chains, k, b))
  {
    var owner', pos', chains' := owner[b := k + 1], pos[b := |chains[k]|], Grown(chains, k, b);
    forall m, i {:trigger chains'[m][i]} | 0 <= m < |chains'| && 0 <= i < |chains'[m]|
      ensures chains'[m][i] != NONE && At(owner', chains'[m][i]) == m + 1 && At(pos', chains'[m][i]) == i
    {
      hide Placed;
      GrownBlock(owner, pos, chains, k, b, m, i);
    }
    forall x {:trigger At(owner', x)} | At(owner', x) != 0
      ensures At(owner', x) <= |chains'| && At(pos', x) < |chains'[At(owner', x) - 1]|
              && chains'[At(owner', x) - 1][At(pos', x)] == x
    {
      hide Placed;
      if x != b {
        WhereIs(owner, pos, chains, x);
      }
    }
  }

  /** A block of a chain that has grown is the new one, or was there before. */
  lemma GrownBlock(owner: map<Block, nat>, pos: map<Block, nat>, chains: seq<seq<Block>>, k: nat, b: Block, m: nat,
                   i: nat)
    requires Placed(owner, pos, chains) && k < |chains| && At(owner, b) == 0 && b != NONE
    requires m < |chains| && i < |Grown(chains, k, b)[m]|
    ensures var x := Grown(chains, k, b)[m][i];
            x != NONE && At(owner[b := k + 1], x) == m + 1 && At(pos[b := |chains[k]|], x) == i
  {
    if m != k || i < |chains[k]| {
      var x := chains[m][i];
      assert x != NONE && At(owner, x) == m + 1 && At(pos, x) == i;
      hide Placed;
      assert Grown(chains, k, b)[m][i] == x;
    }
  }

  lemma WhereIs(owner: map<Block, nat>, pos: map<Block, nat>, chains: seq<seq<Block>>, x: Block)
    requires Placed(owner, pos, chains) && At(owner, x) != 0
    ensures At(owner, x) <= |chains| && At(pos, x) < |chains[At(owner, x) - 1]|
            && chains[At(owner, x) - 1][At(pos, x)] == x
  {
  }

  lemma GrownLinked(next: map<Block, Block>, owner: map<Block, nat>, pos: map<Block, nat>, chains: seq<seq<Block>>,
                    k: nat, b: Block, y: Block)
    requires AllLinked(next, chains) && Placed(owner, pos, chains) && k < |chains| && chains[k] != []
             && At(owner, b) == 0
    ensures AllLinked(next[b := y][Last(chains[k]) := b], Grown(chains, k, b))
  {
    var next', chains' := next[b := y][Last(chains[k]) := b], Grown(chains, k, b);
    forall m {:trigger chains'[m]} | 0 <= m < |chains'|
      ensures Linked(next', chains'[m])
    {
      assert Linked(next, chains[m]);
      forall i {:trigger At(next', chains'[m][i])} | 0 <= i < |chains'[m]| - 1
        ensures At(next', chains'[m][i]) == chains'[m][i + 1]
      {
        Distinct(owner, pos, chains, m, i, k, |chains[k]| - 1);
        assert chains'[m][i] == chains[m][i];
        assert At(owner, chains[m][i]) == m + 1;
        if i < |chains[m]| - 1 {
          assert At(next, chains[m][i]) == chains[m][i + 1];
        }
      }
    }
  }

  // ----- runs of traces -----

  /** The traces of a run are distinct and each leads to the next. */
  ghost predicate Run(next: map<Block, Block>, chains: seq<seq<Block>>, run: seq<nat>) {
    && (forall i :: 0 <= i < |run| ==> run[i] < |chains| && chains[run[i]] != [])
    && (forall i, j :: 0 <= i < j < |run| ==> run[i] != run[j])
    && (forall i {:trigger Joint(next, chains, run, i)} :: 0 <= i < |run| - 1 ==> Joint(next, chains, run, i))
  }

  ghost predicate Joint(next: map<Block, Block>, chains: seq<seq<Block>>, run: seq<nat>, i: int) {
    && 0 <= i < |run| - 1 && run[i] < |chains| && run[i + 1] < |chains| && chains[run[i]] != []
    && chains[run[i + 1]] != []
    && At(next, Last(chains[run[i]])) == chains[run[i + 1]][0]
  }

  /** Two runs without a common trace become one when the end of the first is
      led to the start of the second. */
  lemma JoinRuns(next: map<Block, Block>, owner: map<Block, nat>, pos: map<Block, nat>, chains: seq<seq<Block>>,
                 a: seq<nat>, b: seq<nat>)
    requires Placed(owner, pos, chains) && Run(next, chains, a) && Run(next, chains, b) && a != [] && b != []
    requires forall i, j :: 0 <= i < |a| && 0 <= j < |b| ==> a[i] != b[j]
    ensures Run(next[Last(chains[Last(a)]) := chains[b[0]][0]], chains, a + b)
  {
    hide Placed;
    var next', run := next[Last(chains[Last(a)]) := chains[b[0]][0]], a + b;
    forall i {:trigger Joint(next', chains, run, i)} | 0 <= i < |run| - 1
      ensures Joint(next', chains, run, i)
    {
      var k := run[i];
      Distinct(owner, pos, chains, k, |chains[k]| - 1, Last(a), |chains[Last(a)]| - 1);
      if i < |a| - 1 {
        assert Joint(next, chains, a, i);
      } else if i >= |a| {
        assert Joint(next, chains, b, i - |a|);
      }
    }
  }

  lemma SingleRun(next: map<Block, Block>, chains: seq<seq<Block>>, k: nat)
    requires k < |chains| && chains[k] != []
    ensures Run(next, chains, [k])
  {
  }

  /** Redirecting the end of the last trace of a run, or of a trace outside it,
      keeps the run. */
  lemma RunFree(next: map<Block, Block>, owner: map<Block, nat>, pos: map<Block, nat>, chains: seq<seq<Block>>,
                run: seq<nat>, k: nat, y: Block)
    requires Placed(owner, pos, chains) && Run(next, chains, run) && k < |chains| && chains[k] != []
    requires k !in run || k == Last(run)
    ensures Run(next[Last(chains[k]) := y], chains, run)
  {
    var next' := next[Last(chains[k]) := y];
    forall i {:trigger Joint(next', chains, run, i)} | 0 <= i < |run| - 1
      ensures Joint(next', chains, run, i)
    {
      assert Joint(next, chains, run, i);
      var m := run[i];
      Distinct(owner, pos, chains, m, |chains[m]| - 1, k, |chains[k]| - 1);
    }
  }

  /** Growing the last trace of a run by a new block keeps the run. */
  lemma RunGrown(next: map<Block, Block>, owner: map<Block, nat>, pos: map<Block, nat>, chains: seq<seq<Block>>,
                 run: seq<nat>, b: Block, y: Block)
    requires Placed(owner, pos, chains) && Run(next, chains, run) && run != [] && At(owner, b) == 0
    ensures Run(next[b := y][Last(chains[Last(run)]) := b], Grown(chains, Last(run), b), run)
  {
    var k := Last(run);
    var next', chains' := next[b := y][Last(chains[k]) := b], Grown(chains, k, b);
    forall i {:trigger Joint(next', chains', run, i)} | 0 <= i < |run| - 1
      ensures Joint(next', chains', run, i)
    {
      assert Joint(next, chains, run, i);
      var m := run[i];
      assert m != k;
      Distinct(owner, pos, chains, m, |chains[m]| - 1, k, |chains[k]| - 1);
      assert At(owner, chains[m][|chains[m]| - 1]) == m + 1;
    }
  }

  // ----- the layout a run stands for -----

  ghost function Layout(chains: seq<seq<Block>>, run: seq<nat>): seq<Block>
    requires forall i :: 0 <= i < |run| ==> run[i] < |chains|
  {
    if run == [] then [] else chains[run[0]] + Layout(chains, run[1..])
  }

  lemma {:induction false} LayoutEnds(next: map<Block, Block>, chains: seq<seq<Block>>, run: seq<nat>)
    requires Run(next, chains, run) && run != []
    ensures Layout(chains, run) != [] && Layout(chains, run)[0] == chains[run[0]][0]
    ensures Last(Layout(chains, run)) == Last(chains[Last(run)])
  {
    if |run| > 1 {
      RunTail(next, chains, run);
      LayoutEnds(next, chains, run[1..]);
    } else {
      assert Layout(chains, run[1..]) == [];
    }
  }

  lemma RunTail(next: map<Block, Block>, chains: seq<seq<Block>>, run: seq<nat>)
    requires Run(next, chains, run) && run != []
    ensures Run(next, chains, run[1..])
  {
    var r := run[1..];
    forall i {:trigger Joint(next, chains, r, i)} | 0 <= i < |r| - 1
      ensures Joint(next, chains, r, i)
    {
      assert Joint(next, chains, run, i + 1);
    }
  }

  /** Following `rbi->next` from the start of a run goes through its layout. */
  lemma {:induction false} LayoutLinked(next: map<Block, Block>, chains: seq<seq<Block>>, run: seq<nat>)
    requires Run(next, chains, run) && AllLinked(next, chains)
    ensures Linked(next, Layout(chains, run))
  {
    if run != [] {
      RunTail(next, chains, run);
      LayoutLinked(next, chains, run[1..]);
      var c, rest := chains[run[0]], Layout(chains, run[1..]);
      assert Linked(next, c);
      if |run| > 1 {
        LayoutEnds(next, chains, run[1..]);
        assert Joint(next, chains, run, 0);
      }
      var l := c + rest;
      forall i {:trigger At(next, l[i])} | 0 <= i < |l| - 1
        ensures At(next, l[i]) == l[i + 1]
      {
        if i < |c| - 1 {
          assert At(next, c[i]) == c[i + 1];
        } else if i >= |c| {
          assert At(next, rest[i - |c|]) == rest[i - |c| + 1];
        }
      }
    }
  }

  /** The layout holds exactly the blocks of the traces of the run. */
  lemma {:induction false} LayoutBlocks(owner: map<Block, nat>, pos: map<Block, nat>, chains: seq<seq<Block>>,
                                        run: seq<nat>, b: Block)
    requires Placed(owner, pos, chains) && forall i :: 0 <= i < |run| ==> run[i] < |chains|
    ensures b in Layout(chains, run) <==> At(owner, b) != 0 && At(owner, b) - 1 in run
  {
    if run != [] {
      LayoutBlocks(owner, pos, chains, run[1..], b);
      var c := chains[run[0]];
      assert run == [run[0]] + run[1..];
      if b in c {
        var i :| 0 <= i < |c| && c[i] == b;
        assert At(owner, chains[run[0]][i]) == run[0] + 1;
      }
      if At(owner, b) == run[0] + 1 {
        assert c[At(pos, b)] == b;
      }
    }
  }

  /** Each of them once. */
  lemma {:induction false} LayoutDistinct(owner: map<Block, nat>, pos: map<Block, nat>, chains: seq<seq<Block>>,
                                          run: seq<nat>)
    requires Placed(owner, pos, chains) && (forall i :: 0 <= i < |run| ==> run[i] < |chains|)
    requires forall i, j :: 0 <= i < j < |run| ==> run[i] != run[j]
    ensures forall i, j :: 0 <= i < j < |Layout(chains, run)| ==> Layout(chains, run)[i] != Layout(chains, run)[j]
  {
    if run != [] {
      LayoutDistinct(owner, pos, chains, run[1..]);
      var c, rest := chains[run[0]], Layout(chains, run[1..]);
      var l := c + rest;
      forall i, j | 0 <= i < j < |l|
        ensures l[i] != l[j]
      {
        if j < |c| {
          Distinct(owner, pos, chains, run[0], i, run[0], j);
        } else if i < |c| {
          LayoutBlocks(owner, pos, chains, run[1..], l[j]);
          assert rest[j - |c|] == l[j];
          assert At(owner, chains[run[0]][i]) == run[0] + 1;
        } else {
          assert rest[i - |c|] != rest[j - |c|];
        }
      }
    }
  }
}
