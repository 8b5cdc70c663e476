/**
 Edges of the flow graph (basic-block.h) as bb-reorder.c reads them, and what
 duplicating a block does to them.
 */
module FlowEdges {
  import opened TraceChains

  const INT_MAX: nat := 0x7fff_ffff

  /** An edge; `NONE` as source is the entry block, as destination the exit
      block. `freq` is `EDGE_FREQUENCY`, `back` is `EDGE_DFS_BACK`. */
  datatype Edge = Edge(src: Block, dest: Block, prob: int, freq: int, count: int, fallthru: bool, complex: bool,
                       back: bool) {
    predicate Usable() {
      fallthru && !complex
    }
  }

  /** The edges out of a block. */
  function OutEdges(edges: seq<Edge>, b: Block): seq<Edge> {
    if edges == [] then [] else (if edges[0].src == b then [edges[0]] else []) + OutEdges(edges[1..], b)
  }

  lemma {:induction false} OutEdgeFrom(edges: seq<Edge>, b: Block, k: nat) returns (i: nat)
    requires k < |OutEdges(edges, b)|
    ensures i < |edges| && edges[i].src == b && edges[i] == OutEdges(edges, b)[k]
  {
    if edges[0].src == b && k == 0 {
      i := 0;
    } else {
      var j := OutEdgeFrom(edges[1..], b, if edges[0].src == b then k - 1 else k);
      i := j + 1;
    }
  }

  /** `cfg_layout_duplicate_bb (edges[e]->dest, edges[e])`: the copy has the
      same successors, and the edge is led to it. */
  function Duplicated(edges: seq<Edge>, e: nat, copy: Block): (r: seq<Edge>)
    requires e < |edges|
    ensures |r| == |edges| + |OutEdges(edges, edges[e].dest)| && r[e].dest == copy
    ensures forall i :: 0 <= i < |edges| ==> r[i].src == edges[i].src && (i != e ==> r[i] == edges[i])
    ensures forall i :: |edges| <= i < |r| ==>
              r[i].src == copy && r[i].dest == OutEdges(edges, edges[e].dest)[i - |edges|].dest
  {
    var es := OutEdges(edges, edges[e].dest);
    edges[e := edges[e].(dest := copy)] + seq(|es|, i requires 0 <= i < |es| => es[i].(src := copy))
  }

  /** The same edges, perhaps with another profile. */
  ghost predicate SameGraph(es: seq<Edge>, fs: seq<Edge>) {
    && |es| == |fs|
    && forall i {:trigger es[i]} {:trigger fs[i]} :: 0 <= i < |es| ==>
         es[i].src == fs[i].src && es[i].dest == fs[i].dest
  }

  /** Duplication may also change the profile and the flags of edges; any change may come. */
  method Duplicate(edges: seq<Edge>, e: nat, copy: Block) returns (r: seq<Edge>)
    requires e < |edges|
    ensures SameGraph(r, Duplicated(edges, e, copy))
  {
    var fs := Duplicated(edges, e, copy);
    r := [];
    for i := 0 to |fs|
      invariant |r| == i && SameGraph(r, fs[..i])
    {
      var f: Edge := *;
      r := r + [f.(src := fs[i].src, dest := fs[i].dest)];
    }
  }

  /** There is an edge from block `b` to `d`. */
  ghost predicate Leads(edges: seq<Edge>, b: Block, d: Block) {
    b != NONE && exists i :: 0 <= i < |edges| && edges[i].src == b && edges[i].dest == d
  }

  /** A path from the entry block: `p` lists the blocks after it. */
  ghost predicate PathFromEntry(edges: seq<Edge>, p: seq<Block>) {
    && p != [] && (forall i :: 0 <= i < |p| ==> p[i] != NONE)
    && Entered(edges, p[0])
    && Followed(edges, p)
  }

  ghost predicate Step(edges: seq<Edge>, c: seq<Block>, i: int) {
    0 < i < |c| && Leads(edges, c[i - 1], c[i])
  }

  /** Each block of `c` leads to the next by an edge. */
  ghost predicate Followed(edges: seq<Edge>, c: seq<Block>) {
    forall i {:trigger Step(edges, c, i)} :: 0 < i < |c| ==> Step(edges, c, i)
  }

  /** An edge leads from the entry block to `b`. */
  ghost predicate Entered(edges: seq<Edge>, b: Block) {
    exists i :: 0 <= i < |edges| && edges[i].src == NONE && edges[i].dest == b
  }

  ghost predicate Reachable(edges: seq<Edge>, b: Block) {
    exists p: seq<Block> :: PathFromEntry(edges, p) && Last(p) == b
  }

  /** What `copy_bb_p` answers about a block, whether code may grow or not, at
      a time that is known by the number of the next new block: the answer depends
      on instruction lengths, the target, and on the graph, which only changes when blocks are copied. */
  type CopyTest = (Block, bool, Block) -> bool
}
