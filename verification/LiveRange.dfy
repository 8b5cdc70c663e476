/**
 Live ranges of branch-target registers (bt-load.c): growing a range of basic
 blocks so that it keeps a single head that dominates it.
 */
module LiveRange {

  type Block = nat
  type Reg = nat

  /** The flow graph by predecessors. Block 0 is the entry block. */
  const ENTRY: Block := 0

  datatype Graph = Graph(preds: seq<seq<Block>>) {
    predicate Valid() {
      && 0 < |preds| && preds[ENTRY] == []
      && (forall b, k :: 0 <= b < |preds| && 0 <= k < |preds[b]| ==> preds[b][k] < |preds|)
    }

    predicate IsBlock(b: Block) {
      b < |preds|
    }
  }

  // ----- paths and dominance -----

  ghost predicate Edge(g: Graph, p: seq<Block>, i: int) {
    0 < i < |p| && g.IsBlock(p[i]) && p[i - 1] in g.preds[p[i]]
  }

  /** `p` runs along edges of the graph. */
  ghost predicate Path(g: Graph, p: seq<Block>)
    requires g.Valid()
  {
    && p != [] && (forall i :: 0 <= i < |p| ==> g.IsBlock(p[i]))
    && (forall i {:trigger Edge(g, p, i)} :: 0 < i < |p| ==> Edge(g, p, i))
  }

  ghost predicate PathFrom(g: Graph, p: seq<Block>, a: Block, b: Block)
    requires g.Valid()
  {
    Path(g, p) && p[0] == a && p[|p| - 1] == b
  }

  /** Every path from the entry block to `b` passes through `a`. */
  ghost predicate Dominates(g: Graph, a: Block, b: Block)
    requires g.Valid()
  {
    forall p :: PathFrom(g, p, ENTRY, b) ==> a in p
  }

  /** `b` leads to `c` without passing through `a`. */
  ghost predicate Around(g: Graph, a: Block, b: Block, c: Block)
    requires g.Valid()
  {
    exists p :: PathFrom(g, p, b, c) && a !in p
  }

  lemma JoinPaths(g: Graph, p: seq<Block>, q: seq<Block>)
    requires g.Valid() && Path(g, p) && Path(g, q) && p[|p| - 1] == q[0]
    ensures Path(g, p + q[1..])
  {
    var r := p + q[1..];
    forall i {:trigger Edge(g, r, i)} | 0 < i < |r|
      ensures Edge(g, r, i)
    {
      if i < |p| {
        assert Edge(g, p, i);
      } else {
        assert Edge(g, q, i - |p| + 1);
      }
    }
  }

  /** A block from which one gets around `a` to `c` is dominated by whatever
      dominates `c`. */
  lemma AroundDominated(g: Graph, a: Block, b: Block, c: Block)
    requires g.Valid() && Dominates(g, a, c) && Around(g, a, b, c)
    ensures Dominates(g, a, b)
  {
    var q :| PathFrom(g, q, b, c) && a !in q;
    forall p | PathFrom(g, p, ENTRY, b)
      ensures a in p
    {
      JoinPaths(g, p, q);
      assert PathFrom(g, p + q[1..], ENTRY, c);
      assert a in p + q[1..];
    }
  }

  lemma AroundBack(g: Graph, a: Block, b: Block, c: Block, d: Block)
    requires g.Valid() && g.IsBlock(b) && g.IsBlock(d) && d in g.preds[b] && d != a && Around(g, a, b, c)
    ensures Around(g, a, d, c)
  {
    var q :| PathFrom(g, q, b, c) && a !in q;
    assert Path(g, [d, b]);
    JoinPaths(g, [d, b], q);
    assert PathFrom(g, [d, b] + q[1..], d, c);
  }

  lemma AroundSelf(g: Graph, a: Block, c: Block)
    requires g.Valid() && g.IsBlock(c) && a != c
    ensures Around(g, a, c, c)
  {
    assert PathFrom(g, [c], c, c);
  }

  /** Only the entry block dominates the entry block. */
  lemma EntryAlone(g: Graph, a: Block)
    requires g.Valid() && Dominates(g, a, ENTRY)
    ensures a == ENTRY
  {
    assert PathFrom(g, [ENTRY], ENTRY, ENTRY);
  }

  // ----- live ranges -----

  /** Every block of the range other than its head has all its predecessors in
      the range. */
  ghost predicate Closed(g: Graph, range: set<Block>, head: Block)
    requires g.Valid()
  {
    && head in range && (forall b :: b in range ==> g.IsBlock(b))
    && (forall b, p :: b in range && b != head && p in g.preds[b] ==> p in range)
  }

  /** The head dominates the whole range. */
  ghost predicate Headed(g: Graph, range: set<Block>, head: Block)
    requires g.Valid()
  {
    forall b :: b in range ==> Dominates(g, head, b)
  }

  lemma DominatesTrans(g: Graph, a: Block, b: Block, c: Block)
    requires g.Valid() && Dominates(g, a, b) && Dominates(g, b, c)
    ensures Dominates(g, a, c)
  {
    forall p | PathFrom(g, p, ENTRY, c)
      ensures a in p
    {
      var i :| 0 <= i < |p| && p[i] == b;
      var q := p[..i + 1];
      forall k {:trigger Edge(g, q, k)} | 0 < k < |q|
        ensures Edge(g, q, k)
      {
        assert Edge(g, p, k);
      }
      assert PathFrom(g, q, ENTRY, b);
    }
  }

  /** So a path from the head to a block of the range that does not come back
      to the head stays in the range. */
  lemma {:induction false} PathsStay(g: Graph, range: set<Block>, head: Block, p: seq<Block>)
    requires g.Valid() && Closed(g, range, head) && Path(g, p) && p[|p| - 1] in range
    requires forall i :: 0 < i < |p| ==> p[i] != head
    ensures forall i :: 0 <= i < |p| ==> p[i] in range
  {
    if |p| > 1 {
      var q := p[..|p| - 1];
      assert Edge(g, p, |p| - 1);
      forall i {:trigger Edge(g, q, i)} | 0 < i < |q|
        ensures Edge(g, q, i)
      {
        assert Edge(g, p, i);
      }
      PathsStay(g, range, head, q);
    }
  }

  /** The range lies in every closed one that contains `base`. */
  ghost predicate Least(g: Graph, base: set<Block>, head: Block, range: set<Block>)
    requires g.Valid()
  {
    forall s :: Closed(g, s, head) && base <= s ==> range <= s
  }

  /** The registers live somewhere in a set of blocks. */
  ghost function LiveIn(live: seq<set<Reg>>, range: set<Block>): set<Reg> {
    set b, r | b in range && b < |live| && r in live[b] :: r
  }

  lemma LiveInMore(live: seq<set<Reg>>, range: set<Block>, b: Block)
    requires b < |live|
    ensures LiveIn(live, range + {b}) == LiveIn(live, range) + live[b]
  {
  }

  lemma LiveInGrown(live: seq<set<Reg>>, range0: set<Block>, range: set<Block>, b: Block)
    requires range0 <= range && b !in range && b < |live|
    ensures LiveIn(live, (range + {b}) - range0) == LiveIn(live, range - range0) + live[b]
  {
    assert (range + {b}) - range0 == (range - range0) + {b};
    LiveInMore(live, range - range0, b);
  }

  /** One gets from `b` to `target` around the head, and `b` belongs to every
      closed set with this head that contains `base`. */
  ghost predicate Wanted(g: Graph, b: Block, base: set<Block>, head: Block, target: Block)
    requires g.Valid()
  {
    && g.IsBlock(b) && (b == head || Around(g, head, b, target))
    && (forall s :: Closed(g, s, head) && base <= s ==> b in s)
  }

  lemma WantedBack(g: Graph, b: Block, base: set<Block>, head: Block, target: Block, p: Block)
    requires g.Valid() && Wanted(g, b, base, head, target) && b != head && p in g.preds[b]
    ensures Wanted(g, p, base, head, target)
  {
    if p != head {
      AroundBack(g, head, b, target, p);
    }
  }

  /** Every block of the range but the head has its predecessors in the range
      or on the worklist. */
  ghost predicate AlmostClosed(g: Graph, range: set<Block>, head: Block, stack: seq<Block>)
    requires g.Valid()
  {
    && head in range && (forall b :: b in range ==> g.IsBlock(b))
    && (forall b, p :: b in range && b != head && p in g.preds[b] ==> p in range || p in stack)
  }

  lemma {:induction false} FewBlocks(range: set<Block>, n: nat)
    requires forall b :: b in range ==> b < n
    ensures |range| <= n
  {
    if n > 0 {
      FewBlocks(range - {n - 1}, n - 1);
    } else {
      assert range == {};
    }
  }

  // ----- the length of the worklist -----

  /** What adding block `b` may lengthen the worklist by: it is taken off, and
      its predecessors are put on. */
  ghost function Surplus(g: Graph, b: Block): nat
    requires g.IsBlock(b)
  {
    if g.preds[b] == [] then 0 else |g.preds[b]| - 1
  }

  /** The same for all blocks of a set that are numbered below `n`. */
  ghost function Surpluses(g: Graph, s: set<Block>, n: nat): nat
    requires n <= |g.preds|
  {
    if n == 0 then 0 else Surpluses(g, s, n - 1) + if n - 1 in s then Surplus(g, n - 1) else 0
  }

  lemma {:induction false} SurplusMore(g: Graph, s: set<Block>, b: Block, n: nat)
    requires n <= |g.preds| && g.IsBlock(b) && b !in s
    ensures Surpluses(g, s + {b}, n) == Surpluses(g, s, n) + if b < n then Surplus(g, b) else 0
  {
    if n > 0 {
      SurplusMore(g, s, b, n - 1);
    }
  }

  lemma {:induction false} SurplusWithin(g: Graph, s: set<Block>, t: set<Block>, n: nat)
    requires n <= |g.preds| && s <= t
    ensures Surpluses(g, s, n) <= Surpluses(g, t, n)
  {
    if n > 0 {
      SurplusWithin(g, s, t, n - 1);
    }
  }

  /** The number of edges into blocks numbered below `n`. */
  ghost function EdgesInto(g: Graph, n: nat): nat
    requires n <= |g.preds|
  {
    if n == 0 then 0 else EdgesInto(g, n - 1) + |g.preds[n - 1]|
  }

  lemma {:induction false} SurplusCount(g: Graph, s: set<Block>, n: nat)
    requires g.Valid() && 0 < n <= |g.preds| && forall b :: 0 < b < n ==> g.preds[b] != []
    ensures Surpluses(g, s, n) + n - 1 <= EdgesInto(g, n)
  {
    if n > 1 {
      SurplusCount(g, s, n - 1);
    } else {
      assert Surpluses(g, s, 0) == 0;
    }
  }

  /** A worklist that started with `n0` blocks has `n` now and had at most `peak`,
      within what adding the blocks `range - range0` allows. */
  ghost predicate Room(g: Graph, range0: set<Block>, range: set<Block>, n0: nat, n: nat, peak: nat) {
    && n <= peak && n0 <= peak && n <= n0 + Surpluses(g, range - range0, |g.preds|)
    && peak <= n0 + Surpluses(g, range - range0, |g.preds|)
  }

  lemma RoomMore(g: Graph, range0: set<Block>, range: set<Block>, b: Block, n0: nat, n: nat, peak: nat, n': nat)
    requires Room(g, range0, range, n0, n + 1, peak) && g.IsBlock(b) && b !in range && range0 <= range
    requires n' <= n + |g.preds[b]|
    ensures Room(g, range0, range + {b}, n0, n', if n' > peak then n' else peak)
  {
    SurplusMore(g, range - range0, b, |g.preds|);
    assert (range + {b}) - range0 == (range - range0) + {b};
  }

  lemma RoomLess(g: Graph, range0: set<Block>, range: set<Block>, n0: nat, n: nat, peak: nat)
    requires Room(g, range0, range, n0, n + 1, peak)
    ensures Room(g, range0, range, n0, n, peak)
  {
  }

  lemma RoomNone(g: Graph, range: set<Block>, n: nat)
    ensures Room(g, range, range, n, n, n)
  {
  }

  /** In a graph with no more than two edges a block, where every block but the
      entry has a predecessor, one entry and the surplus of any set of blocks fit in an
      array with an entry for every block and one more. */
  lemma WorklistFits(g: Graph, s: set<Block>)
    requires g.Valid() && forall b :: 0 < b < |g.preds| ==> g.preds[b] != []
    requires EdgesInto(g, |g.preds|) <= 2 * (|g.preds| - 1)
    ensures 1 + Surpluses(g, s, |g.preds|) <= (|g.preds| - 1) + 1
  {
    SurplusCount(g, s, |g.preds|);
  }

  class Range {
    /** The blocks of the range. */
    var blocks: set<Block>
    /** The target registers live in them. */
    var btrs: set<Reg>

    constructor (b: Block, r: set<Reg>)
      ensures blocks == {b} && btrs == r
    {
      blocks, btrs := {b}, r;
    }
  }

  /** Pushes the predecessors that are not in the range. */
  method PushPreds(preds: seq<Block>, range: set<Block>, stack0: seq<Block>) returns (stack: seq<Block>)
    ensures stack0 <= stack
    ensures forall p :: p in preds ==> p in range || p in stack
    ensures forall i :: |stack0| <= i < |stack| ==> stack[i] in preds
    ensures |stack| <= |stack0| + |preds|
  {
    stack := stack0;
    for k := 0 to |preds|
      invariant stack0 <= stack && |stack| <= |stack0| + k
      invariant forall i :: 0 <= i < k ==> preds[i] in range || preds[i] in stack
      invariant forall i :: |stack0| <= i < |stack| ==> stack[i] in preds
    {
      if preds[k] !in range {
        stack := stack + [preds[k]];
      }
    }
  }

  /** The worklist loop of `augment_live_range`; `peak` is the greatest length of
      the worklist. */
  method Grow(g: Graph, live: seq<set<Reg>>, r: Range, stack0: seq<Block>,
              ghost base: set<Block>, ghost head: Block, ghost target: Block)
    returns (ghost peak: nat)
    requires g.Valid() && |live| == |g.preds|
    requires AlmostClosed(g, r.blocks, head, stack0)
    requires forall i :: 0 <= i < |stack0| ==> Wanted(g, stack0[i], base, head, target)
    requires forall b :: b in r.blocks ==> b in base || Wanted(g, b, base, head, target)
    modifies r
    ensures Closed(g, r.blocks, head) && old(r.blocks) <= r.blocks
    ensures forall i :: 0 <= i < |stack0| ==> stack0[i] in r.blocks
    ensures forall b :: b in r.blocks ==> b in base || Wanted(g, b, base, head, target)
    ensures r.btrs == old(r.btrs) + LiveIn(live, r.blocks - old(r.blocks))
    ensures Room(g, old(r.blocks), r.blocks, |stack0|, 0, peak)
  {
    hide Wanted, LiveIn, AlmostClosed, Room;
    var stack := stack0;
    peak := |stack|;
    RoomNone(g, r.blocks, peak);
    EmptyLive(live, r.blocks);
    assert |r.blocks| <= |g.preds| by {
      AlmostClosedBlocks(g, r.blocks, head, stack);
      FewBlocks(r.blocks, |g.preds|);
    }
    while stack != []
      invariant AlmostClosed(g, r.blocks, head, stack) && |r.blocks| <= |g.preds|
      invariant forall i :: 0 <= i < |stack| ==> Wanted(g, stack[i], base, head, target)
      invariant forall b :: b in r.blocks ==> b in base || Wanted(g, b, base, head, target)
      invariant r.btrs == old(r.btrs) + LiveIn(live, r.blocks - old(r.blocks)) && old(r.blocks) <= r.blocks
      invariant forall i :: 0 <= i < |stack0| ==> stack0[i] in r.blocks || stack0[i] in stack
      invariant Room(g, old(r.blocks), r.blocks, |stack0|, |stack|, peak)
      decreases |g.preds| - |r.blocks|, |stack|
    {
      var bb, rest := stack[|stack| - 1], stack[..|stack| - 1];
      assert stack == rest + [bb];
      if bb !in r.blocks {
        WantedBlock(g, bb, base, head, target);
        ghost var before := r.blocks;
        LiveInGrown(live, old(r.blocks), r.blocks, bb);
        r.blocks := r.blocks + {bb};
        r.btrs := r.btrs + live[bb];
        AlmostClosedBlocks(g, before, head, rest + [bb]);
        FewBlocks(r.blocks, |g.preds|);
        stack := PushPreds(g.preds[bb], r.blocks, rest);
        RoomMore(g, old(r.blocks), before, bb, |stack0|, |rest|, peak, |stack|);
        peak := if |stack| > peak then |stack| else peak;
        StillAlmostClosed(g, before, head, rest, bb, stack);
        forall i | |rest| <= i < |stack|
          ensures Wanted(g, stack[i], base, head, target)
        {
          WantedBack(g, bb, base, head, target, stack[i]);
        }
      } else {
        Dropped(g, r.blocks, head, rest, bb);
        RoomLess(g, old(r.blocks), r.blocks, |stack0|, |rest|, peak);
        stack := rest;
      }
    }
    AllClosed(g, r.blocks, head);
  }

  lemma AlmostClosedBlocks(g: Graph, range: set<Block>, head: Block, stack: seq<Block>)
    requires g.Valid() && AlmostClosed(g, range, head, stack)
    ensures head in range && forall b :: b in range ==> b < |g.preds|
  {
  }

  lemma StillAlmostClosed(g: Graph, range: set<Block>, head: Block, rest: seq<Block>, bb: Block, stack: seq<Block>)
    requires g.Valid() && g.IsBlock(bb) && AlmostClosed(g, range, head, rest + [bb]) && rest <= stack
    requires forall p :: p in g.preds[bb] ==> p in range + {bb} || p in stack
    ensures AlmostClosed(g, range + {bb}, head, stack)
  {
  }

  lemma Dropped(g: Graph, range: set<Block>, head: Block, rest: seq<Block>, bb: Block)
    requires g.Valid() && AlmostClosed(g, range, head, rest + [bb]) && bb in range
    ensures AlmostClosed(g, range, head, rest)
  {
  }

  lemma AllClosed(g: Graph, range: set<Block>, head: Block)
    requires g.Valid() && AlmostClosed(g, range, head, [])
    ensures Closed(g, range, head)
  {
  }

  lemma EmptyLive(live: seq<set<Reg>>, range: set<Block>)
    ensures LiveIn(live, range - range) == {}
  {
  }

  lemma WantedBlock(g: Graph, b: Block, base: set<Block>, head: Block, target: Block)
    requires g.Valid() && Wanted(g, b, base, head, target)
    ensures g.IsBlock(b)
  {
  }

  /** The head after a block was added. */
  ghost function HeadAfter(g: Graph, head: Block, added: Block): Block
    requires g.Valid()
  {
    if Dominates(g, head, added) then head else added
  }

  /** `augment_live_range`. `below` and `above` answer whether the head
      dominates the new block and whether the new block dominates the head; if
      neither holds the function gives up. `peak` is the greatest length of the worklist. */
  method Augment(g: Graph, live: seq<set<Reg>>, r: Range, head: Block, added: Block, below: bool, above: bool)
      returns (ok: bool, ghost peak: nat)
    requires g.Valid() && |live| == |g.preds| && g.IsBlock(added) && added != ENTRY && head != ENTRY
    requires Closed(g, r.blocks, head) && ENTRY !in r.blocks
    requires below == Dominates(g, head, added) && (!below ==> above == Dominates(g, added, head))
    modifies r
    ensures ok <==> below || above
    ensures !ok ==> r.blocks == old(r.blocks) && r.btrs == old(r.btrs)
    ensures ok ==>
      && Closed(g, r.blocks, HeadAfter(g, head, added))
      && old(r.blocks) + {added} <= r.blocks
      && Least(g, old(r.blocks) + {added}, HeadAfter(g, head, added), r.blocks)
      && (forall b :: b in r.blocks && b !in old(r.blocks) ==> Dominates(g, HeadAfter(g, head, added), b))
      && (Headed(g, old(r.blocks), head) ==> Headed(g, r.blocks, HeadAfter(g, head, added)))
      && ENTRY !in r.blocks
      && r.btrs == old(r.btrs) + LiveIn(live, r.blocks - old(r.blocks)) + if below then {} else live[added]
    ensures peak <= 1 + Surpluses(g, r.blocks, |g.preds|)
  {
    hide Dominates, Around;
    ghost var range := r.blocks;
    ghost var base := range + {added};
    ok, peak := below || above, 0;
    if below {
      WantedNew(g, range, head, added);
      peak := Grow(g, live, r, [added], base, head, added);
      SurplusWithin(g, r.blocks - range, r.blocks, |g.preds|);
      assert [added][0] in r.blocks;
      AddedDominated(g, r.blocks, range, head, added, added);
    } else if above {
      SelfDominates(g, head);
      WantedPreds(g, range, head, added);
      r.blocks := r.blocks + {added};
      r.btrs := r.btrs + live[added];
      peak := Grow(g, live, r, g.preds[head], base, added, head);
      HeadSurplus(g, r.blocks, base, head);
      SelfDominates(g, added);
      AddedDominated(g, r.blocks, range, added, head, added);
      if Headed(g, range, head) {
        forall b | b in range
          ensures Dominates(g, added, b)
        {
          DominatesTrans(g, added, head, b);
        }
      }
      LiveInMore(live, r.blocks - base, added);
      if added !in range {
        assert r.blocks - range == (r.blocks - base) + {added};
      } else {
        assert base == range;
      }
    }
  }

  /** The worklist that starts with the predecessors of `head`, which is in the range. */
  lemma HeadSurplus(g: Graph, blocks: set<Block>, base: set<Block>, head: Block)
    requires g.IsBlock(head) && head in base && base <= blocks
    ensures |g.preds[head]| + Surpluses(g, blocks - base, |g.preds|) <= 1 + Surpluses(g, blocks, |g.preds|)
  {
    SurplusMore(g, blocks - base, head, |g.preds|);
    SurplusWithin(g, blocks - base + {head}, blocks, |g.preds|);
  }

  lemma SelfDominates(g: Graph, a: Block)
    requires g.Valid()
    ensures Dominates(g, a, a)
  {
  }

  /** The first case: the worklist starts with the new block. */
  lemma WantedNew(g: Graph, range: set<Block>, head: Block, added: Block)
    requires g.Valid() && Closed(g, range, head) && g.IsBlock(added)
    ensures Wanted(g, added, range + {added}, head, added)
    ensures AlmostClosed(g, range, head, [added])
  {
    if added != head {
      AroundSelf(g, head, added);
    }
  }

  /** The second case: the new block becomes the head, and the worklist starts
      with the predecessors of the old one. */
  lemma WantedPreds(g: Graph, range: set<Block>, head: Block, added: Block)
    requires g.Valid() && Closed(g, range, head) && g.IsBlock(added) && added != head
    ensures forall i :: 0 <= i < |g.preds[head]| ==> Wanted(g, g.preds[head][i], range + {added}, added, head)
    ensures AlmostClosed(g, range + {added}, added, g.preds[head])
  {
    AroundSelf(g, added, head);
    forall i | 0 <= i < |g.preds[head]|
      ensures Wanted(g, g.preds[head][i], range + {added}, added, head)
    {
      var p := g.preds[head][i];
      assert p in g.preds[head];
      if p != added {
        AroundBack(g, added, head, head, p);
      }
    }
  }

  /** What was added is dominated by the head, so it is not the entry block. */
  lemma AddedDominated(g: Graph, blocks: set<Block>, range: set<Block>, head: Block, target: Block, added: Block)
    requires g.Valid() && head != ENTRY && ENTRY !in range && added != ENTRY
    requires forall b :: b in blocks ==> b in range + {added} || Wanted(g, b, range + {added}, head, target)
    requires Dominates(g, head, target) && Dominates(g, head, added)
    ensures forall b :: b in blocks && b !in range ==> Dominates(g, head, b)
    ensures ENTRY !in blocks
    ensures Least(g, range + {added}, head, blocks)
  {
    hide Dominates, Around;
    forall b | b in blocks && b !in range
      ensures Dominates(g, head, b)
    {
      if b != added {
        if b == head {
          SelfDominates(g, head);
        } else {
          AroundDominated(g, head, b, target);
        }
      }
    }
    if ENTRY in blocks {
      EntryAlone(g, head);
    }
  }

  // ----- the live range of a definition -----

  /** A definition of a target register, in block `bb`, and the blocks of its uses. */
  class Def {
    const bb: Block
    const uses: seq<Block>
    var btr: Reg
    var otherUses: bool
    /** `live_range`, null before it is computed. */
    var range: Range?

    constructor (bb: Block, uses: seq<Block>, btr: Reg, otherUses: bool)
      ensures this.bb == bb && this.uses == uses && this.btr == btr && this.otherUses == otherUses && range == null
    {
      this.bb, this.uses, this.btr, this.otherUses, range := bb, uses, btr, otherUses, null;
    }

    /** The definition dominates its uses, and none of them is the entry block. */
    ghost predicate Dominating(g: Graph)
      requires g.Valid()
    {
      && g.IsBlock(bb) && bb != ENTRY
      && (forall i :: 0 <= i < |uses| ==> g.IsBlock(uses[i]) && uses[i] != ENTRY && Dominates(g, bb, uses[i]))
    }
  }

  /** The range belongs to `d`: closed below its block, with all its uses, and
      no larger than that takes. */
  ghost predicate RangeOf(g: Graph, d: Def, blocks: set<Block>)
    requires g.Valid()
  {
    && Closed(g, blocks, d.bb) && Headed(g, blocks, d.bb) && ENTRY !in blocks
    && (forall i :: 0 <= i < |d.uses| ==> d.uses[i] in blocks)
    && Least(g, {d.bb} + (set i | 0 <= i < |d.uses| :: d.uses[i]), d.bb, blocks)
  }

  /** `btr_def_live_range`: computes the range when it is first asked for, and
      the registers live over it each time. */
  method DefLiveRange(g: Graph, live: seq<set<Reg>>, d: Def) returns (btrs: set<Reg>)
    requires g.Valid() && |live| == |g.preds| && d.Dominating(g)
    requires d.range != null ==> RangeOf(g, d, d.range.blocks)
    modifies d`range, d.range
    ensures d.range != null && RangeOf(g, d, d.range.blocks)
    ensures old(d.range) != null ==> d.range == old(d.range) && d.range.blocks == old(d.range.blocks)
    ensures btrs == LiveIn(live, d.range.blocks) - if d.otherUses then {} else {d.btr}
  {
    hide Dominates, LiveIn;
    if d.range == null {
      var r := NewRange(g, live, d);
      d.range := r;
      btrs := r.btrs;
    } else {
      btrs := Collect(live, d.range.blocks);
    }
    if !d.otherUses {
      btrs := btrs - {d.btr};
    }
  }

  method NewRange(g: Graph, live: seq<set<Reg>>, d: Def) returns (r: Range)
    requires g.Valid() && |live| == |g.preds| && d.Dominating(g)
    ensures fresh(r) && RangeOf(g, d, r.blocks) && r.btrs == LiveIn(live, r.blocks)
  {
    hide Dominates, LiveIn;
    r := new Range(d.bb, live[d.bb]);
    assert r.blocks == {} + {d.bb};
    LiveInMore(live, {}, d.bb);
    NoLive(live);
    SelfDominates(g, d.bb);
    for i := 0 to |d.uses|
      invariant Closed(g, r.blocks, d.bb) && Headed(g, r.blocks, d.bb) && ENTRY !in r.blocks
      invariant r.btrs == LiveIn(live, r.blocks)
      invariant forall j :: 0 <= j < i ==> d.uses[j] in r.blocks
      invariant Least(g, {d.bb} + (set j | 0 <= j < i :: d.uses[j]), d.bb, r.blocks)
    {
      ghost var range, base := r.blocks, {d.bb} + (set j | 0 <= j < i :: d.uses[j]);
      var ok;
      ghost var peak;
      ok, peak := Augment(g, live, r, d.bb, d.uses[i], true, false);
      LiveInJoin(live, range, r.blocks);
      assert {d.bb} + (set j | 0 <= j < i + 1 :: d.uses[j]) == base + {d.uses[i]};
      LeastTwice(g, base, range, d.uses[i], d.bb, r.blocks);
    }
  }

  lemma NoLive(live: seq<set<Reg>>)
    ensures LiveIn(live, {}) == {}
  {
  }

  lemma LiveInJoin(live: seq<set<Reg>>, a: set<Block>, b: set<Block>)
    requires a <= b
    ensures LiveIn(live, a) + LiveIn(live, b - a) == LiveIn(live, b)
  {
  }

  lemma LeastTwice(g: Graph, base: set<Block>, range: set<Block>, added: Block, head: Block, blocks: set<Block>)
    requires g.Valid() && Least(g, base, head, range) && Least(g, range + {added}, head, blocks)
    ensures Least(g, base + {added}, head, blocks)
  {
    forall s | Closed(g, s, head) && base + {added} <= s
      ensures blocks <= s
    {
      assert base <= s;
      assert range + {added} <= s;
    }
  }

  /** The registers live in the blocks of a range that is known already. */
  method Collect(live: seq<set<Reg>>, blocks: set<Block>) returns (btrs: set<Reg>)
    requires forall b :: b in blocks ==> b < |live|
    ensures btrs == LiveIn(live, blocks)
  {
    hide LiveIn;
    btrs := {};
    NoLive(live);
    var rest := blocks;
    assert blocks - rest == {};
    while rest != {}
      invariant rest <= blocks && btrs == LiveIn(live, blocks - rest)
      decreases |rest|
    {
      var b :| b in rest;
      LiveInMore(live, blocks - rest, b);
      assert blocks - (rest - {b}) == (blocks - rest) + {b};
      btrs := btrs + live[b];
      rest := rest - {b};
    }
    assert blocks - rest == blocks;
  }

  /** `choose_btr`: the first target register in allocation order that is not
      used, or -1 if there is none. */
  method ChooseBtr(order: seq<Reg>, allBtrs: set<Reg>, used: set<Reg>) returns (r: int)
    requires forall b :: b in allBtrs ==> b in order
    ensures r == -1 <==> allBtrs <= used
    ensures r != -1 ==> exists i :: 0 <= i < |order| && order[i] == r && r in allBtrs - used
                                    && forall j :: 0 <= j < i ==> order[j] !in allBtrs - used
  {
    if allBtrs <= used {
      return -1;
    }
    for i := 0 to |order|
      invariant forall j :: 0 <= j < i ==> order[j] !in allBtrs - used
    {
      if order[i] in allBtrs && order[i] !in used {
        return order[i];
      }
    }
    return -1;
  }
}
