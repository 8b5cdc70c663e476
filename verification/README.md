# Verified kernels of cc370 and ar370

A Dafny model of eight algorithmic kernels of the MVS toolchain: seven of the
GCC 3.4 based compiler `cc370`, and the object-deck archiver `ar370`. Each is
modelled branch by branch from the C code and proved against an independent
definition of what it is for.

| kernel | files | main results |
|---|---|---|
| sparse bitmaps | `Neighbours`, `Blocks`, `BitWords`, `BitmapLists`, `Bitmaps` | any run of calls agrees with plain sets, with aliased operands |
| block reordering | `TraceChains`, `FlowEdges`, `TraceSearch`, `TraceChoices`, `FindTraces`, `LayoutMoves`, `ConnectTraces`, `StaleContinuation`, `Reorder` | traces cover what is reachable and grow greedily, the layout is one chain of all blocks, joined along the best edges |
| integer powers | `PowerTree`, `PowerTreeCost`, `Powi`, `PowiExpand`, `PowiSync` | predictor and generator agree, the code computes x**n, exact table costs, 2*bits(n)-2 |
| branch-target registers | `Dataflow`, `LiveRange` | reaching definitions exactly, closed and dominated live ranges, worklist bound |
| C front end | `IntegerTypes`, `ShortenCompare`, `CaseLabels` | when narrowing comparisons is right, exact overlap detection |
| archives | `ArchiveFormat`, `ArchiveWalk`, `ArchiveReader`, `ArchiveWriter`, `ArchiveRoundTrip`, `ObjectDecks`, `Archiver` | reading undoes writing exactly for readable names, when listing ends |
| alias analysis | `AliasTypes`, `AliasSets`, `MemRefs` | one-level lookup is the transitive relation, when the disjointness test is exact |
| pool allocator | `PoolSlots`, `AllocPool` | every slot is free or live, live objects are disjoint |

`Helpers` holds what several parts share. `dafny verify dfyconfig.toml` checks everything.

## How the code is modelled

* Code that updates data step by step is a class or a method with loops over
  arrays, sequences and maps; each method is specified by functions on its
  state, and the theorems are about those. The comparison narrowing, the
  address test and the power tree are functions, as in the source.
* C memory is modelled where lists run through it: bitmap elements, `rbi->next`
  and the pool's free list are maps from addresses or block numbers to the next
  one, so that sharing, stale links and in-place reuse are visible. Elements of
  bitmaps hold their 128 bits as a set of bit numbers, which is read as two
  64-bit words where the order of bits matters.
* What depends on the target or on code outside the kernels is arbitrary in the
  model: what `copy_bb_p` and `any_condjump_p` answer about a block, which blocks are
  probably never executed, the profile and flags of edges after a block is
  duplicated, the address `xmalloc` returns, what a write leaves in the pointer
  words it touches, the EBCDIC table. The theorems hold for every choice. The obstack
  and the collector are told apart by the addresses they hand out, odd and even.
* Heaps and splay trees are maps; taking the least key, the predecessor and
  the successor are specified by what they return.

## Where the code does not do what it promises

* `shorten_compare` takes `unsignedp0` from `get_narrower` as the way the
  operand is extended to the common type, but it only says how the stripped
  expression extends to the operand's own type. A signed value extended to an
  unsigned type that is narrower than the common type is extended again by
  zeros, and the narrowed comparison is then wrong for negative values:
  `(unsigned) c == 4294967295LL` is folded to false (`MisreadExample`).
  `SafeExactly` proves that this is the only failure; `Misread` is a test on the types of the operand
  that a caller can make.
* `bitmap_copy` of a bitmap to itself empties it (`Bitmaps.Store.Copy`).
* `BITMAP_IOR_COMPL` complements only within elements that one of the sources
  has (`Bitmaps.Store.OperationIorCompl`).
* `connect_traces` passes the trace number counted from 0 to `copy_bb`, where
  traces are counted from 1; nothing reads it afterwards.
* In its search for a block to copy, `connect_traces` keeps the continuation
  found for an earlier edge when a later, more probable edge leads to a one-block
  trace. The trace appended after the copy then need not start with a successor
  of it. `StaleContinuation` follows the steps of `connect_traces` to such a
  state on a graph of six blocks. `LayoutMoves.View.BestCopy` says when
  this is so, and `FindCopy` proves it: the continuation belongs to the copied block if and only if that
  is no one-block trace, and otherwise to the last edge selected before whose
  destination is none. The layout is a single chain all the same.
* A case range whose high value is below the low one draws a warning and is
  then treated like a label for the low value.
* The listing of an archive need not end: a header of size -60 or -61 leaves the
  walk where it is (`StandingStill`), and a smaller size takes it back, to a header
  it has read, before the file, or to an offset from which it goes on and ends
  (`BackwardEnds`). `ListExact` proves exactly when each happens, and
  `AdvancesExactly` that it ends without a step back if and only if no header it
  reads has a size of -60 or less.
* An archive does not show its members as they were given if a name is empty, a
  short name holds a space, or a long one a newline; `Archiver.RoundTrip` proves
  that these are the only cases among accepted inputs.
* `memrefs_conflict_p` promises only that disjoint answers are right. It also
  reports conflicts that cannot be, for instance between (R1+R2)+R3 and
  ((R1+R3)+R2)+8 (`PessimisticExamples`); `ConflictExactly` proves when.

## Model

| member | source | states |
|---|---|---|
| `Bitmaps.Store.Run` | cc370/gcc/bitmap.c:57-707 | over any sequence of set, clear, test, first-bit, last-bit, clear-all, operation, combined-operation, copy and equality calls, with any aliasing of operands, every bitmap holds what a plain set would hold, every answer is the plain sets' answer, and all list, cache and free-list invariants hold throughout; no list ever holds memory of the other allocator |
| `Bitmaps.Store.Operation` | cc370/gcc/bitmap.c:504-660 | for AND, AND_COMPL, IOR and XOR `to` becomes the set operation on the old contents of the sources even when it is one or both of them, all other bitmaps keep their sets, and the result is true exactly if the set held by `to` changed |
| `Bitmaps.Store.OperationIorCompl` | cc370/gcc/bitmap.c:504-660 | BITMAP_IOR_COMPL gives from1 or not from2 exactly within the 128-bit elements that a source has, and `changed` is exact |
| `Bitmaps.Store.Operate` | cc370/gcc/bitmap.c:552-660 | the in-place rebuild of `to` from its own old elements: block map combined element by element, memory invariants kept, nothing of other bitmaps disturbed, `changed` exactly if the blocks differ |
| `Bitmaps.Store.MergeStep` | cc370/gcc/bitmap.c:554-637 | one round of the merge: one index of the sources is done, and `to` holds the merged blocks below it |
| `Bitmaps.Store.FreeRest` | cc370/gcc/bitmap.c:639-655 | the old elements of `to` that were not used again go to the free list in one piece, and no other element moves |
| `Bitmaps.Store.SetBit` | cc370/gcc/bitmap.c:358-376 | adds one bit to one set and changes no other, wherever the cache points |
| `Bitmaps.Store.ClearBit` | cc370/gcc/bitmap.c:339-356 | removes one bit from one set; an element that becomes zero is unlinked and freed |
| `Bitmaps.Store.BitP` | cc370/gcc/bitmap.c:379-395 | membership, whatever was done before and wherever the cache is left |
| `Bitmaps.Store.FirstSetBit` | cc370/gcc/bitmap.c:400-447 | the least member of the set as an int, -1 if there is none |
| `Bitmaps.Store.LastSetBit` | cc370/gcc/bitmap.c:452-499 | the greatest member of the set as an int, -1 if there is none |
| `BitWords.FirstInElement` | cc370/gcc/bitmap.c:410-446 | word and bit number of the least bit of a nonempty element |
| `BitWords.LastInElement` | cc370/gcc/bitmap.c:465-498 | word and bit number of the greatest bit of a nonempty element |
| `BitWords.FirstBit` | cc370/gcc/bitmap.c:423-442 | isolating a word's lowest bit and halving by masks finds its number |
| `BitWords.LastBit` | cc370/gcc/bitmap.c:477-494 | halving by masks finds the number of a word's highest bit |
| `BitWords.Isolated` | cc370/gcc/bitmap.c:424-424 | `word & -word` is the power of two of the lowest bit |
| `Bitmaps.Store.FindBit` | cc370/gcc/bitmap.c:304-336 | the element with the index if there is one, found from the cached element in either direction; the cache moves, the set does not |
| `Bitmaps.Store.ElementLink` | cc370/gcc/bitmap.c:186-237 | a loose element goes to its sorted place in the list, with both links and the cache right |
| `Bitmaps.Store.ElementFree` | cc370/gcc/bitmap.c:75-101 | the element leaves the list, neighbours, first element and cache are mended, and it is on the free list |
| `Bitmaps.Store.ElementAllocate` | cc370/gcc/bitmap.c:103-151 | the top of the free list asked for if it has one, and then no fresh memory is taken; else fresh memory of the allocator asked for; on no list, zeroed |
| `Bitmaps.Store.OwnMemory` | cc370/gcc/bitmap.c:103-151 | at all times an element on a bitmap came from the allocator its head names, and an element on a free list from that list's allocator |
| `Bitmaps.Store.ElemToFreelist` | cc370/gcc/bitmap.c:57-71 | a loose element becomes the top of the free list of its allocator, everything else stays |
| `Bitmaps.Store.Clear` | cc370/gcc/bitmap.c:240-253 | the set becomes empty and all its elements go to the free list |
| `Bitmaps.Store.Copy` | cc370/gcc/bitmap.c:256-300 | `to` holds the set of `from`; a bitmap copied to itself becomes empty, because it is cleared first |
| `Bitmaps.Store.EqualP` | cc370/gcc/bitmap.c:664-676 | true exactly if the sets are equal; no set changes and no element is lost |
| `Bitmaps.Store.IorAndCompl` | cc370/gcc/bitmap.c:680-691 | `to` gains the difference of the sources, also when it is one of them |
| `Bitmaps.Store.UnionOfDiff` | cc370/gcc/bitmap.c:693-708 | `dst` becomes a + (b - c) of the old sets, whichever of them it is, and the result says whether it changed |
| `Bitmaps.Store.Initialize` | cc370/gcc/bitmap.c:711-720 | a new empty bitmap |
| `Blocks.CombineIsSetOp` | cc370/gcc/bitmap.c:552-645 | combining sorted nonzero elements index by index is the set operation on the bits |
| `Blocks.CanonicalUnique` | cc370/gcc/bitmap.c:528-551 | two canonical element maps are equal exactly if their sets are, so comparing elements is a fixpoint test |
| `BitmapLists.ThreadedOk` | cc370/gcc/bitmap.c:186-237 | linking an element between its neighbours keeps the list sorted, its links mutually inverse, and every other list untouched |
| `BitmapLists.SpliceOk` | cc370/gcc/bitmap.c:639-655 | a detached chain put in front of a free list in one piece makes a longer free list, and touches nothing else |
| `BitmapLists.BypassedOk` | cc370/gcc/bitmap.c:75-101 | unlinking an element does the same |
| `Reorder.ReorderBlocks` | cc370/gcc/bb-reorder.c:1069-1118 | the whole pass: from the first block `rbi->next` visits distinct blocks and ends; every block reachable from ENTRY is among them, all are blocks of the function or copies, and with all entry edges to the first block the layout starts there; each trace grew as it should, and the layout is that of a run of moves which ends with nothing left to do |
| `Reorder.CopyLimitsAre` | cc370/gcc/bb-reorder.c:788-792 | blocks are copied for edges of at least a tenth of the greatest entry frequency and count |
| `FindTraces.Finder.Find` | cc370/gcc/bb-reorder.c:161-200 | after the four rounds both heaps are empty, every block reachable along the original edges is on exactly one trace, there are no more traces than original blocks, and with all entry edges to the function's first block the first trace starts with it; for every trace, in the order of their numbers, the chain is what growing from its start block in the scene left by the trace before gives, by the demands of one of the rounds |
| `FindTraces.Finder.Round` | cc370/gcc/bb-reorder.c:354-648 | every round ends; a block in a heap is never on a trace; every successor of a traced block is on a trace or in a heap; the last round leaves nothing for another; the traces it adds obey its thresholds |
| `FindTraces.Finder.StartOne` | cc370/gcc/bb-reorder.c:363-397 | the block with the least key starts one trace, which holds it, exactly if this is the last round or it is frequent enough and not cold; otherwise it moves to the next round's heap and nothing else happens; either way the pair of untraced blocks and heap size decreases |
| `FindTraces.Finder.Extend` | cc370/gcc/bb-reorder.c:399-610 | one step of a trace: it goes on exactly to the destination of the selected edge, or the block between, if that is on no trace; it stops exactly if there is no such edge, the block is to be copied later, or the edge leads back into the trace, and is then closed as the source closes it |
| `FindTraces.Finder.GrowTrace` | cc370/gcc/bb-reorder.c:399-612 | the blocks of the trace: from the start block each goes on to the next until the trace stops, and at most one block is copied |
| `FindTraces.Finder.MarkVisited` | cc370/gcc/bb-reorder.c:334-344 | the block is on the growing trace and in no heap |
| `FindTraces.Finder.SelectBest` | cc370/gcc/bb-reorder.c:415-445 | the edge that comparing candidates in edge order selects |
| `TraceChoices.Scene.PickIs` | cc370/gcc/bb-reorder.c:415-445 | there is one whenever there is a candidate, and no candidate after it is better |
| `TraceChoices.Scene.BetterIs` | cc370/gcc/bb-reorder.c:739-775 | more probable by more than a tenth, or about as probable and less frequent by more than a tenth, or about as frequent and already next |
| `TraceChoices.SuitableBounds` | cc370/gcc/bb-reorder.c:434-438 | the thresholds are inclusive, each of them counts, and looser ones admit more |
| `FindTraces.DemandsAre` | cc370/gcc/bb-reorder.c:83-88 | the rounds ask for 40, 20, 10 and 0 per cent of probability and 50, 20, 5 and 0 per cent of the greatest entry frequency |
| `FindTraces.Finder.EnterHeap` | cc370/gcc/bb-reorder.c:166-177 | exactly the entry points are in the heap with their keys, and the greatest frequency and count among them are known |
| `FindTraces.Finder.AddSuccs` | cc370/gcc/bb-reorder.c:454-510 | every successor but the selected one is on a trace or in a heap; those that come new to the next round's heap have an unsuitable edge, those new to this round's a suitable one unless this is the last, where none is put off; exactly these get the keys they have now |
| `FindTraces.Finder.Detour` | cc370/gcc/bb-reorder.c:564-604 | the first block that has the current block as only predecessor, the selected one as only successor, and is frequent enough, if there is one; else the selected one |
| `FindTraces.Finder.BbToKey` | cc370/gcc/bb-reorder.c:702-731 | the key of the block in the present scene |
| `TraceChoices.Scene.KeyIs` | cc370/gcc/bb-reorder.c:702-731 | BB_FREQ_MAX for blocks probably never executed, else that of the most frequent priority edge if there is one, else that of the block's frequency |
| `FindTraces.Finder.RecountKeys` | cc370/gcc/bb-reorder.c:617-640 | the successors of the new end get the keys they have now, no other key changes |
| `TraceChoices.KeysFinish` | cc370/gcc/bb-reorder.c:612-640 | so if all keys in a heap were right before a trace was finished, all are right after; that they are is kept as long as no block is copied |
| `FindTraces.Finder.RotateLoop` | cc370/gcc/bb-reorder.c:219-330 | both walks end; the trace becomes the blocks before the loop, the copied header exactly if the source copies it, and the loop turned to end at the block of the best exit; nothing follows that block |
| `FindTraces.Finder.BestExit` | cc370/gcc/bb-reorder.c:234-289 | the exit that looking at all edges of the loop's blocks in order gives |
| `TraceChoices.Scene.ScanFound` | cc370/gcc/bb-reorder.c:234-289 | that is an edge that leaves the trace from the loop whenever there is one, and a preferred one whenever there is one |
| `TraceChoices.Scene.ScanMost` | cc370/gcc/bb-reorder.c:245-286 | where edges carry no counts it is the most frequent of these |
| `TraceChoices.Scene.LoopEndExit` | cc370/gcc/bb-reorder.c:291-330 | from the block where the loop is to end an edge leaves the trace if one leaves it from the loop at all |
| `TraceSearch.RotatedSame` | cc370/gcc/bb-reorder.c:291-330 | rotation keeps the multiset of blocks plus the copied header, the prefix stays, and the chosen block is last |
| `TraceSearch.RotatedLinked` | cc370/gcc/bb-reorder.c:291-330 | the pointer changes made to a loop closed through `rbi->next` leave one acyclic chain through the rotated sequence |
| `FindTraces.Finder.CopyBb` | cc370/gcc/bb-reorder.c:654-698 | the copy is new, on the current trace after the given block, and all its successors are on traces or in heaps |
| `FindTraces.Finder.CloseLoop` | cc370/gcc/bb-reorder.c:514-561 | the end of a trace that met itself: a frequent loop is turned around, unless its header is the function's first block; a one-block loop is left; otherwise the header is copied to the end exactly if the edge back is the only one out and the block may be copied |
| `TraceChoices.Scene.FrequentIs` | cc370/gcc/bb-reorder.c:519-522 | a loop is frequent exactly if the edge back is taken more than four times in five |
| `TraceSearch.CoverAll` | cc370/gcc/bb-reorder.c:182-200 | with empty heaps the coverage invariant puts every block on a path from ENTRY on a trace |
| `ConnectTraces.Layouter.Connect` | cc370/gcc/bb-reorder.c:778-995 | it ends; following `rbi->next` from the first trace's first block visits every block of every trace and every copy made on the way exactly once before NULL; the layout is the traces in some order, each only grown at its end; the order comes from a run of moves in which each trace follows the best edge there is, and which ends with nothing left to do |
| `ConnectTraces.Layouter.ConnectPreds` | cc370/gcc/bb-reorder.c:807-843 | the predecessor traces form one run that ends with the trace at hand, each along the best edge; it ends at trace 0 or where no edge comes from an unconnected trace |
| `ConnectTraces.Layouter.ConnectSuccs` | cc370/gcc/bb-reorder.c:849-980 | the layout goes on trace by trace along the best edge, and by a copied block only where no edge leads on; at the end no trace follows and no block is to be copied, or the last block is a copy that leads to no trace |
| `ConnectTraces.Layouter.ConnectNext` | cc370/gcc/bb-reorder.c:849-980 | one round of that loop is one move, or nothing goes on |
| `LayoutMoves.AllJoined` | cc370/gcc/bb-reorder.c:778-995 | any two traces that are neighbours in the layout were joined by some move of the run: along the best edge, for a copied block, or because the first went no further and nothing precedes the second |
| `LayoutMoves.View.OnOnce` | cc370/gcc/bb-reorder.c:853-873 | the best edge on is unique, so the moves are determined |
| `LayoutMoves.View.BackOnce` | cc370/gcc/bb-reorder.c:810-829 | the same for the best edge back |
| `LayoutMoves.View.CopyOnce` | cc370/gcc/bb-reorder.c:888-941 | and for the edge along which a block is copied and its continuation |
| `ConnectTraces.Layouter.BestPred` | cc370/gcc/bb-reorder.c:810-829 | the most probable usable edge from an unconnected trace's end, the longest such trace among equals, the first edge among those |
| `ConnectTraces.Layouter.BestSucc` | cc370/gcc/bb-reorder.c:853-873 | the same for edges to the starts of unconnected traces |
| `ConnectTraces.Layouter.FindCopy` | cc370/gcc/bb-reorder.c:888-941 | a block is chosen for copying exactly if some usable edge leads to a one-block trace or to a block that leads on, along the first most probable such edge; the continuation is that of the last selected edge whose destination is no one-block trace, none if there is none, so it belongs to the copied block exactly if that is no one-block trace |
| `ConnectTraces.Layouter.BestOnward` | cc370/gcc/bb-reorder.c:914-938 | an edge is found exactly if one leads on; it is, of those not before the last to the exit, the first most probable and then longest, the exit counting as longest |
| `LayoutMoves.View.PickedOnce` | cc370/gcc/bb-reorder.c:914-938 | there is only one such edge, so the continuation of a block is determined |
| `StaleContinuation.CopiedAfterThird` | cc370/gcc/bb-reorder.c:888-965 | on a six-block graph, after the steps that `connect_traces` takes from unconnected traces, with all its invariants: the layout is traces 0, 1, 2, none continues it, block 4 is copied, and the trace appended is that of block 6, to which 4 does not lead |
| `TraceChains.LayoutDistinct` | cc370/gcc/bb-reorder.c:983-993 | no block occurs twice in the layout of a run of traces |
| `PowiSync.PowerCode` | cc370/gcc/builtins.c:2012-2119 | for every n the emitted straight-line code has exactly as many multiplications as `powi_cost(n)` predicts and leaves x**n, or its reciprocal for n < 0, in the returned register, for every real x |
| `PowiSync.Sync` | cc370/gcc/builtins.c:2006-2090 | for every n > 0 the multiplications of the generator, which fills its cache in another order and halves step by step, are as many as the predictor counts with window shifts |
| `PowiSync.SyncSets` | cc370/gcc/builtins.c:2012-2090 | the exponents the generator computes are those the predictor looks up plus those a window shift jumps over at the edge of the table |
| `Powi.PowiCost` | cc370/gcc/builtins.c:2012-2048 | the loop's result is the number of distinct table exponents needed plus the shifts |
| `Powi.LookupCost` | cc370/gcc/builtins.c:1994-2005 | the cost is the number of exponents newly marked, and exactly the table closure of n is marked |
| `PowiExpand.Emitter.Expand` | cc370/gcc/builtins.c:2054-2090 | it ends for every n >= 1; every operand register is assigned before it is read although `cache[n]` is filled first; the target holds power n; the code grows by the newly cached exponents plus the big steps |
| `PowiSync.ExpandPowi` | cc370/gcc/builtins.c:2096-2119 | as many multiplications as predicted; one for n = 0, a reciprocal exactly for n < 0 |
| `PowiSync.CostBound` | cc370/gcc/builtins.c:1925-1932 | for every n >= 1 the cost is at most 2*bits(n)-2 |
| `PowiSync.NeverTooMany` | cc370/gcc/builtins.c:1925-1932 | with 64-bit host words the default POWI_MAX_MULTS is never exceeded |
| `PowerTreeCost.TreeTakes` | cc370/gcc/builtins.c:1952-1985 | every exponent of the table needs exactly its tabulated number of multiplications: its closure has one exponent more than that |
| `PowiSync.TableCost` | cc370/gcc/builtins.c:1988-2048 | for an exponent below 256 the predicted cost is exactly the tabulated one |
| `Dataflow.ComputeOut` | cc370/gcc/bt-load.c:583-611 | it ends; `out` solves out = gen + (in - kill), and contains exactly the definitions that reach the end of the block along some path with no later kill |
| `Dataflow.LeastSolution` | cc370/gcc/bt-load.c:583-611 | every solution contains every reaching definition, so the computed one is the least |
| `Dataflow.Pass` | cc370/gcc/bt-load.c:595-608 | one sweep only adds reaching definitions; if it reports a change there is less left to add, and if not the sets are a solution |
| `Dataflow.UnionOfPreds` | cc370/gcc/sbitmap.c:598-629 | the union over predecessors, skipping the entry block |
| `LiveRange.Augment` | cc370/gcc/bt-load.c:823-892 | in both cases every block of the range but the head has all predecessors in the range, the range is the least such set, the register set is what is live in it, every added block is dominated by the new head, so ENTRY is never added, and the worklist never holds more than one entry and the surplus of predecessors over the blocks of the range |
| `LiveRange.WorklistFits` | cc370/gcc/bt-load.c:823-892 | if every block but the entry has a predecessor and there are at most two edges a block, that is within the n_basic_blocks + 1 entries allocated |
| `LiveRange.PathsStay` | cc370/gcc/bt-load.c:823-892 | every path from the head to a block of the range that does not come back to the head stays inside |
| `LiveRange.AroundDominated` | cc370/gcc/bt-load.c:840-856 | a block on a way around the head to a dominated block is dominated itself |
| `LiveRange.DefLiveRange` | cc370/gcc/bt-load.c:917-957 | the live range of a definition covers the definition and all uses and is closed; a computed one is reused |
| `LiveRange.ChooseBtr` | cc370/gcc/bt-load.c:896-915 | the first register of the allocation order that is a target register and not used, -1 exactly if there is none |
| `ShortenCompare.ShortenPreserves` | cc370/gcc/c-common.c:2168-2490 | for all six comparisons, every pair of widths, every signedness of operands and nominal type, every constant and every value the narrowed comparison has the original truth value, unless an operand is misread (see below) and negative |
| `ShortenCompare.ShortenConstant` | cc370/gcc/c-common.c:2239-2400 | a narrow operand and a constant are compared at the precision of the operand; the result is constant if and only if all values of that type compare alike, and never for an unsigned ordering of a sign-extended operand |
| `ShortenCompare.ShortenBoth` | cc370/gcc/c-common.c:2406-2431 | two narrow operands extended alike are compared at the wider of their precisions |
| `ShortenCompare.ShortenNominal` | cc370/gcc/c-common.c:2432-2480 | otherwise the comparison is made in the nominal type, except that unsigned values are known not to be below zero |
| `ShortenCompare.ConstantFirst` | cc370/gcc/c-common.c:2193-2237 | a constant goes second and the comparison is turned round |
| `ShortenCompare.SafeExactly` | cc370/gcc/c-common.c:2168-2490 | an operand is compared rightly with everything if and only if it is not a signed value extended to an unsigned type narrower than the nominal type, or its narrow value is never negative |
| `ShortenCompare.SafeVariable` | cc370/gcc/c-common.c:2168-2490 | for extensions of variables: if and only if it is not such a conversion |
| `ShortenCompare.MisreadExample` | cc370/gcc/c-common.c:2179-2190 | `(unsigned) c == 4294967295LL` with c == -1 is true and narrowed to false |
| `ShortenCompare.AgainstConstMeans` | cc370/gcc/c-common.c:2239-2402 | the constant branch compares the value it takes the operand for with the constant, with bounds, signs and replaced constants as they are |
| `ShortenCompare.AgainstConstSigned` | cc370/gcc/c-common.c:2347-2377 | the sign-extended operand of an unsigned comparison, where the constant is replaced by an extreme of the signed type |
| `ShortenCompare.BothNarrowMeans` | cc370/gcc/c-common.c:2406-2431 | two operands extended alike may be compared in the wider of their types |
| `ShortenCompare.NarrowerExtends` | cc370/gcc/tree.c:4151-4238 | extending the stripped expression as reported gives back the original |
| `ShortenCompare.StripMost` | cc370/gcc/tree.c:4151-4238 | as many conversions are stripped as extend alike |
| `CaseLabels.Switch.AddCases` | cc370/gcc/c-common.c:3880-4017 | no error is reported for a whole switch if and only if no two labels have a common value and there is at most one default |
| `CaseLabels.Switch.AddCase` | cc370/gcc/c-common.c:3880-4017 | as long as no error was reported, an overlap is reported exactly if the new label, converted to the type of the condition, meets any recorded one; the label is recorded in any case |
| `CaseLabels.Switch.FindOverlap` | cc370/gcc/c-common.c:3943-3983 | the exact match and the two neighbours suffice |
| `CaseLabels.Neighbours` | cc370/gcc/c-common.c:3950-3983 | if any recorded label meets the new one, a neighbour of its low value does |
| `CaseLabels.ConflictByEnds` | cc370/gcc/c-common.c:3965-3983 | having a common value is overlapping of [low, max(low, high)] |
| `CaseLabels.CaseOrder` | cc370/gcc/c-common.c:3858-3869 | `case_compare` is a total order with the default label first |
| `Archiver.RoundTrip` | ar370/src/ar370.c:159-317 | listing the archive of accepted inputs shows their names and sizes in order and each symbol with the offset of the header of the member whose ESD defined it, if and only if every name is readable: not empty, a short one without a space, a long one without a newline; for any mix of short and long names and any padding |
| `Archiver.Archiver.Create` | ar370/src/ar370.c:220-252 | the bytes written are the archive of the accepted inputs, whose names fit the reader's buffer and hold no slash; refused exactly if an input is not a readable deck with a short enough name, or a size does not fit its field; every header holds date, owner and group 0 and mode 100644, and members of odd length are padded with a newline |
| `Archiver.Archiver.ReadInputs` | ar370/src/ar370.c:159-186 | inputs are accepted or refused as a whole; long names get consecutive places and symbols come from all ESD cards in order |
| `Archiver.Archiver.ScanEsd` | ar370/src/ar370.c:93-113 | the symbols of all ESD cards of the deck, in order, with its object |
| `ObjectDecks.SymbolsExactly` | ar370/src/ar370.c:74-113 | a symbol is recorded for an object if and only if an item of an ESD card of its deck is a section, label, private code or common block with a name that is not blank, and that name without trailing blanks |
| `ObjectDecks.EsdName` | ar370/src/ar370.c:74-84 | the translated name without trailing blanks, and whether any byte is not blank |
| `ObjectDecks.IsDeck` | ar370/src/ar370.c:145-155 | whole 80-byte cards that begin with X'02', one of them END |
| `Archiver.BasenameLast` | ar370/src/ar370.c:65-71 | what follows the last separator |
| `ArchiveRoundTrip.ListCreated` | ar370/src/ar370.c:189-317 | the reader undoes the writer for any objects with readable names, below 2**32 bytes |
| `ArchiveRoundTrip.ListMembersExactly` | ar370/src/ar370.c:189-317 | whatever the names, the archive is listed, and the members are shown as given if and only if all names are readable |
| `ArchiveRoundTrip.NameReads` | ar370/src/ar370.c:257-267 | the name of a member that has one is recovered from its header, through the long names if need be, if and only if it is readable |
| `ArchiveRoundTrip.SymbolReads` | ar370/src/ar370.c:271-286 | a symbol's name and the header offset of its member are recovered |
| `ArchiveWriter.OffsetsMatch` | ar370/src/ar370.c:226-236 | the offsets computed before writing are where the headers then stand |
| `ArchiveFormat.ChunkReads` | ar370/src/ar370.c:129-140 | a header gives back its name field and size, and the next header is where the size says; the fields no walk looks at are date 0, owner 0, group 0, mode 100644, and the end mark stands behind |
| `ArchiveFormat.MembersStamped` | ar370/src/ar370.c:129-140 | the same for every member of an archive |
| `ArchiveReader.ListArchive` | ar370/src/ar370.c:289-317 | for any bytes the two walks and the symbol loop compute the listing, or the file is not an archive, or the walk leaves the file, or it never ends |
| `ArchiveReader.ListExact` | ar370/src/ar370.c:289-317 | of an archive the listing never ends if and only if every round of the walk finds a header, which is if and only if it comes back to one; it reads before the file if and only if a round steps there; otherwise it lists, in particular if no header read has a size of -60 or less |
| `ArchiveReader.ListExamples` | ar370/src/ar370.c:298-314 | a file of 68 bytes on which it never ends, and one of 188 bytes on which it steps back and lists three members |
| `ArchiveWalk.WalkExact` | ar370/src/ar370.c:298-303 | the walk gets past the end, steps before the file, or revisits a header, exactly as its rounds do |
| `ArchiveWalk.AdvancesExactly` | ar370/src/ar370.c:298-303 | the walk ends with strictly increasing offsets if and only if no header it reads has a size of -60 or less |
| `ArchiveWalk.StandingStill` | ar370/src/ar370.c:298-303 | one header with size -60: every round stays at offset 8 |
| `ArchiveWalk.BackwardEnds` | ar370/src/ar370.c:298-303 | a size of -90 takes the walk from 128 back to 98 and from there past the end |
| `AliasSets.AliasAnalysis.TypesConflict` | cc370/gcc/alias.c:260-291 | whatever was asked before, the sets of two types are in conflict if and only if one type may alias anything, they share a set, or one holds at some depth the other or something that may alias anything |
| `AliasSets.AliasAnalysis.GetAliasSet` | cc370/gcc/alias.c:567-608 | the set of the type is known and stays; all entries but those of types in the making list exactly the sets of all transitive addressable components, and say whether one of them is zero |
| `AliasSets.AliasAnalysis.RecordComponents` | cc370/gcc/alias.c:697-739 | when it ends the entry of the type is exact for all its components at any depth |
| `AliasSets.AliasAnalysis.RecordSubset` | cc370/gcc/alias.c:642-689 | the superset's entry gains the subset and all that the subset's entry has |
| `AliasSets.ConflictExact` | cc370/gcc/alias.c:260-291 | one-level lookup answers the question about components at any depth |
| `AliasSets.ConflictSymmetric` | cc370/gcc/alias.c:260-291 | the answer does not depend on the order |
| `MemRefs.NoConflictDisjoint` | cc370/gcc/alias.c:1652-1848 | if no conflict is seen, both sizes are known and the bytes [X, X+xsize) and [Y+c, Y+c+ysize) are disjoint under every register valuation |
| `MemRefs.ConflictSymmetric` | cc370/gcc/alias.c:1652-1848 | swapping the references and negating c gives the same answer |
| `MemRefs.ConflictExactly` | cc370/gcc/alias.c:1652-1848 | for sums of registers with or without a constant at the end, the test agrees with what the registers allow if and only if the sums are equal up to order at each node, or the constants differ by what steps of the common stride of the register counts can bring together |
| `MemRefs.ConflictExact` | cc370/gcc/alias.c:1652-1848 | so if the sums are equal or some register is added once more in one address, a conflict is seen if and only if some valuation makes the bytes overlap |
| `MemRefs.MeetExactly` | cc370/gcc/alias.c:1652-1848 | for any two addresses, some valuation makes the bytes overlap if and only if the offsets are that near modulo the gcd of the differences of register counts |
| `MemRefs.PessimisticExamples` | cc370/gcc/alias.c:1652-1848 | two pairs of addresses that never overlap but are reported to conflict |
| `MemRefs.EqualAddress` | cc370/gcc/alias.c:1189-1250 | expressions that look equal have equal values |
| `AllocPool.Pool.Alloc` | cc370/gcc/alloc-pool.c:226-291 | a slot that was not handed out; every slot of every block stays either on the acyclic free list, once, or handed out, and the counts stay right |
| `AllocPool.Pool.Free` | cc370/gcc/alloc-pool.c:293-321 | a live pointer is taken back without abort, under the same invariant; when nothing is handed out it aborts and changes nothing |
| `AllocPool.Pool.Write` | cc370/gcc/alloc-pool.c:226-321 | bytes written anywhere inside a live object miss the pointer word of every free slot and of every block, and the pool stays intact |
| `AllocPool.Pool.LiveApart` | cc370/gcc/alloc-pool.c:127-193 | live objects are pairwise byte-disjoint |
| `AllocPool.Pool.LiveInside` | cc370/gcc/alloc-pool.c:127-193 | a live object is 8-aligned and inside a block behind its header |
| `AllocPool.Pool.NewBlock` | cc370/gcc/alloc-pool.c:243-278 | all slots of a new block and nothing else are on the free list |
| `PoolSlots.SlotsApart` | cc370/gcc/alloc-pool.c:263-273 | different slots do not overlap, across blocks too |

## Left out

- Bitmaps: the debug output; words are read from the set of an element's bits, not stored, so the masks by which single bits are set and cleared are not modelled; `bitmap_release_memory`; garbage collection roots. The heap objects of elements are modelled as maps from addresses to fields, one map per field, and in clearing the last bit of an element two independent writes are made in the other order.
- Block reordering: keys are computed as in the source but nothing is claimed about which of several orders of extraction is better; keys are proved right as long as no block is copied, afterwards the profile may be another and keys may be stale; instruction emission, `cfg_layout_finalize` and dump output; how `cfg_layout_duplicate_bb` changes frequencies (any change is allowed).
- FindTraces.Finder.SelectBest: `better_edge_p` is not transitive, so the selected edge is not claimed to be best among all candidates, only that no later candidate is better.
- Integer powers: rounding of floating-point multiplication (the code is evaluated over the reals), machine modes, the expansion of `pow` around it.
- Branch-target registers: finding and moving the definitions, the cost model, `combine_btr_defs` and `migrate_btr_def`; dominance is the relation over paths, not the dominator tree; the worklist of `augment_live_range` is unbounded: its length is bounded by the predecessors of the blocks it adds, and beyond two edges a block nothing is claimed about the array the source allocates for it.
- Comparison narrowing: floating-point and enumeration branches, narrow structure fields in `get_narrower`, side effects of operands and all warnings; conversions of constants are taken as already folded, as `convert` leaves them.
- Case labels: pointer and error operands, the statements that are added; after a reported overlap nothing is claimed.
- ArchiveReader.ListArchive: where the source would loop for ever or read before the file the method says so instead; it keeps the set of offsets it has read for that, which the source does not. Reading beyond the end of the file yields NUL bytes.
- Archives: file input and output, options, verbose listing, the EBCDIC table itself. Round trips are claimed for archives below 2**32 bytes, since offsets have four bytes.
- Alias sets: restrict pointers and expressions (only types are modelled), qualifiers (types stand for their main variants), the absence of strict aliasing. Components are numbered before the types that hold them, so recursive types through pointers are cut at the pointer.
- MemRefs: MULT, AND, ADDRESSOF, CONST, symbol, VALUE and auto-increment addresses and register invariants; addresses are unbounded integers, so wrap-around of the address space and of the offset accumulator is not modelled.
- Pool allocator: memory is known by pointer words, and a byte write makes the words it touches unknown; the checking and statistics variants, `free_alloc_pool`, overflow of the block size; a zero element count, on which the source aborts, is excluded.
- The assembler as370, the linker ld370, the remaining passes and front-end files of the compiler, and the libraries.
