# What the analyses claim, proved

The repository holds a worst-case execution time analyser for a VLIW processor (`wcet/src`), a cycle simulator of that
processor (`soft_sim/src`), and some LLVM examples (`llvm/examples`). This project models the parts whose results are
claims about every run of a program, models what runs are, and proves the claims, or proves exactly when they hold.

| files | what they model |
|---|---|
| `Graphs`, `Loops` | control-flow graphs with mirrored successor and predecessor lists; the loop table |
| `CacheState`, `MayStates`, `MustSearch`, `CacheAnalysis`, `Classification`, `Predictions`, `Timing` | the instruction-cache analysis: may fixpoint forward and backward, must search, classification of bundles, which prediction a bundle gets, conflict penalties |
| `CacheRuns`, `AlwaysHits`, `FirstMisses`, `CacheCounterexamples` | runs of the direct-mapped cache, the bounds on misses, exactly when hits and first misses are what they are called, and where the analysis says too much |
| `Components`, `Tarjan`, `LoopFreeGraphs`, `LoopBodies`, `LoopNesting`, `LoopOrder` | strongly connected components with an explicit stack, the order of the search, copies of loop bodies |
| `LoopForest`, `LoopSearch`, `LoopSources`, `LoopMerge`, `LoopIdentification`, `LoopCounterexample` | the search for nested loops, when it ends, the removal of repeated headers, the forest that is left |
| `LoopTables`, `ProgramAnalysis` | what that forest gives the cache analysis, and the two passes in a row |
| `LoopStays`, `LoopExact`, `LoopBounds`, `BoundsAttained`, `LoopAside`, `Ipet`, `IpetRuns`, `IpetSound`, `Transfers`, `Solutions`, `Pruner` | loop bound products and exactly when they hold, the integer program, why it covers every run, and the pruning of the graph by its solution |
| `FirstMissLimits`, `NestedHeaderLimit` | the limits of the integer program on first misses against runs of the cache |
| `FetchPath`, `Memory`, `Relocation`, `ControlFlow`, `Mif` | fetch path against ROM, word memory against bytes, linking against decoding and branching, memory image text against its parser |
| `BrainFSource`, `BrainFCode`, `BrainFBuild`, `BrainFCompiler`, `BrainFMeaning` | the BrainF compiler: reader, code generation with phi nodes, and the equivalence of source and code |
| `Barrier` | the condition-variable barrier as a state machine over its threads' steps |

## How it is modelled

Objects whose methods update fields are classes here, with the same fields; each method is proved against a function or a
predicate on snapshots of those fields, and the lemmas are about these. Code made of expressions is functions.

Blocks are numbers, and what the source stores in a block object is a sequence indexed by block. Cache states, lists and
vectors are sequences held in fields. Addresses are natural numbers and their fields quotients and remainders;
`CacheState.FieldsRecompose` and `Memory.MaskedAddress` show, on 32-bit words, that the masks and shifts of the source
compute those. In `Relocation` a word is the list of its 32 bits, so that masks and shifts are slices. Tape cells are numbers
modulo 256. Where the source ends the program or fails an assertion, a method returns a value that says so.

Loops of the source that first do one thing for all blocks and then another are sometimes one loop over the blocks here
(the rows of the integer program); the order of rows carries no meaning.

## What was found

* **First misses at headers.** The test that should make a header's bundle a conflict can never succeed for the header's
  own bundles (`FirstMisses.HeaderIsNeverConflict`), so such bundles are called first misses although they can miss in
  every iteration (`CacheCounterexamples.HeaderFirstMissCanFail`).
* **First misses behind inner loops.** A block entered from an inner loop only is a first miss whenever several tags reach
  it (`FirstMisses.AfterInnerLoop`), and can miss in every iteration too
  (`CacheCounterexamples.FirstMissAfterInnerLoopCanFail`). These two are the only kinds that can: every other first miss
  keeps its promise (`FirstMisses.FirstMissPromise`), and for all of them it holds if and only if no block inside the loop
  can bring another tag (`FirstMisses.FirstMissExact`).
* **Must search at headers.** A header is accepted when only its body accesses the tag, and then a bundle behind the loop
  is predicted to hit and misses (`CacheCounterexamples.AlwaysHitCanMiss`). A negative answer is right on every graph; what
  a positive one says on graphs with loops is in `MustSearch.Search.IsAlwaysAccessed`, and when the hit really is one in
  `AlwaysHits.AlwaysHitExact`.
* **Limits of nested headers.** The row for the first misses of a nested header takes its limit from the main predecessor,
  whose loop is the surrounding one. The header's first misses are within the entries to that loop, which the row counts,
  if and only if nothing foreign can come to it inside that loop (`FirstMissLimits.HeaderLimit`); otherwise it can miss
  more often than the row allows (`NestedHeaderLimit.NestedHeaderExceeds`). Where no way leads past the headers around, all
  first misses but those of headers and behind inner loops keep their limits (`FirstMissLimits.PromisedLimit`).
* **Loop number of the entry block.** The outer loop of the component search starts again at the graph root in every
  iteration and so erases the root's loop number (`Tarjan.Finder.Tarjan`); the list of loops is right all the same.
* **Loops with several back edges.** The copy of a body drops one edge only. If the block that loses its edge still reaches
  the header, the copy is the same loop again and the search never ends (`LoopSearch.SearchNeverEnds`); otherwise it ends,
  and the removal of repeated headers leaves the forest of loops (`LoopIdentification.Cfg.IdentifyLoops`). On programs
  whose loops are entered at their headers it ends if no source of an edge to a header reaches another one without the
  header (`LoopSources.ApartEnds`), and never if two reach each other (`LoopSources.CrossingNeverEnds`).
* **Loops entered or left beside their header** exceed the block bound (`LoopAside.EnteredAsideExceeds`), by exactly one
  per stay for each of the two (`LoopExact.StayBoundExact`). That includes every loop that tests at its end: its blocks in
  front of the exit run once more than the bound, and only the sink gets the extra one. With those extras the products
  bound the runs of every program (`LoopBounds.BlockCounts`).
* **Loops that test at their end** lead from the header into the loop once more than the bound when the bound is used up, so
  such runs miss the row that takes every loop exactly its bound (`BoundsAttained.InnerXOnFullRun`,
  `IpetSound.AutoloopHolds`), and the maximum need not cover them.
* **A program of one block** gets no variables, and its cost is not in the objective (`IpetSound.OneBlockHasNoCost`).
* **Calls outside slot 0** are not taken: only slot 0 drives the program counter (`ControlFlow.CallReachesTarget`). Behind a
  conditional branch that is not taken, a call in slot 1 or 2 can be, and then lands short by its slot number
  (`ControlFlow.CallIsTaken`, `ControlFlow.LinkedTarget`).
* **Data images** are printed with depth 4096 where the simulator expects 2048, and refused (`Mif.DataImageRejected`).
* **The parser of images** accepts an address equal to the size and writes one past the array (`Mif.AddressChecked`).
* **Spurious wakeups**, which POSIX allows, break the barrier in every state in which they can happen
  (`Barrier.SpuriousBreaks`).
* The comment in the cache analysis that compares a block with the cache size counts bundles, not words; the model assumes
  instead that no block uses two tags on one line.
* The simulator's cache constructor writes `tag` twice and never the valid bit; the model starts with all lines invalid.

## Model

| member | source | states |
|---|---|---|
| CacheState.FieldsRecompose | wcet/src/cache.cpp:107-147 | tag, line and offset cut out of a 32-bit address by masks recompose the address, and stay within 2^24, 32 and 8 |
| CacheState.CreateState | wcet/src/cache.cpp:194-203 | every line of a block's state holds exactly the tags of the block's bundles on that line |
| CacheState.CopyCState | wcet/src/cache_analisys.cpp:235-249 | the union line by line; reports a change exactly when the destination grew |
| CacheState.MakeOutputCState | wcet/src/cache_analisys.cpp:176-209 | a referenced line becomes the block's own tags, others take in the source; exactly when it reports a change |
| CacheState.LineAfterBundles | soft_sim/src/Cache.cpp:57-93 | after fetching bundles, an unused line is as before and a used one holds one of the tags used |
| MayStates.StableIsExact | wcet/src/cache_analisys.cpp:106-139 | states that are sound and that no pass changes contain a tag exactly when some path justifies it |
| MayStates.UpdateBlock | wcet/src/cache_analisys.cpp:106-139 | one update keeps soundness, and reports no change only if nothing could be added; otherwise what is missing shrinks |
| CacheAnalysis.Analysis.CalcRmb | wcet/src/cache_analisys.cpp:106-139 | terminates with exactly the tags that some path brings to the block with no later block using the line |
| CacheAnalysis.Analysis.CalcLmb | wcet/src/cache_analisys.cpp:141-174 | terminates with the same on the reversed graph |
| CacheAnalysis.Analysis.CalcMust | wcet/src/cache_analisys.cpp:29-68 | terminates on every table the loop search leaves (`LoopTables.TableIsSearchable`); the must state holds nothing but the single reaching tag: always where the block itself uses the line, otherwise where the search is sure and only where it accepts |
| CacheAnalysis.Analysis.ClassifyInstr | wcet/src/cache_analisys.cpp:251-500 | every bundle's prediction and the three index lists are those of the decision procedure; fails only where an assertion of the source fails |
| CacheAnalysis.Analysis.Analize | wcet/src/cache_analisys.cpp:21-27 | terminates on every such table; all results mean what fixpoints and search promise; an assertion fails only if some block inside a loop is entered from outside every loop alone |
| CacheAnalysis.ListsMatchPredictions | wcet/src/timing.cpp:125-153 | for all results of the analysis, loops included, the three lists hold exactly the places with the prediction, in order, and the counts agree with them as asserted |
| MustSearch.Search.IsAlwaysAccessed | wcet/src/cache_analisys.cpp:781-808 | on every table with a rank, as all have that the loop search leaves: no is right; yes where no avoiding path slips past the headers, and only where no set of blocks evades the tag; without loops exactly when every path accesses it; without nested loops exactly when none slips |
| MustSearch.Search.Visit | wcet/src/cache_analisys.cpp:810-903 | the recursion terminates by open headers and rank, keeps right marks, and answers within two limits that do not depend on visiting order; a rank exists on every table that the loop search leaves |
| MustSearch.Search.VisitHeader | wcet/src/cache_analisys.cpp:842-880 | the header case of the same: accepted only by the way in or by its body, and sure to be accepted unless the tag can be dodged on both |
| MustSearch.FlatAnswer | wcet/src/cache_analisys.cpp:810-903 | without nested loops the two limits meet |
| MustSearch.LimitsFit | wcet/src/cache_analisys.cpp:842-852 | blocks that evade the tag, blocks it can be dodged to and paths that slip past headers fit every step of the search |
| CacheRuns.ColdRunIsJustified | soft_sim/src/Cache.cpp:57-93 | what a cold run leaves in a line is a tag that some path justifies, or nothing if no block used the line |
| CacheRuns.MustIsCached | wcet/src/cache_analisys.cpp:29-68 | a tag in the must state is in the cache after every run from an entry block |
| AlwaysHits.SingleTagHits | wcet/src/cache_analisys.cpp:29-68 | on every graph, a bundle that starts its line and is the only tag reaching it hits on every run if and only if its tag is accessed on every way to every predecessor |
| AlwaysHits.AlwaysHitExact | wcet/src/cache_analisys.cpp:284-300 | the same for any reaching tags on graphs whose blocks can all be reached: no other tag may reach the block |
| AlwaysHits.PredictedHitExact | wcet/src/cache_analisys.cpp:319-326 | an always-hit predicted outside headers is right exactly when the must search was right about the predecessors |
| AlwaysHits.UnchargedEdgeExact | wcet/src/timing.cpp:440-467 | an edge that is not charged for a bundle is rightly so if and only if the tag is accessed on every way to its start |
| AlwaysHits.ChargeExact | wcet/src/timing.cpp:440-467 | on graphs whose blocks can all be reached, a bundle hits on every run over an edge if and only if the edge is not charged and the must search was right about its start: no charge is wasted, and without loops none is missing |
| CacheRuns.InsideLineHits | wcet/src/cache_analisys.cpp:284-300 | a bundle that neither starts its block nor its line hits |
| CacheRuns.PersistentInRun | wcet/src/cache_analisys.cpp:403-427 | if one tag alone reaches a line's input, the block misses it at most once in a whole run, on every graph |
| CacheRuns.PersistentBetween | wcet/src/cache_analisys.cpp:708-735 | with no other tag on the line in between, the second access hits |
| Classification.MissesArePredicted | wcet/src/cache_analisys.cpp:251-500 | on every graph a bundle misses only if predicted always-miss, or conflict charged on the edge taken, or first miss of a loop, or where a search was wrong: the must search about the predecessor, on a line no block has used so far, or the in-loop search at a nested header; without loops only the first two |
| Classification.UnchargedEdgeHits | wcet/src/timing.cpp:440-467 | over an edge that is not charged a bundle misses only if the must search was wrong about the predecessor and no block so far has used the line; without loops never |
| Classification.BlockMissBound | wcet/src/timing.cpp:440-467 | the misses of a block entered along an edge are at most its always-misses, the conflicts charged on that edge, the first misses that do miss, and, if some must claim is false, the lines it is the first to use; without loops the first two |
| Classification.RunMissBound | wcet/src/timing.cpp:91-153 | end to end, on every graph: no cold run misses more often than the analysis accounts for along it, besides the first misses that do miss, and once more per cache line if some must claim is false; without loops nothing is added |
| Classification.FirstMissOncePerRun | wcet/src/cache_analisys.cpp:403-427 | a first miss with one reaching tag misses at most once per run, on every graph |
| Classification.FirstMissOncePerStay | wcet/src/cache_analisys.cpp:473-477 | without conflicts in the loop, a tag misses at most once per stay in the loop, in whatever blocks and bundles it is used |
| FirstMisses.FirstMissPromise | wcet/src/cache_analisys.cpp:395-490 | what a first miss guarantees: at most one miss per stay, unless its block is a header or follows an inner loop |
| FirstMisses.FirstMissExact | wcet/src/cache_analisys.cpp:395-490 | a bundle of a reachable loop misses at most once per stay if and only if no block inside the loop can bring another tag to it |
| FirstMisses.AfterInnerLoop | wcet/src/cache_analisys.cpp:430-457 | behind an inner loop several reaching tags always give a first miss |
| Classification.UnlistedDecisions | wcet/src/cache_analisys.cpp:440-460 | only hits are left unlisted: the branch that sets an always-miss without listing it is never taken; an assertion fails only for a block entered beside its loop |
| Predictions.LaterIsHit | wcet/src/cache_analisys.cpp:284-300 | a bundle that neither starts its block nor its line is predicted a hit |
| Predictions.LongBlock | wcet/src/cache_analisys.cpp:265-283 | in a block of more than 256 bundles with several tags on a line, first bundles are always-misses and others hits |
| Predictions.NeverArrives | wcet/src/cache_analisys.cpp:284-296 | a first bundle of a line whose tag can come from no predecessor is an always-miss, in loops and outside |
| Predictions.OutsideLoops | wcet/src/cache_analisys.cpp:303-330 | outside loops: a hit if and only if there is one predecessor and its edge would not be charged, a conflict if and only if there are several and one brings the tag, an always-miss if and only if none brings it or the only edge would be charged |
| Predictions.AloneInLoop | wcet/src/cache_analisys.cpp:403-430 | in a loop, beside its header, a bundle whose tag alone can arrive is a hit if all searches say so and else a first miss, never charged in every iteration |
| Predictions.OthersInLoop | wcet/src/cache_analisys.cpp:395-490 | if other tags can arrive too, exactly when it is a conflict, a first miss, an always-miss, and when an assertion fails |
| Predictions.AlwaysMissExact | wcet/src/cache_analisys.cpp:284-296 | on graphs whose blocks can all be reached, a first bundle of a line misses on every run if and only if its tag can come from no predecessor |
| FirstMisses.HeaderIsNeverConflict | wcet/src/cache_analisys.cpp:550-672 | the exact outcome of the header branch: a header's own bundle is never made a conflict |
| FirstMisses.HeaderFirstMissExact | wcet/src/cache_analisys.cpp:550-672 | a first miss at the header of a reachable natural loop misses once per stay if and only if no block inside leaves another tag at a back edge |
| FirstMisses.ForeignTagMissesTwice | soft_sim/src/Cache.cpp:57-93 | another tag brought to the block inside the loop gives a run on which its bundle misses twice in one stay |
| CacheCounterexamples.HeaderFirstMissCanFail | wcet/src/cache_analisys.cpp:550-672 | an input where the header is a first miss and misses in every iteration |
| CacheCounterexamples.AlwaysHitCanMiss | wcet/src/cache_analisys.cpp:842-852 | an input where, whatever results the analysis ends with, a bundle is an always-hit and misses on the run that leaves the loop at once |
| CacheCounterexamples.AnalyseLoopThenExit | wcet/src/cache_analisys.cpp:21-27 | the analysis run on that input ends with that prediction |
| CacheCounterexamples.FirstMissAfterInnerLoopCanFail | wcet/src/cache_analisys.cpp:430-457 | an input where a first miss behind an inner loop misses in every iteration of the outer loop |
| Timing.ConflictTiming | wcet/src/timing.cpp:440-467 | adds one penalty to exactly the charged edges |
| Timing.CountMisses | wcet/src/timing.cpp:125-153 | the counts per prediction and the recorded edge times |
| Timing.ConflictHasSeveralPreds | wcet/src/timing.cpp:440-467 | only blocks with several predecessors have conflicts, as asserted |
| Timing.PenaltyCoversStalls | wcet/src/timing.cpp:91-153 | the stall cycles of a block on a run are covered by its always-miss penalties and the penalty of the edge taken, besides the first misses that do miss and the lines a false must claim gives away; without loops by the first two |
| LoopFreeGraphs.NothingDetected | wcet/src/cfg.cpp:913-935 | when the loop search reports nothing, the must search terminates and every block is free of loops |
| Loops.GetInLoopPredecessors | wcet/src/cfg.cpp:171-226 | the last outside predecessor, and all predecessors but that one |
| Tarjan.Finder.StrongConnect | wcet/src/cfg.cpp:815-862 | keeps the stack, link and component invariants; a second visit of the graph root changes only its number and loop number |
| Tarjan.Finder.Tarjan | wcet/src/cfg.cpp:913-935 | for every graph, appends exactly the components of two or more blocks, each once, rooted at the block visited first and listed against the order of visits, which is depth first; numbers all blocks but the root, and reports whether it found any |
| Components.SealedIsComponent | wcet/src/cfg.cpp:838-860 | the part of the stack popped at a block is exactly its strongly connected component |
| LoopBodies.NewCfgFromLoop | wcet/src/cfg.cpp:575-655 | the copy has the loop's blocks and the edges between them except the first edge to the header |
| LoopBodies.DroppedEdge | wcet/src/cfg.cpp:615-630 | the dropped edge is gone unless it was listed twice |
| LoopNesting.HeaderFreedExactly | wcet/src/cfg.cpp:575-655 | the header stays in a nested loop if and only if the copy keeps an edge to it from another block |
| LoopNesting.NestedIsSmaller | wcet/src/cfg.cpp:329-396 | a component of a loop's body is smaller than the loop and avoids the header |
| LoopOrder.ComponentInOrder | wcet/src/cfg.cpp:838-855 | the list of a loop, reversed, is the order in which a depth-first search from its header goes through its body |
| LoopOrder.SameLoop | wcet/src/cfg.cpp:838-855 | so a search that finds a loop with the same header and the same blocks lists them in the same order |
| LoopSearch.StaysExactly | wcet/src/cfg.cpp:575-655 | the copy of a loop is still one component of all its blocks if and only if the block whose edge was dropped still reaches the header |
| LoopSearch.SearchNeverEnds | wcet/src/cfg.cpp:345-396 | if the search ever comes to a loop that stays connected in its copy, then after any number of rounds that loop is still to be searched |
| LoopSearch.StepShrinks | wcet/src/cfg.cpp:345-396 | otherwise every round leaves less to do, and the search ends |
| LoopSearch.StepKeepsSearch | wcet/src/cfg.cpp:345-396 | every round keeps loops nested or disjoint, components of what was searched, complete, and headers repeated only from parents |
| LoopIdentification.Cfg.IdentifyLoops | wcet/src/cfg.cpp:329-475 | terminates whenever no loop it comes to stays connected; then the loops left are the forest of loops of the program, and every block has the number of its innermost loop |
| LoopSources.ApartEnds | wcet/src/cfg.cpp:345-396 | on a program whose loops are entered at their headers, no loop the search comes to stays connected, so the search ends, if without the header no source of an edge to it reaches another one, and each has one such edge |
| LoopSources.OneBackEdgeEnds | wcet/src/cfg.cpp:345-396 | in particular if every header has one predecessor inside its loop |
| LoopSources.CrossingNeverEnds | wcet/src/cfg.cpp:345-396 | and it never ends if in some loop two sources reach each other without the header, or one has several edges to it: after any number of rounds a loop with the header and the source is still to be searched |
| LoopSources.FoundInForest | wcet/src/cfg.cpp:345-396 | every loop the search finds on such a program is part of a loop of the forest, with its header |
| LoopMerge.RemoveSameHeaders | wcet/src/cfg.cpp:400-456 | of the loops with one header exactly the first stays; the others' loops pass to the nearest loop that stays |
| LoopIdentification.StaysComponent | wcet/src/cfg.cpp:400-456 | a loop that stays is a component of the body of the loop that stays around it |
| LoopIdentification.StaysListed | wcet/src/cfg.cpp:400-456 | no component of the body of a loop that stays is missing, even if it lies in a loop that has been removed |
| LoopIdentification.ResultIsForest | wcet/src/cfg.cpp:400-456 | what the removal leaves is the forest: components of bodies, nested or disjoint, complete |
| LoopIdentification.ScanLoops | wcet/src/cfg.cpp:355-385 | gives exactly the loops found last their parent and continues behind the searched ones |
| LoopIdentification.PointerRemap | wcet/src/cfg.cpp:982-1001 | exactly the loop's blocks take over the numbers of the copy |
| LoopForest.LastIsInnermost | wcet/src/cfg.cpp:460-475 | of two loops of a block the later one lies in the body of the earlier, without its header |
| LoopForest.HeadersDiffer | wcet/src/cfg.cpp:402-456 | in the forest no two loops share a header |
| LoopCounterexample.TwoBackEdgesNeverEnd | wcet/src/cfg.cpp:329-396 | a loop with two back edges that stays connected: after any number of rounds it is still to be searched |
| LoopCounterexample.TwoContinuesEnd | wcet/src/cfg.cpp:329-396 | a loop with two back edges, as a `continue` makes them, on which the search ends |
| LoopTables.HeadersAreEntered | wcet/src/cfg.cpp:171-226 | with the loops left, the assertions on the predecessors of headers hold if the entry has no predecessors and reaches every block |
| LoopTables.NoneEnteredAside | wcet/src/cache_analisys.cpp:430-457 | with the loops left, no block inside a loop is entered from outside every loop alone, so the classification never aborts |
| LoopTables.LoopsAreConnected | wcet/src/cfg.cpp:838-860 | inside every loop left all blocks reach each other |
| LoopTables.TableIsSearchable | wcet/src/cache_analisys.cpp:810-903 | on every table the loop search leaves, irreducible graphs included, the edges the must search follows make no round, so that it terminates |
| LoopTables.TableServes | wcet/src/cache_analisys.cpp:21-27 | that table meets all that the analysis asks of it, and no assertion fails, if the entry has no predecessors and reaches every block |
| ProgramAnalysis.AnalyseProgram | wcet/src/main.cpp:411-422 | loop search and cache analysis, from the graph and its code: both end without a failed assertion, on the forest of loops, with results that mean what they promise and every bundle classified |
| LoopBounds.BlockBounds | wcet/src/loopbounddetector.cpp:19-63 | the three products up the chain of surrounding loops, whatever the loops' numbers are |
| LoopBounds.DetectBounds | wcet/src/loopbounddetector.cpp:10-65 | the same for every block |
| LoopBounds.BlockCounts | wcet/src/loopbounddetector.cpp:10-65 | a run that keeps the loops' bounds executes a block at most as often as its loop can be entered times the bound, with one more for a header or for every way past it; where no way leads past the headers of the chain, at most real_x times, and its loop is entered at most outer_x times |
| LoopBounds.LoopEntries | wcet/src/loopbounddetector.cpp:51-53 | every loop is entered at most as often as the product of the bounds around it, each with one more for every way past its header; where there is none, at most outer_x times |
| LoopBounds.HeaderRuns | wcet/src/loopbounddetector.cpp:40-49 | the header runs at most bound + 1 times per entry, summed over all entries |
| LoopBounds.BodyEntries | wcet/src/loopbounddetector.cpp:40-49 | a component of a body is entered at most bound times per entry of the loop, and once more for every way past the header |
| LoopStays.StayBound | wcet/src/loopbounddetector.cpp:40-49 | the same for every single stay |
| LoopExact.StayBoundExact | wcet/src/loopbounddetector.cpp:40-49 | exactly: for every bound, the runs that keep it enter a component at most bound times per stay if and only if it can neither be reached before the header nor the loop be left behind it; at most once or twice more if and only if one or both can |
| BoundsAttained.RealXIsRunX | wcet/src/loopbounddetector.cpp:40-49 | where no way leads past the headers of the chain, and sinks are where loops are left, real_x equals the entries to the block's loop times its runs per entry |
| BoundsAttained.RunsAttained | wcet/src/loopbounddetector.cpp:40-49 | for every bound, some run that keeps it runs header and block in one stay as often as those runs per entry |
| BoundsAttained.RealXAttained | wcet/src/loopbounddetector.cpp:40-49 | for all bounds of two nested loops, one that tests at its start and one at its end, a run that keeps them executes both headers, the sink and the plain blocks exactly real_x times |
| LoopAside.EnteredAsideExceeds | wcet/src/loopbounddetector.cpp:40-49 | a program with its forest of loops, and a run through the loop entered beside its header that keeps the loop's bound and exceeds the block's |
| LoopAside.FoundWithHeader | wcet/src/cfg.cpp:815-862 | on that program the search finds exactly that loop with that header |
| BoundsAttained.InnerXOnFullRun | wcet/src/ipet_mathprog.cpp:286-359 | on that run both loops are entered exactly outer_x times; the header of the loop that tests at its start leads into it exactly inner_x times per entry, that of the loop that tests at its end once more |
| Ipet.Builder.StoreEdgeInfo | wcet/src/ipet.cpp:179-239 | the variable with its flags, delta and bound, in exactly the lists of its two ends |
| Ipet.Builder.CreateHeaderVars | wcet/src/ipet.cpp:241-272 | a header's variables: split only for the main predecessor |
| Ipet.Builder.CreateSplitVars | wcet/src/ipet.cpp:274-295 | a first-miss and a hit variable for every edge |
| Ipet.Builder.CreateVariables | wcet/src/ipet.cpp:323-362 | all variables in order, and every list holds those of its block |
| Ipet.Builder.CreateObjective | wcet/src/ipet_mathprog.cpp:54-115 | the time of every edge, less delta unless the block has no successor |
| Ipet.Builder.Extract | wcet/src/ipet_mathprog.cpp:125-359 | exactly the loop, flow, cache and autoloop rows of all blocks and the fixed entry and exit variables |
| Ipet.Builder.TransferCount | wcet/src/ipet.cpp:17-31 | what a solution sends between two blocks |
| Transfers.TransferIsSteps | wcet/src/ipet.cpp:17-31 | at the counts of a run, the transfer between two blocks is how often the run steps from one to the other, and the count of a block how often it runs |
| Transfers.TransferIsVariables | wcet/src/ipet.cpp:17-31 | the transfer along an edge is the sum of its variables, without first miss and with |
| Transfers.TransfersAddUp | wcet/src/ipet_mathprog.cpp:241-284 | in a solution, the transfers out of a block and what leaves the program add up to its count |
| Transfers.CyclesSaved | wcet/src/ipet.cpp:179-222 | the cost of a run is its time less four cycles per block but the last, and four, three or minus two more by the kinds of its edges |
| Ipet.Builder.UpdateCfg | wcet/src/ipet.cpp:400-433 | every block's count is the sum over its incoming variables |
| Solutions.ReadSolution | wcet/src/ipet.cpp:400-433 | the counts of blocks and edges read off an assignment, as the pruner asks for them |
| Solutions.FeasibleIsConserved | wcet/src/ipet_mathprog.cpp:241-284 | in a solution no count is negative and no edge carries more than either end runs, as the pruner relies on |
| Solutions.EndsAreOne | wcet/src/ipet_mathprog.cpp:32-52 | in every solution the variables into the program and out of it are one |
| Solutions.EntryRuns | wcet/src/ipet_mathprog.cpp:32-52 | the entry block runs once in every solution |
| Solutions.PrunedByAssignment | wcet/src/CFG_pruner.cpp:21-58 | pruned by a solution, an edge stays if and only if one of its variables, first miss or not, is nonzero, and every block left within reach is executed |
| IpetRuns.VariablesAreSteps | wcet/src/ipet.cpp:241-362 | there is exactly one variable for every step a run can take, and no other |
| IpetRuns.SumOverSteps | wcet/src/ipet_mathprog.cpp:54-115 | the value of an expression at the counts of a run is the sum over the run's steps |
| IpetSound.FlowHolds | wcet/src/ipet_mathprog.cpp:241-284 | every run conserves flow at every block |
| IpetSound.LoopHolds | wcet/src/ipet_mathprog.cpp:125-175 | the loop row holds if and only if the run keeps the block's bound; the entry runs once |
| IpetSound.CacheHolds | wcet/src/ipet_mathprog.cpp:177-239 | the cache row holds if and only if the run keeps the limit of first misses, which for headers is that of the main predecessor |
| IpetSound.AutoloopHolds | wcet/src/ipet_mathprog.cpp:286-359 | the autoloop row holds if and only if the run goes from the header into the loop exactly its bound times per entry |
| IpetSound.EndsHold | wcet/src/ipet_mathprog.cpp:32-52 | entry and exit are taken once |
| IpetSound.ObjectiveIsCost | wcet/src/ipet_mathprog.cpp:54-115 | the objective at a run's counts is the run's time less the cycles saved |
| IpetSound.FeasibleExactly | wcet/src/ipet_mathprog.cpp:125-359 | a run meets all constraints if and only if it is within the bounds and takes every loop exactly its bound |
| IpetSound.MaximumCovers | wcet/src/ipet.cpp:371-398 | a value no feasible assignment exceeds bounds the cost of every such run |
| FirstMissLimits.MissesWithinEntries | wcet/src/ipet_mathprog.cpp:177-239 | where no block of a loop can bring another tag to a block's first misses, these are at most the entries to the loop, on every run of the cache |
| FirstMissLimits.LimitExact | wcet/src/ipet_mathprog.cpp:177-239 | for a reachable loop: the first misses of a block in it are within the entries to the loop on every run if and only if no block of it can bring another tag to them |
| FirstMissLimits.LimitKept | wcet/src/ipet_mathprog.cpp:177-239 | a run that keeps the loops' bounds keeps a block's row, if the row allows the entries to some loop of the block in which nothing foreign can come |
| FirstMissLimits.PromisedLimit | wcet/src/ipet_mathprog.cpp:177-239 | first misses in blocks that are no headers and follow no inner loop always keep their row |
| FirstMissLimits.HeaderLimit | wcet/src/ipet.cpp:258-259 | a nested header's row counts the entries to its main predecessor's loop; its first misses are within those on every run if and only if nothing foreign can come inside that loop, not just inside its own |
| FirstMissLimits.CacheRunIsRun | wcet/src/ipet.cpp:241-295 | the first misses of the real cache are steps the integer program has variables for, if headers are entered one way and nothing foreign comes inside their loops |
| FirstMissLimits.MaximumCoversCache | wcet/src/ipet.cpp:371-398 | with the first misses of the real cache, the maximum covers the cost of every run within the bounds of blocks and loops |
| NestedHeaderLimit.NestedHeaderExceeds | wcet/src/ipet.cpp:258-259 | an input where a nested header keeps its promise inside its own loop, its row allows one miss, and on a run that keeps the loops' bounds it misses twice |
| IpetSound.LoopBoundsSuffice | wcet/src/ipet_mathprog.cpp:167-171 | the block bounds of the integer program follow from the loops' bounds |
| IpetSound.TransferWithinCounts | wcet/src/ipet_mathprog.cpp:241-284 | in every solution the flow along an edge is at most the count of either end |
| IpetSound.OneBlockHasNoCost | wcet/src/ipet.cpp:335-335 | an isolated block contributes no variable and no cost |
| Pruner.Pruning.RecursivePrune | wcet/src/CFG_pruner.cpp:60-128 | visits what can be reached, removes exactly the visited blocks with count zero, and keeps all lists the original ones without them |
| Pruner.Pruning.Prune | wcet/src/CFG_pruner.cpp:21-26 | afterwards exactly the edges with flow between remaining blocks are listed, on both sides, once |
| Pruner.DropUnused | wcet/src/CFG_pruner.cpp:35-57 | drops exactly the edges of a block without flow, on both sides |
| Pruner.EdgesLeftCarryFlow | wcet/src/CFG_pruner.cpp:28-58 | with flow conserved, an edge is left if and only if it carries flow |
| Pruner.PathsSurvive | wcet/src/CFG_pruner.cpp:21-128 | a path survives if and only if all its edges carry flow and its first block remains |
| Pruner.ReachedBlocksRun | wcet/src/CFG_pruner.cpp:60-128 | every block still reached from the entry has a nonzero count |
| FetchPath.RomCache.Fetch | soft_sim/src/Cache.cpp:57-93 | returns the ROM words of the line, keeps every valid line equal to its ROM block, and costs nothing exactly on a hit |
| FetchPath.Fetcher.BundleDecode | soft_sim/src/Fetch.cpp:22-63 | succeeds exactly on a bundle of at most four words that ends in the buffer, fills the slots and advances the index |
| FetchPath.Cpu.Cycle | soft_sim/src/CPU.cpp:82-239 | between cycles buffer index and program counter agree; the slots hold exactly ROM[PC..PC+size); a hit if and only if the last fetch on the line had the same tag |
| FetchPath.Cpu.Run | soft_sim/src/CPU.cpp:82-254 | the addresses fetched over a whole run, for any branches taken, until a bundle cannot be decoded |
| FetchPath.CreateBundleSeq | wcet/src/instruction.cpp:271-287 | cuts the words behind every stop bit, in order, and nothing is lost |
| FetchPath.DecodedAsMade | soft_sim/src/Fetch.cpp:22-40 | the processor decodes an analyser's bundle as made if and only if it has at most four words, stays in its line and ends with a stop bit |
| FetchPath.VisitsBundles | soft_sim/src/CPU.cpp:120-121 | straight-line fetching visits exactly the addresses of the analyser's bundles |
| FetchPath.MadeWellPlaced | wcet/src/instruction.cpp:515-523 | such bundles are placed as the cache analysis assumes |
| FetchPath.SameCache | soft_sim/src/Cache.cpp:57-93 | the cache of the analysis, fed with the bundles fetched, has the tags of the processor's cache |
| Memory.DataMemory.MemWr | soft_sim/src/Memory.cpp:153-209 | a store changes exactly the addressed bytes of the little-endian byte array; which addresses are refused |
| Memory.DataMemory.MemRd | soft_sim/src/Memory.cpp:93-151 | a load returns what the byte array holds, extended by sign or zero |
| Memory.DataMemory.Execute | soft_sim/src/Memory.cpp:29-91 | the requests of a bundle in slot order, against the byte array, and the time of the slowest |
| Memory.MaskedAddress | soft_sim/src/Memory.h:24-26 | mask and shift recompose a scratchpad address |
| Memory.SlowestCounts | soft_sim/src/Memory.cpp:29-91 | the time of a bundle is four cycles if it loads from the ROM, two if it uses the memory otherwise, and else none |
| Memory.AddressMap | soft_sim/src/Memory.h:19-26 | which 32-bit addresses lie in the scratchpad and in front of the end of the code, by their high bits |
| Memory.ServedExactly | soft_sim/src/Memory.cpp:29-91 | exactly which loads and stores are served: in the first two slots, where, and at which alignment |
| Memory.BytePut | soft_sim/src/Memory.cpp:186-195 | masking a byte in changes that byte of the word and no other |
| Memory.HalfPut | soft_sim/src/Memory.cpp:168-184 | the same for half words |
| Memory.HwordIsSigned | soft_sim/src/Memory.cpp:119-123 | the extended half word is the signed or the unsigned value |
| Relocation.Fixup | wcet/src/ELFlinker.cpp:86-113 | overwrites one word of the image and no other, by the rule of its kind |
| Relocation.FieldsFixed | wcet/src/ELFlinker.cpp:60-84 | the two fixups add exactly the value's bits to the long immediate and leave the operation fields alone |
| Relocation.SolveImm | soft_sim/src/ImmSolve.cpp:22-122 | the immediates of the four slots, and exactly when the processor stops |
| Relocation.OpIsNumber | soft_sim/src/ImmSolve.cpp:22-122 | the operation of a word is its number shifted down by 23 and masked with 0x7f, and extension words are those with 0x2a and 0x2b |
| Relocation.StopsExactly | soft_sim/src/ImmSolve.cpp:30-122 | the processor stops exactly on a left extension in the first slot, a right one in the last, or two for one slot |
| Relocation.ShortImmediate | soft_sim/src/ImmSolve.cpp:46-49 | without extension the immediate is the signed number of the slot's 9 bits |
| Relocation.LinkedImmediate | soft_sim/src/ImmSolve.cpp:22-122 | after linking the processor reads the value joined with the bits the fields held, so the value itself if and only if they held no others |
| Relocation.ZeroedFields | wcet/src/ELFlinker.cpp:60-84 | with zeroed fields every 32-bit value comes back |
| Relocation.ShortRoundTrip | wcet/src/ELFlinker.cpp:60-70 | a 9-bit fixup of a zero field without extension is read back as the value if and only if it lies in -256..255 |
| Relocation.LinkedAddress | wcet/src/ELFlinker.cpp:28-38 | a linked address of data is the word in which the byte address lies |
| Relocation.SignedRange | soft_sim/src/Decoder.cpp:190-203 | equal high bits mean exactly the signed 23-bit range |
| Relocation.CallLands | wcet/src/ELFlinker.cpp:40-58 | the linked distance leads on by that distance if and only if it fits in 23 signed bits |
| ControlFlow.WriteBackPc | soft_sim/src/CPU.cpp:159-239 | where the program counter is taken from: slot 0 decides, and a conditional branch not taken passes on to the conditions of slots 1 and 2 |
| ControlFlow.ConditionalBranch | soft_sim/src/Decoder.cpp:274-292 | bits 29 to 27 set: slot 0 branches if and only if the branch register it names differs from bit 26; where the counter is taken from if not |
| ControlFlow.DirectOperation | soft_sim/src/Decoder.cpp:293-335 | otherwise: which operations lead to the branch target, which to the register, and which behind the bundle |
| ControlFlow.TargetIsDisplaced | soft_sim/src/Decoder.cpp:139-172 | the branch target is the start of the bundle, or 0 for an empty slot, plus the signed number in bits 0 to 22 |
| ControlFlow.CallIsTaken | soft_sim/src/CPU.cpp:159-205 | the counter is taken from a call in slot 0 only, or from slot 1 or 2 behind an untaken branch if the call's operation bits name a set branch register |
| ControlFlow.LinkedTarget | wcet/src/ELFlinker.cpp:40-58 | the target decoded from a linked call is off by its slot number, and in other slots than 0 never the address meant |
| ControlFlow.CallReachesTarget | wcet/src/ELFlinker.cpp:40-58 | a linked call takes the processor to its target if and only if it stands in slot 0 and the distance fits in 23 signed bits |
| ControlFlow.CallElsewhereIsSkipped | soft_sim/src/CPU.cpp:159-239 | in any other slot the processor goes on behind the bundle, unless slot 0 branches itself |
| Mif.WriteSection | wcet/src/MIF_converter.cpp:28-46 | one line per word, numbered on through the sections |
| Mif.Dump | wcet/src/MIF_converter.cpp:48-124 | the text of the concatenated sections, or none when they do not fit |
| Mif.FillLineRead | wcet/src/MIF_converter.cpp:48-124 | the fill line names the first address behind the words, the last of the image, and the fill |
| Mif.Parse | soft_sim/src/MifRead.cpp:36-201 | the parser, line by line, with its refusals and its writes outside the array |
| Mif.DataLineScanned | soft_sim/src/MifRead.cpp:177-177 | scanning a printed line gives back address and word |
| Mif.DepthAccepted | soft_sim/src/MifRead.cpp:85-107 | the depth line is accepted if and only if the depth printed is the size expected |
| Mif.AddressChecked | soft_sim/src/MifRead.cpp:177-188 | a data line in range is stored, one beyond the size refused, and the size itself written one past the array |
| Mif.PrintParse | wcet/src/MIF_converter.cpp:28-124 | parsing a printed image of any size: refused if the sizes differ, otherwise the words in order and then fill, or a write past the end if there are too many |
| Mif.CodeRoundTrip | soft_sim/src/MifRead.cpp:36-201 | every code image that fits comes back, whatever the memory held |
| Mif.DataImageRejected | wcet/src/MIF_converter.cpp:126-210 | no data image of any size is accepted by the simulator |
| BrainFSource.PartnersMeet | llvm/examples/BrainF/BrainF.cpp:14-22 | the two scans for a bracket's partner agree |
| BrainFSource.TokenRun | llvm/examples/BrainF/BrainF.cpp:315-414 | a folded run has the effect of its characters one at a time |
| BrainFCode.CodeMeansSymbol | llvm/examples/BrainF/BrainF.cpp:201-281 | the instructions emitted for a symbol have its effect, whatever the other registers hold |
| BrainFCompiler.NextSymbol | llvm/examples/BrainF/BrainF.cpp:311-414 | the reader delivers the next whole symbol and carries the lookahead |
| BrainFCompiler.Compiler.BeginLoop | llvm/examples/BrainF/BrainF.cpp:283-303 | opens the test block with half of its phi node and moves the insert point |
| BrainFCompiler.Compiler.EndLoop | llvm/examples/BrainF/BrainF.cpp:423-455 | completes phi node and test and goes on in the exit block |
| BrainFCompiler.Compiler.ReadLoop | llvm/examples/BrainF/BrainF.cpp:184-467 | compiles up to the end of its loop; every symbol in between has its code, other blocks are untouched; which error on which brackets |
| BrainFCompiler.Compiler.Parse | llvm/examples/BrainF/BrainF.cpp:40-50 | succeeds if and only if the brackets are balanced |
| BrainFBuild.LoopStep | llvm/examples/BrainF/BrainF.cpp:283-303 | a compiled loop is code for its brackets, and keeps the code built before |
| BrainFBuild.CodeStays | llvm/examples/BrainF/BrainF.cpp:184-467 | code that stands for its symbol keeps doing so while more is built |
| BrainFMeaning.Lockstep | llvm/examples/BrainF/BrainF.cpp:14-22 | source and code can be taken any number of steps on to a point where they agree |
| BrainFMeaning.SameTermination | llvm/examples/BrainF/BrainF.cpp:14-22 | one side ends exactly when the other does, with the same tape, input, output and head |
| BrainFMeaning.SameOutput | llvm/examples/BrainF/BrainF.cpp:14-22 | whatever one side writes, ending or not, the other comes to write |
| Barrier.WaitForThreads.Block | llvm/examples/ParallelJIT/ParallelJIT.cpp:148-173 | the step of `block`; its assertion never fails |
| Barrier.WaitForThreads.ReleaseThreads | llvm/examples/ParallelJIT/ParallelJIT.cpp:179-198 | the step of `releaseThreads` |
| Barrier.StepKeepsInvariant | llvm/examples/ParallelJIT/ParallelJIT.cpp:124-222 | every step of every thread keeps the barrier's invariant |
| Barrier.AllOrNone | llvm/examples/ParallelJIT/ParallelJIT.cpp:149-173 | in every run, one thread is through only when all are; the assertion holds |
| Barrier.NoDeadlock | llvm/examples/ParallelJIT/ParallelJIT.cpp:124-222 | a state in which nobody can step is one in which all are finished |
| Barrier.EveryRunFinishes | llvm/examples/ParallelJIT/ParallelJIT.cpp:124-222 | under every schedule all finish after at most five steps per thread |
| Barrier.SpuriousBreaks | llvm/examples/ParallelJIT/ParallelJIT.cpp:164-169 | in every state in which one can happen, a wakeup without broadcast lets a thread through while another is not |
| Barrier.PromiseExactly | llvm/examples/ParallelJIT/ParallelJIT.cpp:124-222 | a run keeps all-or-none throughout if and only if no such wakeup occurs on it |
| Barrier.SpuriousBreaksBarrier | llvm/examples/ParallelJIT/ParallelJIT.cpp:164-169 | a run on which one thread is finished before the others have come |

## Left out

- Block, loop and variable objects and their pointers: blocks are numbers and per-block fields are sequences, so aliasing between objects is not modelled.
- `search_for_false_hits`, `is_always_accessed_inside_loop`, `check_for_nested_loop_liveness` and the other in-loop tests used in the last branches of the classification: their answers are parameters of the model, so the results hold whatever they answer.
- `calc_usef_cstate`: the intersection of the two fixpoints is not used by the classification.
- Blocks that use two tags on one line: excluded by assumption where runs of the cache are concerned.
- Classification.MissesArePredicted: at nested headers the answer of the in-loop search is a parameter, so a header's always-hit that misses is only traced to that answer.
- MustSearch.Search.Visit: takes a rank as its termination measure, which every table of the loop search has (`LoopTables.TableIsSearchable`); on graphs with nested loops the answer is bounded from both sides and left open in between.
- LoopIdentification.Cfg.IdentifyLoops: `predecessors_in_loop` and `identify_sinks` at its end are not modelled (the former takes a loop's number for its position, which it need not be after a removal); sinks are a parameter of the loop bounds.
- LoopSources.ApartEnds: where one source reaches another but not back, whether the search ends depends on the order in which blocks are listed; `LoopSearch.StaysExactly` decides it for each loop the search comes to.
- LoopMerge.RemoveSameHeaders: the walk up the recorded parents of a removed loop is not modelled, since that loop's parent is always still in the list (`LoopMerge.ParentListed`).
- LoopBounds.BlockCounts: a block that is no header and jumps to itself has no bound, in the source as here; products are unbounded integers, 32-bit overflow is not modelled; a run that ends inside a loop is not counted.
- IpetSound.MaximumCovers: requires one entry, one exit and at least two blocks; that the solver returns a maximum is assumed; no block lists a predecessor twice, since variable names would clash.
- FirstMissLimits.MaximumCoversCache: the times of edges with and without first misses are given, not derived from the number of misses.
- Pruner.Pruning.Prune: requires lists without duplicates, for the same reason.
- FetchPath.Cpu.Cycle: branches, halt and multiway branches in slots 1 and 2 are the parameter that says where the bundle branches to (`ControlFlow` says which slot that comes from); cycle counting beyond the cache penalty and the arithmetic of the processor are left out.
- Memory.DataMemory.MemWr: word accesses at unaligned addresses go to the word they lie in, as in the source; the log files are left out.
- Relocation.Fixup: addresses and values are natural numbers; an unknown kind, which the source asserts against, is not a case.
- Mif.Parse: overflow of scanned decimal numbers is not modelled.
- BrainFCompiler.Compiler.Parse: bounds checks are off and the tape is unbounded; the run lengths are unbounded integers, but never exceed the length of the source (`BrainFSource.Folded`), so sources under 2^31 characters cannot overflow them.
- Barrier.EveryRunFinishes: one mutex, one condition variable, one call per thread and no spurious wakeups.
- Cycle compensation between misses and across fall-through edges (`timing.cpp`): marked as not validated in the source.
- `caca.cpp`: a near duplicate of the cache analysis without the must pass.
- Pipeline times, interlocks, memory latency in cycles: taken as given times of edges.
- GLPK and lp_solve back ends, file, console and log output, dot dumps, command lines.
- ELF reading, section layout, `pre_process_bss`, multi-object linking, the SystemC model, ExceptionDemo and the C example programs.
