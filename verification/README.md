# FastHNSW core and SimpleFlat: a verified model

This project models the FastHNSW engine (`upstream/fasthnsw/internal/core`) end to end, and the brute-force index
`SimpleFlat` of the mock VSAG implementation, and proves what they are for.

* **Search.** SEARCH-LAYER is written twice: as a function on beam states (`Beams`) and as the loop over two array
  heaps and a stamped visited table (`GraphSearch`, `Heaps`, `MarkTables`), which is proved equal to it for any
  history of the scratch. About the function: its loop invariant, local optimality at exit, completeness, and
  two-run theorems in ef, each with its exact condition: when the expansion order is extended and when no rank of the
  result gets worse. What it promises is also stated without it (`BeamTheorems.Settled`), and that statement is what
  the queries, the refreshes and the baseline are described by.
* **Construction.** Levels and layout, NN-Descent with its compact transpose, graph-search refreshes, pruning with
  reverse repair, local-to-global mapping. A build of an acceptable dataset yields a valid graph, and it
  succeeds exactly when M < 2^62. The graph does not depend on the number of workers.
* **Queries.** The multi-layer descent always answers on a valid graph, and a built index of at most 2M+1 vectors
  answers exactly like the brute-force oracle. So does a connected one once efSearch covers all vectors.
* **Incremental baseline.** The insertion loop and the invariant that survives every insertion.
* **Parallel loops.** Worker steps as a state machine, with every interleaving equal to the sequential loop for work
  whose result does not depend on the state of its scratch. Pruning, scanning, the collector exchange and the graph
  searches are such work: for the last two this is proved from the resets of the stamped tables they reuse.
* **Persistence.** Encoding and decoding as functions that are mutually inverse exactly on the loadable indexes, and
  the reading and writing loops over partial writers and exhausted readers proved equal to them. Every field has its
  byte position (`FileLayout`).
* **SimpleFlat.** Parallel id and coordinate storage with swap-removal refines a finite map from ids to vectors over
  any run of building, adding, removing and reloading.

Conventions. A distance is an arbitrary function into the reals; nothing below uses symmetry or arithmetic on it.
Stored floats are bit patterns, so files are compared bit for bit. Seeded draws, the hash, the recall estimate and
the alpha angle test are arbitrary functions (`Construction.Environment`). Each loop of the source is a method proved
equal to a function; the lemmas are about those functions. For the stages of a build, a query and an insertion there is
also a description by rules over distances and positions, and a lemma that the function obeys it; pruning, scanning,
exchanging and initialising are determined by theirs (`Prune.PrunedExactly`, `Scans.NearestOnce`,
`NNDescent.RoundExactly`, `Collector.InitialExactly`). A node's work reaches the parallel loop as the function
that its method is proved to compute, scratch table included (`Prune.PruneCandidates`, `NNDescent.InitialNode`,
`NNDescent.ExchangeNode`, `NNDescent.ExactNode`, `OptKCNA.AcquireNode`). A Go panic is modelled as an error.

Where the code is weaker than its documentation or than one might expect, the exact condition is proved:

* Widening the beam keeps the expansion order only up to ties: the exit test compares distances without ids. The
  prefix property holds for all graphs exactly when no three nodes are equally far from the query
  (`BeamMonotone.MonotoneExactly`); from a single entry point it also holds for at most three nodes
  (`BeamEntry.EntryMonotoneExactly`).
* A wider beam can return worse results, but needs more than a tie for it. From a single entry point no rank gets
  worse on any graph over n nodes unless there are at least seven nodes with three equally far and three strictly
  nearer, or at least eight with four equally far and three others that sort before all of them; in either case some
  graph loses a rank (`BeamLoss.RanksKeptExactly`, `BeamLoss.WiderCanBeWorse`). The condition for whole queries is
  the same, for every M a build accepts (`Descent.QueriesKeptExactly`).
* The base-layer bound is 2M in a 64-bit int. `New` accepts M up to 2^63 - 1, and the build succeeds exactly for M
  below 2^62 (`IndexModel.Index.Build`, `IndexModel.WideConfigNeverBuilds`).
* Saving accepts indexes that loading refuses or changes. `Persistence.SavedLoadsExactly` gives the exact condition;
  for a built index it is that no node exceeds 2^20 neighbours, which fails only for M above 2^19. For builds of at
  most 2M+1 vectors that is: at most 2^20 + 1 vectors (`RoundTrip.BuildSaveLoad`, `RoundTrip.WideIndexIsLost`).
* `SimpleFlat::Build` tests for stored coordinates, not stored ids. It keeps indexes valid and refuses non-empty ones
  exactly when the dimension is positive (`FlatRuns.BuildIsSafeExactly`); with dimension 0 it can run twice and repeat
  an id (`SimpleFlatModel.ZeroDimensionBuildsTwice`). A negative k returns everything
  (`FlatSearch.NegativeKReturnsAll`).
* `SimpleFlat::Deserialize` takes over the element count before its checks. A refused load therefore leaves the index
  valid exactly when the header announces the old count, and an accepted one exactly when the loaded ids are distinct
  (`SimpleFlatModel.LoadIsSoundExactly`, `SimpleFlatModel.RefusedLoadBreaks`).

Check the project with `dafny verify dfyconfig.toml --resource-limit 2000000 --verification-time-limit 0`.

## Model

| member | source | states |
|---|---|---|
| `Order.StrictTotalOrder` | upstream/fasthnsw/internal/core/result.go:25-47 | The result order is a strict total order (irreflexive, transitive, total, asymmetric) and "worse" is its converse, so ties never leave an order open. |
| `Sorting.SortedUnique` | upstream/fasthnsw/internal/core/heap.go:162-167 | A sorted list is determined by its contents: any sorting routine gives the same answer. |
| `Sorting.BestStep` | upstream/fasthnsw/internal/core/heap.go:97-157 | Keeping the k best of a stream needs only the k best of its past: one more element is one bounded insertion. |
| `Sorting.BestIsBest` | upstream/fasthnsw/internal/core/exact.go:32-46 | Whatever the k best leave out is no better than anything they keep, and they are only incomplete when full. |
| `Heaps.RootIsFirst` | upstream/fasthnsw/internal/core/heap.go:124-126 | In an ordered heap no element precedes the root. |
| `Heaps.SwapUp` | upstream/fasthnsw/internal/core/heap.go:128-137 | One sift-up swap moves the only possible violation of heap order to the parent. |
| `Heaps.SwapDown` | upstream/fasthnsw/internal/core/heap.go:139-157 | One sift-down swap with the better child moves the only possible violation to that child. |
| `Heaps.RootOfSorted` | upstream/fasthnsw/internal/core/heap.go:124-126 | The root of a heap is the nearest (or farthest) element of its sorted contents. |
| `Heaps.Heap.Push` | upstream/fasthnsw/internal/core/heap.go:97-102 | Push keeps heap order and adds exactly the pushed element to the multiset. |
| `Heaps.Heap.Pop` | upstream/fasthnsw/internal/core/heap.go:109-121 | Pop returns the root, keeps heap order and removes exactly that element. |
| `Heaps.Heap.ReplaceWorst` | upstream/fasthnsw/internal/core/heap.go:104-107 | Replacing the root keeps heap order and swaps exactly the root for the new element. |
| `Heaps.Heap.Init` | upstream/fasthnsw/internal/core/heap.go:91-95 | Bottom-up heapify orders any storage and keeps its multiset. |
| `Heaps.Heap.SortedItems` | upstream/fasthnsw/internal/core/heap.go:162-167 | What is returned is in order and a permutation of the contents, and the storage now is that list. |
| `Scans.Consider` | upstream/fasthnsw/internal/core/exact.go:38-44 | One step of a bounded scan: a heap holding the best of a stream holds the best of the longer stream. |
| `Scans.ExactScan` | upstream/fasthnsw/internal/core/exact.go:32-46 | The scan returns exactly the k best (distance, id) pairs of all nodes, in order. |
| `Scans.CandidatesFromIDs` | upstream/fasthnsw/internal/core/candidate.go:299-316 | Returns exactly the nearest `limit` of the collected ids, in order. |
| `Scans.ExactCandidatesForNode` | upstream/fasthnsw/internal/core/candidate.go:57-80 | Returns exactly the nearest `limit` nodes other than the source, in order. |
| `Scans.SortOfSet` | upstream/fasthnsw/internal/core/candidate.go:299-316 | The ordered scores of distinct ids depend only on which ids they are, not on collection order. |
| `Scans.BestIsNearest` | upstream/fasthnsw/internal/core/candidate.go:299-316 | The bounded scan gives the nearest of a pool: strictly ascending, from the pool, and whatever is missing is behind a full list. |
| `Scans.NearestOnce` | upstream/fasthnsw/internal/core/candidate.go:299-316 | Scores, pool and limit leave exactly one such list. |
| `Beams.ExpandKeepsInv` | upstream/fasthnsw/internal/core/graph_search.go:144-167 | One expansion keeps the whole loop invariant (result = best visited, frontier known and unexpanded, expanded closed under edges) and lowers unvisited + |C|. |
| `Beams.RunInv` | upstream/fasthnsw/internal/core/graph_search.go:144-167 | The loop keeps the invariant over its whole run and ends only when C is empty or its nearest entry is farther than the worst result. |
| `Beams.SearchInv` | upstream/fasthnsw/internal/core/graph_search.go:114-170 | From any entry list (empty, repeated, out of range) and any ef, the invariant and the exit condition hold at the end. |
| `BeamTheorems.ResultIsTopOfVisited` | upstream/fasthnsw/internal/core/graph_search.go:124-169 | The result is exactly the min(ef, visited) best of everything visited: sorted, distinct, in range. |
| `BeamTheorems.RetainedAreExpanded` | upstream/fasthnsw/internal/core/graph_search.go:144-148 | At exit every retained node has been expanded. |
| `BeamTheorems.LocalOptimum` | upstream/fasthnsw/internal/core/graph_search.go:144-167 | An in-range neighbour of a retained node is itself retained, or the result is full and the neighbour is not better than anything in it. |
| `BeamTheorems.VisitedIsReachable` | upstream/fasthnsw/internal/core/graph_search.go:124-167 | Only nodes reachable from the entries are visited. |
| `BeamTheorems.Completeness` | upstream/fasthnsw/internal/core/graph_search.go:144-167 | If ef covers every reachable node, the early exit never fires with work left and the result is exactly the reachable set in sorted order. |
| `BeamTheorems.FullyReachable` | upstream/fasthnsw/internal/core/graph_search.go:144-167 | If every node is reachable from the entries and ef covers them all, the result is the brute-force list of all nodes. |
| `BeamTheorems.SearchSettles` | upstream/fasthnsw/internal/core/graph_search.go:114-170 | What a search of width ef promises without its loop: at most ef reachable nodes, best first; every in-range entry and every neighbour of a listed node is listed, or no better than anything in a full list. |
| `BeamTheorems.SettledIsComplete` | upstream/fasthnsw/internal/core/graph_search.go:144-167 | Whatever keeps that promise and is not full holds every reachable node. |
| `BeamTheorems.SettledSeesAll` | upstream/fasthnsw/internal/core/graph_search.go:144-167 | Whatever keeps that promise with a width covering the reachable nodes holds exactly these. |
| `BeamTheorems.StaysInside` | upstream/fasthnsw/internal/core/graph_search.go:150-166 | From entries inside an edge-closed set the search stays inside it, and its head is no worse than any in-range entry. |
| `BeamTheorems.CompleteLayer` | upstream/fasthnsw/internal/core/graph_search.go:124-167 | If the entry is adjacent to every other node the search equals brute force for every ef. |
| `BeamMonotone.Monotone` | upstream/fasthnsw/internal/core/graph_search.go:114-170 | Two runs: unless three nodes are equally far from the query, the expansions with ef are in order a prefix of those with any ef' >= ef, visited nodes nest, and no rank of the result gets worse. |
| `BeamMonotone.TieBreaksPrefix` | upstream/fasthnsw/internal/core/graph_search.go:146 | Three equally far nodes break the prefix property on a concrete graph, because the exit test compares distances only. |
| `BeamMonotone.MonotoneExactly` | upstream/fasthnsw/internal/core/graph_search.go:144-167 | The prefix property holds for every graph, entry list and pair of widths if and only if no three nodes are equally far from the query. |
| `BeamEntry.SmallRunInStep` | upstream/fasthnsw/internal/core/graph_search.go:144-167 | With one entry and at most three nodes the narrow and the wide run stay in step to the end even when all three nodes are equally far. |
| `BeamEntry.FanBreaksPrefix` | upstream/fasthnsw/internal/core/graph_search.go:144-167 | Four nodes, three of them equally far: from the fourth as the only entry the narrow beam expands another node next than the wide one. |
| `BeamEntry.EntryMonotoneExactly` | upstream/fasthnsw/internal/core/graph_search.go:86-112 | For searches from a single entry point, as every query makes them, the prefix property holds for every graph over n nodes and pair of widths if and only if n <= 3 or no three nodes are equally far. |
| `BeamRanks.RunInside` | upstream/fasthnsw/internal/core/graph_search.go:144-167 | From a full beam a run leaves a set of nodes only through a node of the set that is no farther than the current worst result and is already a candidate or sorts before that result. |
| `BeamRanks.SomethingMissed` | upstream/fasthnsw/internal/core/graph_search.go:150-169 | If a rank over one set of visited nodes is better than over another, a node better than the latter rank was visited only in the first. |
| `BeamRanks.LossNeeds` | upstream/fasthnsw/internal/core/graph_search.go:144-167 | If the narrow run of two in step ends with a better rank, it met a node the wide run missed, and the wide run saw but never expanded a node worse than its whole result. |
| `BeamRanks.KeepsRanks` | upstream/fasthnsw/internal/core/graph_search.go:86-112 | From a single entry no rank gets worse when the beam is widened, on any graph, unless the distances allow a detour: seven nodes with three equally far and three strictly nearer, or eight with four equally far and three others sorting before all of them. |
| `BeamLoss.LoseBehind` | upstream/fasthnsw/internal/core/graph_search.go:144-167 | From an entry farther than the tied nodes, the constructed graph gives exactly the nearest node with ef = 1 and exactly the two next nodes with ef = 2. |
| `BeamLoss.RanksKeptExactly` | upstream/fasthnsw/internal/core/graph_search.go:86-112 | For a single entry, on all graphs over n nodes and all pairs of widths, no rank of the result gets worse if and only if the distances allow no detour; six nodes never do, and where they do a graph of out-degree two loses a rank. |
| `BeamLoss.WiderCanBeWorse` | upstream/fasthnsw/internal/core/graph_search.go:144-167 | A seven-node graph where ef = 1 finds the nearest node and every result of ef = 2 is farther. |
| `MarkTables.StepRefines` | upstream/fasthnsw/internal/core/graph_search.go:25-61 | One reserve, reset or mark on the stamped table is the same operation on the set it stands for, including 32-bit wrap-around of the stamp. |
| `MarkTables.RunRefines` | upstream/fasthnsw/internal/core/graph_search.go:25-61 | Any run of such calls, shrinking and regrowing within capacity, refines the same run on sets; membership tests agree. |
| `MarkTables.PastIsForgotten` | upstream/fasthnsw/internal/core/graph_search.go:114-122 | After a reset, what is marked depends only on the marks made since: earlier searches leave no trace. |
| `TableBeams.StartSees` | upstream/fasthnsw/internal/core/graph_search.go:25-53 | Reserving and starting a new generation leaves a table that marks nothing, whatever earlier searches left in it. |
| `TableBeams.VisitAllSees` | upstream/fasthnsw/internal/core/graph_search.go:150-166 | Visiting a list by reading the stamped table visits what reading the visited list visits, and the table keeps marking exactly the visited nodes. |
| `TableBeams.RunOnIsRun` | upstream/fasthnsw/internal/core/graph_search.go:144-167 | The whole loop over the stamped table is the loop over the visited list. |
| `TableBeams.SearchOnIsSearch` | upstream/fasthnsw/internal/core/graph_search.go:114-170 | SEARCH-LAYER over a table in any valid state finds what the specification finds and leaves a valid table. |
| `GraphSearch.Scratch.Reserve` | upstream/fasthnsw/internal/core/graph_search.go:35-53 | Reserving reslices or reallocates exactly as the table specification says and empties both heaps. |
| `GraphSearch.Scratch.Reset` | upstream/fasthnsw/internal/core/graph_search.go:25-33 | Starts a new generation, clearing the whole backing array only when the stamp wraps to zero. |
| `GraphSearch.Scratch.MarkVisited` | upstream/fasthnsw/internal/core/graph_search.go:59-61 | Stamps exactly one cell with the current generation. |
| `GraphSearch.Scratch.Visit` | upstream/fasthnsw/internal/core/graph_search.go:154-165 | Marking, scoring and pushing one node takes the scratch, table included, from one search state to the next. |
| `GraphSearch.Scratch.VisitEach` | upstream/fasthnsw/internal/core/graph_search.go:150-166 | The neighbour loop visits exactly the unseen in-range ids of the list, in order. |
| `GraphSearch.Scratch.SortedResults` | upstream/fasthnsw/internal/core/graph_search.go:63-69 | Returns the retained results in order, cut to the limit; a negative limit is no limit. |
| `GraphSearch.ExpandNext` | upstream/fasthnsw/internal/core/graph_search.go:144-166 | One round of the loop either stops exactly when the specification does, keeping the answer, or leaves the scratch in the next state. |
| `GraphSearch.ExpandAll` | upstream/fasthnsw/internal/core/graph_search.go:144-167 | The main loop over the two heaps and the table leaves exactly the results and the table of the specified run. |
| `GraphSearch.GraphSearchLayerFromEntriesInto` | upstream/fasthnsw/internal/core/graph_search.go:114-170 | SEARCH-LAYER over reused scratch equals the search function for any history of the scratch, reports whether anything was found, and leaves the visited table as the search over tables does. |
| `GraphSearch.GraphSearchLayerFromEntries` | upstream/fasthnsw/internal/core/graph_search.go:104-112 | The sorted result list equals the search function. |
| `GraphSearch.GraphSearchLayerTopK` | upstream/fasthnsw/internal/core/graph_search.go:86-94 | The first k of the sorted result list of a one-entry search. |
| `Prune.FirstBadExact` | upstream/fasthnsw/internal/core/prune.go:84-90 | Normalisation fails exactly when some candidate is neither the source nor a node. |
| `Prune.FirstBadIsFirst` | upstream/fasthnsw/internal/core/prune.go:84-90 | The bad id reported is the first one in the list. |
| `Prune.NormalizeFacts` | upstream/fasthnsw/internal/core/prune.go:80-108 | Normalised candidates are sorted, distinct, freshly scored, and are exactly the listed ids without the source. |
| `Prune.NormalizePruneCandidates` | upstream/fasthnsw/internal/core/prune.go:80-108 | The map-based loop computes that list for every map iteration order, or reports the first bad id. |
| `Prune.KernelIsKernel` | upstream/fasthnsw/internal/core/prune.go:50-73 | Without the cap, a candidate is kept if and only if no kept candidate dominates it. |
| `Prune.UniqueKernel` | upstream/fasthnsw/internal/core/prune.go:50-73 | A set of candidates satisfies that rule if and only if it is the set the greedy loop keeps. |
| `Prune.PrunedExactly` | upstream/fasthnsw/internal/core/prune.go:43-75 | By distances alone: a list is the pruned one if and only if it is ascending and within the bound, no listed node rules out another one, and every missing candidate is ruled out by a listed node or behind a full list. |
| `Prune.PrunedOnce` | upstream/fasthnsw/internal/core/prune.go:43-75 | Distances, filter, pool and bound leave exactly one such list. |
| `Prune.PruneCandidates` | upstream/fasthnsw/internal/core/prune.go:43-75 | The double loop computes the capped kernel of the normalised candidates, or the first bad id; a negative capacity is fatal. |
| `Prune.CapIsPrefix` | upstream/fasthnsw/internal/core/prune.go:69-72 | A smaller positive cap gives a prefix of what a larger one gives. |
| `Prune.PruneIsSetFunction` | upstream/fasthnsw/internal/core/prune.go:43-108 | Pruning depends only on the set of candidate ids: order, repetition and supplied distances are irrelevant. |
| `Prune.PruneFacts` | upstream/fasthnsw/internal/core/prune.go:43-75 | The output is sorted, distinct, within the bound, drawn from the list without the source, and keeps the nearest candidate. |
| `Prune.PruneIdempotent` | upstream/fasthnsw/internal/core/prune.go:43-75 | Pruning a pruned list returns it unchanged. |
| `PrunedLayer.LayerIsValid` | upstream/fasthnsw/internal/core/graph_build.go:37-77 | A layer built from in-range candidates has distinct, in-range, non-self lists within the degree bound, reverse repair included. |
| `PrunedLayer.LayerEdges` | upstream/fasthnsw/internal/core/graph_build.go:57-63 | Every edge of the finished layer is a forward edge in one direction or the other. |
| `PrunedLayer.LayerKeepsNearest` | upstream/fasthnsw/internal/core/graph_build.go:57-73 | The first neighbour of a finished list is no farther than any forward neighbour of the node, in either direction. |
| `PrunedLayer.LayerKeepsOne` | upstream/fasthnsw/internal/core/graph_build.go:57-73 | A node with a forward edge in either direction is never left isolated by the second pruning. |
| `PrunedLayer.LayerExactly` | upstream/fasthnsw/internal/core/graph_build.go:37-77 | Forward lists pruned from the candidates and final lists pruned from the forward edges taken both ways: the rule, with the angle u-w-v in alpha mode, determines the layer, and the loops build it. |
| `PrunedLayer.LayerIsRNG` | upstream/fasthnsw/internal/core/construction.go:246-248 | In an RNG layer, of two neighbours w, v of u with d(u,w) < d(u,v), v is no nearer to w than to u; and every node u was joined to is listed, or has a listed w nearer to both, or is behind a full list. |
| `PrunedLayer.PruneEach` | upstream/fasthnsw/internal/core/graph_build.go:44-55 | Pruning all nodes in parallel gives the same lists, or the same lowest-id error, for any number of workers; a negative bound fails. |
| `PrunedLayer.FirstErrorIsFirstBad` | upstream/fasthnsw/internal/core/graph_build.go:44-55 | The error reported over all nodes is the one of the lowest node with a bad candidate. |
| `PrunedLayer.MergeReverse` | upstream/fasthnsw/internal/core/graph_build.go:57-63 | The append loop adds every retained edge in both directions, nothing else. |
| `PrunedLayer.SameLayer` | upstream/fasthnsw/internal/core/graph_build.go:57-73 | The append order of the merge does not affect the second pruning. |
| `PrunedLayer.BuildPrunedLayer` | upstream/fasthnsw/internal/core/graph_build.go:37-77 | Forward pruning, reverse merging and pruning again compute exactly the specified layer, or the lowest-id error, for any bound down to 0; a negative one fails unless there is nothing to prune. |
| `Transpose.SourcesMember` | upstream/fasthnsw/internal/core/candidate.go:200-227 | A node u is in the reverse list of v if and only if v is in the candidate list of u. |
| `Transpose.SourcesAscend` | upstream/fasthnsw/internal/core/candidate.go:200-227 | With distinct candidate lists every reverse list is strictly ascending. |
| `Transpose.StartOrder` | upstream/fasthnsw/internal/core/candidate.go:207-213 | The slots of different reverse lists are disjoint and in order. |
| `Transpose.StartTotal` | upstream/fasthnsw/internal/core/candidate.go:207-213 | The slots together have exactly as many cells as there are edges. |
| `Transpose.CountOffsets` | upstream/fasthnsw/internal/core/candidate.go:201-206 | The counting loop leaves the length of reverse list v at offset v + 1. |
| `Transpose.PrefixSums` | upstream/fasthnsw/internal/core/candidate.go:207-209 | The prefix sums turn lengths into the start of every reverse list, in place. |
| `Transpose.ScatterStep` | upstream/fasthnsw/internal/core/candidate.go:216-222 | Writing one edge extends exactly one reverse list and disturbs no other slot. |
| `Transpose.Scatter` | upstream/fasthnsw/internal/core/candidate.go:211-222 | The scatter loop fills the storage with all reverse lists, one after another. |
| `Transpose.ReverseCandidateIDs` | upstream/fasthnsw/internal/core/candidate.go:200-227 | Count, prefix sum and scatter return exactly the transpose. |
| `Collector.CandidateIDCollector.Reserve` | upstream/fasthnsw/internal/core/candidate.go:257-269 | Reallocates the marks exactly when the length differs. |
| `Collector.CandidateIDCollector.Reset` | upstream/fasthnsw/internal/core/candidate.go:271-280 | Starts a new generation that marks nothing, with an empty id list, clearing the table only when the stamp wraps. |
| `Collector.CandidateIDCollector.Add` | upstream/fasthnsw/internal/core/candidate.go:282-289 | Stamps and appends an id exactly when it is neither the source nor stamped in this generation. |
| `Collector.AddIdsTracks` | upstream/fasthnsw/internal/core/candidate.go:282-297 | Insertion by stamps is removal of duplicates: whatever earlier generations left in the table, the collected ids are the first occurrences of everything received except the source. |
| `Collector.AddUpToTracks` | upstream/fasthnsw/internal/core/candidate.go:170-191 | Collecting with the limit tested before every insertion gives the first `limit` of those. |
| `Collector.InitialOnIds` | upstream/fasthnsw/internal/core/candidate.go:165-194 | Over a table in any state the initializer collects exactly the specified ids. |
| `Collector.InitialIdsAreValid` | upstream/fasthnsw/internal/core/candidate.go:165-194 | For any hash function the initializer yields exactly `limit` distinct in-range ids other than the source. |
| `Collector.InitialExactly` | upstream/fasthnsw/internal/core/candidate.go:165-194 | By position: half the limit are the first different ids of the nearby stream (+1, -1, +2, -2, ...), and the rest the first different ones of these, the 4n draws and the sweep; this determines the list. |
| `Collector.InitialApproxNeighborIDs` | upstream/fasthnsw/internal/core/candidate.go:165-194 | The three loops (nearby, drawn, sweep) collect exactly the specified initial ids and leave the table the initializer leaves. |
| `NNDescent.RoundKeeps` | upstream/fasthnsw/internal/core/candidate.go:133-156 | A round keeps every list at exactly `limit` distinct, in-range, scored and sorted neighbours. |
| `NNDescent.RoundProgress` | upstream/fasthnsw/internal/core/candidate.go:133-156 | No rank of any list gets worse in a round. |
| `NNDescent.RoundsProgress` | upstream/fasthnsw/internal/core/candidate.go:128-158 | Over any number of rounds the i-th neighbour of every node is never worse than it was. |
| `NNDescent.RoundExactly` | upstream/fasthnsw/internal/core/candidate.go:133-156 | Lists are those after a round if and only if each is the nearest of what its node meets: the nodes it lists, the nodes that list it, and the nodes on the lists of both. |
| `NNDescent.RoundTakesMet` | upstream/fasthnsw/internal/core/candidate.go:143-151 | Whatever a node meets is in its next list or behind a full one, and nothing else gets in. |
| `NNDescent.ListingANeighbourIsNotEnough` | upstream/fasthnsw/internal/core/candidate.go:147-150 | The lists of a neighbour's own reverse neighbours are not exchanged: on four nodes node 0 never tries node 2, which lists node 1, whatever the distances. |
| `NNDescent.KNNGIsKNNGBy` | upstream/fasthnsw/internal/core/candidate.go:93-158 | The whole graph as a run of states: nearest of the initial ids, then one exchange after another, at least one; or all other nodes when k covers them. |
| `NNDescent.KNNGIsWellFormed` | upstream/fasthnsw/internal/core/candidate.go:93-158 | For more than one node and k > 0 every list of the graph is full, whatever the seed and the number of rounds. |
| `NNDescent.InitialIsScratchFree` | upstream/fasthnsw/internal/core/candidate.go:117-123 | A node's share of the initializer keeps a worker's collector usable and its result does not depend on what the collector held. |
| `NNDescent.ExchangeIsScratchFree` | upstream/fasthnsw/internal/core/candidate.go:136-150 | The same for a node's share of an exchange round. |
| `NNDescent.ExchangeNode` | upstream/fasthnsw/internal/core/candidate.go:137-148 | The imperative exchange of one node does exactly the node's work on its collector, table included. |
| `NNDescent.InitialCandidates` | upstream/fasthnsw/internal/core/candidate.go:117-126 | Any number of workers with collectors in any state, in any schedule, compute exactly the initial lists. |
| `NNDescent.ExchangeRound` | upstream/fasthnsw/internal/core/candidate.go:133-156 | One round by any number of workers, each with a collector in whatever state earlier work left it, computes exactly the specified exchange. |
| `NNDescent.ExactIsWellFormed` | upstream/fasthnsw/internal/core/candidate.go:23-53 | Exact candidate lists are full, distinct and sorted too. |
| `NNDescent.ExactCandidates` | upstream/fasthnsw/internal/core/candidate.go:23-53 | All-pairs scans give the exact lists for any number of workers; k <= 0 is an error. |
| `NNDescent.ApproximateKNNGCandidates` | upstream/fasthnsw/internal/core/candidate.go:93-158 | Initialisation and a fixed number of rounds compute exactly the specified graph for any number of workers; k <= 0 is an error. |
| `OptKCNA.CandidatesFromResults` | upstream/fasthnsw/internal/core/optkcna.go:82-94 | Drops the source and stops at the limit, which is tested only after an append. |
| `OptKCNA.AcquiredFacts` | upstream/fasthnsw/internal/core/construction.go:294-304 | Acquired candidates are reachable from the source, in range, never the source, and correctly scored. |
| `OptKCNA.AcquiredIsSettled` | upstream/fasthnsw/internal/core/construction.go:294-304 | What a node acquires is the first k, at least one, of a settled search of the given width with itself as query and entry, itself left out. |
| `OptKCNA.RefreshIsRefreshed` | upstream/fasthnsw/internal/core/optkcna.go:33-43 | A refresh acquires, with width searchEf, from the layer pruned in alpha mode to maxDegree from the current lists. |
| `OptKCNA.RefinedIsRefinement` | upstream/fasthnsw/internal/core/construction.go:310-328 | The refinement as a run of states: each is a refresh of one that was not good enough, and the last is good enough or the n-th refresh. |
| `OptKCNA.AcquireIsScratchFree` | upstream/fasthnsw/internal/core/construction.go:294-304 | A node's search keeps a worker's table valid and what it acquires does not depend on what the table held. |
| `OptKCNA.AcquireNode` | upstream/fasthnsw/internal/core/construction.go:299-300 | The imperative search of one node does exactly the node's work on its scratch, table included. |
| `OptKCNA.AcquireCandidatesByGraphSearch` | upstream/fasthnsw/internal/core/construction.go:294-304 | Searching from every node with per-worker scratch gives the scratch-free lists for any number of workers and schedule. |
| `OptKCNA.RefreshedInRange` | upstream/fasthnsw/internal/core/optkcna.go:24-47 | A refresh yields in-range lists whatever the graph looked like. |
| `OptKCNA.OptKCNA` | upstream/fasthnsw/internal/core/optkcna.go:24-80 | A refresh succeeds exactly on valid input, and then searches the alpha-pruned graph from every node, for any number of workers. |
| `OptKCNA.RefineCandidatesUntilRecall` | upstream/fasthnsw/internal/core/construction.go:310-328 | At most maxIterations refreshes, stopping at the first good enough estimate; it fails exactly when a refresh is called for that the parameters do not allow. |
| `Layout.MaxAssignedLayer` | upstream/fasthnsw/internal/core/construction.go:127-135 | Returns the largest level. |
| `Layout.LabelsFacts` | upstream/fasthnsw/internal/core/construction.go:73-89 | The prefix for a layer holds exactly the ids of that level or above, once each. |
| `Layout.LabelsOrdered` | upstream/fasthnsw/internal/core/construction.go:73-89 | Labels descend by level and ascend by id inside a level. |
| `Layout.LabelsAreAll` | upstream/fasthnsw/internal/core/construction.go:73-89 | The whole layout is a permutation of all ids. |
| `Layout.LabelsPrefix` | upstream/fasthnsw/internal/core/construction.go:45-47 | The labels of a layer are a prefix of the labels of any lower layer. |
| `Layout.BuildConstructionLayout` | upstream/fasthnsw/internal/core/construction.go:73-89 | The loops compute that layout and, for every layer, the length of its prefix. |
| `Layout.SelectEntryPointFromLayout` | upstream/fasthnsw/internal/core/construction.go:139-151 | A seeded choice among the nodes of exactly the given layer, or -1 when there are none. |
| `Layout.EntryIsOnTop` | upstream/fasthnsw/internal/core/construction.go:139-151 | On the top layer the choice always succeeds and lands on a node of exactly that level. |
| `Layout.EntryIsAnyTopNode` | upstream/fasthnsw/internal/core/construction.go:139-151 | Every node of the top level is the entry point of some draw. |
| `Layout.LevelsAreSampled` | upstream/fasthnsw/internal/core/construction.go:106-124 | With M = 1 every node stays on layer 0; otherwise the sampled levels are the levels. |
| `Vectors.ConcatAt` | upstream/fasthnsw/internal/core/vectors.go:21-35 | Flat storage keeps every vector at its slot. |
| `Vectors.FlattenVectors` | upstream/fasthnsw/internal/core/vectors.go:15-36 | Succeeds exactly on acceptable datasets and then stores the prepared vectors one after another. |
| `Vectors.CopyLayoutVectors` | upstream/fasthnsw/internal/core/construction.go:95-101 | Copies the vectors of the labels in label order. |
| `Vectors.CopyPrefix` | upstream/fasthnsw/internal/core/construction.go:46-47 | The vectors of a layer's labels are a prefix of the copy. |
| `Vectors.CopyKeepsDistances` | upstream/fasthnsw/internal/core/construction.go:95-101 | Local ids of the copy are exactly as far apart as the nodes they stand for. |
| `Config.NormalizeConfig` | upstream/fasthnsw/internal/core/config.go:86-173 | Accepts exactly the configurations whose defaults-filled form is usable, and returns that form. |
| `Config.ResolveIdempotent` | upstream/fasthnsw/internal/core/config.go:94-127 | Normalising a normalised configuration changes nothing, on any machine. |
| `Config.AcceptedExactly` | upstream/fasthnsw/internal/core/config.go:86-173 | What is accepted, by the fields as given: no negative field, CandidateK within the beam that results, alpha zero or in [60, 180], recall zero or in (0, 1]. |
| `Config.Doubled` | upstream/fasthnsw/internal/core/construction.go:268-270 | Doubling a positive int is exact below 2^62 and negative from there on. |
| `Construction.CompleteNodeFacts` | upstream/fasthnsw/internal/core/construction.go:168-187 | In a complete layer a node lists every other label exactly once. |
| `Construction.BuildCompleteLayer` | upstream/fasthnsw/internal/core/construction.go:168-187 | The loop, reading vectors by local id, builds exactly the complete layer over the labels. |
| `Construction.MapLayerAdjacencyToGlobal` | upstream/fasthnsw/internal/core/construction.go:396-407 | Local adjacency is rewritten to global ids; nodes outside the labels stay empty. |
| `Construction.BuildIterNSGLocal` | upstream/fasthnsw/internal/core/construction.go:194-248 | The refinement path (initial graph, acquisition, refreshes, final pruning) builds the specified layer for more than one label and a positive bound, and fails for one label or a negative bound. |
| `Construction.HNSWLayerIsValid` | upstream/fasthnsw/internal/core/construction.go:158-166 | Every layer built over its labels is valid, complete or refined. |
| `BuiltLayers.IterNSGIsRefined` | upstream/fasthnsw/internal/core/construction.go:194-248 | A refined layer stage by stage, each by its own rule: neighbour graph of width min(K0, n-1) after max(4, 2 * iterations) exchanges, acquisition of min(CandidateK, n-1) with width min(ConstructionL, n-1), alpha refreshes, and the RNG layer of the last candidates. |
| `BuiltLayers.BuiltLayerByLayer` | upstream/fasthnsw/internal/core/construction.go:37-65 | Every layer of a finished build is, over the nodes of that level or above, complete and sorted when the degree bound (2M on layer 0, M above) allows it, else a refined layer rewritten to node ids. |
| `BuiltLayers.FinishedIsSpread` | upstream/fasthnsw/internal/core/construction.go:246-248 | In every layer too large to be complete, of two neighbours of a node the farther one is no nearer to the other than to the node, in the index's ids and distances. |
| `Construction.BuildHNSWLayer` | upstream/fasthnsw/internal/core/construction.go:158-166 | From the compact vectors of its labels: the complete layer exactly when the degree bound allows it, else the refined one; a negative bound fails. |
| `Construction.BuildSearchableGraph` | upstream/fasthnsw/internal/core/construction.go:37-65 | For every non-empty dataset and usable configuration the build succeeds exactly when M < 2^62, with a valid graph whose entry point is the seeded choice on the top layer, which is the largest level, and every layer built from its prefix of the copied vectors. |
| `OptKCNA.RefinedIgnoresWorkers` | upstream/fasthnsw/internal/core/config.go:55-59 | The refreshes compute the same lists for any two numbers of workers. |
| `Construction.LayerIgnoresWorkers` | upstream/fasthnsw/internal/core/config.go:55-59 | Every layer is the same for any two numbers of workers. |
| `Construction.BuiltOnce` | upstream/fasthnsw/internal/core/config.go:55-59 | Two finished builds of the same vectors with the same levels and seeds are equal, layers and entry point included, even if they differ in the number of workers. |
| `Construction.SmallBaseIsComplete` | upstream/fasthnsw/internal/core/construction.go:158-187 | With at most 2M+1 nodes and M < 2^62 layer 0 joins every node to every other, whatever the upper layers are. |
| `Graphs.ValidateNode` | upstream/fasthnsw/internal/core/persistence.go:434-460 | Accepts a node's list exactly when it is valid for its layer. |
| `Graphs.ValidateLayerAdjacency` | upstream/fasthnsw/internal/core/persistence.go:425-466 | Accepts exactly the valid graphs. |
| `Descent.LayerStep` | upstream/fasthnsw/internal/core/search.go:11-16 | One layer of descent returns an entry on that layer that is no worse than the one given. |
| `Descent.DescentSucceeds` | upstream/fasthnsw/internal/core/search.go:11-16 | On a valid graph the descent always reaches layer 0 at a node no worse than where it started. |
| `GreedyLayer.GreedyDescends` | upstream/fasthnsw/internal/core/search.go:11-16 | A search of width 1 hands on a local minimum of the layer, reached from its entry along edges that never lead away from the query. |
| `GreedyLayer.GreedyIsSteepest` | upstream/fasthnsw/internal/core/search.go:11-16 | Where no two nodes are equally far, a search of width 1 is steepest descent: each step goes to the best neighbour, until none is nearer. |
| `GreedyLayer.SteepestIsUnique` | upstream/fasthnsw/internal/core/search.go:11-16 | Steepest descent from a node is one walk, so it determines the node handed on. |
| `Descent.DescentIsGreedy` | upstream/fasthnsw/internal/core/search.go:11-16 | The node that leaves each layer above 0 is such a local minimum of that layer, and enters the layer below. |
| `Descent.QueryIsGreedy` | upstream/fasthnsw/internal/core/search.go:7-23 | On a valid graph the answer is the first k of a settled search of layer 0 with the given width, entered where the greedy path through the upper layers ends. |
| `Descent.QuerySucceeds` | upstream/fasthnsw/internal/core/search.go:7-23 | On a valid graph a query never reports an unbuilt index; its answer is sorted, distinct, in range, 1 to k long, and its head is no worse than the entry point. |
| `Descent.CompleteBaseIsExact` | upstream/fasthnsw/internal/core/search.go:18-22 | Over a complete base layer the answer is the brute-force answer for any upper layers and any efSearch >= k. |
| `Descent.ConnectedBaseIsExact` | upstream/fasthnsw/internal/core/search.go:7-23 | Over a base layer where every node reaches every other, the answer is the brute-force answer as soon as efSearch covers all nodes. |
| `Descent.QueriesKeptExactly` | upstream/fasthnsw/internal/core/search.go:7-23 | Whole queries: raising efSearch never turns an answer into an error or worsens a rank on any valid graph over n nodes if and only if the distances allow no detour, for every M from 1 to 2^62 - 1. |
| `Descent.SearchLayers` | upstream/fasthnsw/internal/core/search.go:7-23 | The layer loop over shared scratch equals the query function. |
| `IndexModel.Index.constructor` | upstream/fasthnsw/internal/core/index.go:32-38 | A new index is empty, valid and not ready. |
| `IndexModel.NewIndex` | upstream/fasthnsw/internal/core/index.go:32-38 | New succeeds exactly when the configuration normalises. |
| `IndexModel.Index.ResetSearchableGraph` | upstream/fasthnsw/internal/core/index.go:65-71 | Clears the graph and nothing else. |
| `IndexModel.Index.Build` | upstream/fasthnsw/internal/core/index.go:42-60 | An unacceptable dataset changes nothing. Otherwise the prepared vectors are stored, and the build succeeds exactly when M < 2^62; then the index is ready, valid, and holds the constructed layers and the seeded choice of entry point, and else no graph is left. |
| `IndexModel.Index.Search` | upstream/fasthnsw/internal/core/index.go:75-103 | Answers in the order of the source's checks; it never changes the index. |
| `IndexModel.BuiltIndexAnswers` | upstream/fasthnsw/internal/core/index.go:75-103 | A built index answers every well-formed query, never empty and never with an error. |
| `IndexModel.AnswersExactly` | upstream/fasthnsw/internal/core/index.go:75-103 | A ready index answers if and only if 1 <= k <= efSearch, the query has its dimension and can be prepared; the answer is then the greedy path followed by the first k of a settled search of layer 0. |
| `IndexModel.ScoresOfData` | upstream/fasthnsw/internal/core/index.go:42-103 | What a search scores is the metric's distance between the prepared input vector and the prepared query. |
| `IndexModel.DistancesOfData` | upstream/fasthnsw/internal/core/candidate.go:57-80 | What a build measures between two nodes is the metric's distance between their prepared input vectors, the source first. |
| `IndexModel.LayersOfIndex` | upstream/fasthnsw/internal/core/construction.go:37-65 | Every layer of a built index is a built layer over the nodes of that level or above, and where it is too large to be complete it is an RNG in the index's own ids and distances. |
| `IndexModel.AcceptableExactly` | upstream/fasthnsw/internal/core/vectors.go:15-36 | A dataset is accepted exactly when it has vectors of one positive length, the configured one if any, and under the cosine metric none is zero. |
| `IndexModel.ExactTopK` | upstream/fasthnsw/internal/core/exact.go:8-47 | The brute-force oracle with its argument checks. |
| `IndexModel.ExactIsExact` | upstream/fasthnsw/internal/core/exact.go:8-47 | Any stored vector is in the exact answer or no better than all k of it. |
| `IndexModel.CompleteIndexIsExact` | upstream/fasthnsw/internal/core/search.go:7-23 | A ready index with a complete base layer answers exactly like the oracle. |
| `IndexModel.ConnectedIndexIsExact` | upstream/fasthnsw/internal/core/search.go:7-23 | A ready index with a connected base layer answers exactly like the oracle when efSearch is at least the number of vectors. |
| `IndexModel.WiderSearchKeepsRanks` | upstream/fasthnsw/internal/core/index.go:75-103 | Where the distances to the query allow no detour, raising efSearch makes no rank of the answer of a ready index worse. |
| `IndexModel.WorkersDoNotMatter` | upstream/fasthnsw/internal/core/config.go:55-59 | Two builds over the same vectors that differ only in the number of workers leave the same graph and the same answers. |
| `IndexModel.SmallIndexIsComplete` | upstream/fasthnsw/internal/core/construction.go:158-187 | The base layer of an index built from at most 2M+1 vectors is complete. |
| `IndexModel.BuildThenSearchIsExact` | upstream/fasthnsw/internal/core/index.go:42-103 | End to end: for any acceptable data of at most 2M+1 vectors, any query and efSearch >= k, building and searching returns exactly what the brute-force scan returns if M < 2^62, and otherwise finds no graph. |
| `IndexModel.WideConfigNeverBuilds` | upstream/fasthnsw/internal/core/construction.go:268-270 | M = 2^62 is accepted by New, and then no dataset can be built. |
| `StandardHNSW.SelectedFacts` | upstream/fasthnsw/internal/core/standard_hnsw.go:146-187 | Neighbour selection returns distinct listed ids other than the source, within the bound, and always the nearest. |
| `StandardHNSW.DiverseIsDiverse` | upstream/fasthnsw/internal/core/standard_hnsw.go:158-172 | No selected neighbour is nearer to an earlier selected one than to the source. |
| `StandardHNSW.SelectNeighbors` | upstream/fasthnsw/internal/core/standard_hnsw.go:146-187 | Selection computes exactly that list, or one of its two errors. |
| `StandardHNSW.LinkedFacts` | upstream/fasthnsw/internal/core/standard_hnsw.go:129-137 | A reverse edge, shrunk or not, leaves the neighbour's list valid and non-empty. |
| `StandardHNSW.ConnectedFacts` | upstream/fasthnsw/internal/core/standard_hnsw.go:123-140 | Connecting a node keeps the layer valid for one more node; nobody loses their last edge. |
| `StandardHNSW.ConnectSucceeds` | upstream/fasthnsw/internal/core/standard_hnsw.go:123-140 | On a valid layer none of the errors of the reverse-edge loop can occur, and it computes the connected layer. |
| `StandardHNSW.Connect` | upstream/fasthnsw/internal/core/standard_hnsw.go:123-140 | For any neighbour list the loop links one neighbour after another up to the first error: a neighbour out of range, a bound below one, or a listed id out of range. |
| `Insertion.DownFacts` | upstream/fasthnsw/internal/core/standard_hnsw.go:88-100 | The downward pass, for any layer property its steps establish: all lower layers get it, higher ones are untouched. |
| `Insertion.GreedyDownIsLive` | upstream/fasthnsw/internal/core/standard_hnsw.go:77-82 | The greedy descent hands live entries to the new node's own top layer. |
| `Insertion.InsertKeeps` | upstream/fasthnsw/internal/core/standard_hnsw.go:72-106 | Every insertion keeps the invariant: maximum level at the entry point, valid bounded layers among inserted nodes, and every inserted node linked on layer 0 once two are in. |
| `Insertion.EntryTracksMaximum` | upstream/fasthnsw/internal/core/standard_hnsw.go:102-105 | After every single insertion the maximum level so far is the entry point's. |
| `Insertion.FinishedIsValid` | upstream/fasthnsw/internal/core/standard_hnsw.go:52-114 | The finished baseline is a valid graph, so queries on it succeed too. |
| `Insertion.InsertNode` | upstream/fasthnsw/internal/core/standard_hnsw.go:72-106 | One loop iteration computes exactly the specified insertion when M < 2^62, and fails otherwise. |
| `Insertion.BuildStandardHNSWGraph` | upstream/fasthnsw/internal/core/standard_hnsw.go:52-114 | The build succeeds exactly on one node, or on any non-empty dataset with M < 2^62; then it is the state after inserting every node with the search width max(ConstructionL, M), the entry point is on the highest level, from two nodes on everyone has a base-layer edge, and with M < 2^62 the graph is valid. |
| `InsertionRules.SelectedIsSelectedFrom` | upstream/fasthnsw/internal/core/standard_hnsw.go:146-187 | Selection by distances alone: nearest first, none nearer to a listed one ahead of it than to the source, and every missing candidate is, or is behind a full list. |
| `InsertionRules.ConnectOnIsConnected` | upstream/fasthnsw/internal/core/standard_hnsw.go:88-100 | On one layer the node selects among what its search found, each selected neighbour gains it or selects anew when its list overflows, and no other list changes. |
| `InsertionRules.InsertIsInserted` | upstream/fasthnsw/internal/core/standard_hnsw.go:72-106 | One insertion: greedily from the entry point to the node's level, then on every layer down to 0 a settled search of the given width from all that the layer above found, and the connection. |
| `InsertionRules.WideInsertionSelectsFromAll` | upstream/fasthnsw/internal/core/standard_hnsw.go:88-100 | When the width covers everything reachable on a layer, the new node selects among all of it. |
| `InsertionRules.FinishedIsBaseline` | upstream/fasthnsw/internal/core/standard_hnsw.go:52-114 | The finished baseline is node 0 alone followed by one such insertion after another in id order, with width max(ConstructionL, M). |
| `Parallel.EffectiveWorkerCount` | upstream/fasthnsw/internal/core/parallel.go:9-17 | A request between one and the number of nodes is honoured; a larger one is clamped to the number of nodes, and anything below one means one worker. |
| `Parallel.IntervalsTile` | upstream/fasthnsw/internal/core/parallel.go:43-44 | The workers' intervals tile [0, count): every node has exactly one owner. |
| `Parallel.IntervalsAreEven` | upstream/fasthnsw/internal/core/parallel.go:43-44 | No two intervals differ by more than one node. |
| `Parallel.FirstErrorIsLowest` | upstream/fasthnsw/internal/core/parallel.go:58-62 | No error means that every node succeeds, and an error is that of the lowest node that fails. |
| `Parallel.StepInv` | upstream/fasthnsw/internal/core/parallel.go:46-52 | Any enabled worker may move next; the invariant survives. |
| `Parallel.ScheduleIndependence` | upstream/fasthnsw/internal/core/parallel.go:29-63 | Under every interleaving of worker steps the outputs and the reported error are those of the sequential loop. |
| `Parallel.SchedulesTakeCount` | upstream/fasthnsw/internal/core/parallel.go:40-57 | From the start every schedule takes at most one step per node, and it has finished exactly when it has taken one for each. |
| `Parallel.SchedulesEnd` | upstream/fasthnsw/internal/core/parallel.go:40-57 | From any reachable state a schedule does exactly as many steps as the work left falls by. |
| `Parallel.SequentialForNodes` | upstream/fasthnsw/internal/core/parallel.go:31-38 | One worker stops at the first error. |
| `Parallel.ParallelForNodes` | upstream/fasthnsw/internal/core/parallel.go:29-63 | Workers scheduled in any order return the sequential outputs, or the lowest node's error, and hand back usable scratch. |
| `Codec.U32Bijection` | upstream/fasthnsw/internal/core/persistence.go:530-542 | A little-endian word reads back as itself, and nothing else reads as it. |
| `Codec.LittleEndianIsLawful` | upstream/fasthnsw/internal/core/persistence.go:20-23 | The byte order of the format is lossless in both directions for any following bytes. |
| `Codec.AllComplete` | upstream/fasthnsw/internal/core/persistence.go:196-236 | A list of items reads back when every item does at its position. |
| `Codec.AllSound` | upstream/fasthnsw/internal/core/persistence.go:196-236 | A list that was read is exactly what was written, item by item. |
| `Codec.OneRefused` | upstream/fasthnsw/internal/core/persistence.go:196-236 | One refused item among readable ones fails the whole list. |
| `Persistence.HeaderSound` | upstream/fasthnsw/internal/core/persistence.go:90-123 | An accepted header is exactly the written one, with a valid metric and dimension. |
| `Persistence.ConfigComplete` | upstream/fasthnsw/internal/core/persistence.go:255-362 | A storable configuration reads back unchanged. |
| `Persistence.ConfigSound` | upstream/fasthnsw/internal/core/persistence.go:286-362 | An accepted configuration is storable and was written by exactly these bytes. |
| `Persistence.LayersComplete` | upstream/fasthnsw/internal/core/persistence.go:70-82 | Valid layers within the degree limit read back unchanged. |
| `Persistence.LayersSound` | upstream/fasthnsw/internal/core/persistence.go:196-236 | Accepted layers are distinct, in range, without self-edges, within both limits, and were written by exactly these bytes. |
| `Persistence.DecodeEncode` | upstream/fasthnsw/internal/core/persistence.go:28-253 | Every loadable index followed by anything decodes to itself and leaves the rest unread. |
| `Persistence.EncodeDecode` | upstream/fasthnsw/internal/core/persistence.go:90-253 | Whatever is accepted is a loadable index, and encoding it reproduces exactly the bytes consumed. |
| `Persistence.RoundTripExactly` | upstream/fasthnsw/internal/core/persistence.go:28-253 | Encoding then decoding returns the index if and only if it is loadable. |
| `FileLayout.FileIsLaidOut` | upstream/fasthnsw/internal/core/persistence.go:28-84 | Every field at its byte position: the magic bytes, the little-endian words at 8 to 76, the coordinates from 80 on, the levels, entry point, top layer, layer count and lists behind them, and the exact length. |
| `FileLayout.NodeIsLaidOut` | upstream/fasthnsw/internal/core/persistence.go:70-82 | The degree and the neighbours of any node at their byte positions. |
| `FileLayout.LoadableExactly` | upstream/fasthnsw/internal/core/persistence.go:12-18 | The loadable indexes in numbers: consistent, with a usable configuration, sizes up to 2^20, 2^31 - 1 vectors, 2^30 coordinates, 1024 layers and 2^20 neighbours. |
| `Persistence.PrefixFree` | upstream/fasthnsw/internal/core/persistence.go:28-253 | A file determines its index and its length: no encoding is a proper prefix of another. |
| `Persistence.LoadableIsPersistable` | upstream/fasthnsw/internal/core/persistence.go:372-410 | Saving accepts every loadable index. |
| `Persistence.SavedLoadsExactly` | upstream/fasthnsw/internal/core/persistence.go:372-423 | An index that saving accepts loads back if and only if the conditions saving does not check hold: no zero fields, matching dimension, levels in range with the top as maximum, degrees within 2^20. |
| `Persistence.ModestDegrees` | upstream/fasthnsw/internal/core/persistence.go:204-210 | M up to 2^19 keeps every degree within the limit of the format. |
| `Persistence.SavedLoadsOrFails` | upstream/fasthnsw/internal/core/persistence.go:200-210 | With configuration and levels in order, a saved index loads back when its degrees fit and is refused outright otherwise. |
| `Streams.Writer.Write` | upstream/fasthnsw/internal/core/persistence.go:578 | The underlying writer: any short count and any error. |
| `Streams.Writer.WriteFull` | upstream/fasthnsw/internal/core/persistence.go:576-588 | Success writes exactly the data; failure leaves a prefix of the goal; a reliable writer never fails. |
| `Streams.Reader.ReadFull` | upstream/fasthnsw/internal/core/persistence.go:590-593 | Exactly n bytes, or failure. |
| `Streams.Reader.ReadUint32` | upstream/fasthnsw/internal/core/persistence.go:536-542 | Reads a word exactly as the specification takes it. |
| `Saving.CheckedVectorValueCount` | upstream/fasthnsw/internal/core/persistence.go:506-514 | The quotient test accepts exactly the shapes whose product is within the storage limit. |
| `Saving.ValidatePersistedConfigForWrite` | upstream/fasthnsw/internal/core/persistence.go:468-497 | Decides exactly whether a configuration may be saved. |
| `Saving.ValidatePersistableIndex` | upstream/fasthnsw/internal/core/persistence.go:372-410 | Decides exactly whether an index may be saved. |
| `Saving.WriteConfig` | upstream/fasthnsw/internal/core/persistence.go:255-284 | Writes exactly the configuration block. |
| `Saving.WriteTop` | upstream/fasthnsw/internal/core/persistence.go:61-82 | Writes exactly the entry point, the top layer and all layers. |
| `Saving.SaveIndex` | upstream/fasthnsw/internal/core/persistence.go:28-84 | Writes nothing unless the index may be saved; success appends exactly the encoding, failure a prefix of it; a reliable writer cannot fail. |
| `Loading.ReadConfig` | upstream/fasthnsw/internal/core/persistence.go:286-362 | Reads exactly as specified; normalising what was read changes nothing. |
| `Loading.ReadRows` | upstream/fasthnsw/internal/core/persistence.go:130-167 | Count, vectors and levels with their limits, and the largest level seen. |
| `Loading.BadPrefix` | upstream/fasthnsw/internal/core/persistence.go:225-230 | A self-edge or repeated neighbour makes the node unreadable wherever the loop notices it. |
| `Loading.ReadNode` | upstream/fasthnsw/internal/core/persistence.go:200-234 | The checking loop accepts exactly the readable nodes. |
| `Loading.ReadTop` | upstream/fasthnsw/internal/core/persistence.go:169-236 | Entry point, top layer and layers with the source's checks. |
| `Loading.ValidateLoadedIndex` | upstream/fasthnsw/internal/core/persistence.go:412-423 | Accepts exactly the consistent indexes. |
| `Loading.LoadIndex` | upstream/fasthnsw/internal/core/persistence.go:90-253 | Loads exactly what decodes: the fresh index holds it, is valid and ready, and the tail is left unread. |
| `RoundTrip.ReadyIsPersistable` | upstream/fasthnsw/internal/core/persistence.go:372-410 | A ready index within the size limits passes every check of saving. |
| `RoundTrip.SaveThenLoad` | upstream/fasthnsw/internal/core/index.go:106-122 | Saving a ready index and loading the file gives back an equal index exactly when its degrees fit the format, which M up to 2^19 guarantees. |
| `RoundTrip.SmallBuildDegrees` | upstream/fasthnsw/internal/core/construction.go:158-187 | A build of at most 2M+1 vectors keeps to the degree limit of the format exactly when it has at most 2^20 + 1 vectors. |
| `RoundTrip.BuildSaveLoad` | upstream/fasthnsw/internal/core/index.go:42-122 | Building at most 2M+1 vectors, saving and loading: build and save succeed, and the file can be loaded exactly when there are at most 2^20 + 1 vectors. |
| `RoundTrip.WideIndexIsLost` | upstream/fasthnsw/internal/core/persistence.go:204-210 | A concrete input that is lost: M one above 2^19 and 2^20 + 2 vectors; layer 0 may have 2M neighbours, and the reader takes only 2^20. |
| `FlatRows.AddAllIsMerge` | upstream/vsag/mockimpl/vsag/simpleflat.cpp:80-107 | Adding keeps ids unique, never changes a stored vector, and gives every new id the first vector offered for it. |
| `FlatRows.FirstWinsFacts` | upstream/vsag/mockimpl/vsag/simpleflat.cpp:85-100 | Among offered rows the first of an id decides. |
| `FlatRows.RemoveAtIsErase` | upstream/vsag/mockimpl/vsag/simpleflat.cpp:438-446 | Moving the last row into the gap keeps ids unique and erases exactly one entry of the map. |
| `FlatRows.RemoveAllIsErase` | upstream/vsag/mockimpl/vsag/simpleflat.cpp:433-451 | Removing a list of ids erases exactly those ids. |
| `FlatRows.RemoveThenAdd` | upstream/vsag/mockimpl/vsag/simpleflat.cpp:433-451 | A removed id can be added again with any vector. |
| `FlatRows.HitsAreKept` | upstream/vsag/mockimpl/vsag/simpleflat.cpp:323-347 | An id is a hit exactly when the map holds it, the filter keeps it, and the score is its vector's. |
| `FlatSearch.AnswersDependOnMap` | upstream/vsag/mockimpl/vsag/simpleflat.cpp:323-389 | Both searches answer from the id-to-vector map alone: storage order and history are invisible. |
| `FlatSearch.KnnIsExact` | upstream/vsag/mockimpl/vsag/simpleflat.cpp:125-155 | At most k results in order; an unfiltered stored id that is missing is no better than anything returned. |
| `FlatSearch.MetricsByName` | upstream/vsag/mockimpl/vsag/simpleflat.cpp:333-342 | The metric's name selects the distance; an unknown name scores everything 0. |
| `FlatSearch.KnnIsNearest` | upstream/vsag/mockimpl/vsag/simpleflat.cpp:125-155 | For k >= 0 the answer is exactly the k nearest of the stored ids that are not filtered out. |
| `FlatSearch.RangeIsNearest` | upstream/vsag/mockimpl/vsag/simpleflat.cpp:181-218 | The answer is exactly the stored ids that are not filtered out and strictly closer than the radius, or the nearest of them under a positive limit. |
| `FlatSearch.NegativeKReturnsAll` | upstream/vsag/mockimpl/vsag/simpleflat.cpp:343-346 | A negative k is no limit, because it is compared as an unsigned word. |
| `FlatSearch.PushBounded` | upstream/vsag/mockimpl/vsag/simpleflat.cpp:343-346 | Push then pop-if-too-many keeps exactly the k best of the stream. |
| `FlatSearch.Drain` | upstream/vsag/mockimpl/vsag/simpleflat.cpp:349-354 | Popping until empty lists the contents worst first. |
| `FlatBlocks.MoveRemoves` | upstream/vsag/mockimpl/vsag/simpleflat.cpp:438-446 | Copying the last block over a slot is the swap-removal of that row. |
| `FlatBlocks.AppendRows` | upstream/vsag/mockimpl/vsag/simpleflat.cpp:85-100 | Rows whose id is new go to the next slots; the others are only counted. |
| `FlatBlocks.RowsDetermine` | upstream/vsag/mockimpl/vsag/simpleflat.cpp:65-66 | Ids and coordinates that line up are determined by their rows. |
| `FlatBlocks.Refill` | upstream/vsag/mockimpl/vsag/simpleflat.cpp:47-66 | The loop of Build leaves exactly the resized buffers with the new rows over their beginning. |
| `FlatRuns.BuildOnEmpty` | upstream/vsag/mockimpl/vsag/simpleflat.cpp:35-69 | Building an empty index stores the first row of every id, and the index stands for that map. |
| `FlatRuns.RefusesNonEmpty` | upstream/vsag/mockimpl/vsag/simpleflat.cpp:37-43 | A call with the right dimension on an index that holds rows is refused exactly when the dimension is positive. |
| `FlatRuns.BuildIsSafeExactly` | upstream/vsag/mockimpl/vsag/simpleflat.cpp:35-69 | For every sound index and readable dataset Build leaves a sound index and refuses one that holds rows, if and only if the dimension is positive. |
| `FlatRuns.PointIsRebuilt` | upstream/vsag/mockimpl/vsag/simpleflat.cpp:37-39 | With dimension 0 an index that holds id 0 is built once more and holds it twice. |
| `FlatRuns.LoadForgets` | upstream/vsag/mockimpl/vsag/simpleflat.cpp:220-291 | Loading a packed index gives exactly its storage, whatever the loading index held before. |
| `FlatRuns.RefusedLoad` | upstream/vsag/mockimpl/vsag/simpleflat.cpp:258-279 | A refused load changes the element count alone, and the storage stays sound if and only if the announced count is the old one. |
| `FlatRuns.ApplyRefinesMap` | upstream/vsag/mockimpl/vsag/simpleflat.cpp:35-451 | Each of building, adding, removing and reloading keeps the index sound and does to its map what the same operation does to a map. |
| `FlatRuns.ReplayRefinesMap` | upstream/vsag/mockimpl/vsag/simpleflat.cpp:35-451 | Over any run of building, adding, removing and reloading from the own packed form, with a positive dimension, ids stay unique and the storage stands for the same run on a finite map. |
| `FlatRuns.LittleEndianReplay` | upstream/vsag/mockimpl/vsag/simpleflat.cpp:35-451 | The same with the little-endian byte order, without any premise on it. |
| `SimpleFlatModel.SimpleFlat.Build` | upstream/vsag/mockimpl/vsag/simpleflat.cpp:35-69 | Refused while coordinates are stored or on another dimension, changing nothing; otherwise the storage is exactly what building leaves. With a positive dimension the index stays valid and a non-empty one is always refused. |
| `SimpleFlatModel.SimpleFlat.Add` | upstream/vsag/mockimpl/vsag/simpleflat.cpp:72-107 | Keeps the index valid and merges the new rows into the map; an empty index does not check the dimension. |
| `SimpleFlatModel.SimpleFlat.RemoveId` | upstream/vsag/mockimpl/vsag/simpleflat.cpp:435-447 | Swap-removal of the first occurrence of one id. |
| `SimpleFlatModel.SimpleFlat.Remove` | upstream/vsag/mockimpl/vsag/simpleflat.cpp:433-451 | Keeps the index valid, erases exactly the given ids and counts them. |
| `SimpleFlatModel.SimpleFlat.KnnSearch` | upstream/vsag/mockimpl/vsag/simpleflat.cpp:125-155 | The queue scan answers exactly as specified, with the errors in source order. |
| `SimpleFlatModel.SimpleFlat.RangeSearch` | upstream/vsag/mockimpl/vsag/simpleflat.cpp:181-218 | All unfiltered rows closer than the radius in order, cut to a positive limit. |
| `SimpleFlatModel.SimpleFlat.Serialize` | upstream/vsag/mockimpl/vsag/simpleflat.cpp:220-256 | Packs counts, ids and coordinates. |
| `SimpleFlatModel.SimpleFlat.Deserialize` | upstream/vsag/mockimpl/vsag/simpleflat.cpp:258-291 | Accepts exactly a header with this dimension and blocks of the announced sizes, and then holds what packs to those bytes; a refusal keeps the storage but not the element count. A valid index stays valid exactly when an accepted load has distinct ids, or a refused one announced the old count. |
| `SimpleFlatModel.LoadIsSoundExactly` | upstream/vsag/mockimpl/vsag/simpleflat.cpp:258-291 | Loading any bytes leaves a sound index sound if and only if it accepts them and the ids are distinct, or refuses them, for whatever reason, and the announced count is the old one. |
| `SimpleFlatModel.RefusedLoadBreaks` | upstream/vsag/mockimpl/vsag/simpleflat.cpp:261-268 | A new index of dimension 1 refuses a block of dimension 2 that announces one row, and then counts a row it does not hold. |
| `SimpleFlatModel.SerializeThenDeserialize` | upstream/vsag/mockimpl/vsag/simpleflat.cpp:220-291 | An index of the same dimension, possibly the same one, that loads the packed form holds the same storage and stands for the same map. |
| `SimpleFlatModel.Run` | upstream/vsag/mockimpl/vsag/simpleflat.cpp:35-451 | The run through the methods themselves: the index stays valid and stands for the map the run makes. |
| `SimpleFlatModel.RunLittleEndian` | upstream/vsag/mockimpl/vsag/simpleflat.cpp:35-451 | The same run in the little-endian byte order, without any premise on it. |
| `SimpleFlatModel.ZeroDimensionBuildsTwice` | upstream/vsag/mockimpl/vsag/simpleflat.cpp:37-39 | With dimension 0 a second Build on a new index is not refused and stores one id twice. |
| `FlatBinary.PackInjective` | upstream/vsag/mockimpl/vsag/simpleflat.cpp:220-256 | Equal packed forms hold equal ids and coordinates. |
| `FileLayout.PackIsLaidOut` | upstream/vsag/mockimpl/vsag/simpleflat.cpp:220-256 | Count, dimension and ids as 64-bit words at bytes 0, 8 and 16 on, and the coordinates as 32-bit words in the other block. |

## Left out

- Floating-point and SIMD kernels, normalisation to unit length, and the cosine angle formula: distances, zero tests and the angle test are arbitrary functions, so NaN distances are outside the model.
- Random sampling (`assignLevels`, `mixSeed`, `splitmix64`): arbitrary functions with levels >= 0.
- `estimateCandidateRecall` and `selectCandidateControls`: the estimate is an arbitrary predicate; only the iteration bound and the early stop are modelled.
- Goroutines and wait groups: workers are steps of a state machine that write only node-local slots; memory models are not represented.
- The recall estimate's own parallel loop; worker-local heaps and id slices, which every reset empties, are not carried from node to node.
- Allocation failures and the capacities that ask for too much memory, such as heaps for a very large ef or M; of capacities only a negative one is modelled, as an error. Products of worker number and node count are unbounded.
- Capacities of heap and collector slices, nil scratch arguments, and slice aliasing between results and scratch: heaps are sequences held in a field.
- Adjacency, candidate lists and flat vectors are sequences reassigned by the loops, so updates in place of nested slices are not observable.
- The flags `extendCandidates` and `keepPrunedConnections` of the baseline, which its only caller passes as false, and `standardHNSWComparableConfig`.
- The dimension and alignment tests inside the construction helpers, which cannot fail once Build has validated the dataset, and the benchmark entry point of the baseline.
- Error messages, and which of several errors a malformed file reports: loading either succeeds or fails.
- Streams.Reader.ReadFull: a reader error is modelled as the end of the stream; `io.ReadFull` itself is one step.
- Public nil checks, `ResultIDs`, `DefaultConfig` as a separate function, and the two candidate aliases of the result order.
- Persistence limits are compared on unbounded integers; the Go conversions to 32 and 64 bits are modelled where bytes are written and read.
- SimpleFlatModel.SimpleFlat.Build: like Add, leaves open the contents of `failed_ids`, which hold stored rather than rejected ids; only their number is claimed.
- SimpleFlatModel.SimpleFlat.Deserialize: byte sizes are unbounded integers, so a count whose size wraps around 64 bits and allocation failures are not represented; ids read from a foreign block may repeat.
- Bitset overloads, JSON statistics, memory usage and reader-set plumbing of `SimpleFlat`, and the rest of VSAG.
- Command-line tools, dataset loaders, benchmarks, the synthetic generator and the examples: input, output or simple code.
- Global connectivity of built graphs, and alpha pruning keeping what RNG pruning keeps: not true of the code.
