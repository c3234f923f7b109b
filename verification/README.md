# VeloGraphX: a verified model

VeloGraphX maintains graph analytics while a graph changes: breadth-first distances, weighted shortest paths and
triangle counts are repaired or recomputed after each batch of edge updates. This project models that side of the
system and the static kernels it is compared with, and proves, for every graph and every batch, that each of them equals
a simple definition, or says when it does.

- **Storage.** `RowStores`, `TwoSided`, `GraphStorage`, `StorageRuns`: the dynamic graph as it is stored, with out-rows and
  in-rows that are each a compact row under an overlay and are compacted row by row, and what the two sides show.
- **Maintained distances.** `Distances`, `BreadthFirst`, `DynamicGraphs`, `Cascade`, `CascadeWorklist`, `CascadePreview`,
  `Relaxation`, `BfsBatches`, `IncrementalBfs`, `BfsStreams`, `BfsDrift`, `Preflight`, `PreflightRuns`, `Signals`: finding
  the vertices that deletions push away, the local repair, the fallback to a recompute, the reusable preflight, and the
  exactness contract over whole streams. `KeySets`, `PackedKeys` and `KeyedScan` are the reverse scan on packed keys in an
  open-addressing table.
- **Choosing a plan.** `Selector` is the repair-or-recompute policy as a state machine over all batch histories, and
  `SelectorCosts` what its decisions say of the costs that they compare.
- **Triangles.** `Sums`, `Triangles`, `SortedRows`, `Hipc`, `HipcWraps`, `StaticTriangles`, `IncrementalTriangles`: the double-counting
  theorem behind the inclusion-exclusion formula, the merge loops, and the maintained count.
- **Static graphs.** `Csr`, `StaticBfs`, `Components`, `PageRank`, `WindowStream`: the packed graph and the algorithms on it.
- **Weighted paths.** `MinHeaps`, `WeightedPaths`, `Dijkstra`, `IncrementalSssp`.
- **Workloads and tools.** `LegacyStorage`, `Mutation`, `Sampling`, `WorkClaim`.

`Collections` holds what all of them share. `dafny verify dfyconfig.toml` checks the whole project.

## Where the code is not exact

Six places fall short of what they promise, each on a whole family of inputs. The model keeps the code as it is, gives a
concrete input, and proves when the promise holds. That is an equivalence for the rows, sources, signals and searches below;
for labels over in-rows that have drifted and for commits it is a sufficient condition for one batch on one graph, with the
converse that is stated there.

- In-rows of the dynamic graph (`include/velographx/storage/dynamic_graph.hpp:730`): the overlay of the in-rows is written
  from the compact membership of the out-rows, while compaction by density (`:620`, `:799`) treats the two sides separately.
  After it an in-row can keep a removed arc, in directed and undirected graphs. A batch keeps the in-rows the transpose of
  the out-rows if and only if the compact sides agree at every arc that it changes and leaves at the presence its compact
  out-row has. Out-rows, `has_edge` and the edge count are always right. While nothing is compacted by density every batch
  keeps the in-rows right, over any history of batches, bulk loads and full compactions. Maintained distances stay exact
  whenever the in-rows that a batch is repaired with are right: if it removes an arc of a shortest path, all in-rows before it
  and those of the vertices it pushes away after it, and otherwise none. That is a sufficient condition for a given source.
  Conversely no drift is harmless: wherever an in-row differs from the transpose, on any graph, a search from the vertex it
  differs about that never falls back to a recompute has a wrong label within two batches (`BfsDrift.DriftShows`).
- Maintained breadth-first distances (`include/velographx/incremental/bfs.hpp:73`): a source outside the graph that a batch
  itself brings in is never labelled 0. `Apply` is exact if and only if the source was already a vertex or still is not one.
- The reusable preflight (`tools/prepare_bfs_reusable_preflight_header.py:81`): a commit of another batch than the prepared
  one is not refused, and a plain batch after work that was neither committed nor discarded finds stale flags. Labels stay
  exact when no plain batch comes while work is prepared and every commit is covered: all that was prepared as added is
  present after it, no other arc is new, and no arc is gone but those prepared as removed. Two batches that fit edge by edge
  are covered on every graph, and for any two that do not there is a graph on which the commit leaves a wrong label. On a
  single graph a commit that is not covered can still be exact for some sources.
- Maintained weighted distances (`include/velographx/incremental/weighted_sssp.hpp:97`): a late source again, unless the
  batch triggers a recompute.
- The rebuild-and-search baseline (`benchmarks/publication_ablation_bfs.cpp:58`): a declared root at or above the rebuilt
  graph's vertex count is reported unreachable from itself.
- Structural signals (`benchmarks/publication_policy_bfs_v3_light3.cpp:95`): a batch can read as having no structural change
  and still change distances when an endpoint lies beyond the label vector.

`edge_count` of the older storage engine is exact only when as many additions as deletions are pending; its `apply` keeps
self-loops that its `bulk_load_edges` drops. The inclusion-exclusion count is exact if and only if its 64-bit sums wrap
around in a way that cancels, in particular when twice the number of insertions times the number of vertices is below 2^64;
otherwise sound insertions can be refused, or counted wrongly without an error (`HipcWraps`).

## Modelling choices

- Vertex identifiers are 32 bits and the unreachable marker is 2^32 - 1. An identifier equal to the marker would make a
  graph of 2^32 vertices, on which the 32-bit vertex loops of `src/algorithms.cpp` do not end, so graphs have at most
  2^32 - 1 vertices. The 32-bit increment is written with its wrap-around and proved never to wrap. Sums of triangle
  counts, generator states, mutation indices and the task counter wrap at 64 bits as they do in the code; other counters are
  unbounded, and unsigned subtractions are proved not to go below zero.
- A compact row is a base row or the patch that replaces it, and overlays are one list of entries per vertex. The segments
  of 65536 vertices that base rows are cut into, the arena that holds the overlays, its repacking and the version counter
  do not show in what the rows hold and are not modelled.
- The workspace of the repair persists from batch to batch, and nothing is assumed of it where a result does not say so.
  Its arrays of counts are maps in which an absent entry is 0. The list of affected vertices is also the queue of the
  search, since the code appends to both at once.
- `WeightedDynamicGraph` is a vertex count and a map from arcs to weights. Hash sets and maps are traversed in an arbitrary
  order, so results hold for every order; rows are read in increasing order. The table of packed keys works for every hash
  function.
- Priority queues are multisets from which a least item is popped; sorting is insertion into a sorted sequence.
- `double` is `real` in PageRank, the densities, the fractions and the selector. The square root is any function with the
  defining property of one where a result says so, times are arbitrary, and the run properties of the selector hold for
  every cost model, of which the one in the code is an instance.
- The sampling key and the reading of a number are arbitrary functions, the key injective only where a lemma says so; the
  digest of a task is an arbitrary function, folded with the 64-bit operations of the code.

## Model

| member | source | states |
|---|---|---|
| `Distances.DistIsLeast` | src/algorithms.cpp:11-27 | the distance of a vertex that some walk reaches is the length of a shortest walk, and no walk is shorter |
| `Distances.DistBelowVertexCount` | include/velographx/types.hpp:7 | a finite distance in a graph of n vertices is below n, so with at most 2^32 - 1 vertices it is never the unreachable marker |
| `Distances.CertificateIsExact` | include/velographx/incremental/bfs.hpp:341-354 | labels that are lengths of walks, 0 at the source and relaxed along every arc are the distance vector |
| `Distances.ExactIsRelaxed` | include/velographx/incremental/bfs.hpp:206-209 | conversely exact labels are 0 at the source only, relaxed, below the vertex count or the marker |
| `Distances.ParentExists` | include/velographx/incremental/bfs.hpp:211-220 | every reached vertex but the source has a shortest parent one step closer |
| `BreadthFirst.Discover` | src/algorithms.cpp:20-21 | discovering a vertex keeps the whole queue invariant, and the 32-bit increment neither wraps nor produces the marker |
| `BreadthFirst.VisitRow` | src/algorithms.cpp:19-24 | visiting a row discovers every unvisited neighbour and keeps the queue ordered by distance |
| `BreadthFirst.Finish` | src/algorithms.cpp:17-26 | when the queue is used up the labels are the exact distances |
| `DynamicGraphs.ApplyKeepsSimple` | include/velographx/storage/dynamic_graph.hpp:717-724 | batches keep a graph simple: no self-loops, in range, symmetric when undirected, never losing vertices |
| `DynamicGraphs.LastOperationWins` | include/velographx/incremental/bfs.hpp:38-50 | whether an edge is present after a batch is decided by the last operation on its key, whatever came before |
| `DynamicGraphs.FinalSplitIsBatch` | tools/prepare_bfs_reusable_preflight_header.py:43-55 | applying the batch in order to any edge set E gives (E minus the final deletions) plus the final additions |
| `RowStores.MaterializeRow` | include/velographx/storage/dynamic_graph.hpp:683-708 | merging a compact row with its overlay yields, strictly increasing, exactly the effective entries |
| `RowStores.Upsert` | include/velographx/storage/dynamic_graph.hpp:391-421 | one overlay entry is written in its place and the two counters follow |
| `RowStores.Erase` | include/velographx/storage/dynamic_graph.hpp:423-439 | one overlay entry, if there, is dropped and the two counters follow |
| `RowStores.SetIfChanged` | include/velographx/storage/dynamic_graph.hpp:261-308 | says whether the arc changed, and then pends exactly the presence that differs from the one it was told the compact row has |
| `RowStores.Side.CountArcs` | include/velographx/storage/dynamic_graph.hpp:589-591 | compact entries plus pending additions less pending deletions is the number of arcs shown, when every pending entry differs from the compact row |
| `RowStores.CompactOneRow` | include/velographx/storage/dynamic_graph.hpp:740-752 | a row that takes in its overlay shows the same arcs, nothing of it is pending, and the counters follow |
| `RowStores.CompactMarkedRows` | include/velographx/storage/dynamic_graph.hpp:754-762 | exactly the dirty rows are folded |
| `RowStores.CompactDenseRows` | include/velographx/storage/dynamic_graph.hpp:764-789 | exactly the dirty rows at or above the density are folded; the others stay dirty |
| `TwoSided.OutRowsRefine` | include/velographx/storage/dynamic_graph.hpp:543-553 | the out-rows show the edge set that the batch defines, and a batch compacts nothing |
| `TwoSided.ChangeKeepsRight` | include/velographx/storage/dynamic_graph.hpp:726-733 | an operation that changes an arc leaves the in-row right about it if and only if the presence set differs from the compact out-row, or the compact in-row agrees with the compact out-row; no other entry is touched |
| `TwoSided.ArcAfterBatch` | include/velographx/storage/dynamic_graph.hpp:717-733 | for any batch, what the out-row and the in-row say of one arc afterwards |
| `TwoSided.TransposedAfterBatch` | include/velographx/storage/dynamic_graph.hpp:726-733 | a batch keeps the in-rows the transpose of the out-rows if and only if the compact sides agree at every arc that falls back to its compact presence |
| `TwoSided.AgreeingSidesStay` | include/velographx/storage/dynamic_graph.hpp:726-733 | while both sides hold the same arcs compact, every batch keeps the in-rows right |
| `GraphStorage.BuildBoth` | include/velographx/storage/dynamic_graph.hpp:516-517 | the out-rows are the sorted arcs grouped by origin and the in-rows their exact transpose |
| `GraphStorage.DynamicGraph.constructor` | include/velographx/storage/dynamic_graph.hpp:481-487 | an empty graph with both sides empty |
| `GraphStorage.DynamicGraph.ApplyUnversioned` | include/velographx/storage/dynamic_graph.hpp:717-733 | one operation changes the edge set as defined, and the in-rows as the out-side compact rows dictate |
| `GraphStorage.DynamicGraph.Apply` | include/velographx/storage/dynamic_graph.hpp:543-549 | the edge set becomes the old one with the operations applied in order; the in-rows stay the transpose of the out-rows if and only if the compact sides agree wherever the batch falls back to them; aligned sides with room stay aligned, in particular; a batch that is not empty is followed by one automatic maintenance |
| `GraphStorage.DynamicGraph.BulkLoadEdges` | include/velographx/storage/dynamic_graph.hpp:502-529 | the contents become the given edges without self-loops and duplicates, compact and equal on both sides, with nothing pending on either |
| `GraphStorage.DynamicGraph.Neighbors` | include/velographx/storage/dynamic_graph.hpp:551-553 | the out-row of the edge set, strictly increasing, empty outside the graph |
| `GraphStorage.DynamicGraph.InNeighbors` | include/velographx/storage/dynamic_graph.hpp:555-557 | the in-row as stored, which is the transpose only while the sides have not drifted apart |
| `GraphStorage.DynamicGraph.HasEdge` | include/velographx/storage/dynamic_graph.hpp:583-587 | membership in the edge set, from the overlay or else the compact row |
| `GraphStorage.DynamicGraph.EdgeCountDirected` | include/velographx/storage/dynamic_graph.hpp:589-591 | the three counters give the size of the edge set |
| `GraphStorage.DynamicGraph.MaybeCompact` | include/velographx/storage/dynamic_graph.hpp:620-631 | nothing changes from outside; what is compact afterwards is decided row by row on each side, where the pending changes reach the threshold share of the compact entries, counted as 8 when fewer; the flag says whether any row of either side did; a threshold of 0 or less leaves nothing pending on either side |
| `GraphStorage.DynamicGraph.Compact` | include/velographx/storage/dynamic_graph.hpp:633-639 | both sides hold compact exactly what they show and nothing is pending on either, also when nothing was pending before |
| `GraphStorage.DynamicGraph.AutomaticMaintenance` | include/velographx/storage/dynamic_graph.hpp:791-800 | when the overlay holds 65536 entries and a hundredth of the compact edges, exactly the rows of either side with half as many pending as compact entries become compact; otherwise nothing changes |
| `GraphStorage.RoomyMeansNotDue` | include/velographx/storage/dynamic_graph.hpp:791-800 | maintenance is due exactly when 65536 entries are pending and 100 times as many as there are compact edges or more |
| `StorageRuns.Run` | include/velographx/storage/dynamic_graph.hpp:502-639 | over every history of batches, bulk loads and compactions the rows show the edge set; the in-rows stay the transpose of the out-rows throughout if and only if every batch meets the condition of TransposedAfterBatch in the state that it finds; the two sides stay aligned when no compaction by density is asked for and no batch makes one due, where every bulk load and full compaction empties the overlay |
| `StorageRuns.TransposedThroughout` | include/velographx/storage/dynamic_graph.hpp:726-733 | from any point of a history at which the in-rows are the transpose of the out-rows they stay so if and only if every later batch meets that condition in its state |
| `StorageRuns.RemovalIsMissed` | include/velographx/storage/dynamic_graph.hpp:726-733 | removing an arc that is compact in the in-row only leaves it in the in-row |
| `StorageRuns.StaleInRow` | include/velographx/storage/dynamic_graph.hpp:726-733 | a concrete directed graph whose in-row keeps a removed arc after a density compaction |
| `StorageRuns.StaleUndirectedRow` | include/velographx/storage/dynamic_graph.hpp:717-733 | a concrete undirected graph in which the same happens to one orientation of an edge |
| `KeySets.Table.FreeProbe` | include/velographx/incremental/bfs.hpp:144-148 | with fewer keys than slots every probe sequence meets a free slot within one round, so probing ends |
| `KeySets.Table.AbsentAtFreeProbe` | include/velographx/incremental/bfs.hpp:154-161 | a key not met before the first free slot is not stored |
| `KeySets.Table.StoreAdds` | include/velographx/incremental/bfs.hpp:149-151 | storing at the first free slot adds exactly that key and leaves no gap in any probe sequence |
| `KeySets.Capacity` | include/velographx/incremental/bfs.hpp:126-128 | the smallest power of two from 8 on that is more than twice the expected keys |
| `KeySets.ReusableKeySet.Reset` | include/velographx/incremental/bfs.hpp:125-141 | the set is empty and roomy afterwards, also when the 32-bit generation counter wraps |
| `KeySets.ReusableKeySet.Find` | include/velographx/incremental/bfs.hpp:144-161 | linear probing finds a key exactly when it is in the set, else the first free slot of its probe sequence |
| `KeySets.ReusableKeySet.Contains` | include/velographx/incremental/bfs.hpp:154-162 | the hash table answers exactly set membership |
| `KeySets.ReusableKeySet.Insert` | include/velographx/incremental/bfs.hpp:143-152 | the set gains the key, and the answer says whether it was new |
| `KeyedScan.PackedMember` | include/velographx/incremental/bfs.hpp:178-181 | packing two 32-bit identifiers into 64 bits loses nothing, so key sets stand for sets of edges |
| `KeyedScan.SplitFinalKeyed` | include/velographx/incremental/bfs.hpp:38-50 | the reverse scan run on packed keys in reusable sets lists exactly the keys whose last operation is an addition, and those whose last operation is a deletion, each once, whatever the sets held before |
| `Cascade.ShortestWalkKept` | include/velographx/incremental/bfs.hpp:222-259 | a vertex outside a set that leaves every other vertex a parent keeps a shortest walk after the deletions |
| `Cascade.AffectedIsGrowing` | tools/prepare_bfs_selector_v3_cascade.py:93-147 | a set whose members have lost every parent while every other vertex keeps one is exactly the set of vertices whose distance grows |
| `Cascade.LedgerSound` | include/velographx/incremental/bfs.hpp:229-240 | counting lost parents never marks a vertex whose distance stays |
| `Cascade.LedgerComplete` | include/velographx/incremental/bfs.hpp:247-258 | once every lost arc has been charged, every vertex whose distance grows is marked |
| `Cascade.UnhurtStaysSupported` | include/velographx/incremental/bfs.hpp:67-70 | when no deletion hits a shortest-path arc, no distance grows |
| `CascadePreview.MarkIfUnsupported` | tools/prepare_bfs_selector_v3_cascade.py:115-123 | a vertex is marked exactly when as many losses are counted as its in-row shows parents, with a correct support cache |
| `CascadeWorklist.LossRecorded` | include/velographx/incremental/bfs.hpp:229-240 | charging one lost parent, and marking when the count reaches the support, keeps counts, cache, queue and affected set in step with the ledger of lost arcs |
| `CascadePreview.Expand` | tools/prepare_bfs_selector_v3_cascade.py:129-142 | expanding one affected vertex charges every surviving arc to a child, skipping deleted ones; an early stop means the limit is passed |
| `CascadeWorklist.Conclude` | tools/prepare_bfs_selector_v3_cascade.py:143-147 | at the end the queue is the growing set, or is over the limit exactly when the growing set is |
| `CascadePreview.FinalDeletions` | tools/prepare_bfs_selector_v3_cascade.py:68-82 | the final deletions are exactly the present arcs whose last operation is a deletion, each once |
| `CascadePreview.ChargeDeletions` | tools/prepare_bfs_selector_v3_cascade.py:107-113 | every deleted shortest-path arc is charged to its target exactly once |
| `CascadePreview.MarkSeeds` | tools/prepare_bfs_selector_v3_cascade.py:124-127 | in any hash order, exactly the vertices saturated by the deletions alone are seeded |
| `CascadePreview.Discover` | tools/prepare_bfs_selector_v3_cascade.py:52-148 | with exact labels and in-rows that are the transpose, only vertices whose distance grows are found, all of them unless the report says exceeded, in any hash order; exceeded exactly when at least two grow and all but one of them reach the stop share of the vertices; the affected fraction is the share of vertices found |
| `CascadePreview.StopMeaning` | tools/prepare_bfs_selector_v3_cascade.py:60-62 | more vertices than the stop limit: at least two, with all but one of them at or above the stop share |
| `Relaxation.RelaxRow` | include/velographx/incremental/bfs.hpp:341-354 | relaxing a row keeps labels sound and counted and leaves every unsettled arc leaving the queue |
| `Relaxation.RelaxArc` | include/velographx/incremental/bfs.hpp:332-339 | relaxing one arc settles it, keeps labels sound, and keeps the reachable count right |
| `Relaxation.RelaxAffectedRow` | include/velographx/incremental/bfs.hpp:300-309 | relaxing towards affected vertices keeps every stale or open label covered by the heap |
| `Relaxation.RepairSettles` | include/velographx/incremental/bfs.hpp:312-318 | after the heap is drained only arcs from vertices that beat their old label can be unsettled |
| `IncrementalBfs.FullBfs` | benchmarks/adaptive_policy_bfs.cpp:82-101 | a fresh search yields the exact distances, all unreachable when the source is outside |
| `IncrementalBfs.IncrementalBfs.constructor` | include/velographx/incremental/bfs.hpp:100-120 | a new instance has exact labels and a clean workspace |
| `IncrementalBfs.IncrementalBfs.Recompute` | include/velographx/incremental/bfs.hpp:100-120 | labels and reachable count are exact for the current graph |
| `IncrementalBfs.IncrementalBfs.PropagateDecreases` | include/velographx/incremental/bfs.hpp:341-354 | drained, no arc is unsettled but the excused ones; no label rises; it terminates |
| `IncrementalBfs.IncrementalBfs.SplitBatch` | include/velographx/incremental/bfs.hpp:38-50 | the final additions and deletions of the batch, and a key set that lists exactly the deletions |
| `IncrementalBfs.IncrementalBfs.ShortestParentCount` | include/velographx/incremental/bfs.hpp:211-220 | 0 for the source, for an unreached vertex and for one beyond the labels; otherwise the parents the in-row shows, or the cached number |
| `IncrementalBfs.IncrementalBfs.RecordParentLoss` | include/velographx/incremental/bfs.hpp:229-240 | one lost parent is counted and the vertex marked when none is left; nothing happens to the source, to unreached and to marked vertices; with in-rows that are the transpose the count follows the ledger |
| `IncrementalBfs.IncrementalBfs.ExistingDeletions` | include/velographx/incremental/bfs.hpp:54-63 | the listed deletions are the arcs the batch removes, and the candidates are exactly the vertices that lose a shortest-path arc by them |
| `IncrementalBfs.IncrementalBfs.ChargeExisting` | include/velographx/incremental/bfs.hpp:242-245 | every deleted shortest-path arc, in both directions when undirected, is charged once |
| `IncrementalBfs.IncrementalBfs.ComputeAffected` | include/velographx/incremental/bfs.hpp:222-259 | from a clean workspace over transposed in-rows: within the limit exactly when at most that many distances grow, and then the flags are those vertices; from any workspace: the verdict is about the vertices listed |
| `IncrementalBfs.IncrementalBfs.BestBoundaryDistance` | include/velographx/incremental/bfs.hpp:261-269 | the least label plus one over reached parents outside the affected set, or the marker |
| `IncrementalBfs.IncrementalBfs.ClearAffected` | include/velographx/incremental/bfs.hpp:272-277 | the listed labels become the marker, the others stay, and the reachable count stays right |
| `IncrementalBfs.IncrementalBfs.SeedBoundary` | include/velographx/incremental/bfs.hpp:285-293 | every arc into an affected vertex is relaxed or leaves a vertex in the heap; other labels are untouched |
| `IncrementalBfs.IncrementalBfs.DrainHeap` | include/velographx/incremental/bfs.hpp:295-310 | lazy deletion terminates, and every arc into an affected vertex is relaxed; other labels are untouched |
| `IncrementalBfs.IncrementalBfs.RepairAffected` | include/velographx/incremental/bfs.hpp:271-319 | all arcs but the added ones are relaxed afterwards, labels are lengths of walks, and no unaffected label rises |
| `Relaxation.RelaxEdge` | include/velographx/incremental/bfs.hpp:332-339 | relaxing a final addition settles it, both ways when undirected; a self-loop changes nothing |
| `IncrementalBfs.IncrementalBfs.RelaxAdditions` | include/velographx/incremental/bfs.hpp:91-96 | after the final additions every arc of the new graph is relaxed |
| `IncrementalBfs.IncrementalBfs.RepairAfterBatch` | include/velographx/incremental/bfs.hpp:83-97 | repair and additions together leave sound labels relaxed along every arc |
| `IncrementalBfs.IncrementalBfs.ClearWorkspace` | include/velographx/incremental/bfs.hpp:321-330 | a workspace whose entries are all listed is clean afterwards |
| `IncrementalBfs.IncrementalBfs.Prepare` | include/velographx/incremental/bfs.hpp:35-71 | before the graph changes, the flags are exactly the vertices the batch will push away, unless they exceed the limit, and the size is judged exactly; only a batch that removes a shortest-path arc needs in-rows that are the transpose, and any other lists no vertex whatever the workspace held |
| `IncrementalBfs.IncrementalBfs.Apply` | include/velographx/incremental/bfs.hpp:29-98 | from exact labels and a clean workspace, when the in-rows that the batch is repaired with are right (if it removes a shortest-path arc, all in-rows before it and those of the pushed-away vertices after it; otherwise none): exact afterwards if and only if the source was already a vertex or still is not; a full recompute is used exactly when at least two distances grow and they are more than the fallback fraction of the vertices; after a full recompute exact in any case; without one, only listed vertices can have risen; the candidates counted are the vertices that lose a shortest-path arc |
| `IncrementalBfs.LimitMeaning` | include/velographx/incremental/bfs.hpp:225-226 | more vertices than the fallback limit: at least two, and more than the fallback fraction of all |
| `BfsBatches.HurtsIsAt` | include/velographx/incremental/bfs.hpp:54-71 | whether a batch removes a shortest-path arc, as the code tests it on exact labels, is a matter of the graph and the batch alone |
| `BfsBatches.TransposedSuffices` | include/velographx/incremental/bfs.hpp:211-220 | in-rows that are and stay the transpose are right for every batch |
| `BfsBatches.AdditionsSuffice` | include/velographx/incremental/bfs.hpp:67-71 | any in-rows are right for a batch of additions |
| `BfsBatches.Verdict` | include/velographx/incremental/bfs.hpp:73 | after a repair the labels are exact if and only if the batch did not itself make room for the source |
| `BfsStreams.Replay` | docs/dynamic-bfs.md:24-26 | the exactness contract: for every stream of batches and every choice of repair or recompute per batch the labels end exact if they were exact at the start or have been recomputed, and since then the in-rows that each batch is repaired with were right; these always are on sides that start aligned with an overlay too small to be compacted unasked |
| `BfsStreams.LateSource` | include/velographx/incremental/bfs.hpp:73 | a concrete input where the labels are not exact: a source that first appears with a batch is never labelled 0 |
| `BfsStreams.StaleLabel` | include/velographx/incremental/bfs.hpp:211-220 | a concrete graph whose stale in-row counts a parent that is gone: after a deletion an unreachable vertex keeps a finite label |
| `BfsDrift.TooLittleShown` | include/velographx/incremental/bfs.hpp:211-220 | for every graph: where an in-row misses an arc from some vertex, removing that arc leaves a search from the vertex that never falls back to a recompute with a wrong label |
| `BfsDrift.TooMuchShown` | include/velographx/incremental/bfs.hpp:261-269 | for every graph: where an in-row shows an arc that is not there, two batches leave such a search from its origin with a wrong label |
| `BfsDrift.DriftShows` | include/velographx/incremental/bfs.hpp:211-269 | every in-row that differs from the transpose of the out-rows costs such a search from the vertex it differs about a label within two batches |
| `BfsBatches.CoversIsEffect` | tools/prepare_bfs_reusable_preflight_header.py:81-107 | a batch is covered, edge by edge, if and only if it adds all that was prepared as added, adds nothing else and removes nothing that was not prepared as removed |
| `BfsBatches.SameWorkCovers` | tools/prepare_bfs_reusable_preflight_header.py:81-107 | a batch that ends with the additions prepared and removes the arcs prepared is covered, whatever else it holds |
| `Preflight.PreflightBfs.PreflightDeletionCascade` | tools/prepare_bfs_reusable_preflight_header.py:32-79 | prepared exactly for a non-empty batch; from exact labels exceeded exactly when at least two distances grow and they are more than the given fraction of the vertices, and otherwise the workspace holds the exact affected set and the report its size; the candidates reported are the vertices that lose a shortest-path arc |
| `Preflight.PreflightBfs.ApplyPreflighted` | tools/prepare_bfs_reusable_preflight_header.py:81-107 | for any batch: refused, changing nothing, unless prepared and not exceeded; otherwise the graph takes the batch, and the labels are exact, as after the plain path, when what was prepared covers the batch and the in-rows of the vertices prepared as pushed away are right after it |
| `Preflight.PreflightBfs.SameWorkServes` | tools/prepare_bfs_reusable_preflight_header.py:81-107 | so they are when the batch ends with the additions prepared and removes the arcs prepared, over in-rows that are and stay the transpose |
| `Preflight.PreflightBfs.DiscardDeletionPreflight` | tools/prepare_bfs_reusable_preflight_header.py:109-113 | nothing is prepared afterwards, the workspace is clean and the labels are untouched |
| `Preflight.PreflightBfs.Process` | tools/prepare_bfs_selector_v3_reuse2_candidate.py:76-96 | whatever is measured and chosen, the labels stay exact while the in-rows that the batch is repaired with are right, a wanted recompute makes them exact in any case, and nothing prepared is left over; prepared work is reused exactly when it was asked for, within the limit and not overruled |
| `PreflightRuns.Run` | tools/prepare_bfs_reusable_preflight_header.py:32-113 | every sequence of preflights, commits, discards and plain batches keeps the labels exact, if no plain batch comes while work is prepared, every commit is covered by what was prepared, and the in-rows that are read are right |
| `PreflightRuns.CoversEverywhere` | tools/prepare_bfs_reusable_preflight_header.py:81-107 | two batches whose last operations on every edge fit are covered on every graph |
| `PreflightRuns.NotCovered` | tools/prepare_bfs_reusable_preflight_header.py:81-107 | two batches whose last operations on some edge do not fit: a graph on which preparing the one and committing the other leaves a wrong label |
| `PreflightRuns.Uncovered` | tools/prepare_bfs_reusable_preflight_header.py:81-107 | on every graph: a commit that leaves an uncovered arc, other than a new one into a vertex that is repaired anyway, gives a search from the origin of that arc a wrong label |
| `PreflightRuns.CommitOfAnother` | tools/prepare_bfs_reusable_preflight_header.py:81-107 | for instance a commit of another deletion than the prepared one, which leaves a wrong label |
| `PreflightRuns.PlainWhilePrepared` | include/velographx/incremental/bfs.hpp:229-230 | a concrete plain batch after a preflight that was neither committed nor discarded: the stale flag keeps a vertex from being found, and its label stays |
| `Signals.CountSignals` | benchmarks/publication_policy_bfs_v3_light3.cpp:82-101 | the four counters count the operations of their kind |
| `Signals.Measure` | benchmarks/publication_policy_bfs_v3_light3.cpp:103-113 | the structural share is the share of operations that delete a shortest-path arc or offer a shorter path, at most 1, and 0 exactly when there is none |
| `Signals.QuietBatchKeepsDistances` | benchmarks/publication_policy_bfs_v3_light3.cpp:73-114 | with exact distances, endpoints in range and zero structural share, no batch changes any distance |
| `Signals.QuietBatchExactness` | benchmarks/publication_policy_bfs_v3_light3.cpp:95 | with exact distances and zero structural share, for every source, old distances stay and new vertices stay unreachable if and only if no final addition leads from a reached vertex beyond the label vector and the batch does not itself make room for the source |
| `Signals.NewVertexIsMissed` | benchmarks/publication_policy_bfs_v3_light3.cpp:95 | a concrete batch with zero structural share that does change a distance, because an endpoint lies beyond the label vector |
| `Selector.NoLearnedFullBeforeConfirmation` | benchmarks/publication_policy_bfs_v3_light3.cpp:277-297 | in every run and for every cost model, a learnt full decision after a material tail event has a completed incremental confirmation between them |
| `Selector.DueUntilConfirmed` | benchmarks/publication_policy_bfs_v3_light3.cpp:363-387 | a due confirmation stays due, through any number of full batches, until an incremental batch completes it |
| `Selector.TailRatioBounded` | benchmarks/publication_policy_bfs_v3_light3.cpp:344-390 | the tail ratio stays between 1 and the largest normalised tail seen |
| `Selector.TailGuardIsConfirmed` | benchmarks/publication_policy_bfs_v3_light3.cpp:288-294 | every tail-guard full decision of a run is preceded by a completed confirmation |
| `Selector.FullRunsAreShort` | benchmarks/publication_policy_bfs_v3_light3.cpp:284-286 | once an incremental cost is known, any five consecutive batches below the preflight size include one not sent to a full recompute |
| `Selector.AgeGrows` | benchmarks/publication_policy_bfs_v3_light3.cpp:342-343 | the age of the estimate counts the full batches since the last repair |
| `Selector.NormalizedTail` | benchmarks/publication_policy_bfs_v3_light3.cpp:371-376 | a normalised tail is never below 1 |
| `Selector.ScaleMeaning` | benchmarks/publication_policy_bfs_v3_light3.cpp:253-255 | the size scale is the square root of the ratio of update shares held between 0.4 and 3: its square is the ratio between 0.16 and 9, and it is 0.4 below and 3 above |
| `Selector.L3IsForesighted` | benchmarks/publication_policy_bfs_v3_light3.cpp:253-259 | the cost prediction reads nothing that is measured while the batch is carried out |
| `Selector.L3IsAveraging` | benchmarks/publication_policy_bfs_v3_light3.cpp:392-395 | a new cost estimate lies between the old one and the measurement |
| `Selector.EstimateWithinMeasurements` | benchmarks/publication_policy_bfs_v3_light3.cpp:392-396 | in every run the cost estimate stays within the range of the incremental times measured |
| `SelectorCosts.LearnedFullIsCheaper` | benchmarks/publication_policy_bfs_v3_light3.cpp:284-297 | in every run on positive times, a confident or a fresh full decision has a predicted repair dearer than the predicted recompute, and a tail-guard one has with the tail seen |
| `SelectorCosts.CheapRepairIsChosen` | benchmarks/publication_policy_bfs_v3_light3.cpp:284-297 | a batch whose repair is predicted to cost no more than a recompute, with the tail seen, is not sent to one |
| `SelectorCosts.DearRepairIsAvoided` | benchmarks/publication_policy_bfs_v3_light3.cpp:266-297 | with no confirmation due and a fresh estimate, a repair predicted above 40/11 of a recompute is not made, nor above 5/4 of it while the cost of a recompute is fresh too |
| `SelectorCosts.ConfidentMeansDearer` | benchmarks/publication_policy_bfs_v3_light3.cpp:266-276 | a confident full decision is right for all real costs within the relative errors the model has come to expect |
| `SelectorCosts.PredictionMeaning` | benchmarks/publication_policy_bfs_v3_light3.cpp:253-259 | a batch of the size of the last repair is predicted to cost the estimate, five times as much if everything was affected, twice as much if every operation is structural |
| `SelectorCosts.PredictionScales` | benchmarks/publication_policy_bfs_v3_light3.cpp:253-259 | two batches that differ in size only are predicted in proportion to their size scales |
| `SelectorCosts.BeforeAnyRepair` | benchmarks/publication_policy_bfs_v3_light3.cpp:239-248 | a batch of a twentieth of the edges and more is recomputed; the first repairs are probes, put off exactly while some batch has been too large and this one is not below the simple share |
| `SelectorCosts.LatestFull` | benchmarks/publication_policy_bfs_v3_light3.cpp:361-364 | the predicted cost of a recompute is the time of the latest one, and its age the number of batches since |
| `SelectorCosts.LatestRepair` | benchmarks/publication_policy_bfs_v3_light3.cpp:392-400 | the size and the affected share compared with are those of the latest repair, the latter 0 once a recompute has come in between |
| `SelectorCosts.EstimateMoves` | benchmarks/publication_policy_bfs_v3_light3.cpp:392-396 | a measured repair moves the estimate by a quarter of the difference, less in proportion as more vertices were affected |
| `SelectorCosts.ErrorsAreLearnt` | benchmarks/publication_policy_bfs_v3_light3.cpp:346-359 | each error estimate starts at the first error of its own kind and then moves by a quarter of the difference |
| `SelectorCosts.ErrorEstimateWithin` | benchmarks/publication_policy_bfs_v3_light3.cpp:346-359 | each error estimate stays within the range of the errors of its kind |
| `SelectorCosts.TailMeaning` | benchmarks/publication_policy_bfs_v3_light3.cpp:371-376 | the tail of a repair is what is left of its time over the predicted one when the affected vertices are allowed for, and 1 when nothing is |
| `SelectorCosts.TailIsKept` | benchmarks/publication_policy_bfs_v3_light3.cpp:378-390 | a material tail or a confirmation raises the tail ratio to the tail unless the decayed ratio is larger |
| `SelectorCosts.TailDecays` | benchmarks/publication_policy_bfs_v3_light3.cpp:344-345 | without either, what the tail ratio has above 1 shrinks by a quarter every batch |
| `SelectorCosts.DueForATail` | benchmarks/publication_policy_bfs_v3_light3.cpp:378-390 | a confirmation is due only for a material tail that no confirmation has followed |
| `Selector.Observe` | benchmarks/publication_policy_bfs_v3_light3.cpp:342-401 | the updates made one after the other add up to the state machine's step |
| `Selector.DecisionIgnoresOutcome` | benchmarks/publication_policy_bfs_v3_light3.cpp:239-301 | the decision does not depend on anything measured while the batch is carried out |
| `Selector.ProcessBatch` | benchmarks/publication_policy_bfs_v3_light3.cpp:215-406 | one batch of the driver: the decision and the next state are those of the state machine on what was measured, which is the size of the batch, its structural share, the time, and of a repair whether it fell back and the share of vertices it affected; the flag records whether the labels agree with a fresh search |
| `Selector.RunAdaptive` | benchmarks/publication_policy_bfs_v3_light3.cpp:174-408 | over a whole stream every decision is the state machine's on the batches of the stream as they were met, the two counters count full and fallen-back batches, the flag is set exactly when the labels agree with a fresh search after every batch, and they do if the in-rows that each batch is repaired with were right |
| `Csr.CountOffsets` | src/csr_graph.cpp:25-31 | offsets are running totals of the row sizes, nondecreasing from 0 to the number of entries |
| `Csr.PackRows` | src/csr_graph.cpp:34-41 | moving cursors put into every slice exactly the row of its vertex, in order |
| `Csr.SortUnique` | src/csr_graph.cpp:22-23 | strictly increasing edges with the same members |
| `Csr.ExpandEdges` | src/csr_graph.cpp:8-21 | self-loops go, undirected edges are mirrored, and the vertex count is one more than the largest endpoint |
| `Csr.GroupAscends` | src/csr_graph.cpp:38-41 | the row of a vertex in sorted edges is strictly increasing |
| `Csr.Build` | src/csr_graph.cpp:7-42 | the rows strictly increase and hold exactly the given edges without self-loops and duplicates, and the incoming rows are the exact transpose |
| `Csr.HasEdge` | src/csr_graph.cpp:60-64 | binary search answers edge membership, false outside the graph |
| `StaticBfs.BfsDistances` | src/algorithms.cpp:11-27 | an error exactly for a source outside; otherwise shortest path lengths, and the marker exactly for unreachable vertices |
| `StaticBfs.MarkerMeansUnreachable` | src/algorithms.cpp:13 | with at most 2^32 - 1 vertices the marker means unreachable and nothing else |
| `StaticBfs.CsrBfs` | benchmarks/publication_ablation_bfs.cpp:53-73 | exact if and only if the source has a row in the packed graph or is not a declared vertex at all |
| `StaticBfs.RootWithoutRow` | benchmarks/publication_ablation_bfs.cpp:58 | a concrete graph and declared root for which the search is not exact |
| `PackedKeys.KeyRoundTrip` | benchmarks/publication_ablation_bfs.cpp:31-33 | unpacking a packed edge gives it back, and the key fits 64 bits |
| `WindowStream.MakeBatch` | benchmarks/adaptive_policy_bfs.cpp:110-124 | the batch adds the new edges and then removes the ones that leave the window |
| `WindowStream.SlideWindow` | benchmarks/publication_ablation_bfs.cpp:99-102 | after a batch of any size, also one larger than the window, the active keys are those of the new window |
| `WindowStream.WindowSize` | benchmarks/publication_ablation_bfs.cpp:84-88 | a window of distinct edges always has as many keys as edges were imported |
| `WindowStream.BatchAdvancesGraph` | benchmarks/publication_ablation_bfs.cpp:116-117 | applied to the graph of a window, its batch gives the graph of the next one |
| `WindowStream.RebuildAndSearch` | benchmarks/publication_ablation_bfs.cpp:103-110 | the rebuilt graph is that of the window, and the search is exact if and only if some endpoint in the window is at least the root, or the root is no declared vertex |
| `WindowStream.RunA0` | benchmarks/publication_ablation_bfs.cpp:75-125 | over a whole stream of distinct edges, every batch has the given size or is smaller and ends the stream, the active set is always the last imported edges, its size never changes, and the run is reported exact, against the reference graph, if and only if the root condition holds in every window |
| `Triangles.CubeIsSixfold` | benchmarks/hipc2017_cpu_reimplementation.cpp:141-149 | ordered triples over a symmetric arc set count each triangle six times |
| `Triangles.CubeCountsTriangles` | benchmarks/hipc2017_cpu_reimplementation.cpp:141-149 | the triple sum is six times the number of triangles as a set |
| `Triangles.CubeExpand` | benchmarks/hipc2017_cpu_reimplementation.cpp:141-149 | the triple sum over base plus batch splits by how many sides are new |
| `Triangles.InclusionExclusion` | benchmarks/hipc2017_cpu_reimplementation.cpp:150-170 | for distinct loop-free absent edges S2 is even, S3 a multiple of 6, S2/2 at most S1, and S1 - S2/2 + S3/6 is the number of triangles created |
| `Triangles.CommonIsCard` | benchmarks/hipc2017_cpu_reimplementation.cpp:125-139 | the common-neighbour sum is the size of the set of common neighbours |
| `Hipc.MakeUpdates` | benchmarks/hipc2017_cpu_reimplementation.cpp:63-87 | the drawn edges that are missing, loop-free and not repeated in either orientation, in order, as many as requested; it gives up exactly when there are fewer of them among 200 draws for every edge requested, at least 10000 |
| `Hipc.BuildAdjacency` | benchmarks/hipc2017_cpu_reimplementation.cpp:89-100 | strictly increasing rows of both orientations of the edges |
| `Hipc.BuildUpdateAdjacency` | benchmarks/hipc2017_cpu_reimplementation.cpp:102-111 | refused as insertions only, exactly when the batch deletes; otherwise strictly increasing rows although duplicates are not dropped |
| `Hipc.ApplyBatchToAdjacency` | benchmarks/hipc2017_cpu_reimplementation.cpp:118-123 | the rows afterwards are those of base plus batch |
| `Hipc.SumPhases` | benchmarks/hipc2017_cpu_reimplementation.cpp:156-165 | the three accumulators hold, modulo 2^64, the common-neighbour sums of the batch, post with post, post with update, update with update |
| `Hipc.InsertDelta` | benchmarks/hipc2017_cpu_reimplementation.cpp:150-170 | in 64-bit arithmetic: the sums reported are the three sums modulo 2^64; the accounting check fails, with its own error, if and only if the third sum does not wrap in threes; otherwise the report is the triangles created plus half a word for an odd number of wraps, modulo 2^64 |
| `Hipc.ReportIsExact` | benchmarks/hipc2017_cpu_reimplementation.cpp:150-170 | the report is the number of triangles created if and only if the third sum wraps in threes, the wraps come to an even number, and the answer fits 64 bits |
| `Hipc.SmallBatchDoesNotWrap` | benchmarks/hipc2017_cpu_reimplementation.cpp:156-165 | with 2kn below 2^64 no sum wraps and the answer fits |
| `HipcWraps.CompleteSum` | benchmarks/hipc2017_cpu_reimplementation.cpp:156-165 | the third sum over a complete graph inserted at once counts its ordered triples |
| `HipcWraps.SoundInsertionsRefused` | benchmarks/hipc2017_cpu_reimplementation.cpp:166-168 | on such a batch the accounting check fails unless the wraps come in threes, although nothing is wrong with it; three million vertices are enough |
| `HipcWraps.WrongReport` | benchmarks/hipc2017_cpu_reimplementation.cpp:169 | two cliques of m vertices joined at once: no check fires, and the report is wrong when the second sum wraps an odd number of times and the answer fits; 2.2 million vertices each are enough |
| `Hipc.CountInsertions` | benchmarks/hipc2017_cpu_reimplementation.cpp:234-244 | refused exactly for a deletion when 2kn stays below 2^64 for k insertions on n vertices, and then base count plus report is the count of the updated graph; in general the report is as accounted |
| `SortedRows.InsertSorted` | benchmarks/hipc2017_cpu_reimplementation.cpp:113-116 | the list stays strictly increasing and gains exactly the value |
| `SortedRows.IntersectionCount` | benchmarks/hipc2017_cpu_reimplementation.cpp:125-139 | merging two increasing lists counts exactly their common values |
| `StaticTriangles.SkippingMerge` | src/algorithms.cpp:109-117 | the merge that skips up to v counts exactly the common neighbours above v |
| `StaticTriangles.PlainMerge` | benchmarks/exactness_stress.cpp:49-56 | the plain merge with a test counts the same common neighbours above v |
| `StaticTriangles.CountTriangles` | src/algorithms.cpp:102-122 | an error exactly for directed graphs; otherwise each unordered triangle is counted once |
| `StaticTriangles.ReferenceTriangles` | benchmarks/exactness_stress.cpp:42-60 | the unskipped form returns the same count on every graph with sorted rows |
| `StaticTriangles.CommonNeighborCount` | src/algorithms.cpp:83-94 | an error exactly for a vertex outside the graph; otherwise the size of the intersection of two neighbourhoods |
| `StaticTriangles.JaccardSimilarity` | src/algorithms.cpp:96-100 | an error exactly for a vertex outside the graph; otherwise a share that times the size of the union is the size of the intersection, 0 for an empty union; the unsigned union size never wraps |
| `IncrementalTriangles.EdgeCreatesCommon` | include/velographx/incremental/triangles.hpp:26-38 | adding an absent edge creates one triangle per common neighbour |
| `IncrementalTriangles.OperationEffect` | include/velographx/incremental/triangles.hpp:26-38 | how each kind of operation changes the triangle count, including no-ops |
| `IncrementalTriangles.IncrementalTriangleCount.CommonNeighbors` | include/velographx/incremental/triangles.hpp:58-67 | scanning the smaller row and probing the other counts the common neighbours |
| `IncrementalTriangles.IncrementalTriangleCount.Recompute` | include/velographx/incremental/triangles.hpp:40-48 | a third of the common-neighbour sum over edges is the triangle count |
| `IncrementalTriangles.IncrementalTriangleCount.Apply` | include/velographx/incremental/triangles.hpp:84-96 | after every batch the maintained count is the triangle count, and the clamp at 0 never takes effect; the graph is maintained once at the end |
| `Components.WalkReverse` | src/algorithms.cpp:30-33 | walks of an undirected graph can be reversed |
| `Components.LabelNeighbour` | src/algorithms.cpp:45-48 | labelling an unlabelled neighbour keeps every completed component closed |
| `Components.LabelFrom` | src/algorithms.cpp:39-51 | one search labels exactly the component of its start, whose least vertex the start is |
| `Components.WholeGraphIsLabelled` | src/algorithms.cpp:35-53 | the final labels are equal exactly for connected vertices |
| `Components.ConnectedComponents` | src/algorithms.cpp:29-54 | an error exactly for directed graphs; otherwise equal labels mean connected, and labels are 0..k-1 in order of the components' least vertices |
| `PageRank.StepKeepsDistribution` | src/algorithms.cpp:64-74 | an iteration keeps all ranks nonnegative with sum 1, dangling mass included |
| `PageRank.IterateIsDistribution` | src/algorithms.cpp:61-79 | every iterate is a probability distribution |
| `PageRank.StepContracts` | src/algorithms.cpp:64-74 | an iteration shrinks the L1 distance of any two vectors by at least the damping factor |
| `PageRank.DistanceMeaning` | src/algorithms.cpp:75-76 | the distance of two vectors is what the greater entries add up to beyond the lesser ones |
| `PageRank.ChangeDecays` | src/algorithms.cpp:75-76 | the change made by iteration k + 1 is at most 2 * damping^k |
| `PageRank.ApproachesStationary` | src/algorithms.cpp:63-79 | the k-th iterate is within 2 * damping^k of every stationary distribution |
| `PageRank.StoppingIsAccurate` | src/algorithms.cpp:75-78 | stopping on a change below the tolerance leaves at most damping * tolerance / (1 - damping) to a stationary vector |
| `PageRank.StopsInTime` | src/algorithms.cpp:64-78 | the number of iterations is at most one more than any j for which 2 * damping^j is below the tolerance |
| `PageRank.StepIsPageRankEquation` | src/algorithms.cpp:67-74 | an iteration solves the PageRank equation at every vertex: an even part of what is not damped and of what dangling vertices hold, plus the damped ranks of the vertices that link here, each divided by its number of neighbours |
| `PageRank.RegularStaysEven` | src/algorithms.cpp:62-79 | on a graph in which all vertices have equally many neighbours in both directions all ranks stay 1/n |
| `PageRank.NextRanks` | src/algorithms.cpp:64-74 | the two loops compute one iteration |
| `PageRank.Pagerank` | src/algorithms.cpp:56-81 | an error exactly for damping outside [0, 1]; otherwise the ranks start even, every iteration solves the PageRank equation for the one before, and the result, a distribution, is that of the first change below the tolerance or of the last allowed iteration; without iterations every rank is 1/n, and so it is after any number of them when all vertices have equally many neighbours in both directions |
| `WeightedPaths.CappedDistanceMeaning` | include/velographx/incremental/dijkstra.hpp:14 | the capped distance is never above a path weight, and is one unless it is the cap |
| `WeightedPaths.CertificateIsExact` | include/velographx/incremental/dijkstra.hpp:16-35 | labels backed by paths and relaxed along every arc are the capped distances |
| `Dijkstra.RelaxTargets` | include/velographx/incremental/dijkstra.hpp:26-33 | relaxing a popped vertex never overflows and lowers the label sum or changes nothing |
| `Dijkstra.Propagate` | include/velographx/incremental/dijkstra.hpp:16-35 | despite stale entries the queue drains, by the pair (label sum, queue size), and every arc is relaxed |
| `Dijkstra.SerialDijkstra` | benchmarks/native_baseline_benchmark.cpp:77-99 | for every vertex the smaller of the cap and the least path weight from the source |
| `MinHeaps.PopMin` | benchmarks/native_baseline_benchmark.cpp:88-89 | the popped item is a least one and one copy of it leaves the queue |
| `IncrementalSssp.ApplyKeepsWeighted` | include/velographx/storage/weighted_dynamic_graph.hpp:60-81 | batches keep a weighted graph simple, symmetric when undirected, with finite weights |
| `IncrementalSssp.LastWeightWins` | include/velographx/incremental/weighted_sssp.hpp:78-94 | presence and weight of an edge after a batch are those of the last operation on its key |
| `IncrementalSssp.Canonicalize` | include/velographx/incremental/weighted_sssp.hpp:78-94 | the canonical batch holds the last operation of every key, with endpoints in key order, and nothing else |
| `IncrementalSssp.QuietBatchImproves` | include/velographx/incremental/weighted_sssp.hpp:43-57 | without a recompute trigger no arc disappears or grows heavier, and only touched arcs change |
| `IncrementalSssp.WeightedDynamicGraph.Apply` | include/velographx/storage/weighted_dynamic_graph.hpp:60-81 | a batch with an unrepresentable weight changes nothing; any other is applied in order |
| `IncrementalSssp.RelaxFromUpdates` | include/velographx/incremental/weighted_sssp.hpp:96-129 | relaxing the touched arcs and propagating settles every arc |
| `IncrementalSssp.IncrementalWeightedSssp.Recompute` | include/velographx/incremental/weighted_sssp.hpp:64-70 | the labels are the capped distances of the current graph |
| `IncrementalSssp.IncrementalWeightedSssp.RequiresRecompute` | include/velographx/incremental/weighted_sssp.hpp:43-57 | a recompute is asked for exactly when a final operation removes a present edge or raises its weight |
| `IncrementalSssp.IncrementalWeightedSssp.Apply` | include/velographx/incremental/weighted_sssp.hpp:30-62 | refused, changing nothing, exactly for an unrepresentable weight; otherwise exact if and only if the source was already a vertex, still is not, or a recompute was triggered |
| `IncrementalSssp.Verdict` | include/velographx/incremental/weighted_sssp.hpp:97 | relaxed labels are exact if and only if the batch did not itself make room for the source |
| `IncrementalSssp.LateSource` | include/velographx/incremental/weighted_sssp.hpp:97 | a concrete input where the labels are not exact |
| `LegacyStorage.RowArcsSize` | benchmarks/storage_ab_benchmark.cpp:169-173 | the number of edges is the sum of the logical row sizes |
| `LegacyStorage.SameArcsUnlessLoops` | benchmarks/storage_ab_benchmark.cpp:142-147 | the older and the newer engine hold the same arcs after a batch if and only if the last operation on no self-loop is an addition |
| `LegacyStorage.LoopIsKept` | benchmarks/storage_ab_benchmark.cpp:176-184 | the older engine holds a self-loop after a batch exactly when the last operation on it is an addition |
| `LegacyStorage.LoopTellsApart` | benchmarks/storage_ab_benchmark.cpp:176-184 | a batch of one self-loop tells the two engines apart |
| `LegacyStorage.LegacyDynamicGraph.constructor` | benchmarks/storage_ab_benchmark.cpp:106-107 | an empty compacted graph |
| `LegacyStorage.LegacyDynamicGraph.EnsureVertex` | benchmarks/storage_ab_benchmark.cpp:111-118 | making room changes no edge |
| `LegacyStorage.LegacyDynamicGraph.BulkLoadEdges` | benchmarks/storage_ab_benchmark.cpp:120-140 | the contents become the given edges without self-loops and duplicates, with empty overlays |
| `LegacyStorage.LegacyDynamicGraph.ApplyOne` | benchmarks/storage_ab_benchmark.cpp:176-184 | one edge is set or cleared, additions stay disjoint from the base and deletions inside it |
| `LegacyStorage.LegacyDynamicGraph.Apply` | benchmarks/storage_ab_benchmark.cpp:142-147 | over any sequence of operations base and overlays represent the edge set the operations define |
| `LegacyStorage.LegacyDynamicGraph.Neighbors` | benchmarks/storage_ab_benchmark.cpp:149-158 | the logical row, strictly increasing, empty outside the graph |
| `LegacyStorage.LegacyDynamicGraph.Compact` | benchmarks/storage_ab_benchmark.cpp:160-167 | no edge changes and both overlays are empty |
| `LegacyStorage.LegacyDynamicGraph.EdgeCount` | benchmarks/storage_ab_benchmark.cpp:169-173 | off by pending additions less pending deletions, so exact if and only if these balance, in particular after compaction |
| `LegacyStorage.PendingAdditionIsMissed` | benchmarks/storage_ab_benchmark.cpp:169-173 | a concrete graph whose count is wrong before compaction |
| `Mutation.OneOperation` | include/velographx/storage/dynamic_graph.hpp:717-724 | an effective operation on an edge changes the arc count by one edge |
| `Mutation.ReplacementKeepsCount` | benchmarks/steady_state_storage.cpp:217 | a round leaves the graph simple with as many vertices and arcs as before |
| `Mutation.ReplaceOne` | benchmarks/steady_state_storage.cpp:115-120 | a pair on two edges that no earlier pair has touched keeps all keys of the round distinct, normalised when undirected |
| `Mutation.MakeMutationRound` | benchmarks/steady_state_storage.cpp:93-123 | as many additions as removals, removing present and adding absent non-loop edges, pairwise distinct keys; and turn by turn: every sampled row gives up the picked neighbour for the first free candidate, unless it is empty, the edge is reserved, or all 64 candidates are blocked |
| `Mutation.FindTarget` | benchmarks/steady_state_storage.cpp:105-113 | the first of 64 candidates, 7919 apart, that is not the vertex itself, a neighbour or reserved, or none if all are blocked |
| `Mutation.ListEdges` | include/velographx/storage/consolidation.hpp:133-155 | the listed edges are those of the graph, read from the compact rows when nothing is pending |
| `Mutation.Consolidate` | include/velographx/storage/consolidation.hpp:132-162 | the rebuilt graph has the same vertices and edges, nothing pending on either side and both sides aligned |
| `Mutation.RunRound` | benchmarks/steady_state_storage.cpp:173-210 | a round leaves the graph with its operations applied and the edge count as it was, nothing pending on either side, and the consolidation gate closed; it is rebuilt exactly when asked |
| `Mutation.RunCampaign` | benchmarks/steady_state_storage.cpp:172-217 | each round is applied to what the one before has left; after any number of rounds, compacted each and rebuilt where the controller says so, the edge count is the initial one, so neither check fires |
| `Sampling.KeepSmallest` | tools/prepare_hosted_graph_dataset.py:33-41 | the heap stays a choice of the smallest-key offered edges, counted with repetition; self-loops are passed over |
| `Sampling.SmallestIsUnique` | tools/prepare_hosted_graph_dataset.py:29-41 | with an injective key there is only one such choice |
| `Sampling.SampleReal` | tools/prepare_hosted_graph_dataset.py:44-63 | the error of the first malformed line, with its number when a column is missing; an error when no row has two different endpoints; otherwise the edges of that choice and the number of rows read, a row for every data line, its first column followed by its second |
| `Sampling.OrderDoesNotMatter` | tools/prepare_hosted_graph_dataset.py:44-63 | reordering the rows of a file changes nothing |
| `Sampling.PositionsAreMonotone` | tools/prepare_hosted_graph_dataset.py:101-102 | the renumbering preserves order and is one to one |
| `Sampling.Remap` | tools/prepare_hosted_graph_dataset.py:100-103 | the sorted output is exactly the edges with endpoints replaced by positions among the sorted vertices |
| `WorkClaim.ClaimStep` | benchmarks/thread_scaling_workloads.cpp:62-63 | claiming an index keeps every index handed out once and uses one step of the measure |
| `WorkClaim.StoreStep` | benchmarks/thread_scaling_workloads.cpp:64 | storing a digest fills a slot nobody else holds or filled |
| `WorkClaim.LeaveStep` | benchmarks/thread_scaling_workloads.cpp:63 | a worker that draws an index past the end leaves, and the counter does not wrap |
| `WorkClaim.EveryInterleaving` | benchmarks/thread_scaling_workloads.cpp:59-67 | under every schedule each index is claimed and stored at most once, and every step uses up one of 2 * tasks + threads |
| `WorkClaim.AllStored` | benchmarks/thread_scaling_workloads.cpp:68 | once no worker can move, every slot was stored exactly once with its task's digest |
| `WorkClaim.ThreadCountDoesNotShow` | benchmarks/thread_scaling_workloads.cpp:77-86 | any two completed runs hold the same digests, whatever their worker counts and schedules |
| `WorkClaim.RunParallel` | benchmarks/thread_scaling_workloads.cpp:54-74 | any positive number of workers finishes after exactly 2 * tasks + threads steps with the digest of the sequential fold |
| `WorkClaim.DigestShows` | benchmarks/thread_scaling_workloads.cpp:70-72 | every digest can be read off the combined results with it and without it |
| `WorkClaim.LastDigestShows` | benchmarks/thread_scaling_workloads.cpp:70-72 | runs that differ in the last digest only have different results |

## Left out

- Arena layout, repacking, segments, version counters and byte counts of the dynamic graph, and the visitor form of its row reads, which visits what `neighbors` returns.
- `scanned_edges` telemetry of the cascade preview, timestamps on updates, reserved capacities, and the JSON, CSV and timing code around the benchmarks.
- `IncrementalBfs.IncrementalBfs.Apply`: over in-rows that are not right for the batch, what the labels become is described only next to the source, and otherwise by this: labels of unlisted vertices do not rise.
- `PreflightRuns.Run`: a commit that is not covered is not characterised source by source; a new arc into a vertex that is repaired anyway does no harm.
- `IncrementalTriangles.IncrementalTriangleCount.Apply`: the constructor that trusts a caller's initial count is not modelled.
- `PageRank.Pagerank`: rounding of `double`, and a damping or tolerance that is not a number, are not modelled.
- `Selector.RunAdaptive`: clocks and trace records are not modelled.
- `Mutation.RunRound`: the latency probes and digests beside the edge counts of the consolidation gate, and the controller that decides when to rebuild, are not modelled; a rebuild may come after any round.
- `Sampling.SampleReal`: the splitting of a line at white space is taken as given.
- `WorkClaim.RunParallel`: steps are atomic and in one total order, which is what the relaxed `fetch_add` and the disjoint slots need; other effects of the memory model are not modelled.
- Core numbers (`kcore.hpp`) and the incremental union-find (`connected_components.hpp`); of connectivity only the static labelling is modelled.
- The R-MAT generator, root choice and the shallow-deletion signal of the first selector.
- Codecs, SIMD and adaptive intersection kernels, Python bindings, file readers, external engines, and the evidence and plan validators.
