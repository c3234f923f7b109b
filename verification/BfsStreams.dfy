/** Maintained distances over whole streams of batches, and the inputs on which they go wrong. */
module BfsStreams {
  import opened Collections
  import opened Distances
  import opened DynamicGraphs
  import opened TwoSided
  import opened RowStores
  import opened GraphStorage
  import opened StorageRuns
  import opened Cascade
  import opened BfsBatches
  import opened IncrementalBfs

  function ApplyBatches(g: Graph, batches: seq<seq<EdgeUpdate>>): Graph
  {
    if batches == [] then g else ApplyAll(ApplyBatches(g, batches[..|batches| - 1]), batches[|batches| - 1])
  }

  function Total(batches: seq<seq<EdgeUpdate>>): nat
  {
    if batches == [] then 0 else Total(batches[..|batches| - 1]) + |batches[|batches| - 1]|
  }

  lemma {:induction false} TotalGrows(batches: seq<seq<EdgeUpdate>>, i: nat)
    requires i <= |batches|
    ensures Total(batches[..i]) <= Total(batches)
    decreases |batches| - i
  {
    if i < |batches| {
      assert batches[..i + 1][..i] == batches[..i];
      TotalGrows(batches, i + 1);
    } else {
      assert batches[..i] == batches;
    }
  }

  // ---------- Streams ----------

  /** What the two sides held before every batch of a stream. */
  ghost predicate Recorded(states: seq<Rows>, g: Graph, batches: seq<seq<EdgeUpdate>>)
  {
    |states| == |batches| &&
    (batches != [] ==>
      var n := |batches| - 1;
      && Recorded(states[..n], g, batches[..n]) && states[n].arcs == ApplyBatches(g, batches[..n]).arcs
      && (n > 0 ==> states[n].inArcs == ApplyOps(states[n - 1], g.directed, batches[n - 1]).inArcs))
  }

  /** Before every batch the in-rows that it is repaired with were right. */
  ghost predicate AlwaysSuffices(states: seq<Rows>, g: Graph, s: nat, batches: seq<seq<EdgeUpdate>>)
    requires |states| == |batches|
  {
    batches != [] ==>
      var n := |batches| - 1;
      AlwaysSuffices(states[..n], g, s, batches[..n]) &&
      Suffices(ApplyBatches(g, batches[..n]), states[n], s, batches[n])
  }

  /** The labels are exact at the end: they were at the start, or the plan recomputed them, and since then the in-rows
      that every batch was repaired with were right. */
  ghost predicate EndsExact(states: seq<Rows>, g: Graph, s: nat, batches: seq<seq<EdgeUpdate>>, plan: seq<bool>,
                            start: bool)
    requires |states| == |batches| == |plan|
  {
    if batches == [] then start
    else
      var n := |batches| - 1;
      plan[n] ||
      (EndsExact(states[..n], g, s, batches[..n], plan[..n], start) &&
       Suffices(ApplyBatches(g, batches[..n]), states[n], s, batches[n]))
  }

  lemma {:induction false} SufficesEndsExact(states: seq<Rows>, g: Graph, s: nat, batches: seq<seq<EdgeUpdate>>,
                                             plan: seq<bool>)
    requires |states| == |batches| == |plan| && AlwaysSuffices(states, g, s, batches)
    ensures EndsExact(states, g, s, batches, plan, true)
  {
    if batches != [] {
      var n := |batches| - 1;
      SufficesEndsExact(states[..n], g, s, batches[..n], plan[..n]);
    }
  }

  lemma RecordNext(states: seq<Rows>, g: Graph, s: nat, batches: seq<seq<EdgeUpdate>>, i: nat, state: Rows)
    requires i < |batches| && Recorded(states, g, batches[..i]) && state.arcs == ApplyBatches(g, batches[..i]).arcs
    requires i > 0 ==> state.inArcs == ApplyOps(states[i - 1], g.directed, batches[i - 1]).inArcs
    ensures Recorded(states + [state], g, batches[..i + 1])
    ensures AlwaysSuffices(states + [state], g, s, batches[..i + 1]) <==>
              AlwaysSuffices(states, g, s, batches[..i])
                && Suffices(ApplyBatches(g, batches[..i]), state, s, batches[i])
    ensures ApplyBatches(g, batches[..i + 1]) == ApplyAll(ApplyBatches(g, batches[..i]), batches[i])
    ensures Total(batches[..i + 1]) == Total(batches[..i]) + |batches[i]| <= Total(batches)
  {
    assert batches[..i + 1][..i] == batches[..i] && (states + [state])[..i] == states;
    assert i > 0 ==> (states + [state])[i - 1] == states[i - 1];
    TotalGrows(batches, i + 1);
  }

  lemma PlanNext(states: seq<Rows>, g: Graph, s: nat, batches: seq<seq<EdgeUpdate>>, i: nat, state: Rows,
                 plan: seq<bool>, start: bool)
    requires i < |batches| == |plan| && |states| == i
    ensures EndsExact(states + [state], g, s, batches[..i + 1], plan[..i + 1], start) <==>
              plan[i] ||
              (EndsExact(states, g, s, batches[..i], plan[..i], start) &&
               Suffices(ApplyBatches(g, batches[..i]), state, s, batches[i]))
  {
    assert batches[..i + 1][..i] == batches[..i] && plan[..i + 1][..i] == plan[..i];
    assert (states + [state])[..i] == states;
  }

  /** Aligned sides, and no automatic compaction for this many operations. */
  ghost predicate Calm(graph: DynamicGraph, operations: nat)
    reads graph
  {
    graph.Aligned() && graph.RoomFor(operations)
  }

  lemma CalmAfter(graph: DynamicGraph, before: Rows, outgoing0: Side, ops: seq<EdgeUpdate>, more: nat)
    requires graph.TookBatch(before, outgoing0, ops) && before.Transposed() && before.SidesAgree()
    requires Roomy(outgoing0.Size() + 2 * (|ops| + more), outgoing0.compactEdges)
    ensures Calm(graph, more)
  {
  }

  /** What a batch meets: the graph, what its two sides hold, the labels, and whether they are exact over a clean
      workspace. */
  datatype Moment = Moment(graph: Graph, sides: Rows, dist: seq<nat>, ready: bool)

  ghost function MomentOf(bfs: IncrementalBfs): Moment
    reads bfs, bfs.graph, bfs.seenFinalUpdates, bfs.finalDeletionKeys
  {
    Moment(bfs.graph.Value(), bfs.graph.Sides(), bfs.dist, bfs.Ready())
  }

  /** A repair from there falls back exactly when the batch pushes too many vertices away, and otherwise reports how
      many it pushes away. */
  ghost predicate Reported(m: Moment, ops: seq<EdgeUpdate>, s: nat, fraction: real, fallback: bool, affected: nat)
  {
    && (ops == [] ==> !fallback && affected == 0)
    && (ops != [] && m.ready && (Hurts(RemovedArcs(m.graph, ops), m.dist) ==> m.sides.Transposed()) ==>
         Assessed(m.graph, ops, s, fraction, fallback, affected))
  }

  /** Take a batch and repair the labels. */
  method Maintain(bfs: IncrementalBfs, ops: seq<EdgeUpdate>) returns (fallback: bool)
    requires bfs.Sane() && 0.0 <= bfs.deletionFallbackFraction && InRange(ops)
    modifies bfs, bfs.graph, bfs.seenFinalUpdates, bfs.finalDeletionKeys
    ensures bfs.Sane() && bfs.graph.Value() == ApplyAll(old(bfs.graph.Value()), ops)
    ensures bfs.graph.TookBatch(old(bfs.graph.Sides()), old(bfs.graph.outgoing), ops)
    ensures old(bfs.Clean()) ==> bfs.Clean()
    ensures old(bfs.Ready()) && old(Suffices(bfs.graph.Value(), bfs.graph.Sides(), bfs.source, ops)) &&
            bfs.source < old(bfs.graph.vertexCount) ==>
      bfs.Ready()
    ensures Reported(old(MomentOf(bfs)), ops, bfs.source, bfs.deletionFallbackFraction, fallback,
                     bfs.lastAffectedVertices)
  {
    if bfs.Ready() {
      HurtsIsAt(bfs.graph.Value(), bfs.source, ops, bfs.dist);
    }
    bfs.Apply(ops);
    fallback := bfs.lastUsedFullRecompute;
  }

  /** Carry out the chosen plan on one batch, and report whether a repair fell back to a recompute. */
  method Execute(bfs: IncrementalBfs, ops: seq<EdgeUpdate>, full: bool, ghost more: nat) returns (fallback: bool)
    requires bfs.Sane() && 0.0 <= bfs.deletionFallbackFraction && InRange(ops)
    modifies bfs, bfs.graph, bfs.seenFinalUpdates, bfs.finalDeletionKeys
    ensures bfs.Sane() && bfs.graph.Value() == ApplyAll(old(bfs.graph.Value()), ops)
    ensures bfs.graph.vertexCount >= old(bfs.graph.vertexCount)
    ensures bfs.graph.inArcs == ApplyOps(old(bfs.graph.Sides()), bfs.graph.directed, ops).inArcs
    ensures old(bfs.Clean()) ==> bfs.Clean()
    ensures old(bfs.Ready()) && old(Suffices(bfs.graph.Value(), bfs.graph.Sides(), bfs.source, ops)) &&
            bfs.source < old(bfs.graph.vertexCount) ==>
      bfs.Ready()
    ensures old(Calm(bfs.graph, |ops| + more)) ==> Calm(bfs.graph, more)
    ensures full ==> !fallback && bfs.Valid()
    ensures !full ==> Reported(old(MomentOf(bfs)), ops, bfs.source, bfs.deletionFallbackFraction, fallback,
                               bfs.lastAffectedVertices)
  {
    ApplyKeepsSimple(bfs.graph.Value(), ops);
    ghost var before, outgoing0 := bfs.graph.Sides(), bfs.graph.outgoing;
    ghost var calm := Calm(bfs.graph, |ops| + more);
    if full {
      bfs.Rebuild(ops);
      fallback := false;
    } else {
      fallback := Maintain(bfs, ops);
    }
    if calm {
      CalmAfter(bfs.graph, before, outgoing0, ops, more);
    }
  }

  lemma CalmStays(graph: DynamicGraph, ops: seq<EdgeUpdate>, more: nat)
    requires Calm(graph, more)
    ensures graph.StaysTransposed(ops)
  {
    AgreeingSidesStay(graph.Sides(), graph.directed, ops);
  }

  /** The history of a stream after its first i batches. */
  ghost predicate History(graph: DynamicGraph, g: Graph, start: Rows, batches: seq<seq<EdgeUpdate>>, i: nat,
                          states: seq<Rows>)
    requires i <= |batches|
    reads graph
  {
    && graph.directed == g.directed && graph.Value() == ApplyBatches(g, batches[..i])
    && Recorded(states, g, batches[..i])
    && (if i == 0 then graph.Sides() == start else states[0] == start)
    && (i > 0 ==> graph.inArcs == ApplyOps(states[i - 1], g.directed, batches[i - 1]).inArcs)
  }

  /** How many operations are left of a stream. */
  function Left(batches: seq<seq<EdgeUpdate>>, i: nat): int
    requires i <= |batches|
  {
    Total(batches) - Total(batches[..i])
  }

  /** While calm, every batch keeps the in-rows right. */
  ghost predicate CalmSoFar(graph: DynamicGraph, g: Graph, s: nat, batches: seq<seq<EdgeUpdate>>, i: nat,
                            states: seq<Rows>)
    requires i <= |batches| && |states| == i
    reads graph
  {
    AlwaysSuffices(states, g, s, batches[..i]) && Left(batches, i) >= 0 && Calm(graph, Left(batches, i))
  }

  /** One more batch of a stream. */
  method Advance(bfs: IncrementalBfs, ghost g: Graph, ghost start: Rows, batches: seq<seq<EdgeUpdate>>, i: nat,
                 full: bool, ghost states0: seq<Rows>)
    returns (fallback: bool, ghost states: seq<Rows>)
    requires i < |batches| && InRange(batches[i]) && bfs.Sane() && 0.0 <= bfs.deletionFallbackFraction
    requires History(bfs.graph, g, start, batches, i, states0)
    modifies bfs, bfs.graph, bfs.seenFinalUpdates, bfs.finalDeletionKeys
    ensures bfs.Sane() && History(bfs.graph, g, start, batches, i + 1, states)
    ensures bfs.graph.vertexCount >= old(bfs.graph.vertexCount)
    ensures |states| == i + 1 && states[..i] == states0 && states[i] == old(bfs.graph.Sides())
    ensures AlwaysSuffices(states, g, bfs.source, batches[..i + 1]) <==>
              AlwaysSuffices(states0, g, bfs.source, batches[..i])
                && Suffices(ApplyBatches(g, batches[..i]), states[i], bfs.source, batches[i])
    ensures old(bfs.Clean()) ==> bfs.Clean()
    ensures full ==> bfs.Valid()
    ensures old(bfs.Ready()) && Suffices(ApplyBatches(g, batches[..i]), states[i], bfs.source, batches[i]) &&
            bfs.source < old(bfs.graph.vertexCount) ==>
      bfs.Ready()
    ensures full ==> !fallback
    ensures !full ==> Reported(old(MomentOf(bfs)), batches[i], bfs.source, bfs.deletionFallbackFraction, fallback,
                               bfs.lastAffectedVertices)
    ensures old(CalmSoFar(bfs.graph, g, bfs.source, batches, i, states0)) ==>
      CalmSoFar(bfs.graph, g, bfs.source, batches, i + 1, states)
  {
    ghost var state := bfs.graph.Sides();
    RecordNext(states0, g, bfs.source, batches, i, state);
    if CalmSoFar(bfs.graph, g, bfs.source, batches, i, states0) {
      CalmStays(bfs.graph, batches[i], Left(batches, i));
      TransposedSuffices(bfs.graph.Value(), state, bfs.source, batches[i]);
    }
    fallback := Execute(bfs, batches[i], full, Left(batches, i + 1));
    states := states0 + [state];
  }

  /** Where a stream started: the graph, and whether the workspace was clean and the source inside, the labels exact,
      and the overlay small. */
  datatype Play = Play(graph: Graph, start: Rows, inside: bool, valid: bool, calm: bool)

  ghost predicate Playing(p: Play, bfs: IncrementalBfs, batches: seq<seq<EdgeUpdate>>, plan: seq<bool>, i: nat,
                          states: seq<Rows>)
    requires i <= |batches| == |plan|
    reads bfs, bfs.graph, bfs.seenFinalUpdates, bfs.finalDeletionKeys
  {
    && bfs.Sane() && History(bfs.graph, p.graph, p.start, batches, i, states)
    && (p.inside ==> bfs.Clean() && bfs.source < bfs.graph.vertexCount)
    && (p.inside && EndsExact(states, p.graph, bfs.source, batches[..i], plan[..i], p.valid) ==> bfs.Ready())
    && (p.calm ==> CalmSoFar(bfs.graph, p.graph, bfs.source, batches, i, states))
  }

  method PlayNext(ghost p: Play, bfs: IncrementalBfs, batches: seq<seq<EdgeUpdate>>, plan: seq<bool>, i: nat,
                  ghost states0: seq<Rows>)
    returns (ghost states: seq<Rows>)
    requires i < |batches| == |plan| && InRange(batches[i]) && 0.0 <= bfs.deletionFallbackFraction
    requires Playing(p, bfs, batches, plan, i, states0)
    modifies bfs, bfs.graph, bfs.seenFinalUpdates, bfs.finalDeletionKeys
    ensures Playing(p, bfs, batches, plan, i + 1, states)
  {
    ghost var state := bfs.graph.Sides();
    PlanNext(states0, p.graph, bfs.source, batches, i, state, plan, p.valid);
    var fallback;
    fallback, states := Advance(bfs, p.graph, p.start, batches, i, plan[i], states0);
    assert states == states0 + [state];
  }

  lemma PlayEnds(p: Play, bfs: IncrementalBfs, batches: seq<seq<EdgeUpdate>>, plan: seq<bool>, states: seq<Rows>)
    requires |batches| == |plan| && Playing(p, bfs, batches, plan, |batches|, states)
    ensures bfs.Sane() && bfs.graph.Value() == ApplyBatches(p.graph, batches)
    ensures Recorded(states, p.graph, batches) && (batches != [] ==> states[0] == p.start)
    ensures p.inside && EndsExact(states, p.graph, bfs.source, batches, plan, p.valid) ==> bfs.Ready()
    ensures p.calm ==> AlwaysSuffices(states, p.graph, bfs.source, batches)
  {
    assert batches[..|batches|] == batches && plan[..|plan|] == plan;
  }

  /** Process a stream of batches, repairing or recomputing as the plan says. The labels end up being the distances of
      the final graph if they were exact at the start or the plan recomputed them, and since then the in-rows that
      every batch was repaired with were right; and they always are on sides that start aligned with an overlay too
      small to be compacted unasked. */
  method Replay(bfs: IncrementalBfs, batches: seq<seq<EdgeUpdate>>, chooseFull: seq<bool>)
    returns (ghost states: seq<Rows>)
    requires bfs.Sane() && 0.0 <= bfs.deletionFallbackFraction
    requires |chooseFull| == |batches| && forall ops | ops in batches :: InRange(ops)
    modifies bfs, bfs.graph, bfs.seenFinalUpdates, bfs.finalDeletionKeys
    ensures bfs.Sane() && bfs.graph.Value() == ApplyBatches(old(bfs.graph.Value()), batches)
    ensures Recorded(states, old(bfs.graph.Value()), batches) && (batches != [] ==> states[0] == old(bfs.graph.Sides()))
    ensures old(bfs.Clean()) && bfs.source < old(bfs.graph.vertexCount) ==>
      EndsExact(states, old(bfs.graph.Value()), bfs.source, batches, chooseFull, old(bfs.Valid())) ==> bfs.Ready()
    ensures old(Calm(bfs.graph, Total(batches))) ==>
      AlwaysSuffices(states, old(bfs.graph.Value()), bfs.source, batches)
  {
    ghost var p := Play(bfs.graph.Value(), bfs.graph.Sides(), bfs.Clean() && bfs.source < bfs.graph.vertexCount,
                        bfs.Valid(), Calm(bfs.graph, Total(batches)));
    states := [];
    var i := 0;
    while i < |batches|
      invariant 0 <= i <= |batches| && Playing(p, bfs, batches, chooseFull, i, states)
    {
      assert batches[i] in batches;
      states := PlayNext(p, bfs, batches, chooseFull, i, states);
      i := i + 1;
    }
    PlayEnds(p, bfs, batches, chooseFull, states);
  }

  // ---------- Where the labels go wrong ----------

  /** A source that only appears with the first batch is never labelled. */
  method LateSource(mix: nat -> nat) returns (bfs: IncrementalBfs)
    ensures bfs.Sane() && bfs.graph.Transposed() && bfs.graph.Value() == Graph(true, 3, {(2, 0)}) && bfs.source == 2
    ensures !bfs.Valid()
  {
    var graph := new DynamicGraph(1, true);
    bfs := new IncrementalBfs(graph, 2, 0.35, mix);
    var ops := [EdgeUpdate(2, 0, true)];
    assert ops[..0] == [];
    AgreeingSidesStay(graph.Sides(), true, ops);
    bfs.Apply(ops);
  }

  lemma LabelAtOne(arcs: set<Arc>, s: nat, v: nat)
    requires v != s && (s, v) in arcs
    ensures Dist(arcs, s, v) == 1
  {
    assert Walk(arcs, s, s, 0) && Walk(arcs, s, v, 1);
    DistIsLeast(arcs, s, v, 1);
  }

  lemma LabelAtTwo(arcs: set<Arc>, s: nat, u: nat, v: nat)
    requires v != s && (s, u) in arcs && (u, v) in arcs && (s, v) !in arcs
    ensures Dist(arcs, s, v) == 2
  {
    assert Walk(arcs, s, s, 0) && Walk(arcs, s, u, 1) && Walk(arcs, s, v, 2);
    DistIsLeast(arcs, s, v, 2);
  }

  lemma NoWayIn(arcs: set<Arc>, s: nat, v: nat)
    requires v != s && forall u: nat :: (u, v) !in arcs
    ensures Dist(arcs, s, v) == UNREACHABLE
  {
    forall k: nat
      ensures !Walk(arcs, s, v, k)
    {
    }
  }

  /** Two parents in the in-row, of which one is stale. */
  lemma TwoParents(arcs: set<Arc>, inArcs: set<Arc>, dist: seq<nat>)
    requires arcs == {(3, 1), (3, 2), (2, 0)} && inArcs == arcs + {(1, 0)}
    requires |dist| == 4 && Exact(arcs, 3, dist)
    ensures |ParentsOf(inArcs, dist, 0)| == 2 && dist[0] == 2
  {
    LabelAtOne(arcs, 3, 1);
    LabelAtOne(arcs, 3, 2);
    LabelAtTwo(arcs, 3, 2, 0);
    assert dist[1] == Dist(arcs, 3, 1) && dist[2] == Dist(arcs, 3, 2) && dist[0] == Dist(arcs, 3, 0);
    assert ParentsOf(inArcs, dist, 0) == {1, 2};
  }

  lemma LastWayInGone(g: Graph)
    requires g.directed && g.vertexCount == 4 && g.arcs == {(3, 1), (3, 2), (2, 0)}
    ensures var after := ApplyAll(g, [EdgeUpdate(2, 0, false)]);
      after.arcs == {(3, 1), (3, 2)} && after.vertexCount == g.vertexCount && Dist(after.arcs, 3, 0) == UNREACHABLE
  {
    var ops := [EdgeUpdate(2, 0, false)];
    assert ops[..0] == [];
    var after := ApplyAll(g, ops).arcs;
    assert ApplyAll(g, ops[..0]) == g && ApplyAll(g, ops) == ApplyOne(g, ops[0]);
    SamePairs(after, {(3, 1), (3, 2)});
    NoWayIn(after, 3, 0);
  }

  /** An engine over an in-row with two parents of 0, of which one is stale. */
  method StaleEngine(mix: nat -> nat) returns (bfs: IncrementalBfs)
    ensures fresh(bfs) && fresh(bfs.graph) && fresh(bfs.seenFinalUpdates) && fresh(bfs.finalDeletionKeys)
    ensures bfs.Sane() && bfs.graph.directed && bfs.graph.vertexCount == 4 && |bfs.dist| == 4 && bfs.dist[0] == 2
    ensures bfs.graph.arcs == {(3, 1), (3, 2), (2, 0)} && bfs.source == 3 && 0.0 <= bfs.deletionFallbackFraction
    ensures bfs.SparedBy((2, 0))
  {
    var graph := StaleInRow();
    bfs := new IncrementalBfs(graph, 3, 0.35, mix);
    TwoParents(graph.arcs, graph.inArcs, bfs.dist);
    assert bfs.Spared(0);
  }

  /** A stale in-row counts a parent that is gone: the vertex that loses its last arc is spared, and keeps its label
      although it cannot be reached any more. */
  method StaleLabel(mix: nat -> nat) returns (bfs: IncrementalBfs)
    ensures bfs.Sane() && bfs.graph.arcs == {(3, 1), (3, 2)} && bfs.source == 3
    ensures |bfs.dist| == 4 && bfs.dist[0] <= 2 && Dist(bfs.graph.arcs, 3, 0) == UNREACHABLE
  {
    bfs := StaleEngine(mix);
    LastWayInGone(bfs.graph.Value());
    bfs.Apply([EdgeUpdate(2, 0, false)]);
  }
}
