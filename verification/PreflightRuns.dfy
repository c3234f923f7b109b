/** Whole sequences of calls on the reusable preflight: which keep the labels exact, and how misuse loses them. */
module PreflightRuns {
  import opened Collections
  import opened Distances
  import opened DynamicGraphs
  import opened TwoSided
  import opened GraphStorage
  import opened BreadthFirst
  import opened Cascade
  import opened BfsBatches
  import opened IncrementalBfs
  import opened StorageRuns
  import opened BfsStreams
  import opened Preflight

  datatype Call =
    | Prepare(ops: seq<EdgeUpdate>, fraction: real)
    | Commit(ops: seq<EdgeUpdate>)
    | Discard
    | Plain(ops: seq<EdgeUpdate>)

  /** What a call meets: whether work is prepared and usable, for which batch, what the graph holds, and the labels. */
  datatype Phase =
    Phase(ready: bool, exceeded: bool, batch: seq<EdgeUpdate>, graph: Graph, sides: Rows, dist: seq<nat>)

  ghost function Now(p: PreflightBfs): Phase
    reads p, p.bfs, p.bfs.graph
  {
    Phase(p.ready, p.exceeded, p.batch, p.bfs.graph.Value(), p.bfs.graph.Sides(), p.bfs.dist)
  }

  /** No plain batch while work is prepared; what is committed is covered by what was prepared; and the in-rows that are
      read are right. */
  ghost predicate Proper(phase: Phase, call: Call, s: nat)
  {
    var g := phase.graph;
    match call
    case Prepare(ops, _) => Hurts(RemovedArcs(g, ops), phase.dist) ==> phase.sides.Transposed()
    case Discard => true
    case Plain(ops) => !phase.ready && Suffices(g, phase.sides, s, ops)
    case Commit(ops) =>
      phase.ready && !phase.exceeded ==>
        && Covers(g, phase.batch, ops)
        && RightInto(ApplyOps(phase.sides, g.directed, ops),
                     Growing(g.arcs, RemovedArcs(g, phase.batch), s, g.vertexCount))
  }

  /** How a call moves the phase. */
  ghost predicate Moves(before: Phase, call: Call, after: Phase)
  {
    match call
    case Prepare(ops, _) =>
      && after.ready == (ops != []) && (after.ready ==> after.batch == ops)
      && after.graph == before.graph && after.sides == before.sides && after.dist == before.dist
    case Discard =>
      !after.ready && after.graph == before.graph && after.sides == before.sides && after.dist == before.dist
    case Plain(ops) =>
      && after == before.(graph := after.graph, sides := after.sides, dist := after.dist)
      && after.graph == ApplyAll(before.graph, ops)
      && after.sides.inArcs == ApplyOps(before.sides, before.graph.directed, ops).inArcs
    case Commit(ops) =>
      if before.ready && !before.exceeded
      then !after.ready && after.graph == ApplyAll(before.graph, ops)
           && after.sides.inArcs == ApplyOps(before.sides, before.graph.directed, ops).inArcs
      else after == before
  }

  predicate Acceptable(call: Call)
  {
    match call
    case Prepare(ops, fraction) => InRange(ops) && 0.0 <= fraction
    case Discard => true
    case Plain(ops) => InRange(ops)
    case Commit(ops) => InRange(ops)
  }

  method Take(p: PreflightBfs, call: Call)
    requires p.bfs.Sane() && Acceptable(call) && 0.0 <= p.bfs.deletionFallbackFraction
    modifies p, p.bfs, p.bfs.graph, p.bfs.seenFinalUpdates, p.bfs.finalDeletionKeys
    ensures p.bfs.Sane() && Moves(old(Now(p)), call, Now(p))
    ensures p.bfs.graph.vertexCount >= old(p.bfs.graph.vertexCount)
    ensures old(p.Good()) && p.bfs.source < old(p.bfs.graph.vertexCount) && Proper(old(Now(p)), call, p.bfs.source) ==>
      p.Good()
  {
    match call
    case Prepare(ops, fraction) => var _ := p.PreflightDeletionCascade(ops, fraction);
    case Discard => p.DiscardDeletionPreflight();
    case Plain(ops) =>
      ApplyKeepsSimple(p.bfs.graph.Value(), ops);
      if p.Good() {
        HurtsIsAt(p.bfs.graph.Value(), p.bfs.source, ops, p.bfs.dist);
      }
      p.bfs.Apply(ops);
    case Commit(ops) =>
      ApplyKeepsSimple(p.bfs.graph.Value(), ops);
      var _ := p.ApplyPreflighted(ops);
  }

  ghost predicate AllProper(phases: seq<Phase>, calls: seq<Call>, s: nat)
    requires |phases| == |calls|
  {
    calls != [] ==>
      var n := |calls| - 1;
      AllProper(phases[..n], calls[..n], s) && Proper(phases[n], calls[n], s)
  }

  /** Every call moves its phase to the next, and the last one to the end. */
  ghost predicate Chained(phases: seq<Phase>, calls: seq<Call>, end: Phase)
    requires |phases| == |calls|
  {
    calls != [] ==>
      var n := |calls| - 1;
      Chained(phases[..n], calls[..n], phases[n]) && Moves(phases[n], calls[n], end)
  }

  /** A run so far: its phases, and that proper calls have kept the labels exact. */
  ghost predicate Running(p: PreflightBfs, calls: seq<Call>, i: nat, phases: seq<Phase>, start: Phase, good: bool)
    requires i <= |calls|
    reads p, p.bfs, p.bfs.graph, p.bfs.seenFinalUpdates, p.bfs.finalDeletionKeys
  {
    && i == |phases| && p.bfs.Sane() && Chained(phases, calls[..i], Now(p))
    && (if i == 0 then Now(p) == start else phases[0] == start)
    && (good && AllProper(phases, calls[..i], p.bfs.source) ==> p.Good() && p.bfs.source < p.bfs.graph.vertexCount)
  }

  method TakeNext(p: PreflightBfs, calls: seq<Call>, i: nat, ghost phases0: seq<Phase>, ghost start: Phase,
                  ghost good: bool)
    returns (ghost phases: seq<Phase>)
    requires i < |calls| && Running(p, calls, i, phases0, start, good)
    requires Acceptable(calls[i]) && 0.0 <= p.bfs.deletionFallbackFraction
    modifies p, p.bfs, p.bfs.graph, p.bfs.seenFinalUpdates, p.bfs.finalDeletionKeys
    ensures Running(p, calls, i + 1, phases, start, good)
  {
    ghost var phase := Now(p);
    Take(p, calls[i]);
    ChainNext(phases0, calls, i, phase, Now(p), p.bfs.source);
    phases := phases0 + [phase];
  }

  /** Any sequence of proper calls keeps the labels exact. */
  method Run(p: PreflightBfs, calls: seq<Call>) returns (ghost phases: seq<Phase>)
    requires p.bfs.Sane() && 0.0 <= p.bfs.deletionFallbackFraction && forall call | call in calls :: Acceptable(call)
    modifies p, p.bfs, p.bfs.graph, p.bfs.seenFinalUpdates, p.bfs.finalDeletionKeys
    ensures p.bfs.Sane() && |phases| == |calls| && Chained(phases, calls, Now(p))
    ensures calls != [] ==> phases[0] == old(Now(p))
    ensures old(p.Good()) && p.bfs.source < old(p.bfs.graph.vertexCount) && AllProper(phases, calls, p.bfs.source) ==>
      p.Good()
  {
    phases := [];
    ghost var start, good := Now(p), p.Good() && p.bfs.source < p.bfs.graph.vertexCount;
    var i := 0;
    while i < |calls|
      invariant 0 <= i <= |calls| && Running(p, calls, i, phases, start, good)
    {
      assert calls[i] in calls;
      phases := TakeNext(p, calls, i, phases, start, good);
      i := i + 1;
    }
    assert calls[..i] == calls;
  }

  lemma ChainNext(phases: seq<Phase>, calls: seq<Call>, i: nat, phase: Phase, end: Phase, s: nat)
    requires i < |calls| && |phases| == i && Chained(phases, calls[..i], phase) && Moves(phase, calls[i], end)
    ensures Chained(phases + [phase], calls[..i + 1], end)
    ensures AllProper(phases + [phase], calls[..i + 1], s) <==>
              AllProper(phases, calls[..i], s) && Proper(phase, calls[i], s)
  {
    assert calls[..i + 1][..i] == calls[..i] && (phases + [phase])[..i] == phases;
  }

  // ---------- Commits that are not covered ----------

  /** A preflight of a batch, with a limit no cascade can exceed. */
  method Ahead(p: PreflightBfs, ops: seq<EdgeUpdate>)
    requires p.Good() && !p.ready && p.bfs.Readable(ops) && InRange(ops) && ops != []
    modifies p, p.bfs, p.bfs.seenFinalUpdates, p.bfs.finalDeletionKeys
    ensures p.Good() && p.ready && !p.exceeded && p.batch == ops && p.bfs.dist == old(p.bfs.dist)
    ensures p.bfs.flags == Elements(p.bfs.affectedVertices)
    ensures p.bfs.flags ==
      Growing(p.bfs.graph.arcs, RemovedArcs(p.bfs.graph.Value(), ops), p.bfs.source, p.bfs.graph.vertexCount)
  {
    ghost var n := p.bfs.graph.vertexCount;
    BoundedSet(Growing(p.bfs.graph.arcs, RemovedArcs(p.bfs.graph.Value(), ops), p.bfs.source, n), n);
    var _ := p.PreflightDeletionCascade(ops, 1.0);
  }

  lemma AtMostOne(arcs: set<Arc>, s: nat, v: nat)
    requires v != s
    ensures Dist(arcs, s, v) <= 1 <==> (s, v) in arcs
  {
    if (s, v) in arcs {
      LabelAtOne(arcs, s, v);
    }
    if k: nat :| Walk(arcs, s, v, k) {
      DistIsLeast(arcs, s, v, k);
      assert Dist(arcs, s, v) == 1 ==> Walk(arcs, s, v, 1) && Walk(arcs, s, s, 0);
    }
  }

  /** An arc out of the source that is not removed holds up its target. */
  lemma KeptStays(arcs: set<Arc>, removed: set<Arc>, s: nat, v: nat, n: nat)
    requires (s, v) in arcs - removed && v != s
    ensures v !in Growing(arcs, removed, s, n)
  {
    LabelAtOne(arcs, s, v);
    LabelAtOne(arcs - removed, s, v);
  }

  /** The arc (u, v) is not covered, and the repair does not happen to mend it: v is not among the vertices pushed away,
      whose labels are found anew. */
  ghost predicate Exposed(g: Graph, prepared: seq<EdgeUpdate>, ops: seq<EdgeUpdate>, u: nat, v: nat)
  {
    && u != v && u < g.vertexCount && v < g.vertexCount && !CoversArc(g, prepared, ops, u, v)
    && (LastOp(prepared, g.directed, Key(g.directed, u, v)) == Some(true) || (u, v) in g.arcs ||
        v !in Growing(g.arcs, RemovedArcs(g, prepared), u, g.vertexCount))
  }

  /** The label of v after the commit, told from what is known next to the source. */
  lemma ExposedShows(g: Graph, prepared: seq<EdgeUpdate>, ops: seq<EdgeUpdate>, u: nat, v: nat, additions: seq<Arc>,
                     dist0: seq<nat>, dist: seq<nat>, affected: set<nat>)
    requires Simple(g) && Exposed(g, prepared, ops, u, v) && ListsFinal(additions, prepared, g.directed, true)
    requires |dist0| == g.vertexCount <= |dist| && Exact(g.arcs, u, dist0)
    requires affected == Growing(g.arcs, RemovedArcs(g, prepared), u, g.vertexCount)
    requires (u, v) in ArcsOf(additions, g.directed) ==> dist[v] <= 1
    requires v !in affected ==> (dist[v] <= 1 <==> dist0[v] <= 1 || (u, v) in ArcsOf(additions, g.directed))
    ensures dist[v] != Dist(ApplyAll(g, ops).arcs, u, v)
  {
    ArcIsListed(prepared, g.directed, additions, true, u, v);
    AtMostOne(g.arcs, u, v);
    AtMostOne(ApplyAll(g, ops).arcs, u, v);
    assert dist0[v] == Dist(g.arcs, u, v);
    if (u, v) in g.arcs && (u, v) !in RemovedArcs(g, prepared) {
      KeptStays(g.arcs, RemovedArcs(g, prepared), u, v, g.vertexCount);
    }
  }

  /** Prepare one batch and commit another that leaves an arc exposed: searched from the origin of that arc, its target
      ends with a wrong label. */
  method Uncovered(graph: DynamicGraph, prepared: seq<EdgeUpdate>, ops: seq<EdgeUpdate>, u: nat, v: nat,
                   mix: nat -> nat)
    returns (p: PreflightBfs)
    requires graph.Consistent() && Simple(graph.Value()) && graph.Transposed()
    requires InRange(prepared) && InRange(ops) && prepared != [] && Exposed(graph.Value(), prepared, ops, u, v)
    modifies graph
    ensures fresh(p) && p.bfs.graph == graph && p.bfs.Sane() && p.bfs.source == u
    ensures graph.Value() == ApplyAll(old(graph.Value()), ops)
    ensures graph.Transposed() <==> old(graph.StaysTransposed(ops))
    ensures v < |p.bfs.dist| && p.bfs.dist[v] != Dist(graph.arcs, u, v)
  {
    ApplyKeepsSimple(graph.Value(), ops);
    var bfs := new IncrementalBfs(graph, u, 0.35, mix);
    p := new PreflightBfs(bfs);
    ghost var g, dist0 := graph.Value(), bfs.dist;
    Ahead(p, prepared);
    AtSource(graph.arcs, u, dist0);
    var _ := p.ApplyPreflighted(ops);
    ExposedShows(g, prepared, ops, u, v, bfs.finalAdditions, dist0, bfs.dist, Elements(bfs.affectedVertices));
  }

  lemma AtSource(arcs: set<Arc>, s: nat, dist: seq<nat>)
    requires Exact(arcs, s, dist) && s < |dist|
    ensures dist[s] == 0
  {
    assert Walk(arcs, s, s, 0);
    DistIsLeast(arcs, s, s, 0);
    assert dist[s] == Dist(arcs, s, s);
  }

  // ---------- Batches that cover one another ----------

  /** What the batches do last to one edge: what was prepared as added is added, what was prepared as removed is not
      added, and what was left alone is left alone. */
  predicate CoversKey(prepared: seq<EdgeUpdate>, ops: seq<EdgeUpdate>, directed: bool, u: nat, v: nat)
  {
    match LastOp(prepared, directed, Key(directed, u, v))
    case Some(true) => LastOp(ops, directed, Key(directed, u, v)) == Some(true)
    case Some(false) => LastOp(ops, directed, Key(directed, u, v)) != Some(true)
    case None => LastOp(ops, directed, Key(directed, u, v)) == None
  }

  /** Then the batch is covered on every graph. */
  lemma CoversEverywhere(g: Graph, prepared: seq<EdgeUpdate>, ops: seq<EdgeUpdate>)
    requires Simple(g) && forall u: nat, v: nat | u != v :: CoversKey(prepared, ops, g.directed, u, v)
    ensures Covers(g, prepared, ops)
  {
    forall u: nat, v: nat | u != v
      ensures CoversArc(g, prepared, ops, u, v)
    {
      assert CoversKey(prepared, ops, g.directed, u, v);
      LastOperationWins(g, ops, u, v);
    }
  }

  /** On a graph without arcs, or with the one edge that is removed without having been prepared, a batch that is not
      covered at an edge leaves it exposed. */
  lemma KeyExposed(g: Graph, prepared: seq<EdgeUpdate>, ops: seq<EdgeUpdate>, u: nat, v: nat)
    requires Simple(g) && u != v && u < g.vertexCount && v < g.vertexCount
    requires !CoversKey(prepared, ops, g.directed, u, v)
    requires if LastOp(prepared, g.directed, Key(g.directed, u, v)) == None
                && LastOp(ops, g.directed, Key(g.directed, u, v)) == Some(false)
             then (u, v) in g.arcs else g.arcs == {}
    ensures Exposed(g, prepared, ops, u, v)
  {
    LastOperationWins(g, ops, u, v);
    if g.arcs == {} {
      assert g.arcs - RemovedArcs(g, prepared) == g.arcs;
    }
  }

  /** A batch that is not covered at some edge: there is a graph on which its commit goes wrong. */
  method NotCovered(prepared: seq<EdgeUpdate>, ops: seq<EdgeUpdate>, directed: bool, u: nat, v: nat, mix: nat -> nat)
    returns (p: PreflightBfs, ghost g: Graph)
    requires InRange(prepared) && InRange(ops) && prepared != []
    requires u != v && u < UNREACHABLE && v < UNREACHABLE && !CoversKey(prepared, ops, directed, u, v)
    ensures fresh(p) && p.bfs.Sane() && p.bfs.graph.directed == directed && p.bfs.source == u
    ensures Simple(g) && p.bfs.graph.Value() == ApplyAll(g, ops) && p.bfs.graph.Transposed()
    ensures v < |p.bfs.dist| && p.bfs.dist[v] != Dist(p.bfs.graph.arcs, u, v)
  {
    var graph := new DynamicGraph(Max(u, v) + 1, directed);
    var key := Key(directed, u, v);
    if LastOp(prepared, directed, key) == None && LastOp(ops, directed, key) == Some(false) {
      graph.BulkLoadEdges([(u, v)]);
      assert (u, v) in [(u, v)];
    }
    g := graph.Value();
    KeyExposed(g, prepared, ops, u, v);
    AgreeingSidesStay(graph.Sides(), directed, ops);
    p := Uncovered(graph, prepared, ops, u, v, mix);
  }

  /** For instance a deletion committed after the preflight of another: the vertex it pushes away was never looked for,
      and keeps its label. */
  method CommitOfAnother(mix: nat -> nat) returns (p: PreflightBfs)
    ensures fresh(p) && p.bfs.Sane() && p.bfs.graph.directed && p.bfs.source == 0
    ensures 2 < |p.bfs.dist| && p.bfs.dist[2] != Dist(p.bfs.graph.arcs, 0, 2)
  {
    var prepared, ops := [EdgeUpdate(0, 1, false)], [EdgeUpdate(0, 2, false)];
    assert prepared[..0] == [] && ops[..0] == [];
    ghost var g;
    p, g := NotCovered(prepared, ops, true, 0, 2, mix);
  }

  // ---------- A plain batch while work is prepared ----------

  lemma OneDeletion(g: Graph, u: nat, v: nat)
    requires g.directed && (u, v) in g.arcs
    ensures RemovedArcs(g, [EdgeUpdate(u, v, false)]) == {(u, v)}
    ensures u != v ==> ApplyAll(g, [EdgeUpdate(u, v, false)]).arcs == g.arcs - {(u, v)}
  {
    var ops := [EdgeUpdate(u, v, false)];
    assert ops[..0] == [];
    assert forall key :: LastOp(ops, true, key) == if key == (u, v) then Some(false) else None;
    SamePairs(RemovedArcs(g, ops), {(u, v)});
  }

  /** Prepare a deletion, and apply it without committing or discarding the work. */
  method Bypass(p: PreflightBfs, u: nat, v: nat)
    requires p.Good() && !p.ready && p.bfs.graph.directed && p.bfs.graph.Aligned()
    requires 0.0 <= p.bfs.deletionFallbackFraction
    requires (u, v) in p.bfs.graph.arcs
    requires v in Growing(p.bfs.graph.arcs, {(u, v)}, p.bfs.source, p.bfs.graph.vertexCount)
    modifies p, p.bfs, p.bfs.graph, p.bfs.seenFinalUpdates, p.bfs.finalDeletionKeys
    ensures p.bfs.Sane() && p.bfs.graph.Transposed() && p.bfs.graph.arcs == old(p.bfs.graph.arcs) - {(u, v)}
    ensures v < |old(p.bfs.dist)| <= |p.bfs.dist| && p.bfs.dist[v] <= old(p.bfs.dist)[v]
  {
    OneDeletion(p.bfs.graph.Value(), u, v);
    Ahead(p, [EdgeUpdate(u, v, false)]);
    assert p.bfs.Spared(v);
    p.bfs.Apply([EdgeUpdate(u, v, false)]);
  }

  lemma OnlyArcMatters(arcs: set<Arc>)
    requires arcs == {(0, 1)}
    ensures Dist(arcs, 0, 1) == 1 && 1 in Growing(arcs, {(0, 1)}, 0, 2)
    ensures Dist(arcs - {(0, 1)}, 0, 1) == UNREACHABLE
  {
    LabelAtOne(arcs, 0, 1);
    NoWayIn(arcs - {(0, 1)}, 0, 1);
  }

  /** A plain batch while work is prepared: the vertex is still flagged from the preflight, so it is not found again,
      and its label is not repaired. */
  method PlainWhilePrepared(mix: nat -> nat) returns (p: PreflightBfs)
    ensures p.bfs.Sane() && p.bfs.graph.Transposed() && p.bfs.graph.arcs == {} && p.bfs.source == 0
    ensures |p.bfs.dist| > 1 && p.bfs.dist[1] <= 1 && Dist(p.bfs.graph.arcs, 0, 1) == UNREACHABLE
  {
    ghost var arcs := {(0, 1)};
    var graph := new DynamicGraph(2, true);
    graph.BulkLoadEdges([(0, 1)]);
    SamePairs(graph.arcs, arcs);
    OnlyArcMatters(arcs);
    var bfs := new IncrementalBfs(graph, 0, 0.35, mix);
    p := new PreflightBfs(bfs);
    assert p.bfs.dist[1] == Dist(arcs, 0, 1);
    Bypass(p, 0, 1);
    assert arcs - {(0, 1)} == {};
  }
}
