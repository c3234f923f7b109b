/** Whole histories of the dynamic graph: the edge set it shows, when its two sides stay aligned, and how compacting
    them row by row can drive them apart. */
module StorageRuns {
  import opened Collections
  import opened Distances
  import opened DynamicGraphs
  import opened RowStores
  import opened TwoSided
  import opened GraphStorage

  datatype Step = Batch(ops: seq<EdgeUpdate>) | Load(edges: seq<Arc>) | CompactAll | CompactDense(threshold: real)

  /** The edge set after a step. */
  ghost function StepArcs(directed: bool, arcs: set<Arc>, step: Step): set<Arc>
  {
    match step
    case Batch(ops) => ApplyAll(Graph(directed, 0, arcs), ops).arcs
    case Load(edges) => ArcsOf(edges, directed)
    case _ => arcs
  }

  ghost function RunArcs(directed: bool, arcs: set<Arc>, steps: seq<Step>): set<Arc>
  {
    if steps == [] then arcs else StepArcs(directed, RunArcs(directed, arcs, steps[..|steps| - 1]), steps[|steps| - 1])
  }

  /** No compaction by density, unless the threshold lets every changed row through. */
  predicate Even(step: Step)
  {
    step.CompactDense? ==> step.threshold <= 0.0
  }

  predicate AllEven(steps: seq<Step>)
  {
    forall step | step in steps :: Even(step)
  }

  // ---------- The size of the overlay ----------

  /** How many changes are pending at most, and how many arcs are compact. */
  datatype Stock = Stock(pending: nat, compactEdges: nat)

  /** A batch adds at most two changes an operation. A bulk load and a compaction of every row leave none. */
  ghost function NextStock(stock: Stock, step: Step, arcs: set<Arc>): Stock
  {
    if step.Batch? then stock.(pending := stock.pending + 2 * |step.ops|) else Stock(0, |arcs|)
  }

  ghost function RunStock(directed: bool, arcs: set<Arc>, stock: Stock, steps: seq<Step>): Stock
  {
    if steps == [] then stock
    else
      var last := |steps| - 1;
      NextStock(RunStock(directed, arcs, stock, steps[..last]), steps[last], RunArcs(directed, arcs, steps))
  }

  ghost predicate RoomAfter(directed: bool, arcs: set<Arc>, stock: Stock, steps: seq<Step>)
  {
    var after := RunStock(directed, arcs, stock, steps);
    Roomy(after.pending, after.compactEdges)
  }

  /** No batch makes an automatic compaction due. */
  ghost predicate NeverCrowded(directed: bool, arcs: set<Arc>, stock: Stock, steps: seq<Step>)
  {
    forall i | 0 <= i < |steps| && steps[i].Batch? :: RoomAfter(directed, arcs, stock, steps[..i + 1])
  }

  lemma NextStep(directed: bool, arcs: set<Arc>, stock: Stock, steps: seq<Step>, i: nat)
    requires i < |steps|
    ensures RunArcs(directed, arcs, steps[..i + 1]) == StepArcs(directed, RunArcs(directed, arcs, steps[..i]), steps[i])
    ensures RunStock(directed, arcs, stock, steps[..i + 1]) ==
      NextStock(RunStock(directed, arcs, stock, steps[..i]), steps[i], RunArcs(directed, arcs, steps[..i + 1]))
    ensures AllEven(steps) && NeverCrowded(directed, arcs, stock, steps) ==>
      Even(steps[i]) && (steps[i].Batch? ==> RoomAfter(directed, arcs, stock, steps[..i + 1]))
  {
    assert steps[..i + 1][..i] == steps[..i] && steps[i] in steps;
  }

  // ---------- What the two sides hold ----------

  /** What a step does to the two sides. */
  ghost predicate Follows(directed: bool, before: Rows, step: Step, after: Rows)
  {
    && after.arcs == StepArcs(directed, before.arcs, step)
    && match step
       case Batch(ops) => after.inArcs == ApplyOps(before, directed, ops).inArcs
       case Load(_) => after == Rows(after.arcs, after.arcs, after.arcs, after.arcs)
       case CompactAll => after == Rows(before.arcs, before.inArcs, before.arcs, before.inArcs)
       case CompactDense(_) => after.inArcs == before.inArcs
  }

  /** What the two sides held before every step, and at the end. */
  ghost predicate History(directed: bool, states: seq<Rows>, steps: seq<Step>)
  {
    |states| == |steps| + 1 &&
    forall i | 0 <= i < |steps| :: Follows(directed, states[i], steps[i], states[i + 1])
  }

  lemma HistoryNext(directed: bool, states: seq<Rows>, steps: seq<Step>, i: nat, state: Rows)
    requires i < |steps| && History(directed, states, steps[..i]) && Follows(directed, states[i], steps[i], state)
    ensures History(directed, states + [state], steps[..i + 1])
  {
    assert steps[..i + 1][..i] == steps[..i] && (states + [state])[..i + 1] == states;
  }

  ghost predicate KeepsTransposed(directed: bool, state: Rows, step: Step)
  {
    step.Batch? ==> StaysTransposed(state, directed, step.ops)
  }

  ghost predicate AllKeepTransposed(directed: bool, states: seq<Rows>, steps: seq<Step>)
    requires |states| == |steps| + 1
  {
    forall i | 0 <= i < |steps| :: KeepsTransposed(directed, states[i], steps[i])
  }

  ghost predicate AllTransposed(states: seq<Rows>)
  {
    forall state | state in states :: state.Transposed()
  }

  lemma StepKeepsTransposed(directed: bool, before: Rows, step: Step, after: Rows)
    requires Follows(directed, before, step, after) && before.Transposed()
    ensures after.Transposed() <==> KeepsTransposed(directed, before, step)
  {
    if step.Batch? {
      TransposedAfterBatch(before, directed, step.ops);
      OutRowsRefine(Graph(directed, 0, before.arcs), before, step.ops);
    }
  }

  /** From any point at which the in-rows are the transpose of the out-rows, a bulk load for one, they stay so if and
      only if every batch meets the condition in the state that it finds. */
  lemma {:induction false} TransposedThroughout(directed: bool, states: seq<Rows>, steps: seq<Step>, k: nat)
    requires History(directed, states, steps) && k <= |steps| && states[k].Transposed()
    ensures AllTransposed(states[k..]) <==> AllKeepTransposed(directed, states[k..], steps[k..])
    decreases |steps| - k
  {
    if k < |steps| {
      var states0, steps0 := states[k..], steps[k..];
      StepKeepsTransposed(directed, states[k], steps[k], states[k + 1]);
      assert states0[1..] == states[k + 1..] && steps0[1..] == steps[k + 1..];
      assert states0[1] == states[k + 1];
      assert AllKeepTransposed(directed, states0, steps0) <==>
        KeepsTransposed(directed, states0[0], steps0[0]) && AllKeepTransposed(directed, states0[1..], steps0[1..]);
      assert AllTransposed(states0) <==> AllTransposed(states0[1..]);
      if states[k + 1].Transposed() {
        TransposedThroughout(directed, states, steps, k + 1);
      }
    }
  }

  /** Both sides aligned, with an overlay no larger than this. */
  ghost predicate AlignedWithin(graph: DynamicGraph, stock: Stock)
    reads graph
  {
    graph.Aligned() && graph.outgoing.Size() <= stock.pending && graph.outgoing.compactEdges == stock.compactEdges
  }

  method TakeStep(graph: DynamicGraph, step: Step, ghost stock: Stock)
    requires graph.Consistent()
    modifies graph
    ensures graph.Consistent() && Follows(graph.directed, old(graph.Sides()), step, graph.Sides())
    ensures var after := NextStock(stock, step, graph.arcs);
      old(AlignedWithin(graph, stock)) && Even(step) && (step.Batch? ==> Roomy(after.pending, after.compactEdges)) ==>
        AlignedWithin(graph, after)
  {
    match step {
      case Batch(ops) =>
        OutRowsRefine(graph.Value(), graph.Sides(), ops);
        OutRowsRefine(Graph(graph.directed, 0, graph.arcs), graph.Sides(), ops);
        RoomyWithin(graph.outgoing.Size(), stock, |ops|);
        graph.Apply(ops);
      case Load(edges) => graph.BulkLoadEdges(edges);
      case CompactAll => graph.Compact();
      case CompactDense(threshold) => var _ := graph.MaybeCompact(threshold);
    }
    WhatIsStored(graph.outgoing, graph.vertexCount, graph.arcs, graph.compactOut);
  }

  lemma RoomyWithin(pending: nat, stock: Stock, operations: nat)
    ensures pending <= stock.pending && Roomy(stock.pending + 2 * operations, stock.compactEdges) ==>
      Roomy(pending + 2 * operations, stock.compactEdges)
  {
  }

  /** Over every history the rows show the edge set, and the in-rows stay the transpose of the out-rows if and only if
      every batch meets the condition in the state that it finds. The two sides stay aligned as long as no rows are
      compacted by density, neither by request nor because the overlay has outgrown the compact rows: bulk loads and
      full compactions empty it. */
  method Run(graph: DynamicGraph, steps: seq<Step>) returns (ghost states: seq<Rows>)
    requires graph.Consistent()
    modifies graph
    ensures graph.Consistent() && graph.arcs == RunArcs(graph.directed, old(graph.arcs), steps)
    ensures History(graph.directed, states, steps)
    ensures states[0] == old(graph.Sides()) && states[|steps|] == graph.Sides()
    ensures old(graph.Transposed()) ==>
      (AllTransposed(states) <==> AllKeepTransposed(graph.directed, states, steps))
    ensures old(graph.Aligned()) && AllEven(steps) &&
            NeverCrowded(graph.directed, old(graph.arcs),
                         old(Stock(graph.outgoing.Size(), graph.outgoing.compactEdges)), steps) ==>
      graph.Aligned()
  {
    ghost var directed, arcs := graph.directed, graph.arcs;
    ghost var stock := Stock(graph.outgoing.Size(), graph.outgoing.compactEdges);
    ghost var calm := graph.Aligned() && AllEven(steps) && NeverCrowded(directed, arcs, stock, steps);
    states := [graph.Sides()];
    var i := 0;
    while i < |steps|
      invariant 0 <= i <= |steps| && graph.Consistent()
      invariant graph.arcs == RunArcs(directed, arcs, steps[..i])
      invariant History(directed, states, steps[..i]) && states[0] == old(graph.Sides()) && states[i] == graph.Sides()
      invariant calm ==> AlignedWithin(graph, RunStock(directed, arcs, stock, steps[..i]))
    {
      NextStep(directed, arcs, stock, steps, i);
      TakeStep(graph, steps[i], RunStock(directed, arcs, stock, steps[..i]));
      HistoryNext(directed, states, steps, i, graph.Sides());
      states := states + [graph.Sides()];
      i := i + 1;
    }
    assert steps[..i] == steps;
    if states[0].Transposed() {
      assert states[0..] == states && steps[0..] == steps;
      TransposedThroughout(directed, states, steps, 0);
    }
  }

  // ---------- Drifting apart ----------

  lemma StrictHead(row: seq<Entry>)
    requires InOrder(row) && |row| > 1
    ensures row[0].dst < row[1].dst
  {
  }

  lemma HeadIsArc(s: Side, n: nat, u: nat)
    requires s.Shaped(n) && s.CompactRow(u) != []
    ensures (u, s.CompactRow(u)[0]) in s.CompactArcs()
  {
  }

  /** Over empty compact rows an overlay has one entry for every arc, and no other. */
  lemma SingleEntry(s: Side, n: nat, arcs: set<Arc>, u: nat, v: nat)
    requires Stores(s, n, arcs, {}) && s.Normalised() && forall w: nat | (u, w) in arcs :: w == v
    ensures |s.Overlay(u)| <= 1
  {
    RowsAreInOrder(s, n, u);
    WhatIsStored(s, n, arcs, {});
    forall i | 0 <= i < |s.Overlay(u)|
      ensures s.Overlay(u)[i].dst == v
    {
      var e := s.Overlay(u)[i];
      assert e in s.Overlay(u) && e == Entry(e.dst, e.present);
      assert (u, e.dst) in s.Pending(e.present);
    }
    if |s.Overlay(u)| > 1 {
      StrictHead(s.Overlay(u));
    }
  }

  lemma TwoEntries(s: Side, n: nat, arcs: set<Arc>, u: nat, v: nat, w: nat)
    requires Stores(s, n, arcs, {}) && (u, v) in arcs && (u, w) in arcs && v != w
    ensures |s.Overlay(u)| >= 2 && u in s.dirty && s.CompactRow(u) == []
  {
    WhatIsStored(s, n, arcs, {});
    s.ArcsAreEffective(n, u, v);
    s.ArcsAreEffective(n, u, w);
    if s.CompactRow(u) != [] {
      HeadIsArc(s, n, u);
    }
    assert Entry(v, true) in s.Overlay(u) && Entry(w, true) in s.Overlay(u);
  }

  lemma OneAddition(g: Graph, r: Rows, u: nat, v: nat)
    requires r.arcs == g.arcs && r.Transposed() && r.SidesAgree()
    ensures var op := EdgeUpdate(u, v, true);
      && ApplyOps(r, g.directed, [op]).Transposed()
      && ApplyOps(r, g.directed, [op]).arcs == ApplyOne(g, op).arcs && ApplyAll(g, [op]) == ApplyOne(g, op)
      && ApplyOps(r, g.directed, [op]).compactOut == r.compactOut
      && ApplyOps(r, g.directed, [op]).compactIn == r.compactIn
  {
    var op := EdgeUpdate(u, v, true);
    assert [op][..0] == [];
    AgreeingSidesStay(r, g.directed, [op]);
    OutRowsRefine(g, r, [op]);
  }

  lemma ArcsOfNext(edges: seq<Arc>, directed: bool, i: nat)
    requires i < |edges|
    ensures ArcsOf(edges[..i + 1], directed) ==
      ApplyOne(Graph(directed, 0, ArcsOf(edges[..i], directed)), EdgeUpdate(edges[i].0, edges[i].1, true)).arcs
  {
    var before, op := Graph(directed, 0, ArcsOf(edges[..i], directed)), EdgeUpdate(edges[i].0, edges[i].1, true);
    var after := ApplyOne(before, op).arcs;
    assert edges[..i + 1] == edges[..i] + [edges[i]];
    assert edges[i] == (edges[i].0, edges[i].1);
    SamePairs(ArcsOf(edges[..i + 1], directed), after);
  }

  /** A graph that holds these edges, all of them in the overlays. */
  ghost predicate Fresh(graph: DynamicGraph, vertices: nat, edges: seq<Arc>)
    reads graph
  {
    && graph.Consistent() && graph.Value() == Graph(graph.directed, vertices, ArcsOf(edges, graph.directed))
    && graph.Sides() == Rows(graph.arcs, graph.arcs, {}, {}) && graph.outgoing.Size() <= 2 * |edges|
  }

  method AddNext(graph: DynamicGraph, edges: seq<Arc>, i: nat, ghost vertices: nat)
    requires i < |edges| < 100 && Fresh(graph, vertices, edges[..i]) && edges[i].0 < vertices && edges[i].1 < vertices
    modifies graph
    ensures Fresh(graph, vertices, edges[..i + 1])
  {
    var (u, v) := edges[i];
    OneAddition(graph.Value(), graph.Sides(), u, v);
    ArcsOfNext(edges, graph.directed, i);
    graph.Apply([EdgeUpdate(u, v, true)]);
  }

  /** A graph filled edge by edge. */
  method Filled(vertices: nat, directed: bool, edges: seq<Arc>) returns (graph: DynamicGraph)
    requires |edges| < 100 && forall e | e in edges :: e.0 < vertices && e.1 < vertices
    ensures fresh(graph) && graph.directed == directed && Fresh(graph, vertices, edges)
  {
    graph := new DynamicGraph(vertices, directed);
    assert ArcsOf(edges[..0], directed) == {};
    var i := 0;
    while i < |edges|
      invariant 0 <= i <= |edges| && fresh(graph) && graph.directed == directed
      invariant Fresh(graph, vertices, edges[..i])
    {
      assert edges[i] in edges;
      AddNext(graph, edges, i, vertices);
      i := i + 1;
    }
    assert edges[..i] == edges;
  }

  /** At the default threshold a row with two changes is compacted and a row with one is not. */
  lemma UnevenRows(outgoing: Side, incoming: Side, n: nat, arcs: set<Arc>, u: nat, v: nat, w: nat)
    requires StoresBoth(outgoing, incoming, n, Rows(arcs, arcs, {}, {}))
    requires (u, v) in arcs && (w, v) in arcs && u != w && forall x: nat | (u, x) in arcs :: x == v
    ensures u !in DenseRows(outgoing, 0.25) && v in DenseRows(incoming, 0.25)
  {
    SamePairs(Flip({}), {});
    SingleEntry(outgoing, n, arcs, u, v);
    assert (v, u) in Flip(arcs) && (v, w) in Flip(arcs);
    TwoEntries(incoming, n, Flip(arcs), v, u, w);
  }

  lemma UnevenArcs(arcs: set<Arc>, compactOut: set<Arc>, compactIn: set<Arc>, outRows: set<nat>, inRows: set<nat>,
                   u: nat, v: nat)
    requires CompactedWhere({}, arcs, compactOut, outRows)
    requires CompactedWhere(Flip({}), Flip(arcs), Flip(compactIn), inRows)
    requires u !in outRows && v in inRows && (u, v) in arcs
    ensures (u, v) !in compactOut && (u, v) in compactIn
  {
    assert (v, u) in Flip(arcs);
    assert (v, u) in Flip(compactIn);
  }

  /** Two arcs into v, one of them the only arc out of u: after a compaction by density that arc is compact in the
      in-row only. */
  method Uneven(vertices: nat, directed: bool, edges: seq<Arc>, u: nat, v: nat, ghost w: nat)
    returns (graph: DynamicGraph)
    requires |edges| < 100 && forall e | e in edges :: e.0 < vertices && e.1 < vertices
    requires (u, v) in ArcsOf(edges, directed) && (w, v) in ArcsOf(edges, directed) && u != w
    requires forall x: nat | (u, x) in ArcsOf(edges, directed) :: x == v
    ensures fresh(graph) && graph.Consistent() && graph.Value() == Graph(directed, vertices, ArcsOf(edges, directed))
    ensures graph.Transposed() && (u, v) !in graph.compactOut && (u, v) in graph.compactIn
    ensures graph.outgoing.Size() <= 2 * |edges|
  {
    graph := Filled(vertices, directed, edges);
    ghost var arcs, outgoing, incoming := graph.arcs, graph.outgoing, graph.incoming;
    UnevenRows(outgoing, incoming, vertices, arcs, u, v, w);
    var _ := graph.MaybeCompact(0.25);
    UnevenArcs(arcs, graph.compactOut, graph.compactIn, DenseRows(outgoing, 0.25), DenseRows(incoming, 0.25), u, v);
  }

  /** Removing an arc that is compact in the in-row only: the in-row keeps it. */
  lemma RemovalIsMissed(g: Graph, r: Rows, u: nat, v: nat)
    requires r.arcs == g.arcs && u != v && (u, v) in r.arcs && (u, v) !in r.compactOut && (u, v) in r.compactIn
    ensures var ops := [EdgeUpdate(u, v, false)];
      && (u, v) !in ApplyAll(g, ops).arcs && (u, v) in ApplyOps(r, g.directed, ops).inArcs
      && (r.Transposed() ==> !StaysTransposed(r, g.directed, ops))
      && (g.directed ==> ApplyAll(g, ops) == ApplyOne(g, ops[0]))
      && (g.directed && r.Transposed() ==> ApplyOps(r, g.directed, ops).inArcs == r.arcs)
  {
    var ops := [EdgeUpdate(u, v, false)];
    assert ops[..0] == [];
    OutRowsRefine(g, r, ops);
    ArcAfterBatch(r, g.directed, ops, u, v);
    assert FallsBack(r, g.directed, ops, u, v);
    if g.directed && r.Transposed() {
      SamePairs(ApplyOps(r, g.directed, ops).inArcs, r.arcs);
    }
  }

  const FOUR_EDGES: seq<Arc> := [(3, 1), (3, 2), (1, 0), (2, 0)]

  lemma FourArcs()
    ensures ArcsOf(FOUR_EDGES, true) == {(3, 1), (3, 2), (1, 0), (2, 0)}
  {
    SamePairs(ArcsOf(FOUR_EDGES, true), {(3, 1), (3, 2), (1, 0), (2, 0)});
  }

  lemma ThreeArcs(g: Graph)
    requires g.directed && g.arcs == {(3, 1), (3, 2), (1, 0), (2, 0)}
    ensures var after := ApplyOne(g, EdgeUpdate(1, 0, false)).arcs;
      after == {(3, 1), (3, 2), (2, 0)} && g.arcs == after + {(1, 0)}
  {
  }

  /** A directed graph in which, after a compaction by density, removing an arc leaves its source in the in-row. */
  method StaleInRow() returns (graph: DynamicGraph)
    ensures fresh(graph) && graph.Consistent() && graph.directed && graph.vertexCount == 4
    ensures graph.arcs == {(3, 1), (3, 2), (2, 0)} && graph.inArcs == graph.arcs + {(1, 0)}
  {
    FourArcs();
    graph := Uneven(4, true, FOUR_EDGES, 1, 0, 2);
    ThreeArcs(graph.Value());
    RemovalIsMissed(graph.Value(), graph.Sides(), 1, 0);
    graph.Apply([EdgeUpdate(1, 0, false)]);
  }

  /** An undirected graph in which the same happens to one of the two orientations of an edge. */
  method StaleUndirectedRow() returns (graph: DynamicGraph)
    ensures fresh(graph) && graph.Consistent() && !graph.directed
    ensures (1, 0) !in graph.arcs && (1, 0) in graph.inArcs
  {
    var edges := [(0, 1), (0, 2)];
    SamePairs(ArcsOf(edges, false), {(0, 1), (1, 0), (0, 2), (2, 0)});
    graph := Uneven(4, false, edges, 1, 0, 2);
    RemovalIsMissed(graph.Value(), graph.Sides(), 1, 0);
    graph.Apply([EdgeUpdate(1, 0, false)]);
  }
}
