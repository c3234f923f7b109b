/** Every wrong in-row can cost a label: wherever the in-rows differ from the transpose of the out-rows, a search from
    the vertex they differ about, one that never falls back to a recompute, goes wrong within two batches. */
module BfsDrift {
  import opened Collections
  import opened Distances
  import opened DynamicGraphs
  import opened TwoSided
  import opened RowStores
  import opened GraphStorage
  import opened BreadthFirst
  import opened Cascade
  import opened CascadeWorklist
  import opened BfsBatches
  import opened IncrementalBfs
  import opened BfsStreams
  import opened PreflightRuns
  import opened Relaxation

  // ---------- The last operation on a key ----------

  lemma {:induction false} UntouchedKey(ops: seq<EdgeUpdate>, directed: bool, key: Arc)
    requires forall op | op in ops :: Key(directed, op.src, op.dst) != key
    ensures LastOp(ops, directed, key) == None
    ensures forall present :: !Disturbed(ops, directed, key, present)
  {
    if ops != [] {
      UntouchedKey(ops[..|ops| - 1], directed, key);
      assert ops[|ops| - 1] in ops;
    }
  }

  lemma {:induction false} OneMind(ops: seq<EdgeUpdate>, directed: bool, key: Arc, add: bool, op: EdgeUpdate)
    requires op in ops && Key(directed, op.src, op.dst) == key
    requires forall op | op in ops && Key(directed, op.src, op.dst) == key :: op.add == add
    ensures LastOp(ops, directed, key) == Some(add)
  {
    var last := |ops| - 1;
    assert ops[last] in ops;
    if Key(directed, ops[last].src, ops[last].dst) != key {
      assert op in ops[..last];
      OneMind(ops[..last], directed, key, add, op);
    }
  }

  /** An in-row keeps what it shows about an edge that the batch does not touch. */
  lemma UntouchedInRow(r: Rows, directed: bool, ops: seq<EdgeUpdate>, u: nat, v: nat)
    requires u != v && forall op | op in ops :: Key(directed, op.src, op.dst) != Key(directed, u, v)
    ensures (u, v) in ApplyOps(r, directed, ops).inArcs <==> (u, v) in r.inArcs
  {
    UntouchedKey(ops, directed, Key(directed, u, v));
    ArcAfterBatch(r, directed, ops, u, v);
  }

  // ---------- An in-row that shows too much ----------

  /** Leave v a single way in, from s through x. */
  function Detour(n: nat, s: nat, v: nat, x: nat): seq<EdgeUpdate>
  {
    seq(n, y requires 0 <= y < n =>
      if y == s || y == v || y == x then EdgeUpdate(s, x, true) else EdgeUpdate(y, v, false)) +
    [EdgeUpdate(s, x, true), EdgeUpdate(x, v, true)]
  }

  lemma DetourOps(n: nat, s: nat, v: nat, x: nat, op: EdgeUpdate)
    requires op in Detour(n, s, v, x)
    ensures op == EdgeUpdate(s, x, true) || op == EdgeUpdate(x, v, true) ||
            (op.dst == v && !op.add && op.src < n && op.src != s && op.src != v && op.src != x)
  {
  }

  lemma DetourArcs(g: Graph, s: nat, v: nat, x: nat)
    requires Simple(g) && s != v && x != s && x != v && (s, v) !in g.arcs
    ensures var after := ApplyAll(g, Detour(g.vertexCount, s, v, x)).arcs;
      (s, x) in after && (x, v) in after && forall y: nat | (y, v) in after :: y == x
  {
    var n, ops, d := g.vertexCount, Detour(g.vertexCount, s, v, x), g.directed;
    forall op | op in ops
      ensures Key(d, op.src, op.dst) == Key(d, s, x) ==> op.add
      ensures Key(d, op.src, op.dst) == Key(d, x, v) ==> op.add
      ensures Key(d, op.src, op.dst) != Key(d, s, v)
    {
      DetourOps(n, s, v, x, op);
    }
    assert ops[n] == EdgeUpdate(s, x, true) && ops[n + 1] == EdgeUpdate(x, v, true);
    OneMind(ops, d, Key(d, s, x), true, ops[n]);
    OneMind(ops, d, Key(d, x, v), true, ops[n + 1]);
    LastOperationWins(g, ops, s, x);
    LastOperationWins(g, ops, x, v);
    forall y: nat | y != x
      ensures (y, v) !in ApplyAll(g, ops).arcs
    {
      LastOperationWins(g, ops, y, v);
      if y == s {
        UntouchedKey(ops, d, Key(d, s, v));
      } else if y < n && y != v {
        NoWayAround(g, s, v, x, y);
      } else if y != v {
        forall op | op in ops
          ensures Key(d, op.src, op.dst) != Key(d, y, v)
        {
          DetourOps(n, s, v, x, op);
        }
        UntouchedKey(ops, d, Key(d, y, v));
      }
    }
  }

  lemma NoWayAround(g: Graph, s: nat, v: nat, x: nat, y: nat)
    requires s != v && x != s && x != v && y != s && y != v && y != x && y < g.vertexCount
    ensures LastOp(Detour(g.vertexCount, s, v, x), g.directed, Key(g.directed, y, v)) == Some(false)
  {
    var ops, d := Detour(g.vertexCount, s, v, x), g.directed;
    forall op | op in ops && Key(d, op.src, op.dst) == Key(d, y, v)
      ensures !op.add
    {
      DetourOps(g.vertexCount, s, v, x, op);
    }
    assert ops[y] == EdgeUpdate(y, v, false);
    OneMind(ops, d, Key(d, y, v), false, ops[y]);
  }

  /** Without the last arc of its only way in, v cannot be reached. */
  lemma CutOff(g: Graph, s: nat, v: nat, x: nat)
    requires Simple(g) && s != v && forall y: nat | (y, v) in g.arcs :: y == x
    ensures Dist(ApplyAll(g, [EdgeUpdate(x, v, false)]).arcs, s, v) == UNREACHABLE
  {
    var ops := [EdgeUpdate(x, v, false)];
    assert ops[..0] == [];
    forall y: nat
      ensures (y, v) !in ApplyAll(g, ops).arcs
    {
      LastOperationWins(g, ops, y, v);
    }
    NoWayIn(ApplyAll(g, ops).arcs, s, v);
  }

  function Third(u: nat, v: nat): (x: nat)
    ensures x != u && x != v && x <= 2
  {
    if u != 0 && v != 0 then 0 else if u != 1 && v != 1 then 1 else 2
  }

  /** Start an engine that never falls back to a recompute. */
  method Patient(graph: DynamicGraph, s: nat, mix: nat -> nat) returns (bfs: IncrementalBfs)
    requires graph.Consistent() && Simple(graph.Value())
    ensures fresh(bfs) && fresh(bfs.seenFinalUpdates) && fresh(bfs.finalDeletionKeys)
    ensures bfs.Ready() && bfs.graph == graph && bfs.source == s && bfs.deletionFallbackFraction == 1.0
  {
    bfs := new IncrementalBfs(graph, s, 1.0, mix);
  }

  lemma NeverTooMany(listed: seq<nat>, n: nat)
    requires Distinct(listed) && forall v | v in listed :: v < n
    ensures !TooMany(|listed|, n, 1.0)
  {
    DistinctIsShort(listed, n);
  }

  /** The in-row of v shows s although there is no such arc. Leave v a single way in, and then close it. */
  method TooMuchShown(graph: DynamicGraph, s: nat, v: nat, mix: nat -> nat) returns (bfs: IncrementalBfs)
    requires graph.Consistent() && Simple(graph.Value()) && s != v && s < graph.vertexCount && v < graph.vertexCount
    requires (s, v) in graph.inArcs && (s, v) !in graph.arcs
    modifies graph
    ensures fresh(bfs) && bfs.graph == graph && bfs.Sane() && bfs.source == s
    ensures v < |bfs.dist| && bfs.dist[v] != Dist(graph.arcs, s, v)
  {
    var x := Third(s, v);
    var ops := Detour(graph.vertexCount, s, v, x);
    forall op | op in ops
      ensures op.src < UNREACHABLE && op.dst < UNREACHABLE
      ensures Key(graph.directed, op.src, op.dst) != Key(graph.directed, s, v)
    {
      DetourOps(graph.vertexCount, s, v, x, op);
    }
    ApplyKeepsSimple(graph.Value(), ops);
    DetourArcs(graph.Value(), s, v, x);
    UntouchedInRow(graph.Sides(), graph.directed, ops, s, v);
    graph.Apply(ops);
    bfs := CloseDetour(graph, s, v, x, mix);
  }

  method CloseDetour(graph: DynamicGraph, s: nat, v: nat, x: nat, mix: nat -> nat) returns (bfs: IncrementalBfs)
    requires graph.Consistent() && Simple(graph.Value()) && s != v && x != s && x != v
    requires s < graph.vertexCount && v < graph.vertexCount && x < UNREACHABLE
    requires (s, v) in graph.inArcs && (s, x) in graph.arcs && (x, v) in graph.arcs
    requires forall y: nat | (y, v) in graph.arcs :: y == x
    modifies graph
    ensures fresh(bfs) && bfs.graph == graph && bfs.Sane() && bfs.source == s
    ensures v < |bfs.dist| && bfs.dist[v] != Dist(graph.arcs, s, v)
  {
    var ops := [EdgeUpdate(x, v, false)];
    bfs := Patient(graph, s, mix);
    LabelAtTwo(graph.arcs, s, x, v);
    assert bfs.dist[v] == Dist(graph.arcs, s, v);
    AtSource(graph.arcs, s, bfs.dist);
    CutOff(graph.Value(), s, v, x);
    UntouchedInRow(graph.Sides(), graph.directed, ops, s, v);
    ghost var n := graph.vertexCount;
    SameSize(graph.Value(), x, v);
    bfs.Apply(ops);
    NeverTooMany(bfs.affectedVertices, n);
  }

  lemma SameSize(g: Graph, x: nat, v: nat)
    requires Simple(g) && (x, v) in g.arcs
    ensures ApplyAll(g, [EdgeUpdate(x, v, false)]).vertexCount == g.vertexCount
  {
    var ops := [EdgeUpdate(x, v, false)];
    assert ops[..0] == [];
  }

  // ---------- An in-row that shows too little ----------

  /** The in-row of v does not show s although there is such an arc: its removal goes unnoticed. */
  method TooLittleShown(graph: DynamicGraph, s: nat, v: nat, mix: nat -> nat) returns (bfs: IncrementalBfs)
    requires graph.Consistent() && Simple(graph.Value()) && (s, v) in graph.arcs && (s, v) !in graph.inArcs
    modifies graph
    ensures fresh(bfs) && bfs.graph == graph && bfs.Sane() && bfs.source == s
    ensures v < |bfs.dist| && bfs.dist[v] != Dist(graph.arcs, s, v)
  {
    var ops := [EdgeUpdate(s, v, false)];
    assert ops[..0] == [];
    bfs := Patient(graph, s, mix);
    AtMostOne(graph.arcs, s, v);
    assert bfs.dist[v] == Dist(graph.arcs, s, v);
    LabelledOnlySource(graph.arcs, s, bfs.dist, bfs.reachableCount) by {
      AtSource(graph.arcs, s, bfs.dist);
    }
    assert ParentsOf(graph.inArcs, bfs.dist, v) == {};
    assert bfs.Spared(v);
    LastOperationWins(graph.Value(), ops, s, v);
    bfs.Apply(ops);
    AtMostOne(graph.arcs, s, v);
  }

  /** Wherever the in-rows differ from the transpose of the out-rows, a search from that vertex goes wrong. */
  method DriftShows(graph: DynamicGraph, s: nat, v: nat, mix: nat -> nat) returns (bfs: IncrementalBfs)
    requires graph.Consistent() && Simple(graph.Value()) && s != v && s < graph.vertexCount && v < graph.vertexCount
    requires !graph.Sides().RightAt(s, v)
    modifies graph
    ensures fresh(bfs) && bfs.graph == graph && bfs.Sane() && bfs.source == s
    ensures v < |bfs.dist| && bfs.dist[v] != Dist(graph.arcs, s, v)
  {
    var shown := graph.HasEdge(s, v);
    if shown {
      bfs := TooLittleShown(graph, s, v, mix);
    } else {
      bfs := TooMuchShown(graph, s, v, mix);
    }
  }
}
