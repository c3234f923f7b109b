/** A triangle count maintained operation by operation. */
module IncrementalTriangles {
  import opened Collections
  import opened Distances
  import opened DynamicGraphs
  import opened TwoSided
  import opened GraphStorage
  import opened BreadthFirst
  import opened Sums
  import opened Triangles

  /** Adding one absent edge creates one triangle per common neighbour of its ends. */
  lemma EdgeCreatesCommon(n: nat, b: set<Arc>, u: nat, v: nat)
    requires Undirected(b) && u != v && u < n && v < n && (u, v) !in b
    ensures TriangleCount(n, b + {(u, v), (v, u)}) == TriangleCount(n, b) + Common(n, b, b, u, v)
  {
    var edges: seq<Arc> := [(u, v)];
    var d: set<Arc> := {(u, v), (v, u)};
    var e := b + d;
    assert edges[..0] == [];
    assert Both(edges) == d;
    assert (v, u) !in b;
    SumEq(n, (w: nat) => if (u, w) in e && (v, w) in e then 1 else 0,
          (w: nat) => if (u, w) in b && (v, w) in b then 1 else 0);
    CommonSymmetric(n, e, e, u, v);
    SumZero(n, (w: nat) => if (u, w) in e && (v, w) in d then 1 else 0);
    SumZero(n, (w: nat) => if (v, w) in e && (u, w) in d then 1 else 0);
    SumZero(n, (w: nat) => if (u, w) in d && (v, w) in d then 1 else 0);
    SumZero(n, (w: nat) => if (v, w) in d && (u, w) in d then 1 else 0);
    OneEdgeSum(n, edges, e, e);
    OneEdgeSum(n, edges, e, d);
    OneEdgeSum(n, edges, d, d);
    InclusionExclusion(n, b, edges, Common(n, e, e, u, v));
  }

  lemma OneEdgeSum(n: nat, edges: seq<Arc>, y: set<Arc>, z: set<Arc>)
    requires |edges| == 1
    ensures BatchSum(n, edges, y, z) ==
      Common(n, y, z, edges[0].0, edges[0].1) + Common(n, y, z, edges[0].1, edges[0].0)
  {
    assert edges[..0] == [];
  }

  /** Vertices without edges add no triangles. */
  lemma TrianglesInLargerRange(n: nat, m: nat, x: set<Arc>)
    requires Within(x, n) && n <= m
    ensures TriangleCount(m, x) == TriangleCount(n, x)
  {
    assert TriangleSet(m, x) == TriangleSet(n, x);
  }

  class IncrementalTriangleCount {
    const graph: DynamicGraph
    var triangles: nat

    ghost predicate Valid()
      reads this, graph
    {
      && graph.Consistent() && Simple(graph.Value()) && !graph.directed
      && triangles == TriangleCount(graph.vertexCount, graph.arcs)
    }

    constructor (graph: DynamicGraph)
      requires graph.Consistent() && Simple(graph.Value()) && !graph.directed
      ensures Valid() && this.graph == graph
    {
      this.graph := graph;
      triangles := 0;
      new;
      Recompute();
    }

    /** Scan the smaller row and probe the other: the number of common neighbours. */
    method CommonNeighbors(a: nat, b: nat) returns (common: nat)
      requires graph.Consistent() && Simple(graph.Value())
      ensures common == Common(graph.vertexCount, graph.arcs, graph.arcs, a, b)
    {
      var scan, probe := a, b;
      var rowA := graph.Neighbors(a);
      var rowB := graph.Neighbors(b);
      if |rowB| < |rowA| {
        scan, probe := b, a;
      }
      ghost var arcs := graph.arcs;
      common := 0;
      ghost var shared: set<nat> := {};
      var row := graph.Neighbors(scan);
      var i := 0;
      while i < |row|
        invariant 0 <= i <= |row| && SharedSoFar(arcs, row[..i], probe, shared, common)
      {
        var present := graph.HasEdge(probe, row[i]);
        SharedStep(arcs, row, i, probe, shared, common);
        if present {
          common := common + 1;
          shared := shared + {row[i]};
        }
        i := i + 1;
      }
      assert row[..i] == row;
      AllShared(graph.vertexCount, arcs, row, scan, probe, shared, common);
      CommonSymmetric(graph.vertexCount, arcs, arcs, a, b);
    }

    /** Add the common neighbours of every edge that leads upwards from u. */
    method CountUpwards(u: nat, triple0: nat, ghost edges0: seq<Arc>) returns (triple: nat, ghost edges: seq<Arc>)
      requires graph.Consistent() && Simple(graph.Value()) && !graph.directed && u < graph.vertexCount
      requires CountedUpwards(graph.arcs, graph.vertexCount, edges0, u, {}, triple0)
      ensures CountedUpwards(graph.arcs, graph.vertexCount, edges, u + 1, {}, triple)
    {
      triple, edges := triple0, edges0;
      ghost var arcs, n := graph.arcs, graph.vertexCount;
      var row := graph.Neighbors(u);
      var i := 0;
      assert Elements(row[..0]) == {};
      while i < |row|
        invariant 0 <= i <= |row|
        invariant CountedUpwards(arcs, n, edges, u, Elements(row[..i]), triple)
      {
        var v := row[i];
        if u >= v {
          PassDownward(arcs, n, edges, u, row, i, triple);
        } else {
          var common := CommonNeighbors(u, v);
          AddUpward(arcs, n, edges, u, row, i, triple, common);
          triple := triple + common;
          edges := edges + [(u, v)];
        }
        i := i + 1;
      }
      assert row[..i] == row;
      RowUpward(arcs, n, edges, u, row, triple);
    }

    /** Count from scratch: over all edges every triangle is met three times. */
    method Recompute()
      requires graph.Consistent() && Simple(graph.Value()) && !graph.directed
      modifies this`triangles
      ensures Valid()
    {
      var triple := 0;
      ghost var edges: seq<Arc> := [];
      var u := 0;
      while u < graph.vertexCount
        invariant 0 <= u <= graph.vertexCount
        invariant CountedUpwards(graph.arcs, graph.vertexCount, edges, u, {}, triple)
      {
        triple, edges := CountUpwards(u, triple, edges);
        u := u + 1;
      }
      UpwardIsAll(graph.arcs, graph.vertexCount, edges);
      BatchSumIsCube(graph.vertexCount, edges, graph.arcs, graph.arcs);
      CubeCountsTriangles(graph.vertexCount, graph.arcs);
      triangles := triple / 3;
    }

    /** Process a batch in order: each effective operation changes the count by the common neighbours of its
        ends, and the guard against going below zero never takes effect. */
    method Apply(ops: seq<EdgeUpdate>)
      requires Valid() && InRange(ops)
      modifies this`triangles, graph
      ensures Valid() && graph.Value() == ApplyAll(old(graph.Value()), ops)
      ensures graph.MaintainedAfter(old(graph.Sides()), ops)
    {
      var i := 0;
      while i < |ops|
        invariant 0 <= i <= |ops|
        invariant Valid() && graph.Value() == ApplyAll(old(graph.Value()), ops[..i])
        invariant graph.Sides() == ApplyOps(old(graph.Sides()), graph.directed, ops[..i])
      {
        assert ops[..i + 1][..i] == ops[..i] && ops[i] in ops;
        ApplyOperation(ops[i]);
        i := i + 1;
      }
      assert ops[..i] == ops;
      if ops != [] {
        graph.AutomaticMaintenance();
      }
    }

    /** One operation of a batch. */
    method ApplyOperation(op: EdgeUpdate)
      requires Valid() && op.src < UNREACHABLE && op.dst < UNREACHABLE
      modifies this`triangles, graph
      ensures Valid() && graph.Value() == ApplyOne(old(graph.Value()), op)
      ensures graph.Sides() == ApplyOp(old(graph.Sides()), graph.directed, op)
    {
      if op.src == op.dst {
        return;
      }
      ApplySingle(graph.Value(), op);
      OperationEffect(graph.Value(), op);
      var present := graph.HasEdge(op.src, op.dst);
      var common := CommonNeighbors(op.src, op.dst);
      if op.add && !present {
        triangles := triangles + common;
      }
      if !op.add && present {
        triangles := triangles - if triangles < common then triangles else common;
      }
      graph.ApplyUnversioned(op);
    }
  }

  lemma ApplySingle(g: Graph, op: EdgeUpdate)
    requires Simple(g) && op.src < UNREACHABLE && op.dst < UNREACHABLE
    ensures ApplyAll(g, [op]) == ApplyOne(g, op) && Simple(ApplyOne(g, op))
  {
    assert [op][..0] == [];
    ApplyKeepsSimple(g, [op]);
  }

  /** How one operation changes the number of triangles. */
  lemma OperationEffect(g: Graph, op: EdgeUpdate)
    requires Simple(g) && !g.directed && op.src != op.dst && op.src < UNREACHABLE && op.dst < UNREACHABLE
    ensures var present := (op.src, op.dst) in g.arcs;
            var common := Common(g.vertexCount, g.arcs, g.arcs, op.src, op.dst);
            var after := ApplyOne(g, op);
            TriangleCount(after.vertexCount, after.arcs) ==
              TriangleCount(g.vertexCount, g.arcs)
                + (if op.add && !present then common else if !op.add && present then -common else 0)
  {
    var u, v := op.src, op.dst;
    var after := ApplyOne(g, op);
    var n := after.vertexCount;
    ApplySingle(g, op);
    TrianglesInLargerRange(g.vertexCount, n, g.arcs);
    CommonInLargerRange(g.vertexCount, n, g.arcs, u, v);
    if op.add && (u, v) !in g.arcs {
      EdgeCreatesCommon(n, g.arcs, u, v);
      assert after.arcs == g.arcs + {(u, v), (v, u)};
    } else if !op.add && (u, v) in g.arcs {
      var b := after.arcs;
      assert b + {(u, v), (v, u)} == g.arcs;
      EdgeCreatesCommon(n, b, u, v);
      SumEq(n, (w: nat) => if (u, w) in b && (v, w) in b then 1 else 0,
            (w: nat) => if (u, w) in g.arcs && (v, w) in g.arcs then 1 else 0);
    } else {
      assert after.arcs == g.arcs;
    }
  }

  lemma {:induction false} CommonInLargerRange(n: nat, m: nat, x: set<Arc>, u: nat, v: nat)
    requires Within(x, n) && n <= m
    ensures Common(m, x, x, u, v) == Common(n, x, x, u, v)
    decreases m
  {
    if n < m {
      CommonInLargerRange(n, m - 1, x, u, v);
    }
  }

  // ---------- The edges met by a recount ----------

  /** The edges (a, b) with a < b met so far: all of the vertices below u, and those of u towards `seen`. */
  ghost predicate Upward(arcs: set<Arc>, n: nat, edges: seq<Arc>, u: nat, seen: set<nat>)
  {
    && FreshEdges(n, edges)
    && forall a: nat, b: nat :: (a, b) in edges <==> (a, b) in arcs && a < b && (a < u || (a == u && b in seen))
  }

  lemma UpwardStep(arcs: set<Arc>, n: nat, edges: seq<Arc>, u: nat, seen: set<nat>, v: nat)
    requires Within(arcs, n) && Upward(arcs, n, edges, u, seen) && (u, v) in arcs && v !in seen
    ensures if u < v then Upward(arcs, n, edges + [(u, v)], u, seen + {v}) else Upward(arcs, n, edges, u, seen + {v})
  {
    if u < v {
      var more := edges + [(u, v)];
      assert (u, v) !in edges && (v, u) !in edges;
      forall i, j | 0 <= i < j < |more|
        ensures more[i] != more[j] && more[i] != (more[j].1, more[j].0)
      {
        assert i < |edges| ==> more[i] in edges;
      }
    }
  }

  lemma UpwardIsAll(arcs: set<Arc>, n: nat, edges: seq<Arc>)
    requires Undirected(arcs) && Within(arcs, n) && Upward(arcs, n, edges, n, {})
    ensures Both(edges) == arcs
  {
    forall a: Arc
      ensures a in Both(edges) <==> a in arcs
    {
      BothMembers(edges, a.0, a.1);
      assert (a.0, a.1) == a;
      assert a in arcs <==> (a.1, a.0) in arcs;
    }
  }

  /** The running sum counts, for every edge met, the common neighbours of its ends. */
  ghost predicate CountedUpwards(arcs: set<Arc>, n: nat, edges: seq<Arc>, u: nat, seen: set<nat>, triple: nat)
  {
    Upward(arcs, n, edges, u, seen) && 2 * triple == BatchSum(n, edges, arcs, arcs)
  }

  lemma OneMoreMet(row: seq<nat>, i: nat)
    requires Ascending(row) && i < |row|
    ensures row[i] !in Elements(row[..i]) && Elements(row[..i + 1]) == Elements(row[..i]) + {row[i]}
  {
    assert row[..i + 1] == row[..i] + [row[i]] && row[i] !in row[..i];
  }

  lemma PassDownward(arcs: set<Arc>, n: nat, edges: seq<Arc>, u: nat, row: seq<nat>, i: nat, triple: nat)
    requires Within(arcs, n) && Ascending(row) && i < |row| && (u, row[i]) in arcs && row[i] <= u
    requires CountedUpwards(arcs, n, edges, u, Elements(row[..i]), triple)
    ensures CountedUpwards(arcs, n, edges, u, Elements(row[..i + 1]), triple)
  {
    OneMoreMet(row, i);
    UpwardStep(arcs, n, edges, u, Elements(row[..i]), row[i]);
  }

  lemma AddUpward(arcs: set<Arc>, n: nat, edges: seq<Arc>, u: nat, row: seq<nat>, i: nat, triple: nat, common: nat)
    requires Within(arcs, n) && Ascending(row) && i < |row| && (u, row[i]) in arcs && u < row[i]
    requires CountedUpwards(arcs, n, edges, u, Elements(row[..i]), triple)
    requires common == Common(n, arcs, arcs, u, row[i])
    ensures CountedUpwards(arcs, n, edges + [(u, row[i])], u, Elements(row[..i + 1]), triple + common)
  {
    OneMoreMet(row, i);
    UpwardStep(arcs, n, edges, u, Elements(row[..i]), row[i]);
    OneMoreSum(n, edges, arcs, u, row[i]);
  }

  lemma OneMoreSum(n: nat, edges: seq<Arc>, arcs: set<Arc>, u: nat, v: nat)
    ensures BatchSum(n, edges + [(u, v)], arcs, arcs) ==
      BatchSum(n, edges, arcs, arcs) + 2 * Common(n, arcs, arcs, u, v)
  {
    CommonSymmetric(n, arcs, arcs, u, v);
    assert (edges + [(u, v)])[..|edges|] == edges;
  }

  /** Once its whole row is met, so are the edges of u. */
  lemma RowUpward(arcs: set<Arc>, n: nat, edges: seq<Arc>, u: nat, row: seq<nat>, triple: nat)
    requires forall v: nat :: v in row <==> (u, v) in arcs
    requires CountedUpwards(arcs, n, edges, u, Elements(row), triple)
    ensures CountedUpwards(arcs, n, edges, u + 1, {}, triple)
  {
  }

  // ---------- The neighbours met by a probe ----------

  /** The entries met so far that the probed vertex shares. */
  ghost predicate SharedSoFar(arcs: set<Arc>, met: seq<nat>, probe: nat, shared: set<nat>, count: nat)
  {
    count == |shared| && forall w :: w in shared <==> w in met && (probe, w) in arcs
  }

  lemma SharedStep(arcs: set<Arc>, row: seq<nat>, i: nat, probe: nat, shared: set<nat>, count: nat)
    requires Ascending(row) && i < |row| && SharedSoFar(arcs, row[..i], probe, shared, count)
    ensures (probe, row[i]) in arcs ==> SharedSoFar(arcs, row[..i + 1], probe, shared + {row[i]}, count + 1)
    ensures (probe, row[i]) !in arcs ==> SharedSoFar(arcs, row[..i + 1], probe, shared, count)
  {
    assert row[..i + 1] == row[..i] + [row[i]] && row[i] !in row[..i];
  }

  lemma AllShared(n: nat, arcs: set<Arc>, row: seq<nat>, scan: nat, probe: nat, shared: set<nat>, count: nat)
    requires Within(arcs, n) && forall w: nat :: w in row <==> (scan, w) in arcs
    requires SharedSoFar(arcs, row, probe, shared, count)
    ensures count == Common(n, arcs, arcs, scan, probe)
  {
    CommonIsCard(n, arcs, arcs, scan, probe);
    assert shared == set w: nat | w < n && (scan, w) in arcs && (probe, w) in arcs;
  }
}
