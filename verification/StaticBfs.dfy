/** Breadth-first search over the packed graph. */
module StaticBfs {
  import opened Collections
  import opened Distances
  import opened DynamicGraphs
  import opened BreadthFirst
  import opened Csr

  /** The arcs between the first n vertices. */
  ghost function Inside(arcs: set<Arc>, n: nat): set<Arc>
  {
    set a | a in arcs && a.0 < n && a.1 < n
  }

  /** Search from the source, looking only at the first `declared` vertices. */
  method Traverse(g: CsrGraph, source: nat, declared: nat) returns (dist: seq<nat>)
    requires g.Valid() && declared <= UNREACHABLE && source < g.vertexCount && source < declared
    ensures |dist| == declared && Exact(Inside(g.Arcs(), declared), source, dist)
  {
    ghost var arcs := Inside(g.Arcs(), declared);
    dist := seq(declared, _ => UNREACHABLE);
    dist := dist[source := 0];
    var order: seq<nat>, head: nat := [source], 0;
    Start(arcs, source, dist);
    while head < |order|
      invariant |dist| == declared && head <= |order|
      invariant forall i | 0 <= i < |order| ::
        order[i] < |dist| && order[i] < g.vertexCount && dist[order[i]] != UNREACHABLE
      invariant head < |order| ==> Frontier(arcs, source, dist, order, dist[order[head]])
      invariant head == |order| ==> exists d: nat :: Frontier(arcs, source, dist, order, d)
      invariant Expanded(arcs, dist, order, head)
      decreases declared - head
    {
      var u := order[head];
      var row := g.Neighbors(u);
      ghost var order0 := order;
      dist, order := VisitRow(row, u, dist, order, head, arcs, source);
      NextHead(arcs, source, dist, order, head);
      DistinctIsShort(order, |dist|);
      forall i | 0 <= i < |order|
        ensures order[i] < g.vertexCount
      {
        assert i >= |order0| ==> order[i] in row;
      }
      head := head + 1;
    }
    ghost var d: nat :| Frontier(arcs, source, dist, order, d);
    Finish(arcs, source, dist, order, d);
  }

  /** Distances from the source; a source outside the graph is an error. */
  method BfsDistances(g: CsrGraph, source: nat) returns (r: Result<seq<nat>, string>)
    requires g.Valid() && g.vertexCount <= UNREACHABLE
    ensures r.Failure? <==> source >= g.vertexCount
    ensures r.Success? ==> |r.value| == g.vertexCount && Exact(g.Arcs(), source, r.value)
    ensures r.Success? ==> forall v: nat | v < |r.value| ::
      r.value[v] == UNREACHABLE <==> !Reachable(g.Arcs(), source, v)
  {
    if source >= g.vertexCount {
      return Failure("source vertex out of range");
    }
    var dist := Traverse(g, source, g.vertexCount);
    assert Inside(g.Arcs(), g.vertexCount) == g.Arcs() by {
      forall a | a in g.Arcs()
        ensures a in Inside(g.Arcs(), g.vertexCount)
      {
        assert (a.0, a.1) in g.Arcs();
      }
    }
    MarkerMeansUnreachable(g.Arcs(), source, dist);
    r := Success(dist);
  }

  /** With at most 2^32 - 1 vertices no true distance equals the marker. */
  lemma MarkerMeansUnreachable(arcs: set<Arc>, s: nat, dist: seq<nat>)
    requires Within(arcs, |dist|) && |dist| <= 0xFFFF_FFFF && Exact(arcs, s, dist)
    ensures forall v: nat | v < |dist| :: dist[v] == 0xFFFF_FFFF <==> !Reachable(arcs, s, v)
  {
    forall v: nat | v < |dist|
      ensures dist[v] == 0xFFFF_FFFF <==> !Reachable(arcs, s, v)
    {
      EntryIsWalk(arcs, s, dist, v);
      if Reachable(arcs, s, v) {
        DistBelowVertexCount(arcs, s, v, |dist|);
      }
    }
  }

  /** The rebuild-and-search variant: a source without a row in the packed graph is left unreachable, even
      when it is one of the declared vertices. */
  method CsrBfs(g: CsrGraph, source: nat, declared: nat) returns (dist: seq<nat>)
    requires g.Valid() && declared <= UNREACHABLE && (source < g.vertexCount ==> source < declared)
    ensures |dist| == declared
    ensures Exact(Inside(g.Arcs(), declared), source, dist) <==> source < g.vertexCount || source >= declared
  {
    if source >= g.vertexCount {
      dist := seq(declared, _ => UNREACHABLE);
      ghost var arcs := Inside(g.Arcs(), declared);
      if source >= declared {
        CertificateIsExact(arcs, source, dist);
      } else {
        assert Walk(arcs, source, source, 0);
        DistIsLeast(arcs, source, source, 0);
        assert dist[source] != Dist(arcs, source, source);
      }
      return;
    }
    dist := Traverse(g, source, declared);
  }

  /** The failing family, concretely: the graph of the single edge (0, 1) has no row for the declared root 2. */
  method RootWithoutRow() returns (g: CsrGraph, dist: seq<nat>)
    ensures g.Valid() && g.Arcs() == {(0, 1)} && !Exact(Inside(g.Arcs(), 3), 2, dist)
  {
    g := Build([(0, 1)], true);
    assert ArcsOf([(0, 1)], true) == {(0, 1)};
    assert (0, 1) in g.Arcs();
    dist := CsrBfs(g, 2, 3);
  }
}
