/** The invariant shared by every breadth-first loop of the repository, with one lemma per step.
    `order` lists the vertices in the order they were discovered. */
module BreadthFirst {
  import opened Distances

  ghost predicate Distinct(xs: seq<nat>)
  {
    forall i, j | 0 <= i < j < |xs| :: xs[i] != xs[j]
  }

  ghost function Elements(xs: seq<nat>): set<nat>
  {
    set x | x in xs
  }

  lemma {:induction false} DistinctCardinality(xs: seq<nat>)
    requires Distinct(xs)
    ensures |Elements(xs)| == |xs|
  {
    if |xs| > 0 {
      var last := |xs| - 1;
      DistinctCardinality(xs[..last]);
      assert xs[last] !in xs[..last];
      assert Elements(xs) == Elements(xs[..last]) + {xs[last]};
    }
  }

  lemma DistinctIsShort(xs: seq<nat>, n: nat)
    requires Distinct(xs) && forall x | x in xs :: x < n
    ensures |xs| <= n
  {
    DistinctCardinality(xs);
    BoundedSet(Elements(xs), n);
  }

  /** The discovered vertices, in order of distance; d is the distance being expanded. */
  ghost predicate Ordered(dist: seq<nat>, order: seq<nat>, d: nat)
  {
    && (forall v: nat | v < |dist| :: dist[v] <= UNREACHABLE)
    && (forall v: nat {:trigger v in order} | v < |dist| :: dist[v] != UNREACHABLE <==> v in order)
    && (forall i | 0 <= i < |order| :: order[i] < |dist| && dist[order[i]] <= i && dist[order[i]] <= d + 1)
    && (forall i, j | 0 <= i < j < |order| :: dist[order[i]] <= dist[order[j]])
    && Distinct(order)
  }

  /** What holds while vertices at distance d are being expanded. */
  ghost predicate Frontier(arcs: set<Arc>, s: nat, dist: seq<nat>, order: seq<nat>, d: nat)
  {
    Ordered(dist, order, d) && Sound(arcs, s, dist) && s < |dist| && dist[s] == 0
  }

  /** The first `head` discovered vertices have been expanded. */
  ghost predicate Expanded(arcs: set<Arc>, dist: seq<nat>, order: seq<nat>, head: nat)
    requires head <= |order| && forall i | 0 <= i < |order| :: order[i] < |dist|
  {
    forall i: nat, v: nat | i < head && v < |dist| && (order[i], v) in arcs ::
      dist[v] != UNREACHABLE && dist[v] <= dist[order[i]] + 1
  }

  lemma Start(arcs: set<Arc>, s: nat, dist: seq<nat>)
    requires s < |dist| && forall v: nat | v < |dist| :: dist[v] == if v == s then 0 else UNREACHABLE
    ensures Frontier(arcs, s, dist, [s], 0) && Expanded(arcs, dist, [s], 0)
  {
  }

  /** Discovering an unvisited vertex never wraps the 32-bit counter and never produces the marker. */
  lemma Discover(arcs: set<Arc>, s: nat, dist: seq<nat>, order: seq<nat>, u: nat, v: nat)
    requires |dist| <= UNREACHABLE
    requires u < |dist| && v < |dist| && dist[u] != UNREACHABLE && dist[v] == UNREACHABLE && (u, v) in arcs
    requires Frontier(arcs, s, dist, order, dist[u])
    ensures Next(dist[u]) == dist[u] + 1 < UNREACHABLE
    ensures |order| < |dist|
    ensures Frontier(arcs, s, dist[v := dist[u] + 1], order + [v], dist[u])
  {
    DiscoverOrdered(dist, order, u, v);
    SoundAt(arcs, s, dist, u);
    assert Walk(arcs, s, v, dist[u] + 1);
    SoundUpdate(arcs, s, dist, v, dist[u] + 1);
  }

  lemma DiscoverOrdered(dist: seq<nat>, order: seq<nat>, u: nat, v: nat)
    requires |dist| <= UNREACHABLE
    requires u < |dist| && v < |dist| && dist[u] != UNREACHABLE && dist[v] == UNREACHABLE
    requires Ordered(dist, order, dist[u])
    ensures dist[u] + 1 < UNREACHABLE && |order| < |dist|
    ensures Ordered(dist[v := dist[u] + 1], order + [v], dist[u])
  {
    assert v !in order;
    assert Distinct(order + [v]);
    DistinctIsShort(order + [v], |dist|);
    assert u in order && v !in order;
    var i :| 0 <= i < |order| && order[i] == u;
    var dist', order' := dist[v := dist[u] + 1], order + [v];
    forall i | 0 <= i < |order'|
      ensures order'[i] < |dist'| && dist'[order'[i]] <= i && dist'[order'[i]] <= dist[u] + 1
    {
      assert i < |order| ==> order'[i] == order[i] && order[i] != v;
    }
  }

  lemma DiscoverKeepsExpanded(arcs: set<Arc>, dist: seq<nat>, order: seq<nat>, head: nat, v: nat, d: nat)
    requires head <= |order| && forall i | 0 <= i < |order| :: order[i] < |dist| && dist[order[i]] != UNREACHABLE
    requires Expanded(arcs, dist, order, head)
    requires v < |dist| && dist[v] == UNREACHABLE
    ensures Expanded(arcs, dist[v := d], order + [v], head)
  {
  }

  /** Visit the row of the vertex at the head of the order: every unvisited neighbour is discovered. */
  method VisitRow(row: seq<nat>, u: nat, dist0: seq<nat>, order0: seq<nat>, ghost head: nat, ghost arcs: set<Arc>,
                  ghost s: nat)
    returns (dist: seq<nat>, order: seq<nat>)
    requires |dist0| <= UNREACHABLE && u < |dist0| && dist0[u] != UNREACHABLE
    requires forall v | v in row && v < |dist0| :: (u, v) in arcs
    requires Frontier(arcs, s, dist0, order0, dist0[u])
    requires head <= |order0| && Expanded(arcs, dist0, order0, head)
    ensures |dist| == |dist0| && order0 <= order && dist[u] == dist0[u]
    ensures Frontier(arcs, s, dist, order, dist[u])
    ensures Expanded(arcs, dist, order, head)
    ensures forall v | v in row && v < |dist| :: dist[v] != UNREACHABLE
    ensures forall i | |order0| <= i < |order| :: order[i] in row
  {
    dist, order := dist0, order0;
    var i := 0;
    while i < |row|
      invariant 0 <= i <= |row|
      invariant |dist| == |dist0| && order0 <= order && dist[u] == dist0[u]
      invariant Frontier(arcs, s, dist, order, dist[u])
      invariant Expanded(arcs, dist, order, head)
      invariant forall v | v in row[..i] && v < |dist| :: dist[v] != UNREACHABLE
      invariant forall j | |order0| <= j < |order| :: order[j] in row
    {
      var v := row[i];
      assert v in row && row[..i + 1] == row[..i] + [v];
      if v < |dist| && dist[v] == UNREACHABLE {
        Discover(arcs, s, dist, order, u, v);
        DiscoverKeepsExpanded(arcs, dist, order, head, v, dist[u] + 1);
        dist, order := dist[v := Next(dist[u])], order + [v];
      }
      i := i + 1;
    }
    assert row[..i] == row;
  }

  /** Once its whole row is visited, the head of the order is expanded. */
  lemma NextHead(arcs: set<Arc>, s: nat, dist: seq<nat>, order: seq<nat>, head: nat)
    requires head < |order| && order[head] < |dist|
    requires Frontier(arcs, s, dist, order, dist[order[head]]) && Expanded(arcs, dist, order, head)
    requires forall v: nat | v < |dist| && (order[head], v) in arcs :: dist[v] != UNREACHABLE
    ensures Expanded(arcs, dist, order, head + 1)
    ensures head + 1 < |order| ==> Frontier(arcs, s, dist, order, dist[order[head + 1]])
  {
    forall i: nat, v: nat | i < head + 1 && v < |dist| && (order[i], v) in arcs
      ensures dist[v] != UNREACHABLE && dist[v] <= dist[order[i]] + 1
    {
      if i == head {
        assert v in order;
        var j :| 0 <= j < |order| && order[j] == v;
      }
    }
  }

  lemma Finish(arcs: set<Arc>, s: nat, dist: seq<nat>, order: seq<nat>, d: nat)
    requires Within(arcs, |dist|) && |dist| <= UNREACHABLE
    requires Frontier(arcs, s, dist, order, d) && Expanded(arcs, dist, order, |order|)
    ensures Exact(arcs, s, dist)
  {
    forall u: nat, v: nat | (u, v) in arcs && u < |dist| && v < |dist|
      ensures dist[v] <= dist[u] + 1
    {
      if dist[u] != UNREACHABLE {
        assert u in order;
        var i :| 0 <= i < |order| && order[i] == u;
      }
    }
    CertificateIsExact(arcs, s, dist);
  }
}
