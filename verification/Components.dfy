/** Connected components of an undirected graph, labelled by repeated breadth-first search. */
module Components {
  import opened Collections
  import opened Distances
  import opened BreadthFirst
  import opened Csr

  /** The initial label, which no component can reach. */
  const UNLABELLED: nat := 0xFFFF_FFFF

  // ---------- Walks in a symmetric graph ----------

  ghost predicate Symmetric(arcs: set<Arc>)
  {
    forall u: nat, v: nat {:trigger (u, v) in arcs} | (u, v) in arcs :: (v, u) in arcs
  }

  lemma {:induction false} WalkAppend(arcs: set<Arc>, s: nat, u: nat, v: nat, j: nat, k: nat)
    requires Walk(arcs, s, u, j) && Walk(arcs, u, v, k)
    ensures Walk(arcs, s, v, j + k)
    decreases k
  {
    if k > 0 {
      var x: nat :| (x, v) in arcs && Walk(arcs, u, x, k - 1);
      WalkAppend(arcs, s, u, x, j, k - 1);
      assert Walk(arcs, s, v, (j + k - 1) + 1);
    }
  }

  lemma {:induction false} WalkReverse(arcs: set<Arc>, s: nat, v: nat, k: nat)
    requires Symmetric(arcs) && Walk(arcs, s, v, k)
    ensures Walk(arcs, v, s, k)
    decreases k
  {
    if k > 0 {
      var u: nat :| (u, v) in arcs && Walk(arcs, s, u, k - 1);
      WalkReverse(arcs, s, u, k - 1);
      assert Walk(arcs, v, v, 0) && (v, u) in arcs;
      assert Walk(arcs, v, u, 1);
      WalkAppend(arcs, v, u, s, 1, k - 1);
    }
  }

  lemma {:induction false} SameAlongWalks(arcs: set<Arc>, labels: seq<nat>, s: nat, v: nat, k: nat)
    requires Within(arcs, |labels|) && s < |labels| && v < |labels| && Walk(arcs, s, v, k)
    requires forall u: nat, x: nat {:trigger (u, x) in arcs} | (u, x) in arcs :: labels[u] == labels[x]
    ensures labels[s] == labels[v]
    decreases k
  {
    if k > 0 {
      var u: nat :| (u, v) in arcs && Walk(arcs, s, u, k - 1);
      SameAlongWalks(arcs, labels, s, u, k - 1);
    }
  }

  // ---------- What the labels mean ----------

  /** Labels name components: equal exactly when a path joins the vertices, and numbered 0, 1, 2, ... in
      the order of each component's least vertex, its leader. */
  ghost predicate LabelsComponents(arcs: set<Arc>, labels: seq<nat>, leaders: seq<nat>)
  {
    && (forall u: nat, v: nat | u < |labels| && v < |labels| :: labels[u] == labels[v] <==> Reachable(arcs, u, v))
    && Ascending(leaders)
    && (forall v: nat | v < |labels| :: labels[v] < |leaders| && leaders[labels[v]] <= v)
    && (forall c: nat | c < |leaders| :: leaders[c] < |labels| && labels[leaders[c]] == c)
  }

  /** Whole components below `next` are labelled; of the component of the last leader, the vertices listed in
      `order` are labelled, and the first `head` of these have labelled neighbours only. */
  ghost predicate Growing(arcs: set<Arc>, labels: seq<nat>, leaders: seq<nat>, start: nat, order: seq<nat>, head: nat)
  {
    var last := |leaders| - 1;
    && start < |labels| && 0 < |leaders| <= start + 1 && leaders[last] == start
    && Ascending(leaders) && head <= |order| && Distinct(order)
    && (forall v: nat | v < |labels| :: labels[v] == UNLABELLED || labels[v] <= last)
    && (forall v: nat | v < start :: labels[v] != UNLABELLED)
    && (forall v: nat | v < |labels| && labels[v] != UNLABELLED ::
        leaders[labels[v]] <= v && Reachable(arcs, leaders[labels[v]], v))
    && (forall c: nat | c < |leaders| :: leaders[c] < |labels| && labels[leaders[c]] == c)
    && (forall v: nat {:trigger v in order} | v < |labels| :: labels[v] == last <==> v in order)
    && (forall x | x in order :: x < |labels|)
    && (forall u: nat, v: nat {:trigger (u, v) in arcs} | (u, v) in arcs && u < |labels| && v < |labels| ::
        labels[u] < last ==> labels[v] == labels[u])
    && (forall i: nat, v: nat {:trigger (order[i], v) in arcs} | i < head && v < |labels| && (order[i], v) in arcs ::
        labels[v] == last)
  }

  lemma StartComponent(arcs: set<Arc>, labels: seq<nat>, leaders: seq<nat>, start: nat)
    requires Whole(arcs, labels, leaders, start) && start < |labels| <= UNLABELLED && labels[start] == UNLABELLED
    ensures Growing(arcs, labels[start := |leaders|], leaders + [start], start, [start], 0)
  {
    assert Walk(arcs, start, start, 0);
    var labels', leaders' := labels[start := |leaders|], leaders + [start];
    forall v: nat | v < |labels'| && labels'[v] != UNLABELLED
      ensures leaders'[labels'[v]] <= v && Reachable(arcs, leaders'[labels'[v]], v)
    {
      assert v != start ==> leaders'[labels'[v]] == leaders[labels[v]];
    }
  }

  /** All components with a vertex below `start` are labelled, and nothing else is. */
  ghost predicate Whole(arcs: set<Arc>, labels: seq<nat>, leaders: seq<nat>, start: nat)
  {
    && start <= |labels| && |leaders| <= start && Ascending(leaders)
    && (forall v: nat | v < |labels| :: labels[v] == UNLABELLED || labels[v] < |leaders|)
    && (forall v: nat | v < start :: labels[v] != UNLABELLED)
    && (forall v: nat | v < |labels| && labels[v] != UNLABELLED ::
        leaders[labels[v]] <= v && Reachable(arcs, leaders[labels[v]], v))
    && (forall c: nat | c < |leaders| :: leaders[c] < start && leaders[c] < |labels| && labels[leaders[c]] == c)
    && (forall u: nat, v: nat {:trigger (u, v) in arcs} | (u, v) in arcs && u < |labels| && v < |labels| ::
        labels[u] != UNLABELLED ==> labels[v] == labels[u])
  }

  lemma LabelNeighbour(arcs: set<Arc>, labels: seq<nat>, leaders: seq<nat>, start: nat, order: seq<nat>, head: nat,
                       v: nat)
    requires |labels| <= UNLABELLED && Growing(arcs, labels, leaders, start, order, head)
    requires head < |order| && v < |labels| && (order[head], v) in arcs && labels[v] == UNLABELLED
    ensures Growing(arcs, labels[v := |leaders| - 1], leaders, start, order + [v], head)
  {
    var last := |leaders| - 1;
    var u := order[head];
    assert u in order;
    var k: nat :| Walk(arcs, start, u, k);
    assert Walk(arcs, start, v, k + 1);
    assert v !in order;
    var labels', order' := labels[v := last], order + [v];
    forall x: nat | x < |labels'| && labels'[x] != UNLABELLED
      ensures leaders[labels'[x]] <= x && Reachable(arcs, leaders[labels'[x]], x)
    {
    }
    forall x: nat | x < |labels'|
      ensures labels'[x] == last <==> x in order'
    {
      assert x in order' <==> x in order || x == v;
    }
  }

  /** A neighbour that already has a label has the label being given out. */
  lemma LabelledNeighbour(arcs: set<Arc>, labels: seq<nat>, leaders: seq<nat>, start: nat, order: seq<nat>, head: nat,
                          v: nat)
    requires |labels| <= UNLABELLED && Symmetric(arcs) && Growing(arcs, labels, leaders, start, order, head)
    requires head < |order| && v < |labels| && (order[head], v) in arcs && labels[v] != UNLABELLED
    ensures labels[v] == |leaders| - 1
  {
    assert order[head] in order;
    assert (v, order[head]) in arcs;
  }

  /** Visit the row of the vertex at the head of the order: every unlabelled neighbour gets the label. */
  method LabelRow(row: seq<nat>, labels0: seq<nat>, order0: seq<nat>, cid: nat, ghost head: nat, ghost arcs: set<Arc>,
                  ghost leaders: seq<nat>,
                  ghost start: nat)
    returns (labels: seq<nat>, order: seq<nat>)
    requires |labels0| <= UNLABELLED && cid + 1 == |leaders| && Symmetric(arcs)
    requires Growing(arcs, labels0, leaders, start, order0, head) && head < |order0|
    requires forall v | v in row :: v < |labels0| && (order0[head], v) in arcs
    ensures |labels| == |labels0| && order0 <= order
    ensures Growing(arcs, labels, leaders, start, order, head)
    ensures forall v | v in row :: labels[v] == cid
  {
    labels, order := labels0, order0;
    var i := 0;
    while i < |row|
      invariant 0 <= i <= |row| && |labels| == |labels0| && order0 <= order
      invariant Growing(arcs, labels, leaders, start, order, head)
      invariant forall j | 0 <= j < i :: row[j] < |labels| && labels[row[j]] == cid
    {
      var v := row[i];
      assert v in row;
      labels, order := LabelOne(v, labels, order, cid, head, arcs, leaders, start);
      i := i + 1;
    }
  }

  method LabelOne(v: nat, labels0: seq<nat>, order0: seq<nat>, cid: nat, ghost head: nat, ghost arcs: set<Arc>,
                  ghost leaders: seq<nat>,
                  ghost start: nat)
    returns (labels: seq<nat>, order: seq<nat>)
    requires |labels0| <= UNLABELLED && cid + 1 == |leaders| && Symmetric(arcs)
    requires Growing(arcs, labels0, leaders, start, order0, head) && head < |order0|
    requires v < |labels0| && (order0[head], v) in arcs
    ensures |labels| == |labels0| && order0 <= order
    ensures Growing(arcs, labels, leaders, start, order, head)
    ensures labels[v] == cid && forall x: nat | x < |labels| && x != v :: labels[x] == labels0[x]
  {
    labels, order := labels0, order0;
    if labels[v] == UNLABELLED {
      LabelNeighbour(arcs, labels, leaders, start, order, head, v);
      labels, order := labels[v := cid], order + [v];
    } else {
      LabelledNeighbour(arcs, labels, leaders, start, order, head, v);
    }
  }

  lemma HeadDone(arcs: set<Arc>, labels: seq<nat>, leaders: seq<nat>, start: nat, order: seq<nat>, head: nat)
    requires Growing(arcs, labels, leaders, start, order, head) && head < |order|
    requires forall v: nat | v < |labels| && (order[head], v) in arcs :: labels[v] == |leaders| - 1
    ensures Growing(arcs, labels, leaders, start, order, head + 1)
  {
  }

  /** Label the whole component of an unlabelled vertex. */
  method LabelFrom(g: CsrGraph, labels0: seq<nat>, start: nat, cid: nat, ghost leaders: seq<nat>)
    returns (labels: seq<nat>)
    requires g.Valid() && !g.directed && |labels0| == g.vertexCount <= UNLABELLED && cid == |leaders|
    requires start < g.vertexCount && labels0[start] == UNLABELLED && Whole(g.Arcs(), labels0, leaders, start)
    ensures |labels| == |labels0| && Whole(g.Arcs(), labels, leaders + [start], start + 1)
  {
    StartComponent(g.Arcs(), labels0, leaders, start);
    labels := labels0[start := cid];
    var order: seq<nat>, head: nat := [start], 0;
    while head < |order|
      invariant |labels| == |labels0|
      invariant Growing(g.Arcs(), labels, leaders + [start], start, order, head)
      decreases |labels| - head
    {
      assert order[head] in order;
      labels, order := LabelRow(g.Neighbors(order[head]), labels, order, cid, head, g.Arcs(), leaders + [start], start);
      HeadDone(g.Arcs(), labels, leaders + [start], start, order, head);
      DistinctIsShort(order, |labels|);
      head := head + 1;
    }
    ComponentDone(g.Arcs(), labels, leaders + [start], start, order);
  }

  lemma ComponentDone(arcs: set<Arc>, labels: seq<nat>, leaders: seq<nat>, start: nat, order: seq<nat>)
    requires |labels| <= UNLABELLED && Growing(arcs, labels, leaders, start, order, |order|)
    ensures Whole(arcs, labels, leaders, start + 1)
  {
    var last := |leaders| - 1;
    forall u: nat, v: nat | (u, v) in arcs && u < |labels| && v < |labels| && labels[u] != UNLABELLED
      ensures labels[v] == labels[u]
    {
      if labels[u] == last {
        assert u in order;
        var i :| 0 <= i < |order| && order[i] == u;
        assert (order[i], v) in arcs;
      }
    }
  }

  lemma WholeGraphIsLabelled(arcs: set<Arc>, labels: seq<nat>, leaders: seq<nat>)
    requires Within(arcs, |labels|) && Symmetric(arcs) && Whole(arcs, labels, leaders, |labels|)
    ensures LabelsComponents(arcs, labels, leaders)
  {
    forall u: nat, v: nat | u < |labels| && v < |labels|
      ensures labels[u] == labels[v] <==> Reachable(arcs, u, v)
    {
      if labels[u] == labels[v] {
        var s := leaders[labels[u]];
        assert Reachable(arcs, s, u) && Reachable(arcs, s, v);
        var j: nat :| Walk(arcs, s, u, j);
        var k: nat :| Walk(arcs, s, v, k);
        WalkReverse(arcs, s, u, j);
        WalkAppend(arcs, u, s, v, j, k);
      }
      if k: nat :| Walk(arcs, u, v, k) {
        SameAlongWalks(arcs, labels, u, v, k);
      }
    }
  }

  /** Directed graphs are refused; otherwise the labels name the components in order of their least vertices. */
  method ConnectedComponents(g: CsrGraph) returns (r: Result<seq<nat>, string>, ghost leaders: seq<nat>)
    requires g.Valid() && g.vertexCount <= UNLABELLED
    ensures r.Failure? <==> g.directed
    ensures r.Success? ==> |r.value| == g.vertexCount && LabelsComponents(g.Arcs(), r.value, leaders)
  {
    leaders := [];
    if g.directed {
      return Failure("components need an undirected graph"), leaders;
    }
    var labels: seq<nat> := seq(g.vertexCount, _ => UNLABELLED);
    var cid := 0;
    var start := 0;
    while start < g.vertexCount
      invariant 0 <= start <= g.vertexCount && |labels| == g.vertexCount && cid == |leaders|
      invariant Whole(g.Arcs(), labels, leaders, start)
    {
      if labels[start] == UNLABELLED {
        labels := LabelFrom(g, labels, start, cid, leaders);
        leaders := leaders + [start];
        cid := cid + 1;
      }
      start := start + 1;
    }
    WholeGraphIsLabelled(g.Arcs(), labels, leaders);
    r := Success(labels);
  }
}
