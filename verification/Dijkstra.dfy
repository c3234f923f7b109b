/** Dijkstra's algorithm with lazy deletion: stale queue entries are skipped, sums are capped. */
module Dijkstra {
  import opened MinHeaps
  import opened WeightedPaths
  import opened Collections

  /** Arcs of a simple graph whose weights are finite labels themselves, so that no sum of a label and a
      weight can wrap. */
  ghost predicate WeightsFit(w: Weights, n: nat)
  {
    WithinRange(w, n) && forall u: nat, v: nat {:trigger (u, v) in w} | (u, v) in w :: w[(u, v)] < INFINITE && u != v
  }

  ghost predicate Labelled(w: Weights, s: nat, dist: seq<nat>)
  {
    Capped(dist) && Sound(w, s, dist)
  }

  function Targets(w: Weights, u: nat): (row: set<nat>)
    ensures forall v: nat :: v in row <==> (u, v) in w
  {
    set a | a in w && a.0 == u :: a.1
  }

  lemma LowerKeepsLabels(w: Weights, s: nat, dist: seq<nat>, u: nat, v: nat, d: nat)
    requires Labelled(w, s, dist) && u < |dist| && v < |dist| && dist[u] != INFINITE
    requires (u, v) in w && d == dist[u] + w[(u, v)] < dist[v]
    ensures Labelled(w, s, dist[v := d])
    ensures Sum(dist[v := d]) < Sum(dist)
  {
    SumUpdate(dist, v, d);
    var hops, e := SoundAt(w, s, dist, u);
    assert WeightedWalk(w, s, v, hops + 1, e + w[(u, v)]);
    assert PathWeight(w, s, v, e + w[(u, v)]);
    assert Reached(w, s, v, d);
    var after := dist[v := d];
    forall x: nat | x < |after| && after[x] != INFINITE
      ensures Reached(w, s, x, after[x])
    {
      assert x != v ==> Reached(w, s, x, dist[x]);
    }
  }

  /** Lowering a label and pushing it keeps every violated arc covered by the queue. */
  lemma LowerKeepsSettled(w: Weights, dist: seq<nat>, heap: multiset<Item>, u: nat, excused: set<Arc>, v: nat, d: nat)
    requires Settled(w, dist, OpenInHeap(heap, dist) + {u}, excused) && v < |dist| && d < dist[v]
    ensures Settled(w, dist[v := d], OpenInHeap(heap + multiset{(d, v)}, dist[v := d]) + {u}, excused)
  {
    PushKeepsOpen(heap, dist, v, d);
  }

  /** Some arcs leaving u have been relaxed from its settled label. */
  ghost predicate TargetsSoFar(w: Weights, met: set<nat>, u: nat, dist: seq<nat>, dist0: seq<nat>, heap: multiset<Item>,
                               heap0: multiset<Item>, s: nat)
  {
    && u < |dist| == |dist0| && dist[u] == dist0[u] != INFINITE && Labelled(w, s, dist)
    && Settled(w, dist, OpenInHeap(heap, dist) + {u}, {}) && Lowered(dist, dist0)
    && (forall v | v in met :: v < |dist| && (u, v) in w && dist[v] <= dist0[u] + w[(u, v)])
    && (Sum(dist) < Sum(dist0) || (dist == dist0 && heap == heap0)) && NoneInfinite(heap)
  }

  ghost predicate Lowered(dist: seq<nat>, dist0: seq<nat>)
  {
    |dist| == |dist0| && forall v: nat | v < |dist| :: dist[v] <= dist0[v]
  }

  ghost predicate NoneInfinite(heap: multiset<Item>)
  {
    forall item | item in heap :: item.0 != INFINITE
  }

  lemma TargetStep(w: Weights, met: set<nat>, u: nat, v: nat, dist: seq<nat>, dist0: seq<nat>, heap: multiset<Item>,
                   heap0: multiset<Item>, s: nat)
    requires TargetsSoFar(w, met, u, dist, dist0, heap, heap0, s)
    requires (u, v) in w && v < |dist| && v != u
    ensures dist[v] <= INFINITE
    ensures var candidate := dist0[u] + w[(u, v)];
      if candidate < dist[v] then
        TargetsSoFar(w, met + {v}, u, dist[v := candidate], dist0, heap + multiset{(candidate, v)}, heap0, s)
      else
        TargetsSoFar(w, met + {v}, u, dist, dist0, heap, heap0, s)
  {
    var candidate := dist0[u] + w[(u, v)];
    if candidate < dist[v] {
      LowerKeepsLabels(w, s, dist, u, v, candidate);
      LowerKeepsSettled(w, dist, heap, u, {}, v, candidate);
    }
  }

  /** Relax one arc, unless the sum would overflow. */
  method RelaxTarget(w: Weights, ghost met: set<nat>, u: nat, v: nat, dist1: seq<nat>, ghost dist0: seq<nat>,
                     heap1: multiset<Item>, ghost heap0: multiset<Item>, ghost s: nat)
    returns (dist: seq<nat>, heap: multiset<Item>)
    requires TargetsSoFar(w, met, u, dist1, dist0, heap1, heap0, s)
    requires (u, v) in w && v < |dist1| && v != u
    ensures TargetsSoFar(w, met + {v}, u, dist, dist0, heap, heap0, s)
  {
    dist, heap := dist1, heap1;
    var weight := w[(u, v)];
    TargetStep(w, met, u, v, dist, dist0, heap, heap0, s);
    if weight <= INFINITE - dist[u] {
      var candidate := dist[u] + weight;
      if candidate < dist[v] {
        dist := dist[v := candidate];
        heap := heap + multiset{(candidate, v)};
      }
    }
  }

  /** Relax every arc leaving u from its settled label. */
  method RelaxTargets(w: Weights, u: nat, dist0: seq<nat>, heap0: multiset<Item>, ghost s: nat)
    returns (dist: seq<nat>, heap: multiset<Item>)
    requires WeightsFit(w, |dist0|) && Labelled(w, s, dist0)
    requires u < |dist0| && dist0[u] != INFINITE
    requires Settled(w, dist0, OpenInHeap(heap0, dist0) + {u}, {})
    requires NoneInfinite(heap0)
    ensures Labelled(w, s, dist) && Settled(w, dist, OpenInHeap(heap, dist), {})
    ensures Lowered(dist, dist0)
    ensures Sum(dist) < Sum(dist0) || (dist == dist0 && heap == heap0)
    ensures NoneInfinite(heap)
  {
    dist, heap := dist0, heap0;
    var row := Targets(w, u);
    var pending := row;
    ghost var met: set<nat> := {};
    while pending != {}
      invariant met + pending == row && TargetsSoFar(w, met, u, dist, dist0, heap, heap0, s)
    {
      var v :| v in pending;
      assert v in row;
      dist, heap := RelaxTarget(w, met, u, v, dist, dist0, heap, heap0, s);
      pending, met := pending - {v}, met + {v};
    }
    AllTargetsMet(w, row, u, dist, dist0, heap, heap0, s);
  }

  lemma AllTargetsMet(w: Weights, row: set<nat>, u: nat, dist: seq<nat>, dist0: seq<nat>, heap: multiset<Item>,
                      heap0: multiset<Item>, s: nat)
    requires TargetsSoFar(w, row, u, dist, dist0, heap, heap0, s) && row == Targets(w, u)
    ensures Settled(w, dist, OpenInHeap(heap, dist), {})
  {
  }

  /** Drain the queue: afterwards every arc is relaxed. It terminates because every push lowers a label and
      every stale item shortens the queue. */
  method Propagate(w: Weights, dist0: seq<nat>, heap0: multiset<Item>, ghost s: nat) returns (dist: seq<nat>)
    requires WeightsFit(w, |dist0|) && Labelled(w, s, dist0)
    requires Settled(w, dist0, OpenInHeap(heap0, dist0), {})
    requires forall item | item in heap0 :: item.0 != INFINITE
    ensures |dist| == |dist0| && Labelled(w, s, dist) && Settled(w, dist, {}, {})
    ensures forall v: nat | v < |dist| :: dist[v] <= dist0[v]
    ensures heap0 == multiset{} ==> dist == dist0
  {
    dist := dist0;
    var heap := heap0;
    while heap != multiset{}
      invariant |dist| == |dist0| && Labelled(w, s, dist)
      invariant Settled(w, dist, OpenInHeap(heap, dist), {})
      invariant forall v: nat | v < |dist| :: dist[v] <= dist0[v]
      invariant heap0 == multiset{} ==> dist == dist0 && heap == multiset{}
      invariant forall item | item in heap :: item.0 != INFINITE
      decreases Sum(dist), |heap|
    {
      var top, rest := PopMin(heap);
      PopKeepsOpen(heap, rest, top, dist);
      var (d, u) := top;
      if u < |dist| && d == dist[u] {
        SettledMonotone(w, dist, OpenInHeap(heap, dist), OpenInHeap(rest, dist) + {u});
        dist, heap := RelaxTargets(w, u, dist, rest, s);
      } else {
        SettledMonotone(w, dist, OpenInHeap(heap, dist), OpenInHeap(rest, dist));
        heap := rest;
      }
    }
    assert OpenInHeap(heap, dist) == {};
  }

  lemma SettledMonotone(w: Weights, dist: seq<nat>, open: set<nat>, more: set<nat>)
    requires Settled(w, dist, open, {}) && open <= more
    ensures Settled(w, dist, more, {})
  {
  }

  /** From scratch: for every vertex the smaller of INFINITE and the least path weight. */
  method SerialDijkstra(w: Weights, n: nat, source: nat) returns (dist: seq<nat>)
    requires WeightsFit(w, n)
    ensures |dist| == n && Labelled(w, source, dist) && Exact(w, source, dist)
  {
    dist := seq(n, _ => INFINITE);
    if source >= n {
      CertificateIsExact(w, source, dist);
      return;
    }
    dist := dist[source := 0];
    assert WeightedWalk(w, source, source, 0, 0);
    assert PathWeight(w, source, source, 0);
    assert Reached(w, source, source, 0);
    dist := Propagate(w, dist, multiset{(0, source)}, source);
    CertificateIsExact(w, source, dist);
  }
}
