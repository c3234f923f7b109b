/** Maintained weighted distances: batches that only add edges or lower weights are relaxed in place, all
    others are recomputed. */
module IncrementalSssp {
  import opened MinHeaps
  import opened WeightedPaths
  import opened Dijkstra
  import opened DynamicGraphs
  import Distances
  import opened Collections

  datatype WeightedUpdate = WeightedUpdate(src: nat, dst: nat, weight: nat, add: bool)

  datatype WeightedGraph = WeightedGraph(directed: bool, vertexCount: nat, weights: Weights)

  ghost predicate SimpleWeighted(g: WeightedGraph)
  {
    && WeightsFit(g.weights, g.vertexCount)
    && (!g.directed ==> forall u: nat, v: nat {:trigger (u, v) in g.weights} | (u, v) in g.weights ::
          (v, u) in g.weights && g.weights[(v, u)] == g.weights[(u, v)])
  }

  function SetWeight(w: Weights, a: Arc, op: WeightedUpdate): Weights
  {
    if op.add then w[a := op.weight] else w - {a}
  }

  function ApplyOneWeighted(g: WeightedGraph, op: WeightedUpdate): WeightedGraph
  {
    if op.src == op.dst then g
    else
      var once := SetWeight(g.weights, (op.src, op.dst), op);
      WeightedGraph(g.directed, Max(g.vertexCount, Max(op.src, op.dst) + 1),
                    if g.directed then once else SetWeight(once, (op.dst, op.src), op))
  }

  function ApplyAllWeighted(g: WeightedGraph, ops: seq<WeightedUpdate>): WeightedGraph
  {
    if ops == [] then g else ApplyOneWeighted(ApplyAllWeighted(g, ops[..|ops| - 1]), ops[|ops| - 1])
  }

  /** No added weight leaves the finite range; self-loops are ignored and may carry anything. */
  predicate Representable(ops: seq<WeightedUpdate>)
  {
    forall op | op in ops :: op.src != op.dst && op.add ==> op.weight < INFINITE
  }

  lemma {:induction false} ApplyKeepsWeighted(g: WeightedGraph, ops: seq<WeightedUpdate>)
    requires SimpleWeighted(g) && Representable(ops)
    ensures SimpleWeighted(ApplyAllWeighted(g, ops)) && ApplyAllWeighted(g, ops).directed == g.directed
    ensures ApplyAllWeighted(g, ops).vertexCount >= g.vertexCount
  {
    if ops != [] {
      ApplyKeepsWeighted(g, ops[..|ops| - 1]);
      assert ops[|ops| - 1] in ops;
    }
  }

  // ---------- The last operation on each edge ----------

  /** The operation with its endpoints in key order. */
  function Normalised(op: WeightedUpdate, directed: bool): WeightedUpdate
  {
    if !directed && op.dst < op.src then op.(src := op.dst, dst := op.src) else op
  }

  function LastWeighted(ops: seq<WeightedUpdate>, directed: bool, key: Arc): Option<WeightedUpdate>
  {
    if ops == [] then None
    else
      var op := ops[|ops| - 1];
      if op.src != op.dst && Key(directed, op.src, op.dst) == key then Some(Normalised(op, directed))
      else LastWeighted(ops[..|ops| - 1], directed, key)
  }

  lemma {:induction false} LastWeightWins(g: WeightedGraph, ops: seq<WeightedUpdate>, u: nat, v: nat)
    requires u != v
    ensures var after := ApplyAllWeighted(g, ops);
            && after.directed == g.directed
            && match LastWeighted(ops, g.directed, Key(g.directed, u, v))
               case None => ((u, v) in after.weights <==> (u, v) in g.weights) &&
                            ((u, v) in g.weights ==> after.weights[(u, v)] == g.weights[(u, v)])
               case Some(op) => ((u, v) in after.weights <==> op.add) && (op.add ==> after.weights[(u, v)] == op.weight)
  {
    if ops != [] {
      LastWeightWins(g, ops[..|ops| - 1], u, v);
    }
  }

  /** The canonical batch: the last operation of every key, once, in key order of endpoints. */
  ghost predicate Canonical(out: seq<WeightedUpdate>, ops: seq<WeightedUpdate>, directed: bool)
  {
    && (forall op | op in out :: op.src != op.dst && Key(directed, op.src, op.dst) == (op.src, op.dst) &&
          LastWeighted(ops, directed, (op.src, op.dst)) == Some(op))
    && (forall key | LastWeighted(ops, directed, key) != None :: LastWeighted(ops, directed, key).value in out)
  }

  method Canonicalize(ops: seq<WeightedUpdate>, directed: bool) returns (out: seq<WeightedUpdate>)
    ensures Canonical(out, ops, directed)
  {
    out := [];
    var seen: set<Arc> := {};
    var i := |ops|;
    assert ops[..i] == ops;
    while i > 0
      invariant 0 <= i <= |ops|
      invariant forall key :: key !in seen ==> LastWeighted(ops, directed, key) == LastWeighted(ops[..i], directed, key)
      invariant forall key ::
        key in seen ==> LastWeighted(ops, directed, key) != None && LastWeighted(ops, directed, key).value in out
      invariant forall op | op in out :: op.src != op.dst && Key(directed, op.src, op.dst) == (op.src, op.dst) &&
                  LastWeighted(ops, directed, (op.src, op.dst)) == Some(op)
    {
      i := i - 1;
      assert ops[..i + 1][..i] == ops[..i];
      if ops[i].src == ops[i].dst {
        continue;
      }
      var op := Normalised(ops[i], directed);
      var key := Key(directed, op.src, op.dst);
      assert key == Key(directed, ops[i].src, ops[i].dst) == (op.src, op.dst);
      if key !in seen {
        seen := seen + {key};
        out := [op] + out;
      }
    }
    assert ops[..0] == [];
  }

  // ---------- When relaxation is enough ----------

  /** A final operation removes a present edge or raises its weight. */
  ghost predicate NeedsRecompute(g: WeightedGraph, ops: seq<WeightedUpdate>)
  {
    exists key :: key in g.weights && match LastWeighted(ops, g.directed, key)
      case None => false
      case Some(op) => !op.add || op.weight > g.weights[key]
  }

  /** No arc disappears and no weight grows. */
  ghost predicate Improves(before: Weights, after: Weights)
  {
    forall u: nat, v: nat {:trigger (u, v) in before} | (u, v) in before ::
      (u, v) in after && after[(u, v)] <= before[(u, v)]
  }

  lemma {:induction false} ImprovedWalk(before: Weights, after: Weights, s: nat, v: nat, hops: nat, d: nat)
    returns (e: nat)
    requires Improves(before, after) && WeightedWalk(before, s, v, hops, d)
    ensures e <= d && WeightedWalk(after, s, v, hops, e)
    decreases hops
  {
    if hops == 0 {
      e := 0;
    } else {
      var u: nat :| (u, v) in before && before[(u, v)] <= d && WeightedWalk(before, s, u, hops - 1, d - before[(u, v)]);
      var f := ImprovedWalk(before, after, s, u, hops - 1, d - before[(u, v)]);
      e := f + after[(u, v)];
      assert WeightedWalk(after, s, v, hops, e);
    }
  }

  /** The arcs that the canonical additions touch. */
  ghost function TouchedArcs(out: seq<WeightedUpdate>, directed: bool): set<Arc>
  {
    (set op | op in out && op.add :: (op.src, op.dst))
    + if directed then {} else set op | op in out && op.add :: (op.dst, op.src)
  }

  /** Without a recompute trigger the batch only improves the graph, and only touched arcs change. */
  lemma QuietBatchImproves(g: WeightedGraph, ops: seq<WeightedUpdate>, out: seq<WeightedUpdate>)
    requires SimpleWeighted(g) && Canonical(out, ops, g.directed) && !NeedsRecompute(g, ops)
    ensures var after := ApplyAllWeighted(g, ops).weights;
            && Improves(g.weights, after)
            && forall u: nat, v: nat {:trigger (u, v) in after} | (u, v) in after && u != v ::
                 (u, v) in TouchedArcs(out, g.directed) || ((u, v) in g.weights && after[(u, v)] == g.weights[(u, v)])
  {
    var after := ApplyAllWeighted(g, ops).weights;
    forall u: nat, v: nat | u != v
      ensures (u, v) in g.weights ==> (u, v) in after && after[(u, v)] <= g.weights[(u, v)]
      ensures (u, v) in after ==>
        (u, v) in TouchedArcs(out, g.directed) || ((u, v) in g.weights && after[(u, v)] == g.weights[(u, v)])
    {
      QuietArc(g, ops, out, u, v);
    }
  }

  lemma QuietArc(g: WeightedGraph, ops: seq<WeightedUpdate>, out: seq<WeightedUpdate>, u: nat, v: nat)
    requires SimpleWeighted(g) && Canonical(out, ops, g.directed) && !NeedsRecompute(g, ops) && u != v
    ensures var after := ApplyAllWeighted(g, ops).weights;
            && ((u, v) in g.weights ==> (u, v) in after && after[(u, v)] <= g.weights[(u, v)])
            && ((u, v) in after ==>
                 (u, v) in TouchedArcs(out, g.directed) || ((u, v) in g.weights && after[(u, v)] == g.weights[(u, v)]))
  {
    LastWeightWins(g, ops, u, v);
    var key := Key(g.directed, u, v);
    assert (u, v) in g.weights ==> key in g.weights && g.weights[key] == g.weights[(u, v)];
    if LastWeighted(ops, g.directed, key) != None {
      var op := LastWeighted(ops, g.directed, key).value;
      assert op in out;
      LastHasKey(ops, g.directed, key);
    }
  }

  lemma {:induction false} LastHasKey(ops: seq<WeightedUpdate>, directed: bool, key: Arc)
    requires LastWeighted(ops, directed, key) != None
    ensures var op := LastWeighted(ops, directed, key).value; (op.src, op.dst) == key && op.src != op.dst
  {
    var last := |ops| - 1;
    if !(ops[last].src != ops[last].dst && Key(directed, ops[last].src, ops[last].dst) == key) {
      LastHasKey(ops[..last], directed, key);
    }
  }

  // ---------- The maintained labels ----------

  class WeightedDynamicGraph {
    const directed: bool
    var vertexCount: nat
    var weights: Weights

    constructor (vertices: nat, directed: bool)
      ensures Value() == WeightedGraph(directed, vertices, map[])
    {
      this.directed := directed;
      vertexCount, weights := vertices, map[];
    }

    ghost function Value(): WeightedGraph
      reads this
    {
      WeightedGraph(directed, vertexCount, weights)
    }

    /** Validate the whole batch before changing anything. */
    method Apply(ops: seq<WeightedUpdate>) returns (ok: bool)
      modifies this`vertexCount, this`weights
      ensures ok <==> Representable(ops)
      ensures Value() == if ok then ApplyAllWeighted(old(Value()), ops) else old(Value())
    {
      ok := Validate(ops);
      if !ok {
        return;
      }
      var i := 0;
      while i < |ops|
        invariant 0 <= i <= |ops|
        invariant Value() == ApplyAllWeighted(old(Value()), ops[..i])
      {
        var op := ops[i];
        assert ops[..i + 1][..i] == ops[..i];
        if op.src != op.dst {
          vertexCount := Max(vertexCount, Max(op.src, op.dst) + 1);
          weights := SetWeight(weights, (op.src, op.dst), op);
          if !directed {
            weights := SetWeight(weights, (op.dst, op.src), op);
          }
        }
        i := i + 1;
      }
      assert ops[..i] == ops;
    }
  }

  method Validate(ops: seq<WeightedUpdate>) returns (ok: bool)
    ensures ok <==> Representable(ops)
  {
    var i := 0;
    while i < |ops|
      invariant 0 <= i <= |ops|
      invariant Representable(ops[..i])
    {
      if ops[i].src != ops[i].dst && ops[i].add && ops[i].weight >= INFINITE {
        assert ops[i] in ops;
        return false;
      }
      assert ops[..i + 1] == ops[..i] + [ops[i]];
      i := i + 1;
    }
    assert ops[..i] == ops;
    return true;
  }

  /** Offer the label of u to v along their arc. */
  method RelaxOne(w: Weights, u: nat, v: nat, dist0: seq<nat>, heap0: multiset<Item>, ghost s: nat,
                  ghost excused: set<Arc>, ghost rest: set<Arc>)
    returns (dist: seq<nat>, heap: multiset<Item>)
    requires WeightsFit(w, |dist0|) && Labelled(w, s, dist0) && (u, v) in w
    requires Settled(w, dist0, OpenInHeap(heap0, dist0), excused) && excused - {(u, v)} <= rest
    requires forall item | item in heap0 :: item.0 != INFINITE
    ensures |dist| == |dist0| && Labelled(w, s, dist) && Settled(w, dist, OpenInHeap(heap, dist), rest)
    ensures forall x: nat | x < |dist| :: dist[x] <= dist0[x]
    ensures dist0[u] == INFINITE ==> dist == dist0 && heap == heap0
    ensures forall item | item in heap :: item.0 != INFINITE
  {
    dist, heap := dist0, heap0;
    var weight := w[(u, v)];
    if dist[u] != INFINITE && weight <= INFINITE - dist[u] {
      var candidate := dist[u] + weight;
      if candidate < dist[v] {
        LowerKeepsLabels(w, s, dist, u, v, candidate);
        PushKeepsOpen(heap, dist, v, candidate);
        dist := dist[v := candidate];
        heap := heap + multiset{(candidate, v)};
      }
    }
  }

  ghost predicate NothingReached(dist: seq<nat>)
  {
    forall v: nat | v < |dist| :: dist[v] == INFINITE
  }

  /** Relax the touched arcs, then propagate. */
  method RelaxFromUpdates(w: Weights, directed: bool, out: seq<WeightedUpdate>, dist0: seq<nat>, ghost s: nat)
    returns (dist: seq<nat>)
    requires WeightsFit(w, |dist0|) && Labelled(w, s, dist0)
    requires forall a | a in TouchedArcs(out, directed) :: a in w
    requires Settled(w, dist0, {}, TouchedArcs(out, directed))
    ensures |dist| == |dist0| && Labelled(w, s, dist) && Settled(w, dist, {}, {})
    ensures forall v: nat | v < |dist| :: dist[v] <= dist0[v]
    ensures NothingReached(dist0) ==> dist == dist0
  {
    dist := dist0;
    var heap: multiset<Item> := multiset{};
    var i := 0;
    assert out[0..] == out;
    while i < |out|
      invariant 0 <= i <= |out| && |dist| == |dist0| && Labelled(w, s, dist)
      invariant Settled(w, dist, OpenInHeap(heap, dist), TouchedArcs(out[i..], directed))
      invariant forall v: nat | v < |dist| :: dist[v] <= dist0[v]
      invariant NothingReached(dist0) ==> dist == dist0 && heap == multiset{}
      invariant forall item | item in heap :: item.0 != INFINITE
    {
      var op := out[i];
      TouchedStep(out, directed, i);
      if op.add {
        ghost var excused, rest := TouchedArcs(out[i..], directed), TouchedArcs(out[i + 1..], directed);
        dist, heap := RelaxOne(w, op.src, op.dst, dist, heap, s, excused,
                               if directed then rest else rest + {(op.dst, op.src)});
        if !directed {
          dist, heap := RelaxOne(w, op.dst, op.src, dist, heap, s, rest + {(op.dst, op.src)}, rest);
        }
      }
      i := i + 1;
    }
    assert TouchedArcs(out[i..], directed) == {};
    dist := Propagate(w, dist, heap, s);
  }

  lemma TouchedStep(out: seq<WeightedUpdate>, directed: bool, i: nat)
    requires i < |out|
    ensures var op := out[i]; var excused, rest := TouchedArcs(out[i..], directed), TouchedArcs(out[i + 1..], directed);
            && (op.add ==> (op.src, op.dst) in TouchedArcs(out, directed))
            && (op.add && !directed ==> (op.dst, op.src) in TouchedArcs(out, directed))
            && (op.add ==> excused <= rest + {(op.src, op.dst)} + if directed then {} else {(op.dst, op.src)})
            && (!op.add ==> excused <= rest)
  {
    assert out[i..] == [out[i]] + out[i + 1..];
    assert out[i] in out;
  }

  class IncrementalWeightedSssp {
    const graph: WeightedDynamicGraph
    const source: nat
    var dist: seq<nat>

    /** The labels are the capped distances of the current graph. */
    ghost predicate Valid()
      reads this, graph
    {
      && SimpleWeighted(graph.Value())
      && |dist| == graph.vertexCount
      && Labelled(graph.weights, source, dist)
      && Exact(graph.weights, source, dist)
    }

    constructor (graph: WeightedDynamicGraph, source: nat)
      requires SimpleWeighted(graph.Value())
      ensures Valid() && this.graph == graph && this.source == source
    {
      this.graph := graph;
      this.source := source;
      dist := [];
      new;
      Recompute();
    }

    method Recompute()
      requires SimpleWeighted(graph.Value())
      modifies this`dist
      ensures Valid()
    {
      dist := SerialDijkstra(graph.weights, graph.vertexCount, source);
    }

    /** Look for a final operation that removes a present edge or raises its weight. */
    method RequiresRecompute(out: seq<WeightedUpdate>, ghost ops: seq<WeightedUpdate>) returns (needed: bool)
      requires Canonical(out, ops, graph.directed) && SimpleWeighted(graph.Value())
      ensures needed <==> NeedsRecompute(graph.Value(), ops)
    {
      var i := 0;
      while i < |out|
        invariant 0 <= i <= |out|
        invariant forall op | op in out[..i] && (op.src, op.dst) in graph.weights ::
          op.add && op.weight <= graph.weights[(op.src, op.dst)]
      {
        var op := out[i];
        assert op in out && out[..i + 1] == out[..i] + [op];
        if (op.src, op.dst) in graph.weights && (!op.add || op.weight > graph.weights[(op.src, op.dst)]) {
          return true;
        }
        i := i + 1;
      }
      assert out[..i] == out;
      forall key | key in graph.weights && LastWeighted(ops, graph.directed, key) != None
        ensures var op := LastWeighted(ops, graph.directed, key).value; op.add && op.weight <= graph.weights[key]
      {
        LastHasKey(ops, graph.directed, key);
      }
      return false;
    }

    /** Bring the labels up to date. A batch with an unrepresentable weight is refused and changes nothing.
        Otherwise the labels are exact, unless the batch is relaxed in place and itself makes room for a source
        that was outside the graph: the code then never labels the source. */
    method Apply(ops: seq<WeightedUpdate>) returns (ok: bool)
      requires Valid()
      modifies this`dist, graph`vertexCount, graph`weights
      ensures ok <==> Representable(ops)
      ensures graph.Value() == if ok then ApplyAllWeighted(old(graph.Value()), ops) else old(graph.Value())
      ensures !ok ==> dist == old(dist) && Valid()
      ensures ok ==> (Valid() <==>
        source < old(graph.vertexCount) || source >= graph.vertexCount || NeedsRecompute(old(graph.Value()), ops))
    {
      if ops == [] {
        return true;
      }
      ok := Validate(ops);
      if !ok {
        return;
      }
      ghost var before, dist0 := graph.Value(), dist;
      var out := Canonicalize(ops, graph.directed);
      var needed := RequiresRecompute(out, ops);
      var applied := graph.Apply(ops);
      ApplyKeepsWeighted(before, ops);
      if needed {
        Recompute();
        return;
      }
      if |dist| < graph.vertexCount {
        dist := dist + seq(graph.vertexCount - |dist|, _ => INFINITE);
      }
      BatchLabels(before, ops, out, source, dist0, dist);
      dist := RelaxFromUpdates(graph.weights, graph.directed, out, dist, source);
      Verdict(graph.weights, source, dist, |dist0|);
    }
  }

  /** What the old labels say about the improved graph. */
  lemma BatchLabels(g: WeightedGraph, ops: seq<WeightedUpdate>, out: seq<WeightedUpdate>, s: nat, dist0: seq<nat>,
                    dist: seq<nat>)
    requires SimpleWeighted(g) && Representable(ops) && Canonical(out, ops, g.directed) && !NeedsRecompute(g, ops)
    requires |dist0| == g.vertexCount && Labelled(g.weights, s, dist0) && Exact(g.weights, s, dist0)
    requires dist0 <= dist && forall v: nat | |dist0| <= v < |dist| :: dist[v] == INFINITE
    requires |dist| == ApplyAllWeighted(g, ops).vertexCount
    ensures var after := ApplyAllWeighted(g, ops).weights; var touched := TouchedArcs(out, g.directed);
            && Labelled(after, s, dist) && Settled(after, dist, {}, touched) && forall a | a in touched :: a in after
    ensures s < |dist0| ==> dist[s] == 0
    ensures s >= |dist0| ==> NothingReached(dist)
  {
    var after, touched := ApplyAllWeighted(g, ops).weights, TouchedArcs(out, g.directed);
    ApplyKeepsWeighted(g, ops);
    QuietBatchImproves(g, ops, out);
    forall v: nat | v < |dist| && dist[v] != INFINITE
      ensures Reached(after, s, v, dist[v])
    {
      var hops, e := SoundAt(g.weights, s, dist0, v);
      var f := ImprovedWalk(g.weights, after, s, v, hops, e);
      assert PathWeight(after, s, v, f);
    }
    forall u: nat, v: nat | (u, v) in after
      ensures dist[v] <= dist[u] + after[(u, v)] || (u, v) in touched
    {
      if (u, v) !in touched {
        ExactIsSettledAt(g.weights, s, dist0, u, v);
      }
    }
    forall a | a in touched
      ensures a in after
    {
      TouchedIsPresent(g, ops, out, a);
    }
    SourceLabel(g, s, dist0);
  }

  lemma TouchedIsPresent(g: WeightedGraph, ops: seq<WeightedUpdate>, out: seq<WeightedUpdate>, a: Arc)
    requires SimpleWeighted(g) && Canonical(out, ops, g.directed) && a in TouchedArcs(out, g.directed)
    ensures a in ApplyAllWeighted(g, ops).weights
  {
    var op :| op in out && op.add && ((op.src, op.dst) == a || (!g.directed && (op.dst, op.src) == a));
    LastWeightWins(g, ops, a.0, a.1);
    assert Key(g.directed, a.0, a.1) == (op.src, op.dst);
    assert (a.0, a.1) == a;
  }

  lemma ExactIsSettledAt(w: Weights, s: nat, dist: seq<nat>, u: nat, v: nat)
    requires WithinRange(w, |dist|) && Capped(dist) && Exact(w, s, dist) && (u, v) in w
    ensures dist[v] <= dist[u] + w[(u, v)]
  {
    assert dist[u] == CappedDistance(w, s, u) && dist[v] == CappedDistance(w, s, v);
    CappedDistanceMeaning(w, s, u);
    CappedDistanceMeaning(w, s, v);
    if dist[u] < INFINITE {
      assert PathWeight(w, s, u, dist[u]);
      var hops: nat :| WeightedWalk(w, s, u, hops, dist[u]);
      assert WeightedWalk(w, s, v, hops + 1, dist[u] + w[(u, v)]);
      assert PathWeight(w, s, v, dist[u] + w[(u, v)]);
    }
  }

  lemma SourceLabel(g: WeightedGraph, s: nat, dist: seq<nat>)
    requires SimpleWeighted(g) && |dist| == g.vertexCount && Labelled(g.weights, s, dist) && Exact(g.weights, s, dist)
    ensures s < |dist| ==> dist[s] == 0
    ensures s >= |dist| ==> NothingReached(dist)
  {
    if s < |dist| {
      assert WeightedWalk(g.weights, s, s, 0, 0);
      assert PathWeight(g.weights, s, s, 0);
      CappedDistanceMeaning(g.weights, s, s);
      assert dist[s] == CappedDistance(g.weights, s, s);
    } else {
      forall v: nat | v < |dist|
        ensures dist[v] == INFINITE
      {
        if dist[v] != INFINITE {
          var hops, e := SoundAt(g.weights, s, dist, v);
          NothingFromOutside(g.weights, s, |dist|, v, hops, e);
        }
      }
    }
  }

  lemma Verdict(w: Weights, s: nat, dist: seq<nat>, oldVertexCount: nat)
    requires WithinRange(w, |dist|) && oldVertexCount <= |dist| && Labelled(w, s, dist) && Settled(w, dist, {}, {})
    requires s < oldVertexCount ==> dist[s] == 0
    requires s >= oldVertexCount ==> NothingReached(dist)
    ensures Exact(w, s, dist) <==> s < oldVertexCount || s >= |dist|
  {
    if s < oldVertexCount || s >= |dist| {
      CertificateIsExact(w, s, dist);
    } else {
      assert WeightedWalk(w, s, s, 0, 0);
      assert PathWeight(w, s, s, 0);
      CappedDistanceMeaning(w, s, s);
      assert dist[s] != CappedDistance(w, s, s);
    }
  }

  /** The failing family, concretely: a source that only appears with the first batch is never labelled. */
  method LateSource() returns (sssp: IncrementalWeightedSssp)
    ensures !sssp.Valid() && sssp.graph.vertexCount == 3 && sssp.source == 2
  {
    var graph := new WeightedDynamicGraph(1, true);
    sssp := new IncrementalWeightedSssp(graph, 2);
    var ops := [WeightedUpdate(2, 0, 5, true)];
    assert ops[..0] == [];
    assert ApplyAllWeighted(graph.Value(), ops[..0]) == graph.Value();
    var ok := sssp.Apply(ops);
  }
}
