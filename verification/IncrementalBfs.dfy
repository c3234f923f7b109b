/** Maintained breadth-first distances: after every batch the labels are repaired or recomputed. They equal the exact
    distances of the updated graph as long as the in-rows that the batch is repaired with are right. */
module IncrementalBfs {
  import opened Collections
  import opened Distances
  import opened DynamicGraphs
  import opened RowStores
  import opened TwoSided
  import opened GraphStorage
  import opened BreadthFirst
  import opened Cascade
  import opened CascadeWorklist
  import opened Relaxation
  import opened MinHeaps
  import opened PackedKeys
  import opened KeySets
  import opened KeyedScan
  import opened BfsBatches

  /** How many affected vertices a localized repair may touch. */
  function FallbackLimit(vertexCount: nat, fraction: real): nat
    requires 0.0 <= fraction
  {
    var scaled := (vertexCount as real * fraction).Floor;
    if scaled < 1 then 1 else scaled
  }

  /** More vertices than that: at least two, and more than the given share of all. */
  predicate TooMany(count: nat, vertexCount: nat, fraction: real)
  {
    count >= 2 && count as real > fraction * vertexCount as real
  }

  lemma LimitMeaning(count: nat, vertexCount: nat, fraction: real)
    requires 0.0 <= fraction
    ensures count > FallbackLimit(vertexCount, fraction) <==> TooMany(count, vertexCount, fraction)
  {
    var x := vertexCount as real * fraction;
    assert x == fraction * vertexCount as real;
    assert count > x.Floor <==> count as real > x;
  }

  /** Breadth-first search of the current graph, from scratch. */
  method FullBfs(graph: DynamicGraph, source: nat) returns (dist: seq<nat>, order: seq<nat>)
    requires graph.Consistent() && Simple(graph.Value())
    ensures |dist| == graph.vertexCount && Exact(graph.arcs, source, dist)
    ensures Sound(graph.arcs, source, dist) && forall v: nat | v < |dist| :: dist[v] <= UNREACHABLE
    ensures Distinct(order) && Reached(dist) == Elements(order)
  {
    dist, order := seq(graph.vertexCount, _ => UNREACHABLE), [];
    if source >= graph.vertexCount {
      assert Reached(dist) == {};
      CertificateIsExact(graph.arcs, source, dist);
      return;
    }
    dist, order := dist[source := 0], [source];
    var head: nat := 0;
    Start(graph.arcs, source, dist);
    while head < |order|
      invariant |dist| == graph.vertexCount && head <= |order|
      invariant forall i | 0 <= i < |order| :: order[i] < |dist| && dist[order[i]] != UNREACHABLE
      invariant head < |order| ==> Frontier(graph.arcs, source, dist, order, dist[order[head]])
      invariant head == |order| ==> exists d: nat :: Frontier(graph.arcs, source, dist, order, d)
      invariant Expanded(graph.arcs, dist, order, head)
      decreases |dist| - head
    {
      var u := order[head];
      var row := graph.Neighbors(u);
      dist, order := VisitRow(row, u, dist, order, head, graph.arcs, source);
      NextHead(graph.arcs, source, dist, order, head);
      DistinctIsShort(order, |dist|);
      head := head + 1;
    }
    ghost var d: nat :| Frontier(graph.arcs, source, dist, order, d);
    Finish(graph.arcs, source, dist, order, d);
    assert Reached(dist) == Elements(order);
  }

  /** Where a search for affected vertices stands: the arcs deleted, those charged as lost, those looked at. */
  datatype Search = Search(deleted: set<Arc>, charged: set<Arc>, processed: set<Arc>)

  class IncrementalBfs {
    const graph: DynamicGraph
    const source: nat
    const deletionFallbackFraction: real
    const seenFinalUpdates: ReusableKeySet
    const finalDeletionKeys: ReusableKeySet
    var dist: seq<nat>
    var reachableCount: nat
    /** The workspace kept from call to call: the flags of affected vertices, the counts of lost parents and of
        parents (0 where absent), and the vertices whose counts are to be reset. */
    var flags: set<nat>
    var lost: map<nat, nat>
    var support: map<nat, nat>
    var touched: seq<nat>
    /** What the last preparation found. */
    var affectedVertices: seq<nat>
    var finalAdditions: seq<Arc>
    var lastDeletionCandidates: nat
    var lastAffectedVertices: nat
    var lastUsedFullRecompute: bool

    ghost predicate KeysReady()
      reads this, seenFinalUpdates, finalDeletionKeys
    {
      && seenFinalUpdates != finalDeletionKeys
      && seenFinalUpdates.Value().Valid() && finalDeletionKeys.Value().Valid()
      && (finalDeletionKeys.keys == [] || |finalDeletionKeys.Value().Contents()| < |finalDeletionKeys.keys|)
    }

    /** The vertices found affected are labelled ones, each listed once, and never the source. */
    ghost predicate Listed()
      reads this
    {
      Distinct(affectedVertices) && forall v | v in affectedVertices :: v < |dist| && v != source
    }

    /** What holds in every state the callers can bring about. */
    ghost predicate Sane()
      reads this, graph, seenFinalUpdates, finalDeletionKeys
    {
      && graph.Consistent() && Simple(graph.Value()) && |dist| <= graph.vertexCount
      && Tallied(source, dist, reachableCount) && Listed() && KeysReady()
    }

    /** The labels are lengths of walks along the given arcs. */
    ghost predicate LabelledBy(sound: set<Arc>)
      reads this, graph
    {
      && graph.Consistent() && Simple(graph.Value())
      && |dist| == graph.vertexCount
      && Relaxation.Labelled(sound, source, dist, reachableCount)
    }

    /** The labels are the distances of the current graph. */
    ghost predicate Valid()
      reads this, graph, seenFinalUpdates, finalDeletionKeys
    {
      Sane() && LabelledBy(graph.arcs) && Exact(graph.arcs, source, dist)
    }

    /** Nothing is left over in the workspace from an earlier batch. */
    ghost predicate Clean()
      reads this
    {
      flags == {} && lost == map[] && support == map[]
    }

    /** Everything in the workspace is listed for clearing. */
    ghost predicate Tracked()
      reads this
    {
      flags <= Elements(affectedVertices) && lost.Keys <= Elements(touched) && support.Keys <= Elements(touched)
    }

    constructor (graph: DynamicGraph, source: nat, deletionFallbackFraction: real, mix: nat -> nat)
      requires graph.Consistent() && Simple(graph.Value()) && 0.0 <= deletionFallbackFraction
      ensures Valid() && Clean() && this.graph == graph && this.source == source
      ensures this.deletionFallbackFraction == deletionFallbackFraction
      ensures fresh(seenFinalUpdates) && fresh(finalDeletionKeys)
    {
      this.graph := graph;
      this.source := source;
      this.deletionFallbackFraction := deletionFallbackFraction;
      var seen := new ReusableKeySet(mix);
      var gone := new ReusableKeySet(mix);
      seenFinalUpdates, finalDeletionKeys := seen, gone;
      dist, reachableCount := [], 0;
      flags, lost, support, touched := {}, map[], map[], [];
      affectedVertices, finalAdditions := [], [];
      lastDeletionCandidates, lastAffectedVertices, lastUsedFullRecompute := 0, 0, false;
      new;
      Recompute();
    }

    method Recompute()
      requires graph.Consistent() && Simple(graph.Value()) && |dist| <= graph.vertexCount && Listed() && KeysReady()
      modifies this`dist, this`reachableCount
      ensures Valid()
    {
      var order;
      dist, order := FullBfs(graph, source);
      reachableCount := |order|;
      DistinctCardinality(order);
      LabelledIsTallied(graph.arcs, source, dist, reachableCount);
    }

    /** Only arcs leaving the rest of the queue can be violated. */
    ghost predicate Draining(queue: seq<nat>, head: nat, sound: set<Arc>, core: set<Arc>, excused: set<Arc>)
      reads this, graph
    {
      && LabelledBy(sound) && head <= |queue| && (forall i | head <= i < |queue| :: queue[i] < |dist|)
      && Settled(core, dist, Elements(queue[head..]), excused)
    }

    /** Relax the row of the vertex at the head of the queue. */
    method ExpandQueued(queue0: seq<nat>, head: nat, ghost sound: set<Arc>, ghost core: set<Arc>,
                        ghost excused: set<Arc>)
      returns (queue: seq<nat>)
      requires Draining(queue0, head, sound, core, excused) && head < |queue0| && core <= graph.arcs <= sound
      modifies this`dist, this`reachableCount
      ensures Draining(queue, head + 1, sound, core, excused) && Below(dist, old(dist))
      ensures Sum(dist) < Sum(old(dist)) || (dist == old(dist) && queue == queue0)
      ensures OnlySource(source, old(dist)) && AwayFrom(queue0, source) ==>
        OnlySource(source, dist) && AwayFrom(queue, source) && OneAway(dist, old(dist), {}, source, {})
    {
      queue := queue0;
      var u := queue[head];
      ghost var dist1 := dist;
      QueueStep(queue0, queue0, head);
      if dist[u] == UNREACHABLE {
        CloseVertex(core, dist, Elements(queue[head + 1..]), excused, u);
        return;
      }
      var row := graph.Neighbors(u);
      dist, reachableCount, queue :=
        RelaxRow(row, u, dist, reachableCount, queue, sound, core, source, Elements(queue[head + 1..]), excused);
      QueueStep(queue0, queue, head);
      PushedInRange(queue0, queue, head, dist, dist1, u);
      if OnlySource(source, dist1) && AwayFrom(queue0, source) {
        RowAway(source, dist, dist1, queue0, queue, u);
      }
    }

    /** Lower labels along arcs until nothing leaving the queue is violated. */
    method PropagateDecreases(queue0: seq<nat>, ghost sound: set<Arc>, ghost core: set<Arc>, ghost excused: set<Arc>)
      requires LabelledBy(sound) && core <= graph.arcs <= sound && InBounds(queue0, |dist|)
      requires Settled(core, dist, Elements(queue0), excused)
      modifies this`dist, this`reachableCount
      ensures LabelledBy(sound) && Settled(core, dist, {}, excused)
      ensures Below(dist, old(dist)) && (queue0 == [] ==> dist == old(dist))
      ensures OnlySource(source, old(dist)) && AwayFrom(queue0, source) ==>
        OnlySource(source, dist) && OneAway(dist, old(dist), {}, source, {})
    {
      var queue: seq<nat>, head: nat := queue0, 0;
      ghost var away := OnlySource(source, dist) && AwayFrom(queue0, source);
      assert queue[0..] == queue;
      while head < |queue|
        invariant Draining(queue, head, sound, core, excused)
        invariant Below(dist, old(dist)) && (queue0 == [] ==> queue == [] && dist == old(dist))
        invariant away ==>
          OnlySource(source, dist) && AwayFrom(queue, source) && OneAway(dist, old(dist), {}, source, {})
        decreases Sum(dist), |queue| - head
      {
        ghost var dist1 := dist;
        queue := ExpandQueued(queue, head, sound, core, excused);
        if away {
          OneAwayTwice(old(dist), dist1, dist, {}, {}, source, {});
        }
        head := head + 1;
      }
      assert Elements(queue[head..]) == {};
    }

    // ---------- Finding the affected vertices ----------

    /** The workspace as the theory of the worklist sees it. */
    ghost function State(): Workspace
      reads this
    {
      Workspace(lost, support, flags, affectedVertices)
    }

    /** The search follows the ledger of lost parents, over in-rows that are the transpose of the out-rows. */
    ghost predicate Following(k: Search)
      reads this, graph
    {
      && graph.Transposed() && Basis(graph.arcs, source, dist)
      && Worklist(graph.arcs, k.deleted, dist, k.charged, State())
      && UpToDate(graph.arcs, dist, k.charged, State(), k.processed)
      && k.charged <= k.processed
    }

    /** What any search keeps, also over a workspace with leftovers. */
    ghost predicate Searchable()
      reads this, graph
    {
      && graph.Consistent() && Listed() && Elements(affectedVertices) <= flags
      && lastAffectedVertices == |affectedVertices|
    }

    /** The number of parents the in-row of v shows, or the number cached for it. */
    ghost function SupportOf(v: nat): nat
      reads this, graph
    {
      if Count(support, v) != 0 then support[v] else |ParentsOf(graph.inArcs, dist, v)|
    }

    /** One more loss would not mark v: its in-row shows more parents than that, or none at all. */
    ghost predicate Spared(v: nat)
      reads this, graph
    {
      v in flags || v == source || !Unsupported(Count(lost, v) + 1, SupportOf(v))
    }

    /** Removing the arc marks neither of the vertices that can lose it. */
    ghost predicate SparedBy(e: Arc)
      reads this, graph
    {
      Spared(e.1) && (graph.directed || Spared(e.0))
    }

    method ShortestParentCount(v: nat) returns (count: nat)
      requires graph.Consistent()
      modifies this`support
      ensures count == if v < |dist| && v != source && dist[v] != UNREACHABLE then old(SupportOf(v)) else 0
      ensures support == old(support) || support == old(support)[v := |ParentsOf(graph.inArcs, dist, v)|]
    {
      if v >= |dist| || v == source || dist[v] == UNREACHABLE {
        return 0;
      }
      if Count(support, v) != 0 {
        return support[v];
      }
      count := ShortestSupport(graph, dist, v);
      support := support[v := count];
    }

    /** Count one more lost parent of v, and mark v if that was its last. */
    method CountLoss(v: nat)
      requires graph.Consistent() && v !in flags
      requires v < |dist| && v != source && dist[v] != UNREACHABLE
      modifies this`flags, this`lost, this`support, this`touched, this`affectedVertices, this`lastAffectedVertices
      ensures lost == old(lost)[v := Count(old(lost), v) + 1]
      ensures support == old(support) || support == old(support)[v := |ParentsOf(graph.inArcs, dist, v)|]
      ensures if Unsupported(lost[v], old(SupportOf(v)))
              then flags == old(flags) + {v} && affectedVertices == old(affectedVertices) + [v]
                   && lastAffectedVertices == old(lastAffectedVertices) + 1
              else flags == old(flags) && affectedVertices == old(affectedVertices)
                   && lastAffectedVertices == old(lastAffectedVertices)
      ensures old(touched) <= touched && (Count(old(lost), v) == 0 ==> touched == old(touched) + [v])
    {
      if Count(lost, v) == 0 {
        touched := touched + [v];
      }
      lost := lost[v := Count(lost, v) + 1];
      var parents := ShortestParentCount(v);
      if parents != 0 && lost[v] >= parents {
        flags := flags + {v};
        affectedVertices := affectedVertices + [v];
        lastAffectedVertices := lastAffectedVertices + 1;
      }
    }

    /** A lost parent of v: nothing happens if v needs none, has none or is affected already. */
    method RecordParentLoss(v: nat, ghost u: nat, ghost k: Search, ghost good: bool) returns (ghost next: Search)
      requires Searchable()
      requires good ==>
        Following(k) && Lost(k.deleted, flags, u, v) && (u, v) !in k.processed && u in ParentsOf(graph.arcs, dist, v)
      modifies this`flags, this`lost, this`support, this`touched, this`affectedVertices, this`lastAffectedVertices
      ensures Searchable() && old(affectedVertices) <= affectedVertices && old(flags) <= flags
      ensures old(Tracked()) ==> Tracked()
      ensures good ==> Following(next) && next.deleted == k.deleted && next.processed == k.processed + {(u, v)}
      ensures old(Spared(v)) ==> affectedVertices == old(affectedVertices)
      ensures u != v && old(Spared(u)) ==> Spared(u)
    {
      next := k.(processed := k.processed + {(u, v)});
      if good {
        ParentIsCloser(graph.arcs, source, dist, u, v);
      }
      if v >= |dist| || v == source || dist[v] == UNREACHABLE || v in flags {
        return;
      }
      ghost var before, touched0, parents := State(), touched, SupportOf(v);
      CountLoss(v);
      AppendListed(before.queue, before.affected, v, |dist|, source);
      if good {
        CachedSupport(graph.arcs, dist, before.cache, support, v);
        next := next.(charged := k.charged + {(u, v)});
        LossRecorded(graph.arcs, k.deleted, dist, k.charged, k.processed, before, State(), u, v);
      }
      TrackLoss(before, State(), touched0, touched, v);
    }

    /** A deleted arc is a loss for its target if it was a shortest-path arc. */
    method RecordIfParent(u: nat, v: nat, ghost k: Search, ghost good: bool) returns (ghost next: Search)
      requires Searchable()
      requires good ==> Following(k) && (u, v) in k.deleted && k.deleted <= graph.arcs && (u, v) !in k.processed
      modifies this`flags, this`lost, this`support, this`touched, this`affectedVertices, this`lastAffectedVertices
      ensures Searchable() && old(affectedVertices) <= affectedVertices && old(flags) <= flags
      ensures old(Tracked()) ==> Tracked()
      ensures good ==> Following(next) && next.deleted == k.deleted && next.processed == k.processed + {(u, v)}
      ensures old(Spared(v)) ==> affectedVertices == old(affectedVertices)
      ensures u != v && old(Spared(u)) ==> Spared(u)
    {
      next := k.(processed := k.processed + {(u, v)});
      if Parent(dist, u, v) {
        next := RecordParentLoss(v, u, k, good);
      } else if good {
        NothingToRecord(graph.arcs, dist, k.charged, State(), k.processed, u, v);
      }
    }

    /** Charge one deletion, in both directions when undirected. */
    method ChargeDeletion(existing: seq<Arc>, i: nat, ghost k: Search, ghost good: bool) returns (ghost next: Search)
      requires Searchable() && i < |existing|
      requires good ==> Following(k) && ChargesInOrder(existing, i, k)
      modifies this`flags, this`lost, this`support, this`touched, this`affectedVertices, this`lastAffectedVertices
      ensures Searchable() && (old(Tracked()) ==> Tracked())
      ensures good ==> Following(next) && ChargesInOrder(existing, i + 1, next) && next.deleted == k.deleted
      ensures existing[i].0 != existing[i].1 && old(SparedBy(existing[i])) ==> affectedVertices == old(affectedVertices)
    {
      var (u, v) := existing[i];
      if good {
        assert existing[i] in existing;
        KeyedStep(graph.Value(), existing, i);
      }
      next := RecordIfParent(u, v, k, good);
      if !graph.directed {
        next := RecordIfParent(v, u, next, good);
      }
    }

    /** The first i deletions have been looked at, in both directions when undirected. */
    ghost predicate ChargesInOrder(existing: seq<Arc>, i: nat, k: Search)
      requires i <= |existing|
      reads this, graph
    {
      && Simple(graph.Value()) && DistinctKeys(existing, graph.directed)
      && (forall e | e in existing :: e in graph.arcs)
      && k.deleted == KeyedArcs(graph.arcs, graph.directed, existing)
      && k.processed == KeyedArcs(graph.arcs, graph.directed, existing[..i])
    }

    /** Charge the deletions. */
    method ChargeExisting(existing: seq<Arc>, ghost deleted: set<Arc>, ghost good: bool) returns (ghost k: Search)
      requires Searchable() && affectedVertices == []
      requires good ==> Clean() && graph.Transposed() && Basis(graph.arcs, source, dist)
      requires good ==> ChargesInOrder(existing, 0, Search(deleted, {}, {}))
      modifies this`flags, this`lost, this`support, this`touched, this`affectedVertices, this`lastAffectedVertices
      ensures Searchable() && (old(Tracked()) ==> Tracked())
      ensures good ==> Following(k) && k.deleted == k.processed == deleted
      ensures |existing| <= 1 && (forall e | e in existing :: e.0 != e.1 && old(SparedBy(e))) ==>
        affectedVertices == []
    {
      k := Search(deleted, {}, {});
      if good {
        NothingCharged(graph.arcs, dist);
      }
      var i := 0;
      while i < |existing|
        invariant 0 <= i <= |existing| && Searchable()
        invariant old(Tracked()) ==> Tracked()
        invariant good ==> Following(k) && k.deleted == deleted && ChargesInOrder(existing, i, k)
        invariant i == 0 ==> State() == old(State())
        invariant i == 1 && existing[0].0 != existing[0].1 && old(SparedBy(existing[0])) ==> affectedVertices == []
      {
        k := ChargeDeletion(existing, i, k, good);
        i := i + 1;
      }
      assert existing[..i] == existing;
      assert |existing| == 1 ==> existing[0] in existing;
    }

    /** One arc out of an affected vertex: a loss for its target, if it is a surviving shortest-path arc. */
    method ExpandArc(u: nat, v: nat, ghost k: Search, ghost good: bool) returns (ghost next: Search)
      requires Searchable() && KeysReady() && u < |dist| && dist[u] != UNREACHABLE
      requires good ==> Following(k) && Expandable(k, u, v)
      modifies this`flags, this`lost, this`support, this`touched, this`affectedVertices, this`lastAffectedVertices
      ensures Searchable() && old(affectedVertices) <= affectedVertices && old(flags) <= flags
      ensures (old(Tracked()) ==> Tracked())
      ensures good ==> Following(next) && next.deleted == k.deleted && next.processed == k.processed + {(u, v)}
    {
      next := k.(processed := k.processed + {(u, v)});
      if v >= |dist| || dist[v] != Next(dist[u]) {
        if good {
          SkipArc(k, u, v);
        }
        return;
      }
      var gone := finalDeletionKeys.Contains(EdgeKey(Key(graph.directed, u, v)));
      if gone {
        if good {
          assert (u, v) in k.deleted;
          SkipArc(k, u, v);
        }
        return;
      }
      if good {
        assert (u, v) !in k.deleted && u in ParentsOf(graph.arcs, dist, v);
      }
      next := RecordParentLoss(v, u, k, good);
    }

    /** What is known of an arc (u, v) whose origin is being expanded. */
    ghost predicate Expandable(k: Search, u: nat, v: nat)
      requires KeysReady()
      reads this, graph, seenFinalUpdates, finalDeletionKeys
    {
      && u in flags && (u, v) in graph.arcs && TargetsReached(graph.arcs, dist, u)
      && k.deleted <= k.processed && ((u, v) in k.processed ==> (u, v) in k.deleted)
      && DeletedByKey(graph.arcs, graph.directed, finalDeletionKeys.Value().Contents(), k.deleted)
    }

    lemma SkipArc(k: Search, u: nat, v: nat)
      requires KeysReady() && Following(k) && Expandable(k, u, v)
      requires u !in ParentsOf(graph.arcs, dist, v) || (u, v) in k.deleted
      ensures Following(k.(processed := k.processed + {(u, v)}))
    {
      if (u, v) in k.processed {
        assert k.processed + {(u, v)} == k.processed;
      } else {
        NothingToRecord(graph.arcs, dist, k.charged, State(), k.processed, u, v);
      }
    }

    /** What is known of a vertex that is about to be expanded. */
    ghost predicate Leaving(k: Search, u: nat)
      requires KeysReady()
      reads this, graph, seenFinalUpdates, finalDeletionKeys
    {
      u in flags && OpenRow(graph.arcs, graph.directed, finalDeletionKeys.Value().Contents(), dist, k, u)
    }

    /** The first i arcs of the row of u have been looked at. */
    ghost predicate Midway(k: Search, next: Search, u: nat, row: seq<nat>, i: nat)
      requires KeysReady() && i <= |row|
      reads this, graph, seenFinalUpdates, finalDeletionKeys
    {
      && Leaving(k, u) && Following(next) && RowOf(u, row) == OutArcs(graph.arcs, u)
      && next.deleted == k.deleted && next.processed == k.processed + RowOf(u, row[..i])
    }

    lemma NextIsExpandable(k: Search, next: Search, u: nat, row: seq<nat>, i: nat)
      requires KeysReady() && Ascending(row) && i < |row| && Midway(k, next, u, row, i)
      ensures Expandable(next, u, row[i])
    {
      RowAdvances(row, u, i);
      assert (u, row[i]) in RowOf(u, row);
    }

    /** Part of a row expanded. */
    ghost predicate InRow(k: Search, next: Search, u: nat, row: seq<nat>, i: nat, good: bool, listed0: seq<nat>,
                          tracked0: bool)
      requires i <= |row|
      reads this, graph, seenFinalUpdates, finalDeletionKeys
    {
      && Searchable() && KeysReady() && listed0 <= affectedVertices && (tracked0 ==> Tracked())
      && (good ==> Midway(k, next, u, row, i))
    }

    method ExpandNext(u: nat, row: seq<nat>, i: nat, ghost k: Search, ghost next0: Search, ghost good: bool,
                      ghost listed0: seq<nat>, ghost tracked0: bool)
      returns (ghost next: Search)
      requires u < |dist| && dist[u] != UNREACHABLE && Ascending(row) && i < |row|
      requires InRow(k, next0, u, row, i, good, listed0, tracked0)
      modifies this`flags, this`lost, this`support, this`touched, this`affectedVertices, this`lastAffectedVertices
      ensures InRow(k, next, u, row, i + 1, good, listed0, tracked0)
    {
      if good {
        NextIsExpandable(k, next0, u, row, i);
        RowAdvances(row, u, i);
      }
      next := ExpandArc(u, row[i], next0, good);
    }

    /** Expand one affected vertex: its surviving shortest-path arcs are lost to their targets. */
    method Expand(u: nat, ghost k: Search, ghost good: bool) returns (ghost next: Search)
      requires Searchable() && KeysReady() && u < |dist| && dist[u] != UNREACHABLE
      requires good ==> Following(k) && Leaving(k, u)
      modifies this`flags, this`lost, this`support, this`touched, this`affectedVertices, this`lastAffectedVertices
      ensures Searchable() && old(affectedVertices) <= affectedVertices && (old(Tracked()) ==> Tracked())
      ensures good ==>
        Following(next) && next.deleted == k.deleted && next.processed == k.processed + OutArcs(graph.arcs, u)
    {
      next := k;
      var row := graph.Neighbors(u);
      ghost var listed0, tracked0 := affectedVertices, Tracked();
      NothingOf(u, row);
      WholeRowOf(graph.arcs, u, row);
      var i := 0;
      while i < |row|
        invariant 0 <= i <= |row| && InRow(k, next, u, row, i, good, listed0, tracked0)
      {
        next := ExpandNext(u, row, i, k, next, good, listed0, tracked0);
        i := i + 1;
      }
      assert row[..i] == row;
    }


    /** The vertices at the front of the queue have been expanded. */
    ghost predicate Expanded(k: Search, head: nat)
      reads this, graph
    {
      && head <= |affectedVertices| && Following(k) && k.deleted <= graph.arcs
      && k.processed == LostArcs(graph.arcs, k.deleted, Elements(affectedVertices[..head]))
    }

    /** Expand the vertex at the head of the queue. */
    method ExpandHead(head: nat, ghost k: Search, ghost good: bool) returns (ghost next: Search)
      requires Searchable() && KeysReady() && head < |affectedVertices|
      requires good ==> Expanded(k, head) && KeysList(k.deleted)
      modifies this`flags, this`lost, this`support, this`touched, this`affectedVertices, this`lastAffectedVertices
      ensures Searchable() && old(affectedVertices) <= affectedVertices && (old(Tracked()) ==> Tracked())
      ensures good ==> Expanded(next, head + 1) && next.deleted == k.deleted
    {
      next := k;
      var u := affectedVertices[head];
      assert u in affectedVertices;
      if good {
        BeforeExpand(graph.arcs, k.deleted, source, dist, k.charged, State(), Elements(affectedVertices[..head]), head);
      }
      if u >= |dist| || dist[u] == UNREACHABLE {
        return;
      }
      next := Expand(u, k, good);
      if good {
        NextDone(old(affectedVertices), affectedVertices, head);
      }
    }

    lemma ExpandedIsSearching(k: Search, head: nat)
      requires Expanded(k, head)
      ensures Searching(graph.arcs, k.deleted, dist, k.charged, State(), head, |dist|)
    {
      QueueInRange(graph.arcs, k.deleted, source, dist, k.charged, State());
    }

    /** The key set lists the deleted arcs. */
    ghost predicate KeysList(deleted: set<Arc>)
      requires KeysReady()
      reads this, graph, seenFinalUpdates, finalDeletionKeys
    {
      DeletedByKey(graph.arcs, graph.directed, finalDeletionKeys.Value().Contents(), deleted)
    }

    /** Expand the affected vertices in the order they are found, until there are too many. */
    method SearchAffected(limit: nat, ghost k0: Search, ghost good: bool) returns (ghost k: Search, ghost head: nat)
      requires Searchable() && KeysReady()
      requires good ==> Expanded(k0, 0) && KeysList(k0.deleted)
      modifies this`flags, this`lost, this`support, this`touched, this`affectedVertices, this`lastAffectedVertices
      ensures Searchable() && (old(Tracked()) ==> Tracked())
      ensures good ==> Expanded(k, head) && k.deleted == k0.deleted
      ensures head == |affectedVertices| || |affectedVertices| > limit
      ensures old(affectedVertices) == [] ==> affectedVertices == []
    {
      k := k0;
      var i := 0;
      ListedIsShort(affectedVertices, |dist|);
      while i < |affectedVertices| && lastAffectedVertices <= limit
        invariant 0 <= i <= |affectedVertices| <= |dist| && Searchable() && (old(Tracked()) ==> Tracked())
        invariant good ==> Expanded(k, i) && k.deleted == k0.deleted
        invariant old(affectedVertices) == [] ==> affectedVertices == []
        decreases |dist| - i
      {
        k := ExpandHead(i, k, good);
        ListedIsShort(affectedVertices, |dist|);
        i := i + 1;
      }
      head := i;
    }

    /** Discover the vertices whose distance grows, unless there are too many of them. */
    method ComputeAffected(existing: seq<Arc>, limit: nat, ghost deleted: set<Arc>, ghost good: bool)
      returns (withinLimit: bool)
      requires Searchable() && KeysReady() && affectedVertices == []
      requires good ==> Clean() && graph.Transposed() && Basis(graph.arcs, source, dist)
      requires good ==> ChargesInOrder(existing, 0, Search(deleted, {}, {})) && KeysList(deleted)
      modifies this`flags, this`lost, this`support, this`touched, this`affectedVertices, this`lastAffectedVertices
      ensures Searchable() && (old(Tracked()) ==> Tracked())
      ensures withinLimit <==> |affectedVertices| <= limit
      ensures good ==> (withinLimit ==> FoundGrowing(deleted))
      ensures good ==> (withinLimit <==> |Growing(graph.arcs, deleted, source, |dist|)| <= limit)
      ensures |existing| <= 1 && (forall e | e in existing :: e.0 != e.1 && old(SparedBy(e))) ==>
        affectedVertices == []
    {
      ghost var k := ChargeExisting(existing, deleted, good);
      if good {
        assert Elements(affectedVertices[..0]) == {} && LostArcs(graph.arcs, deleted, {}) == deleted;
      }
      ghost var head;
      k, head := SearchAffected(limit, k, good);
      if good {
        SearchEnds(k, head, limit);
      }
      withinLimit := lastAffectedVertices <= limit;
    }

    /** The flagged vertices are those that the deletions push away, and every other one keeps a parent. */
    ghost predicate FoundGrowing(deleted: set<Arc>)
      reads this, graph
    {
      && flags == Elements(affectedVertices) == Growing(graph.arcs, deleted, source, |dist|)
      && OthersSupported(graph.arcs, deleted, source, dist, flags)
    }

    lemma SearchEnds(k: Search, head: nat, limit: nat)
      requires Expanded(k, head) && (head == |affectedVertices| || |affectedVertices| > limit)
      ensures |affectedVertices| <= limit ==> FoundGrowing(k.deleted)
      ensures |affectedVertices| <= limit <==> |Growing(graph.arcs, k.deleted, source, |dist|)| <= limit
    {
      ExpandedIsSearching(k, head);
      EndSearch(graph.arcs, k.deleted, source, dist, k.charged, State(), head, |dist|, limit);
    }

    // ---------- Preparing a batch ----------

    /** The final deletions that are present, and the targets of those that were shortest-path arcs. */
    method ExistingDeletions(ops: seq<EdgeUpdate>, deletions: seq<Arc>, ghost deleted: set<Arc>)
      returns (existing: seq<Arc>, candidates: set<nat>)
      requires graph.Consistent() && Simple(graph.Value()) && ListsFinal(deletions, ops, graph.directed, false)
      requires deleted == RemovedArcs(graph.Value(), ops)
      ensures DistinctKeys(existing, graph.directed) && forall e | e in existing :: e in graph.arcs
      ensures deleted == KeyedArcs(graph.arcs, graph.directed, existing)
      ensures forall e | e in existing :: e in deletions
      ensures candidates == HurtSet(deleted, dist) && (candidates != {} <==> Hurts(deleted, dist))
    {
      existing, candidates := PresentDeletions(deletions);
      ExistingAreRemoved(graph.Value(), ops, deletions, existing);
      HurtTargets(graph.Value(), existing, candidates, dist);
    }

    /** Count the vertices that lose a shortest-path arc, and say whether there are any. */
    method CountCandidates(ops: seq<EdgeUpdate>, deletions: seq<Arc>, ghost deleted: set<Arc>)
      returns (existing: seq<Arc>, some: bool)
      requires Searchable() && KeysReady() && Simple(graph.Value()) && ListsFinal(deletions, ops, graph.directed, false)
      requires deleted == RemovedArcs(graph.Value(), ops) && KeysList(deleted)
      modifies this`lastDeletionCandidates
      ensures Searchable() && KeysReady() && Simple(graph.Value()) && KeysList(deleted)
      ensures (old(Clean()) ==> Clean()) && (old(Tracked()) ==> Tracked())
      ensures DistinctKeys(existing, graph.directed) && forall e | e in existing :: e in graph.arcs
      ensures deleted == KeyedArcs(graph.arcs, graph.directed, existing)
      ensures |ops| == 1 ==> |existing| <= 1 && forall e | e in existing :: e == (ops[0].src, ops[0].dst)
      ensures |ops| == 1 && old(SparedBy((ops[0].src, ops[0].dst))) ==> SparedBy((ops[0].src, ops[0].dst))
      ensures lastDeletionCandidates == |HurtSet(deleted, dist)| && (some <==> Hurts(deleted, dist))
    {
      var candidates;
      existing, candidates := ExistingDeletions(ops, deletions, deleted);
      OnlyDeletion(ops, graph.directed, deletions, existing);
      lastDeletionCandidates, some := |candidates|, candidates != {};
    }

    /** The deletions that are present, and the vertices that one of them is a shortest-path arc to. */
    method PresentDeletions(deletions: seq<Arc>) returns (existing: seq<Arc>, candidates: set<nat>)
      requires graph.Consistent() && DistinctKeys(deletions, graph.directed)
      ensures DistinctKeys(existing, graph.directed)
      ensures forall e :: e in existing <==> e in deletions && e in graph.arcs
      ensures HurtBy(existing, graph.directed, dist, candidates)
    {
      existing, candidates := [], {};
      var i := 0;
      while i < |deletions|
        invariant 0 <= i <= |deletions|
        invariant forall e :: e in existing <==> e in deletions[..i] && e in graph.arcs
        invariant DistinctKeys(existing, graph.directed) && HurtBy(existing, graph.directed, dist, candidates)
      {
        var (u, v) := deletions[i];
        assert deletions[..i + 1] == deletions[..i] + [(u, v)];
        var present := graph.HasEdge(u, v);
        if present {
          forall j | 0 <= j < |existing|
            ensures Key(graph.directed, existing[j].0, existing[j].1) != Key(graph.directed, u, v)
          {
            assert existing[j] in deletions[..i];
          }
          HurtByOneMore(existing, graph.directed, dist, candidates, u, v);
          existing := existing + [(u, v)];
          if Parent(dist, u, v) {
            candidates := candidates + {v};
          }
          if !graph.directed && Parent(dist, v, u) {
            candidates := candidates + {u};
          }
        }
        i := i + 1;
      }
      assert deletions[..i] == deletions;
    }

    /** The labels are exact and the workspace is clean. */
    ghost predicate Ready()
      reads this, graph, seenFinalUpdates, finalDeletionKeys
    {
      Valid() && Clean()
    }

    /** The preparation of a batch reads no in-row, or they are all right. */
    ghost predicate Readable(ops: seq<EdgeUpdate>)
      reads this, graph
    {
      Hurts(RemovedArcs(graph.Value(), ops), dist) ==> graph.Transposed()
    }

    /** Split a batch by the reverse scan on packed keys. */
    method SplitBatch(ops: seq<EdgeUpdate>) returns (deletions: seq<Arc>)
      requires graph.Consistent() && Simple(graph.Value()) && KeysReady() && InRange(ops)
      modifies this`finalAdditions, seenFinalUpdates, finalDeletionKeys
      ensures KeysReady() && KeysList(RemovedArcs(graph.Value(), ops))
      ensures ListsFinal(finalAdditions, ops, graph.directed, true) && ListsFinal(deletions, ops, graph.directed, false)
    {
      finalAdditions, deletions := SplitFinalKeyed(ops, graph.directed, seenFinalUpdates, finalDeletionKeys);
      RemovedByKey(graph.Value(), ops, finalDeletionKeys.Value().Contents());
    }

    lemma FoundSize(removed: set<Arc>)
      requires FoundGrowing(removed) && Distinct(affectedVertices)
      ensures |affectedVertices| == |Growing(graph.arcs, removed, source, |dist|)|
    {
      DistinctCardinality(affectedVertices);
    }

    /** The affected vertices are exactly those pushed away, if the limit allows them, and the flag says whether it
        does. */
    ghost predicate Discovered(ops: seq<EdgeUpdate>, limit: nat, withinLimit: bool)
      reads this, graph
    {
      && (withinLimit ==> FoundGrowing(RemovedArcs(graph.Value(), ops)))
      && Judged(graph.Value(), ops, source, limit, withinLimit, |affectedVertices|)
    }

    /** Search from the deletions that are present, if any of them is a shortest-path arc. */
    method SearchExisting(existing: seq<Arc>, some: bool, limit: nat, ghost deleted: set<Arc>, ghost good: bool)
      returns (withinLimit: bool)
      requires Searchable() && KeysReady() && affectedVertices == [] && Simple(graph.Value()) && KeysList(deleted)
      requires DistinctKeys(existing, graph.directed) && forall e | e in existing :: e in graph.arcs
      requires deleted == KeyedArcs(graph.arcs, graph.directed, existing) && (some <==> Hurts(deleted, dist))
      requires good ==> Clean() && (some ==> graph.Transposed()) && Basis(graph.arcs, source, dist)
      modifies this`flags, this`lost, this`support, this`touched, this`affectedVertices, this`lastAffectedVertices
      ensures Searchable() && (old(Tracked()) ==> Tracked())
      ensures withinLimit || |affectedVertices| > limit
      ensures good && withinLimit ==> FoundGrowing(deleted)
      ensures good ==> (withinLimit <==> |Growing(graph.arcs, deleted, source, |dist|)| <= limit)
      ensures !some ==> withinLimit && affectedVertices == []
      ensures |existing| <= 1 && (forall e | e in existing :: e.0 != e.1 && old(SparedBy(e))) ==>
        affectedVertices == []
    {
      withinLimit := true;
      if some {
        NothingKeyed(graph.arcs, graph.directed, existing);
        withinLimit := ComputeAffected(existing, limit, deleted, good);
      } else if good {
        UnhurtStaysSupported(graph.arcs, deleted, source, dist);
        FoundSize(deleted);
      }
    }

    /** Discover the affected vertices, if any deletion hits a shortest-path arc. */
    method DiscoverAffected(ops: seq<EdgeUpdate>, deletions: seq<Arc>, limit: nat, ghost good: bool)
      returns (withinLimit: bool)
      requires Searchable() && KeysReady() && affectedVertices == [] && Simple(graph.Value())
      requires ListsFinal(deletions, ops, graph.directed, false) && KeysList(RemovedArcs(graph.Value(), ops))
      requires good ==> Clean() && Readable(ops) && Basis(graph.arcs, source, dist) && |dist| == graph.vertexCount
      modifies this`flags, this`lost, this`support, this`touched, this`affectedVertices
      modifies this`lastDeletionCandidates, this`lastAffectedVertices
      ensures Searchable() && (old(Tracked()) ==> Tracked())
      ensures withinLimit || |affectedVertices| > limit
      ensures good ==> Discovered(ops, limit, withinLimit)
      ensures lastDeletionCandidates == |HurtSet(RemovedArcs(graph.Value(), ops), dist)|
      ensures !Hurts(RemovedArcs(graph.Value(), ops), dist) ==> withinLimit && affectedVertices == []
      ensures |ops| == 1 && old(SparedBy((ops[0].src, ops[0].dst))) ==> affectedVertices == []
    {
      ghost var deleted := RemovedArcs(graph.Value(), ops);
      var existing, some := CountCandidates(ops, deletions, deleted);
      withinLimit := SearchExisting(existing, some, limit, deleted, good);
      if good && withinLimit {
        FoundSize(deleted);
      }
    }

    /** Forget what the last batch listed. The flags and counts are taken to be cleared already. */
    method ResetLists()
      requires Sane()
      modifies this`affectedVertices, this`touched
      modifies this`lastDeletionCandidates, this`lastAffectedVertices, this`lastUsedFullRecompute
      ensures Sane() && Searchable() && affectedVertices == [] && !lastUsedFullRecompute
      ensures old(Clean()) ==> Tracked()
      ensures old(Ready()) ==> Clean() && Basis(graph.arcs, source, dist) && |dist| == graph.vertexCount
    {
      lastDeletionCandidates, lastAffectedVertices, lastUsedFullRecompute := 0, 0, false;
      affectedVertices, touched := [], [];
    }

    method StartBatch(ops: seq<EdgeUpdate>) returns (deletions: seq<Arc>)
      requires Sane() && InRange(ops)
      modifies this`touched, this`affectedVertices, this`finalAdditions
      modifies this`lastDeletionCandidates, this`lastAffectedVertices, this`lastUsedFullRecompute
      modifies seenFinalUpdates, finalDeletionKeys
      ensures Sane() && Searchable() && affectedVertices == [] && !lastUsedFullRecompute
      ensures KeysList(RemovedArcs(graph.Value(), ops))
      ensures ListsFinal(finalAdditions, ops, graph.directed, true) && ListsFinal(deletions, ops, graph.directed, false)
      ensures old(Clean()) ==> Tracked()
      ensures old(Ready()) ==> Ready() && Basis(graph.arcs, source, dist) && |dist| == graph.vertexCount
      ensures |ops| == 1 && old(SparedBy((ops[0].src, ops[0].dst))) ==> SparedBy((ops[0].src, ops[0].dst))
    {
      ResetLists();
      deletions := SplitBatch(ops);
    }

    /** Find the affected vertices of a batch before the graph takes it. What is found is what the batch will push
        away, unless that is more than the limit. */
    method Prepare(ops: seq<EdgeUpdate>, limit: nat) returns (withinLimit: bool)
      requires Sane() && InRange(ops)
      modifies this`flags, this`lost, this`support, this`touched, this`affectedVertices, this`finalAdditions
      modifies this`lastDeletionCandidates, this`lastAffectedVertices, this`lastUsedFullRecompute
      modifies seenFinalUpdates, finalDeletionKeys
      ensures Sane() && lastAffectedVertices == |affectedVertices| && !lastUsedFullRecompute
      ensures lastDeletionCandidates == |HurtSet(RemovedArcs(graph.Value(), ops), dist)|
      ensures ListsFinal(finalAdditions, ops, graph.directed, true)
      ensures old(Clean()) ==> Tracked()
      ensures old(Ready()) ==> Valid()
      ensures old(Ready() && Readable(ops)) ==>
        && (withinLimit ==> FoundGrowing(RemovedArcs(graph.Value(), ops)))
        && Judged(graph.Value(), ops, source, limit, withinLimit, lastAffectedVertices)
      ensures withinLimit || |affectedVertices| > limit
      ensures !old(Hurts(RemovedArcs(graph.Value(), ops), dist)) ==> withinLimit && affectedVertices == []
      ensures |ops| == 1 && old(SparedBy((ops[0].src, ops[0].dst))) ==> affectedVertices == []
    {
      ghost var good := Ready() && Readable(ops);
      var deletions := StartBatch(ops);
      withinLimit := DiscoverAffected(ops, deletions, limit, good);
    }

    /** The same with the limit given as a share of the vertices. */
    method PrepareShare(ops: seq<EdgeUpdate>, fraction: real) returns (withinLimit: bool)
      requires Sane() && InRange(ops) && 0.0 <= fraction
      modifies this`flags, this`lost, this`support, this`touched, this`affectedVertices, this`finalAdditions
      modifies this`lastDeletionCandidates, this`lastAffectedVertices, this`lastUsedFullRecompute
      modifies seenFinalUpdates, finalDeletionKeys
      ensures Sane() && lastAffectedVertices == |affectedVertices| && !lastUsedFullRecompute
      ensures lastDeletionCandidates == |HurtSet(RemovedArcs(graph.Value(), ops), dist)|
      ensures ListsFinal(finalAdditions, ops, graph.directed, true)
      ensures old(Clean()) ==> Tracked()
      ensures old(Ready()) ==> Valid()
      ensures old(Ready() && Readable(ops)) ==>
        && (withinLimit ==> FoundGrowing(RemovedArcs(graph.Value(), ops)))
        && Assessed(graph.Value(), ops, source, fraction, !withinLimit, lastAffectedVertices)
    {
      withinLimit := Prepare(ops, FallbackLimit(graph.vertexCount, fraction));
      JudgedIsAssessed(graph.Value(), ops, source, fraction, withinLimit, lastAffectedVertices);
    }

    // ---------- Repairing the affected vertices ----------

    /** The arcs that labels may follow, and those along which they are to be settled. The repair reads the out-rows
        and the in-rows of the listed vertices, so it settles what both show. */
    ghost predicate Framed(sound: set<Arc>, core: set<Arc>)
      reads this, graph
    {
      && core <= graph.arcs <= sound
      && Into(core, Elements(affectedVertices)) <= Into(graph.inArcs, Elements(affectedVertices)) <= sound
    }

    /** What is known before the labels of the listed vertices are cleared. */
    ghost predicate LabelledOutside(sound: set<Arc>)
      reads this, graph
    {
      && graph.Consistent() && Simple(graph.Value())
      && |dist| == graph.vertexCount
      && (forall v: nat | v < |dist| :: dist[v] <= UNREACHABLE)
      && (forall v: nat | v < |dist| && v !in affectedVertices && dist[v] != UNREACHABLE ::
          Walk(sound, source, v, dist[v]))
      && reachableCount == |Reached(dist)|
    }

    /** Nothing is claimed of the arcs, or the flags are those of the listed vertices. */
    ghost predicate FlagsFit(core: set<Arc>)
      reads this
    {
      core == {} || flags == Elements(affectedVertices)
    }

    method ClearAffected(ghost sound: set<Arc>)
      requires LabelledOutside(sound)
      modifies this`dist, this`reachableCount
      ensures LabelledBy(sound) && SameOutside(dist, old(dist), Elements(affectedVertices))
      ensures forall v: nat | v < |dist| && v in affectedVertices :: dist[v] == UNREACHABLE
    {
      var i := 0;
      while i < |affectedVertices|
        invariant 0 <= i <= |affectedVertices|
        invariant LabelledOutside(sound) && SameOutside(dist, old(dist), Elements(affectedVertices))
        invariant forall v: nat | v < |dist| && v in affectedVertices[..i] :: dist[v] == UNREACHABLE
      {
        var v := affectedVertices[i];
        assert affectedVertices[..i + 1] == affectedVertices[..i] + [v];
        assert v in affectedVertices;
        if v < |dist| && dist[v] != UNREACHABLE {
          ReachedUpdate(dist, v, UNREACHABLE);
          assert v in Reached(dist);
          dist := dist[v := UNREACHABLE];
          reachableCount := reachableCount - 1;
        }
        i := i + 1;
      }
      assert affectedVertices[..i] == affectedVertices;
    }

    /** The best label offered by unflagged in-neighbours, and one that offers it. */
    method BestBoundaryDistance(v: nat, ghost sound: set<Arc>, ghost core: set<Arc>) returns (best: nat, ghost via: nat)
      requires LabelledBy(sound) && Framed(sound, core) && v in affectedVertices
      ensures best <= UNREACHABLE
      ensures AtBoundary(v, best)
      ensures best != UNREACHABLE ==>
        (via, v) in sound && via < |dist| && via !in flags && dist[via] != UNREACHABLE && best == dist[via] + 1
    {
      best, via := UNREACHABLE, 0;
      var row := graph.InNeighbors(v);
      var i := 0;
      while i < |row|
        invariant 0 <= i <= |row| && best <= UNREACHABLE
        invariant forall p | p in row[..i] && p < |dist| && p !in flags :: best <= dist[p] + 1
        invariant best != UNREACHABLE ==>
          (via, v) in sound && via < |dist| && via !in flags && dist[via] != UNREACHABLE && best == dist[via] + 1
      {
        var p := row[i];
        assert p in row && row[..i + 1] == row[..i] + [p];
        assert (p, v) in Into(graph.inArcs, Elements(affectedVertices));
        if p < |dist| && p !in flags && dist[p] != UNREACHABLE {
          var candidate := Next(dist[p]);
          if candidate < best {
            best, via := candidate, p;
          }
        }
        i := i + 1;
      }
      assert row[..i] == row;
    }

    /** The in-row of v shows the source, which is labelled and not taken for affected. */
    ghost predicate ShowsSource(v: nat)
      reads this, graph
    {
      source < |dist| && dist[source] == 0 && source !in flags && (source, v) in graph.inArcs
    }

    /** So every listed vertex with such an in-row is labelled next to the source. */
    ghost predicate BesideSource(listed: set<nat>)
      reads this, graph
    {
      forall v: nat | v in listed && v < |dist| && ShowsSource(v) :: dist[v] <= 1
    }

    /** A label no later than any boundary vertex in the in-row allows. */
    ghost predicate AtBoundary(v: nat, best: nat)
      reads this, graph
    {
      forall p: nat | (p, v) in graph.inArcs && p < |dist| && p !in flags :: best <= dist[p] + 1
    }

    lemma BoundaryOf(v: nat, best: nat, core: set<Arc>, sound: set<Arc>)
      requires Framed(sound, core) && FlagsFit(core) && v in affectedVertices && AtBoundary(v, best)
      ensures forall p: nat | (p, v) in core && p < |dist| && p !in Elements(affectedVertices) :: best <= dist[p] + 1
      ensures ShowsSource(v) ==> best <= 1
    {
      forall p: nat | (p, v) in core && p < |dist| && p !in Elements(affectedVertices)
        ensures best <= dist[p] + 1
      {
        assert (p, v) in Into(core, Elements(affectedVertices));
      }
    }

    /** Give one listed vertex its best boundary label and put it in the heap. */
    method SeedVertex(v: nat, heap0: multiset<Item>, ghost seeded: set<nat>, ghost sound: set<Arc>,
                      ghost core: set<Arc>)
      returns (heap: multiset<Item>)
      requires LabelledBy(sound) && Framed(sound, core) && FlagsFit(core)
      requires Seeded(core, dist, Elements(affectedVertices), seeded, heap0)
      requires v in affectedVertices && v !in seeded && forall item | item in heap0 :: item.0 != UNREACHABLE
      modifies this`dist, this`reachableCount
      ensures LabelledBy(sound) && Seeded(core, dist, Elements(affectedVertices), seeded + {v}, heap)
      ensures SameOutside(dist, old(dist), Elements(affectedVertices)) && Below(dist, old(dist))
      ensures ShowsSource(v) ==> dist[v] <= 1
      ensures forall item | item in heap :: item.0 != UNREACHABLE
    {
      heap := heap0;
      ghost var listed := Elements(affectedVertices);
      var best;
      ghost var via;
      best, via := BestBoundaryDistance(v, sound, core);
      BoundaryOf(v, best, core, sound);
      SeedStep(core, dist, listed, seeded, heap, v, best);
      if best != UNREACHABLE {
        SeedLower(sound, source, dist, reachableCount, listed, v, best, via);
        reachableCount := CountAfter(reachableCount, dist[v]);
        dist := dist[v := best];
        heap := heap + multiset{(best, v)};
      }
    }

    /** The first i listed vertices have been seeded. */
    ghost predicate Seeding(i: nat, heap: multiset<Item>, dist0: seq<nat>, sound: set<Arc>, core: set<Arc>)
      requires i <= |affectedVertices|
      reads this, graph
    {
      && LabelledBy(sound) && Framed(sound, core) && FlagsFit(core) && NewItemsReached(heap, multiset{})
      && SameOutside(dist, dist0, Elements(affectedVertices)) && BesideSource(Elements(affectedVertices[..i]))
      && Seeded(core, dist, Elements(affectedVertices), Elements(affectedVertices[..i]), heap)
    }

    method SeedNext(i: nat, heap0: multiset<Item>, ghost dist0: seq<nat>, ghost sound: set<Arc>, ghost core: set<Arc>)
      returns (heap: multiset<Item>)
      requires i < |affectedVertices| && Listed() && Seeding(i, heap0, dist0, sound, core)
      modifies this`dist, this`reachableCount
      ensures Seeding(i + 1, heap, dist0, sound, core) && |dist| == old(|dist|)
    {
      var v := affectedVertices[i];
      NextDone(affectedVertices, affectedVertices, i);
      assert v in affectedVertices && v !in affectedVertices[..i];
      heap := SeedVertex(v, heap0, Elements(affectedVertices[..i]), sound, core);
    }

    method SeedBoundary(ghost sound: set<Arc>, ghost core: set<Arc>) returns (heap: multiset<Item>)
      requires LabelledBy(sound) && Framed(sound, core) && FlagsFit(core) && Listed()
      requires forall v | v in affectedVertices :: dist[v] == UNREACHABLE
      modifies this`dist, this`reachableCount
      ensures LabelledBy(sound) && SameOutside(dist, old(dist), Elements(affectedVertices))
      ensures BesideSource(Elements(affectedVertices))
      ensures Settled(Into(core, flags), dist, OpenInHeap(heap, dist), {})
      ensures NewItemsReached(heap, multiset{})
    {
      heap := multiset{};
      var i := 0;
      while i < |affectedVertices|
        invariant 0 <= i <= |affectedVertices| && Listed() && Seeding(i, heap, old(dist), sound, core)
      {
        heap := SeedNext(i, heap, old(dist), sound, core);
        i := i + 1;
      }
      assert affectedVertices[..i] == affectedVertices;
      SeededSettles(core, dist, Elements(affectedVertices), heap);
      if core == {} {
        NothingToSettle(flags, dist, OpenInHeap(heap, dist));
      }
    }

    /** Settle the flagged vertices in order of distance. */
    method DrainHeap(heap0: multiset<Item>, ghost sound: set<Arc>, ghost core: set<Arc>)
      requires LabelledBy(sound) && Framed(sound, core) && Settled(Into(core, flags), dist, OpenInHeap(heap0, dist), {})
      requires forall item | item in heap0 :: item.0 != UNREACHABLE
      modifies this`dist, this`reachableCount
      ensures LabelledBy(sound) && SameOutside(dist, old(dist), flags) && Below(dist, old(dist))
      ensures Settled(Into(core, flags), dist, {}, {})
    {
      var heap := heap0;
      while heap != multiset{}
        invariant LabelledBy(sound) && SameOutside(dist, old(dist), flags) && Below(dist, old(dist))
        invariant Settled(Into(core, flags), dist, OpenInHeap(heap, dist), {})
        invariant forall item | item in heap :: item.0 != UNREACHABLE
        decreases Sum(dist), |heap|
      {
        var top, rest := PopMin(heap);
        PopKeepsOpen(heap, rest, top, dist);
        var (du, u) := top;
        ghost var open := OpenInHeap(heap, dist);
        if u >= |dist| || du != dist[u] {
          SettledMonotone(Into(core, flags), dist, open, OpenInHeap(rest, dist), {});
          heap := rest;
        } else {
          SettledMonotone(Into(core, flags), dist, open, OpenInHeap(rest, dist) + {u}, {});
          var row := graph.Neighbors(u);
          dist, reachableCount, heap := RelaxAffectedRow(row, u, flags, dist, reachableCount, rest, sound, core,
                                                         source);
        }
      }
      assert OpenInHeap(heap, dist) == {};
    }

    /** The repaired vertices that ended below their label before the batch. */
    method ImprovedQueue(oldAffectedDist: seq<nat>, ghost before: seq<nat>) returns (queue: seq<nat>)
      requires |dist| == |before| && forall v: nat | v < |dist| :: dist[v] <= UNREACHABLE && before[v] <= UNREACHABLE
      requires Listed() && |oldAffectedDist| == |affectedVertices|
      requires forall i | 0 <= i < |affectedVertices| ::
        affectedVertices[i] < |dist| && oldAffectedDist[i] == before[affectedVertices[i]]
      ensures InBounds(queue, |dist|) && AwayFrom(queue, source)
      ensures forall v | v in affectedVertices && v in Improved(dist, before) :: v in queue
    {
      queue := [];
      var i := 0;
      while i < |affectedVertices|
        invariant 0 <= i <= |affectedVertices| && InBounds(queue, |dist|) && AwayFrom(queue, source)
        invariant forall v | v in affectedVertices[..i] && v in Improved(dist, before) :: v in queue
      {
        var v := affectedVertices[i];
        assert affectedVertices[..i + 1] == affectedVertices[..i] + [v] && v in affectedVertices;
        if v < |dist| && dist[v] != UNREACHABLE && dist[v] < oldAffectedDist[i] {
          queue := queue + [v];
        }
        i := i + 1;
      }
      assert affectedVertices[..i] == affectedVertices;
    }

    /** Clear the listed labels and settle them anew from the vertices around them. */
    method ResettleAffected(ghost sound: set<Arc>, ghost core: set<Arc>)
      requires LabelledOutside(sound) && Listed() && Framed(sound, core) && FlagsFit(core)
      modifies this`dist, this`reachableCount
      ensures LabelledBy(sound) && |dist| == |old(dist)| && Settled(Into(core, flags), dist, {}, {})
      ensures core != {} ==> SameOutside(dist, old(dist), flags)
      ensures forall v: nat | v < |dist| && v !in affectedVertices :: dist[v] <= old(dist)[v]
      ensures KeptClear(old(dist)) ==> NearListed(old(dist), {})
    {
      ghost var before := dist;
      ClearAffected(sound);
      var heap := SeedBoundary(sound, core);
      ghost var seeded := dist;
      DrainHeap(heap, sound, core);
      if KeptClear(before) {
        NearDrained(before, seeded, sound);
      }
    }

    method RepairAffected(oldAffectedDist: seq<nat>, ghost sound: set<Arc>, ghost core: set<Arc>, ghost added: set<Arc>)
      requires LabelledOutside(sound) && Listed() && Framed(sound, core) && FlagsFit(core)
      requires Settled(core - added, dist, {}, {})
      requires |oldAffectedDist| == |affectedVertices|
      requires forall i | 0 <= i < |affectedVertices| ::
        affectedVertices[i] < |dist| && oldAffectedDist[i] == dist[affectedVertices[i]]
      modifies this`dist, this`reachableCount
      ensures LabelledBy(sound) && Settled(core, dist, {}, added)
      ensures forall v: nat | v < |dist| && v !in affectedVertices :: dist[v] <= old(dist)[v]
      ensures KeptClear(old(dist)) ==> NearListed(old(dist), {})
    {
      ghost var before := dist;
      ResettleAffected(sound, core);
      var queue := ImprovedQueue(oldAffectedDist, before);
      ghost var drained, near := dist, KeptClear(before);
      if core == {} {
        SettledNothing(core, dist, Elements(queue), added);
      } else {
        RepairSettles(core, added, dist, before, flags);
        ImprovedAreListed(dist, before, flags, affectedVertices);
        SettledMonotone(core, dist, Improved(dist, before), Elements(queue), added);
      }
      PropagateDecreases(queue, sound, core, added);
      if near {
        NearSpreads(before, drained, {}, {});
      }
    }

    /** The source is labelled and not taken for affected, and nothing but the listed vertices is flagged. */
    ghost predicate KeptClear(dist0: seq<nat>)
      reads this
    {
      flags <= Elements(affectedVertices) && Listed() && source < |dist0| && dist0[source] == 0
    }

    /** What has become of the labels next to the source: outside the listed vertices they are what they were, but for
        the arcs added; and a listed vertex whose in-row shows the source is labelled next to it. */
    ghost predicate NearListed(dist0: seq<nat>, added: set<Arc>)
      reads this, graph
    {
      && OnlySource(source, dist) && OneAway(dist, dist0, added, source, Elements(affectedVertices))
      && BesideSource(Elements(affectedVertices))
    }

    lemma NearDrained(before: seq<nat>, seeded: seq<nat>, sound: set<Arc>)
      requires KeptClear(before) && LabelledBy(sound) && |before| == |seeded|
      requires SameOutside(seeded, before, Elements(affectedVertices)) && Below(dist, seeded)
      requires SameOutside(dist, seeded, flags)
      requires forall v: nat | v in affectedVertices && v < |seeded| && (source, v) in graph.inArcs :: seeded[v] <= 1
      ensures NearListed(before, {})
    {
      assert source !in affectedVertices && dist[source] == 0;
      LabelledOnlySource(sound, source, dist, reachableCount);
    }

    lemma NearSpreads(before: seq<nat>, drained: seq<nat>, added1: set<Arc>, added2: set<Arc>)
      requires OnlySource(source, drained) && OneAway(drained, before, added1, source, Elements(affectedVertices))
      requires forall v: nat | v in affectedVertices && v < |drained| && ShowsSource(v) :: drained[v] <= 1
      requires OnlySource(source, dist) && OneAway(dist, drained, added2, source, {})
      ensures NearListed(before, added1 + added2)
    {
      OneAwayTwice(before, drained, dist, added1, added2, source, Elements(affectedVertices));
    }

    // ---------- One batch ----------

    /** Labels may follow the final additions, as far as they lie among the labelled vertices. */
    ghost predicate AdditionsIn(sound: set<Arc>)
      reads this
    {
      EdgesIn(finalAdditions, graph.directed, |dist|, sound)
    }

    method RelaxAdditions(ghost sound: set<Arc>, ghost core: set<Arc>)
      requires LabelledBy(sound) && core <= graph.arcs <= sound && AdditionsIn(sound)
      requires Settled(core, dist, {}, ArcsOf(finalAdditions, graph.directed))
      modifies this`dist, this`reachableCount
      ensures LabelledBy(sound) && Relaxed(core, dist)
      ensures Below(dist, old(dist))
      ensures NothingReached(old(dist)) ==> dist == old(dist)
      ensures OnlySource(source, old(dist)) ==>
        OnlySource(source, dist) && OneAway(dist, old(dist), ArcsOf(finalAdditions, graph.directed), source, {})
    {
      var queue;
      dist, reachableCount, queue :=
        RelaxEdges(finalAdditions, graph.directed, dist, reachableCount, sound, core, source);
      ghost var dist1 := dist;
      PropagateDecreases(queue, sound, core, {});
      if OnlySource(source, old(dist)) {
        OneAwayTwice(old(dist), dist1, dist, ArcsOf(finalAdditions, graph.directed), {}, source, {});
        assert ArcsOf(finalAdditions, graph.directed) + {} == ArcsOf(finalAdditions, graph.directed);
      }
    }

    /** Repair the listed vertices, if there are any. */
    method RepairListed(ghost sound: set<Arc>, ghost core: set<Arc>, ghost added: set<Arc>)
      requires LabelledOutside(sound) && Listed() && Framed(sound, core) && FlagsFit(core)
      requires Settled(core - added, dist, {}, {})
      modifies this`dist, this`reachableCount
      ensures LabelledBy(sound) && Settled(core, dist, {}, added)
      ensures affectedVertices == [] ==> dist == old(dist)
      ensures forall v: nat | v < |dist| && v !in affectedVertices :: dist[v] <= old(dist)[v]
      ensures KeptClear(old(dist)) ==> NearListed(old(dist), {})
    {
      if affectedVertices != [] {
        assert forall i | 0 <= i < |affectedVertices| :: affectedVertices[i] in affectedVertices;
        var oldAffectedDist := seq(|affectedVertices|,
          i requires 0 <= i < |affectedVertices| && affectedVertices[i] < |dist| reads this =>
            dist[affectedVertices[i]]);
        RepairAffected(oldAffectedDist, sound, core, added);
      } else {
        NothingExcusedYet(core, dist, added);
        SoundFromOutside(sound, source, dist);
        if KeptClear(dist) {
          LabelledOnlySource(sound, source, dist, reachableCount);
        }
      }
    }

    /** Repair after the graph has taken the batch, for the vertices that were found to be pushed away. */
    method RepairAfterBatch(ghost sound: set<Arc>, ghost core: set<Arc>)
      requires LabelledOutside(sound) && Listed() && Framed(sound, core) && FlagsFit(core) && AdditionsIn(sound)
      requires Settled(core - ArcsOf(finalAdditions, graph.directed), dist, {}, {})
      modifies this`dist, this`reachableCount
      ensures LabelledBy(sound) && Relaxed(core, dist)
      ensures source < |dist| && old(dist)[source] == 0 ==> dist[source] == 0
      ensures affectedVertices == [] && NothingReached(old(dist)) ==> dist == old(dist)
      ensures forall v: nat | v < |dist| && v !in affectedVertices :: dist[v] <= old(dist)[v]
      ensures KeptClear(old(dist)) ==> NearSource(old(dist))
    {
      ghost var added, dist0, near := ArcsOf(finalAdditions, graph.directed), dist, KeptClear(dist);
      RepairListed(sound, core, added);
      ghost var dist1 := dist;
      RelaxAdditions(sound, core);
      if near {
        NearSpreads(dist0, dist1, {}, added);
        assert {} + added == added;
        ShownIsNear(dist0, added);
      }
    }

    /** What a repair has done to the labels next to the source. */
    ghost predicate NearSource(dist0: seq<nat>)
      reads this, graph
    {
      && OneAway(dist, dist0, ArcsOf(finalAdditions, graph.directed), source, Elements(affectedVertices))
      && forall v: nat | v in affectedVertices && v < |dist| && (source, v) in graph.inArcs :: dist[v] <= 1
    }

    lemma ShownIsNear(dist0: seq<nat>, added: set<Arc>)
      requires KeptClear(dist0) && NearListed(dist0, added) && added == ArcsOf(finalAdditions, graph.directed)
      ensures NearSource(dist0)
    {
    }

    /** Reset what the batch left in the workspace. */
    method ClearWorkspace()
      modifies this`flags, this`lost, this`support, this`touched
      ensures old(Tracked()) ==> Clean()
      ensures flags <= old(flags)
    {
      flags := flags - set v | v in affectedVertices;
      var reset := set v | v in touched;
      lost, support, touched := lost - reset, support - reset, [];
    }

    /** What a prepared repair relies on: exact labels of the graph before the batch, exactly the vertices pushed away,
        a batch with this effect on the arcs, and the right in-rows for those vertices after it. */
    ghost predicate Repairable(arcs0: set<Arc>, removed: set<Arc>, dist0: seq<nat>)
      reads this, graph
    {
      && RightInto(graph.Sides(), flags)
      && Basis(arcs0, source, dist0) && Relaxation.Labelled(arcs0, source, dist0, reachableCount)
      && flags == Elements(affectedVertices) == Growing(arcs0, removed, source, |dist0|)
      && OthersSupported(arcs0, removed, source, dist0, flags)
      && Effect(arcs0, removed, ArcsOf(finalAdditions, graph.directed), graph.arcs)
    }

    /** The old labels with the marker for new vertices. */
    ghost predicate Resized(dist0: seq<nat>)
      reads this, graph
    {
      |dist| == graph.vertexCount && dist0 <= dist && forall v: nat | |dist0| <= v < |dist| :: dist[v] == UNREACHABLE
    }

    /** Before a repair that can be relied on. */
    lemma GoodRepair(arcs0: set<Arc>, removed: set<Arc>, dist0: seq<nat>)
      requires Sane() && Resized(dist0) && Repairable(arcs0, removed, dist0)
      ensures LabelledOutside(graph.arcs) && Framed(graph.arcs, graph.arcs) && FlagsFit(graph.arcs)
      ensures AdditionsIn(graph.arcs)
      ensures Settled(graph.arcs - ArcsOf(finalAdditions, graph.directed), dist, {}, {})
      ensures source < |dist0| ==> source < |dist| && dist[source] == 0
      ensures source >= |dist0| ==> affectedVertices == [] && NothingReached(dist)
    {
      BatchLabels(arcs0, removed, source, dist0, reachableCount, flags, graph.arcs, dist);
      BatchSettled(arcs0, source, dist0, ArcsOf(finalAdditions, graph.directed), graph.arcs, dist);
      forall e | e in finalAdditions && e.0 != e.1
        ensures (e.0, e.1) in graph.arcs && (!graph.directed ==> (e.1, e.0) in graph.arcs)
      {
        assert (e.0, e.1) in ArcsOf(finalAdditions, graph.directed);
        assert !graph.directed ==> (e.1, e.0) in ArcsOf(finalAdditions, graph.directed);
      }
      assert affectedVertices != [] ==> affectedVertices[0] in Elements(affectedVertices);
    }

    /** Arcs enough for any labels at all. */
    ghost function AnyArcs(): set<Arc>
      reads graph
    {
      AllArcs(Max(graph.vertexCount, source + 1)) + graph.arcs + graph.inArcs
    }

    /** Before any other repair: nothing is claimed. */
    lemma AnyRepair()
      requires Sane() && |dist| == graph.vertexCount
      ensures LabelledOutside(AnyArcs()) && Framed(AnyArcs(), {}) && FlagsFit({}) && AdditionsIn(AnyArcs())
      ensures Settled({} - ArcsOf(finalAdditions, graph.directed), dist, {}, {})
    {
      TalliedIsLabelled(AnyArcs(), Max(graph.vertexCount, source + 1), source, dist, reachableCount);
    }

    /** What the labels are proved against: the arcs of the graph, or any arcs when nothing is known of them. */
    ghost function SoundArcs(good: bool): set<Arc>
      reads this, graph
    {
      if good then graph.arcs else AnyArcs()
    }

    ghost function CoreArcs(good: bool): set<Arc>
      reads this, graph
    {
      if good then graph.arcs else {}
    }

    lemma EitherRepair(arcs0: set<Arc>, removed: set<Arc>, dist0: seq<nat>, good: bool)
      requires Sane() && Resized(dist0) && (good ==> Repairable(arcs0, removed, dist0))
      ensures var sound, core := SoundArcs(good), CoreArcs(good);
        && LabelledOutside(sound) && Framed(sound, core) && FlagsFit(core) && AdditionsIn(sound)
        && Settled(core - ArcsOf(finalAdditions, graph.directed), dist, {}, {})
      ensures good && source < |dist0| ==> source < |dist| && dist[source] == 0
      ensures good && source >= |dist0| ==> affectedVertices == [] && NothingReached(dist)
    {
      if good {
        GoodRepair(arcs0, removed, dist0);
      } else {
        AnyRepair();
      }
    }

    /** The repaired labels are exact if and only if the source is an old vertex or still outside. */
    method RepairLabels(ghost arcs0: set<Arc>, ghost removed: set<Arc>, ghost dist0: seq<nat>, ghost good: bool)
      requires Sane() && Resized(dist0)
      requires good ==> Repairable(arcs0, removed, dist0)
      modifies this`dist, this`reachableCount
      ensures LabelledBy(SoundArcs(good))
      ensures forall v: nat | v < |dist| && v !in affectedVertices :: dist[v] <= old(dist)[v]
      ensures good ==> (Exact(graph.arcs, source, dist) <==> source < |dist0| || source >= |dist|)
      ensures old(KeptClear(dist)) ==> NearSource(old(dist))
    {
      EitherRepair(arcs0, removed, dist0, good);
      RepairAfterBatch(SoundArcs(good), CoreArcs(good));
      if good {
        Verdict(graph.arcs, source, dist, reachableCount, |dist0|);
      }
    }

    /** Repair, relax the additions and clear up. */
    method FinishRepair(ghost arcs0: set<Arc>, ghost removed: set<Arc>, ghost dist0: seq<nat>, ghost good: bool)
      requires Sane() && Resized(dist0)
      requires good ==> Repairable(arcs0, removed, dist0)
      modifies this`dist, this`reachableCount, this`flags, this`lost, this`support, this`touched
      ensures Sane() && |dist| == graph.vertexCount
      ensures old(Tracked()) ==> Clean()
      ensures forall v: nat | v < |dist| && v !in affectedVertices :: dist[v] <= old(dist)[v]
      ensures good ==> LabelledBy(graph.arcs)
      ensures good ==> (Exact(graph.arcs, source, dist) <==> source < |dist0| || source >= |dist|)
      ensures old(KeptClear(dist)) ==> NearSource(old(dist))
    {
      RepairLabels(arcs0, removed, dist0, good);
      LabelledIsTallied(SoundArcs(good), source, dist, reachableCount);
      ClearWorkspace();
    }

    /** Let the graph take the batch, and give new vertices the marker. */
    method TakeBatch(ops: seq<EdgeUpdate>)
      requires Sane() && InRange(ops)
      modifies this`dist, graph
      ensures Sane() && Resized(old(dist)) && graph.Value() == ApplyAll(old(graph.Value()), ops)
      ensures old(graph.Transposed()) ==> (graph.Transposed() <==> old(graph.StaysTransposed(ops)))
      ensures graph.TookBatch(old(graph.Sides()), old(graph.outgoing), ops)
    {
      ApplyKeepsSimple(graph.Value(), ops);
      graph.Apply(ops);
      if |dist| < graph.vertexCount {
        ghost var dist0 := dist;
        dist := dist + seq(graph.vertexCount - |dist|, _ => UNREACHABLE);
        assert Reached(dist) == Reached(dist0);
      }
    }

    /** The labels are exact unless the batch itself made room for the source. */
    ghost predicate ExactUnlessLate(vertices0: nat)
      reads this, graph, seenFinalUpdates, finalDeletionKeys
    {
      LabelledBy(graph.arcs) && (Valid() <==> source < vertices0 || source >= graph.vertexCount)
    }

    /** Only vertices that were found affected can have a larger label than before. */
    ghost predicate OnlyListedRose(dist0: seq<nat>)
      reads this
    {
      |dist0| <= |dist| && forall v: nat | v < |dist0| && v !in affectedVertices :: dist[v] <= dist0[v]
    }

    /** After the graph has taken the batch: recompute if too many vertices were affected, else repair. */
    method ConcludeBatch(withinLimit: bool, ghost arcs0: set<Arc>, ghost removed: set<Arc>, ghost dist0: seq<nat>,
                         ghost good: bool)
      requires Sane() && Resized(dist0)
      requires good ==> Basis(arcs0, source, dist0)
      requires good && withinLimit ==> Repairable(arcs0, removed, dist0)
      requires good && !withinLimit ==> Growing(arcs0, removed, source, |dist0|) != {}
      modifies this`dist, this`reachableCount, this`flags, this`lost, this`support, this`touched,
        this`lastUsedFullRecompute
      ensures Sane() && |dist| == graph.vertexCount && (old(Tracked()) ==> Clean())
      ensures lastUsedFullRecompute <==> !withinLimit
      ensures lastUsedFullRecompute ==> Valid()
      ensures !lastUsedFullRecompute ==> OnlyListedRose(dist0)
      ensures withinLimit && old(KeptClear(dist)) ==> NearSource(old(dist))
      ensures good ==> ExactUnlessLate(|dist0|)
    {
      lastUsedFullRecompute := !withinLimit;
      if !withinLimit {
        ClearWorkspace();
        Recompute();
        if good {
          SourceWasInside(arcs0, removed, source, dist0);
        }
        return;
      }
      FinishRepair(arcs0, removed, dist0, good);
    }

    /** The in-rows that a batch is repaired with are right: all of them before it, if it hurts, and those of the
        vertices it pushes away after it. */
    ghost predicate RowsSuffice(ops: seq<EdgeUpdate>)
      reads this, graph
    {
      var removed := RemovedArcs(graph.Value(), ops);
      Hurts(removed, dist) ==>
        && graph.Transposed()
        && RightInto(ApplyOps(graph.Sides(), graph.directed, ops), Growing(graph.arcs, removed, source, |dist|))
    }

    /** The graph has taken a batch: what it shows on either side. */
    ghost predicate Took(before: Rows, g: Graph, ops: seq<EdgeUpdate>)
      reads graph
    {
      g.arcs == before.arcs && graph.Value() == ApplyAll(g, ops) && graph.directed == g.directed
      && graph.inArcs == ApplyOps(before, g.directed, ops).inArcs
    }

    lemma TookRight(before: Rows, g: Graph, ops: seq<EdgeUpdate>, targets: set<nat>)
      requires Took(before, g, ops) && RightInto(ApplyOps(before, g.directed, ops), targets)
      ensures RightInto(graph.Sides(), targets)
    {
      OutRowsRefine(g, before, ops);
    }

    /** What was found before the graph took the batch is what its repair relies on. */
    lemma FoundIsRepairable(before: Rows, g: Graph, prepared: seq<EdgeUpdate>, ops: seq<EdgeUpdate>, dist0: seq<nat>)
      requires Simple(g) && Took(before, g, ops) && Basis(g.arcs, source, dist0)
      requires Relaxation.Labelled(g.arcs, source, dist0, reachableCount)
      requires ListsFinal(finalAdditions, prepared, g.directed, true) && Covers(g, prepared, ops)
      requires FoundIn(g, prepared, dist0) && RightInto(ApplyOps(before, g.directed, ops), flags)
      ensures Repairable(g.arcs, RemovedArcs(g, prepared), dist0)
    {
      CoversIsEffect(g, prepared, ops, finalAdditions);
      TookRight(before, g, ops, flags);
    }

    /** The flagged vertices are those that a batch pushes away, for the graph and the labels before it. */
    ghost predicate FoundIn(g: Graph, prepared: seq<EdgeUpdate>, dist0: seq<nat>)
      reads this
    {
      && flags == Elements(affectedVertices) == Growing(g.arcs, RemovedArcs(g, prepared), source, |dist0|)
      && OthersSupported(g.arcs, RemovedArcs(g, prepared), source, dist0, flags)
    }

    /** Prepare a batch and let the graph take it. */
    method PrepareAndTake(ops: seq<EdgeUpdate>, limit: nat) returns (withinLimit: bool)
      requires Sane() && InRange(ops)
      modifies this, graph, seenFinalUpdates, finalDeletionKeys
      ensures Sane() && Resized(old(dist)) && graph.Value() == ApplyAll(old(graph.Value()), ops)
      ensures graph.TookBatch(old(graph.Sides()), old(graph.outgoing), ops)
      ensures old(graph.Transposed()) ==> (graph.Transposed() <==> old(graph.StaysTransposed(ops)))
      ensures old(Clean()) ==> Tracked()
      ensures old(Ready()) ==> Basis(old(graph.arcs), source, old(dist)) && |old(dist)| == old(graph.vertexCount)
      ensures old(Ready() && RowsSuffice(ops)) ==>
        withinLimit ==> Repairable(old(graph.arcs), RemovedArcs(old(graph.Value()), ops), old(dist))
      ensures old(Ready() && Readable(ops)) ==>
        Judged(old(graph.Value()), ops, source, limit, withinLimit, lastAffectedVertices)
      ensures lastDeletionCandidates == |HurtSet(RemovedArcs(old(graph.Value()), ops), old(dist))|
      ensures withinLimit || |affectedVertices| > limit
      ensures !old(Hurts(RemovedArcs(graph.Value(), ops), dist)) ==> withinLimit && affectedVertices == []
      ensures |ops| == 1 && old(SparedBy((ops[0].src, ops[0].dst))) ==> affectedVertices == []
    {
      ghost var g, before, dist0, good := graph.Value(), graph.Sides(), dist, Ready() && RowsSuffice(ops);
      withinLimit := Prepare(ops, limit);
      TakeBatch(ops);
      if good && withinLimit {
        CoversItself(g, ops);
        UnhurtIsEmpty(g, ops, source, dist0);
        FoundIsRepairable(before, g, ops, ops, dist0);
      }
    }

    /** A batch that is not empty. */
    method ApplyUpdates(ops: seq<EdgeUpdate>)
      requires Sane() && InRange(ops) && 0.0 <= deletionFallbackFraction
      modifies this, graph, seenFinalUpdates, finalDeletionKeys
      ensures Sane() && graph.Value() == ApplyAll(old(graph.Value()), ops)
      ensures graph.TookBatch(old(graph.Sides()), old(graph.outgoing), ops)
      ensures old(graph.Transposed()) ==> (graph.Transposed() <==> old(graph.StaysTransposed(ops)))
      ensures old(Clean()) ==> Clean()
      ensures old(Ready() && RowsSuffice(ops)) ==> ExactUnlessLate(old(graph.vertexCount))
      ensures old(Ready() && Readable(ops)) ==>
        Judged(old(graph.Value()), ops, source, FallbackLimit(old(graph.vertexCount), deletionFallbackFraction),
               !lastUsedFullRecompute, lastAffectedVertices)
      ensures lastDeletionCandidates == |HurtSet(RemovedArcs(old(graph.Value()), ops), old(dist))|
      ensures lastUsedFullRecompute ==>
        Valid() && |affectedVertices| > FallbackLimit(old(graph.vertexCount), deletionFallbackFraction)
      ensures !lastUsedFullRecompute ==> OnlyListedRose(old(dist))
      ensures old(Clean()) && !lastUsedFullRecompute && source < |old(dist)| && old(dist)[source] == 0 ==>
        SourceShown()
      ensures |ops| == 1 && old(SparedBy((ops[0].src, ops[0].dst))) ==> affectedVertices == []
    {
      ghost var before, dist0, limit := graph.Value(), dist, FallbackLimit(graph.vertexCount, deletionFallbackFraction);
      ghost var good := Ready() && RowsSuffice(ops);
      var withinLimit := PrepareAndTake(ops, FallbackLimit(graph.vertexCount, deletionFallbackFraction));
      if good && !withinLimit {
        TooManyIsSome(before, ops, source, limit, withinLimit, lastAffectedVertices);
      }
      ConcludeBatch(withinLimit, before.arcs, RemovedArcs(before, ops), dist0, good);
    }

    /** Every listed vertex whose in-row shows the source is labelled next to it. */
    ghost predicate SourceShown()
      reads this, graph
    {
      forall v: nat | v in affectedVertices && v < |dist| && (source, v) in graph.inArcs :: dist[v] <= 1
    }

    /** The workspace holds what a batch will push away, and what was prepared for it does for `ops`. */
    ghost predicate Fits(prepared: seq<EdgeUpdate>, ops: seq<EdgeUpdate>)
      reads this, graph, seenFinalUpdates, finalDeletionKeys
    {
      && Valid() && ListsFinal(finalAdditions, prepared, graph.directed, true)
      && FoundGrowing(RemovedArcs(graph.Value(), prepared))
      && Covers(graph.Value(), prepared, ops)
      && RightInto(ApplyOps(graph.Sides(), graph.directed, ops), flags)
    }

    /** Let the graph take a batch and repair for it with what the workspace holds. */
    method CommitWork(ops: seq<EdgeUpdate>, ghost prepared: seq<EdgeUpdate>)
      requires Sane() && InRange(ops)
      modifies this`dist, this`reachableCount, this`flags, this`lost, this`support, this`touched, graph
      ensures Sane() && graph.Value() == ApplyAll(old(graph.Value()), ops)
      ensures graph.TookBatch(old(graph.Sides()), old(graph.outgoing), ops)
      ensures old(graph.Transposed()) ==> (graph.Transposed() <==> old(graph.StaysTransposed(ops)))
      ensures old(Tracked()) ==> Clean()
      ensures old(Fits(prepared, ops)) ==> ExactUnlessLate(old(graph.vertexCount))
      ensures OnlyListedRose(old(dist))
      ensures old(KeptClear(dist)) ==> NearCommitted(old(dist))
    {
      ghost var g, before, dist0, fits := graph.Value(), graph.Sides(), dist, Fits(prepared, ops);
      ghost var near := KeptClear(dist);
      TakeBatch(ops);
      if fits {
        FoundIsRepairable(before, g, prepared, ops, dist0);
      }
      FinishRepair(g.arcs, RemovedArcs(g, prepared), dist0, fits);
    }

    /** After a commit the labels 0 and 1 are those from before it and those of arcs prepared as added at the source,
        except for the vertices prepared as pushed away. */
    ghost predicate NearCommitted(dist0: seq<nat>)
      reads this, graph
    {
      var added := ArcsOf(finalAdditions, graph.directed);
      && (forall v: nat | v < |dist| && (source, v) in added :: dist[v] <= 1)
      && (forall v: nat | v < |dist| && v !in affectedVertices ::
           dist[v] <= 1 <==> (v < |dist0| && dist0[v] <= 1) || (source, v) in added)
    }

    /** Bring the labels up to date with one batch.
        If they were exact, the workspace clean, and the in-rows that the batch is repaired with are right, then the
        labels are exact afterwards unless the batch itself made room for a source that was outside the graph: the code
        then never labels the source. */
    method Apply(ops: seq<EdgeUpdate>)
      requires Sane() && InRange(ops) && 0.0 <= deletionFallbackFraction
      modifies this, graph, seenFinalUpdates, finalDeletionKeys
      ensures Sane() && graph.Value() == ApplyAll(old(graph.Value()), ops)
      ensures graph.TookBatch(old(graph.Sides()), old(graph.outgoing), ops)
      ensures old(graph.Transposed()) ==> (graph.Transposed() <==> old(graph.StaysTransposed(ops)))
      ensures old(Clean()) ==> Clean()
      ensures old(Ready() && RowsSuffice(ops)) ==> ExactUnlessLate(old(graph.vertexCount))
      ensures old(Ready() && Readable(ops)) && ops != [] ==>
        Assessed(old(graph.Value()), ops, source, deletionFallbackFraction, lastUsedFullRecompute, lastAffectedVertices)
      ensures ops == [] ==> dist == old(dist) && lastAffectedVertices == 0 && !lastUsedFullRecompute
      ensures lastDeletionCandidates ==
        if ops == [] then 0 else |HurtSet(RemovedArcs(old(graph.Value()), ops), old(dist))|
      ensures lastUsedFullRecompute ==>
        Valid() && TooMany(|affectedVertices|, old(graph.vertexCount), deletionFallbackFraction)
      ensures ops != [] && !lastUsedFullRecompute ==> OnlyListedRose(old(dist))
      ensures ops != [] && old(Clean()) && !lastUsedFullRecompute && source < |old(dist)| && old(dist)[source] == 0 ==>
        SourceShown()
      ensures |ops| == 1 && old(SparedBy((ops[0].src, ops[0].dst))) ==> affectedVertices == []
    {
      if ops == [] {
        ghost var before := graph.Sides();
        lastDeletionCandidates, lastAffectedVertices, lastUsedFullRecompute := 0, 0, false;
        NothingApplied(before, graph.directed);
        return;
      }
      ghost var g := graph.Value();
      ApplyUpdates(ops);
      JudgedIsAssessed(g, ops, source, deletionFallbackFraction, !lastUsedFullRecompute, lastAffectedVertices);
      LimitMeaning(|affectedVertices|, g.vertexCount, deletionFallbackFraction);
    }

    /** Let the graph take a batch and recompute all labels. */
    method Rebuild(ops: seq<EdgeUpdate>)
      requires Sane() && InRange(ops)
      modifies this`dist, this`reachableCount, graph
      ensures Valid() && graph.Value() == ApplyAll(old(graph.Value()), ops)
      ensures graph.TookBatch(old(graph.Sides()), old(graph.outgoing), ops)
      ensures old(Clean()) ==> Clean()
    {
      ApplyKeepsSimple(graph.Value(), ops);
      graph.Apply(ops);
      Recompute();
    }
  }

  lemma NothingApplied(r: Rows, directed: bool)
    ensures TwoSided.StaysTransposed(r, directed, [])
  {
  }

  lemma AdditionArcs(additions: seq<Arc>, directed: bool, i: nat)
    requires i < |additions|
    ensures var (u, v) := additions[i]; var before := ArcsOf(additions[..i], directed);
      ArcsOf(additions[..i + 1], directed) == if u == v then before else before + EdgeArcs(u, v, directed)
  {
    var (u, v) := additions[i];
    var before := ArcsOf(additions[..i], directed);
    assert additions[..i + 1] == additions[..i] + [additions[i]];
    SamePairs(ArcsOf(additions[..i + 1], directed), if u == v then before else before + EdgeArcs(u, v, directed));
  }

  ghost predicate EdgesIn(edges: seq<Arc>, directed: bool, n: nat, sound: set<Arc>)
  {
    forall e | e in edges && e.0 != e.1 && e.0 < n && e.1 < n ::
      (e.0, e.1) in sound && (!directed ==> (e.1, e.0) in sound)
  }

  /** The first i edges have been relaxed. Next to the source, they alone have changed anything. */
  ghost predicate RelaxedUpTo(edges: seq<Arc>, directed: bool, i: nat, dist: seq<nat>, count: nat, queue: seq<nat>,
                              dist0: seq<nat>, arcs: set<Arc>, core: set<Arc>, s: nat)
    requires i <= |edges|
  {
    && Labelled(arcs, s, dist, count) && Below(dist, dist0) && InBounds(queue, |dist|)
    && Settled(core, dist, Elements(queue), ArcsOf(edges[i..], directed))
    && (NothingReached(dist0) ==> dist == dist0 && queue == [])
    && (OnlySource(s, dist0) ==>
         OnlySource(s, dist) && AwayFrom(queue, s) && OneAway(dist, dist0, ArcsOf(edges[..i], directed), s, {}))
  }

  method RelaxNext(edges: seq<Arc>, directed: bool, i: nat, dist1: seq<nat>, count1: nat, queue1: seq<nat>,
                   ghost dist0: seq<nat>, ghost arcs: set<Arc>, ghost core: set<Arc>, ghost s: nat)
    returns (dist: seq<nat>, count: nat, queue: seq<nat>)
    requires i < |edges| && EdgesIn(edges, directed, |dist0|, arcs)
    requires RelaxedUpTo(edges, directed, i, dist1, count1, queue1, dist0, arcs, core, s)
    ensures RelaxedUpTo(edges, directed, i + 1, dist, count, queue, dist0, arcs, core, s)
  {
    var (u, v) := edges[i];
    assert edges[i] in edges;
    AdditionStep(edges, directed, i);
    AdditionArcs(edges, directed, i);
    dist, count, queue := RelaxEdge(u, v, directed, dist1, count1, queue1, arcs, core, s, ArcsOf(edges[i..], directed),
                                    ArcsOf(edges[i + 1..], directed));
    if OnlySource(s, dist0) && u != v {
      OneAwayTwice(dist0, dist1, dist, ArcsOf(edges[..i], directed), EdgeArcs(u, v, directed), s, {});
    }
  }

  /** Relax every edge in turn, in its one or two directions. */
  method RelaxEdges(edges: seq<Arc>, directed: bool, dist0: seq<nat>, count0: nat, ghost arcs: set<Arc>,
                    ghost core: set<Arc>, ghost s: nat)
    returns (dist: seq<nat>, count: nat, queue: seq<nat>)
    requires Labelled(arcs, s, dist0, count0) && EdgesIn(edges, directed, |dist0|, arcs)
    requires Settled(core, dist0, {}, ArcsOf(edges, directed))
    ensures Labelled(arcs, s, dist, count) && Below(dist, dist0) && InBounds(queue, |dist|)
    ensures Settled(core, dist, Elements(queue), {})
    ensures NothingReached(dist0) ==> dist == dist0 && queue == []
    ensures OnlySource(s, dist0) ==>
      OnlySource(s, dist) && AwayFrom(queue, s) && OneAway(dist, dist0, ArcsOf(edges, directed), s, {})
  {
    dist, count, queue := dist0, count0, [];
    assert edges[0..] == edges && ArcsOf(edges[..0], directed) == {};
    var i := 0;
    while i < |edges|
      invariant 0 <= i <= |edges| && RelaxedUpTo(edges, directed, i, dist, count, queue, dist0, arcs, core, s)
    {
      dist, count, queue := RelaxNext(edges, directed, i, dist, count, queue, dist0, arcs, core, s);
      i := i + 1;
    }
    assert ArcsOf(edges[i..], directed) == {} && edges[..i] == edges;
  }

  lemma CoversItself(g: Graph, ops: seq<EdgeUpdate>)
    requires Simple(g)
    ensures Covers(g, ops, ops)
  {
    forall u: nat, v: nat | u != v
      ensures CoversArc(g, ops, ops, u, v)
    {
      LastOperationWins(g, ops, u, v);
    }
  }

  /** A batch that hurts nothing pushes nothing away. */
  lemma UnhurtIsEmpty(g: Graph, ops: seq<EdgeUpdate>, s: nat, dist: seq<nat>)
    requires Basis(g.arcs, s, dist)
    ensures !Hurts(RemovedArcs(g, ops), dist) ==> Growing(g.arcs, RemovedArcs(g, ops), s, |dist|) == {}
    ensures forall r: Rows :: RightInto(r, {})
  {
    if !Hurts(RemovedArcs(g, ops), dist) {
      UnhurtStaysSupported(g.arcs, RemovedArcs(g, ops), s, dist);
    }
  }

  /** One row of another vertex than the source relaxed, and what it pushed put behind the queue. */
  lemma RowAway(s: nat, dist: seq<nat>, dist1: seq<nat>, queue1: seq<nat>, queue: seq<nat>, u: nat)
    requires OnlySource(s, dist1) && AwayFrom(queue1, s) && queue1 <= queue
    requires u < |dist1| && u != s && Below(dist, dist1)
    requires Pushed(dist, dist1, queue[|queue1|..], dist1[u] + 1)
    ensures OnlySource(s, dist) && OneAway(dist, dist1, {}, s, {}) && AwayFrom(queue, s)
  {
    RowNear(s, dist, dist1, queue[|queue1|..], u);
    assert queue == queue1 + queue[|queue1|..];
  }

  lemma PushedInRange(queue0: seq<nat>, queue: seq<nat>, head: nat, dist: seq<nat>, dist1: seq<nat>, u: nat)
    requires queue0 <= queue && head < |queue0| && u < |dist1|
    requires forall i | head <= i < |queue0| :: queue0[i] < |dist1|
    requires Pushed(dist, dist1, queue[|queue0|..], dist1[u] + 1)
    ensures forall i | head + 1 <= i < |queue| :: queue[i] < |dist|
  {
    forall i | head + 1 <= i < |queue|
      ensures queue[i] < |dist|
    {
      assert i >= |queue0| ==> queue[i] == queue[|queue0|..][i - |queue0|];
    }
  }

  lemma NothingToSettle(flags: set<nat>, dist: seq<nat>, open: set<nat>)
    ensures Settled(Into({}, flags), dist, open, {})
  {
  }

  lemma SettledNothing(core: set<Arc>, dist: seq<nat>, open: set<nat>, excused: set<Arc>)
    requires core == {}
    ensures Settled(core, dist, open, excused)
  {
  }

  lemma ImprovedAreListed(dist: seq<nat>, before: seq<nat>, flags: set<nat>, listed: seq<nat>)
    requires SameOutside(dist, before, flags) && flags == Elements(listed)
    ensures forall v | v in Improved(dist, before) :: v in listed
  {
  }

  lemma NothingKeyed(arcs: set<Arc>, directed: bool, existing: seq<Arc>)
    ensures KeyedArcs(arcs, directed, existing[..0]) == {}
  {
  }

  /** A batch of one operation has at most one deletion, on its own arc. */
  lemma OnlyDeletion(ops: seq<EdgeUpdate>, directed: bool, deletions: seq<Arc>, existing: seq<Arc>)
    requires ListsFinal(deletions, ops, directed, false) && DistinctKeys(existing, directed)
    requires forall e | e in existing :: e in deletions
    ensures |ops| == 1 ==> |existing| <= 1 && forall e | e in existing :: e == (ops[0].src, ops[0].dst)
  {
    if |ops| == 1 {
      forall i | 0 <= i < |existing|
        ensures existing[i] == (ops[0].src, ops[0].dst)
      {
        var e := existing[i];
        assert e in deletions;
        var op :| op in ops && op.src == e.0 && op.dst == e.1;
      }
      if |existing| > 1 {
        SameKey(existing, directed);
      }
    }
  }

  lemma SameKey(edges: seq<Arc>, directed: bool)
    requires DistinctKeys(edges, directed) && |edges| > 1
    ensures edges[0] != edges[1]
  {
  }

  lemma RemovedByKey(g: Graph, ops: seq<EdgeUpdate>, packed: set<nat>)
    requires Simple(g)
    requires forall key: Arc | key.0 < UNREACHABLE && key.1 < UNREACHABLE ::
      EdgeKey(key) in packed <==> LastOp(ops, g.directed, key) == Some(false)
    ensures DeletedByKey(g.arcs, g.directed, packed, RemovedArcs(g, ops))
  {
  }

  lemma ListedIsShort(queue: seq<nat>, n: nat)
    requires Distinct(queue) && forall v | v in queue :: v < n
    ensures |queue| <= n
  {
    DistinctIsShort(queue, n);
  }

  /** The vertex and its targets are reached, and of its arcs only deleted ones have been looked at. */
  ghost predicate OpenRow(arcs: set<Arc>, directed: bool, packed: set<nat>, dist: seq<nat>, k: Search, u: nat)
  {
    && TargetsReached(arcs, dist, u) && DeletedByKey(arcs, directed, packed, k.deleted)
    && k.deleted <= k.processed && (forall v: nat | (u, v) in k.processed :: (u, v) in k.deleted)
  }

  /** The limit was judged by the number of distances that grow, and if it was kept those were counted. */
  ghost predicate Judged(g: Graph, ops: seq<EdgeUpdate>, s: nat, limit: nat, withinLimit: bool, affected: nat)
  {
    var growing := Growing(g.arcs, RemovedArcs(g, ops), s, g.vertexCount);
    (withinLimit <==> |growing| <= limit) && (withinLimit ==> affected == |growing|)
  }

  /** A recompute is used exactly when the batch pushes too many vertices away, and otherwise all of them are listed. */
  ghost predicate Assessed(g: Graph, ops: seq<EdgeUpdate>, s: nat, fraction: real, recompute: bool, affected: nat)
  {
    var growing := Growing(g.arcs, RemovedArcs(g, ops), s, g.vertexCount);
    && (recompute <==> TooMany(|growing|, g.vertexCount, fraction))
    && (!recompute ==> affected == |growing|)
  }

  lemma JudgedIsAssessed(g: Graph, ops: seq<EdgeUpdate>, s: nat, fraction: real, withinLimit: bool, affected: nat)
    requires 0.0 <= fraction
    ensures Judged(g, ops, s, FallbackLimit(g.vertexCount, fraction), withinLimit, affected) ==>
      Assessed(g, ops, s, fraction, !withinLimit, affected)
  {
    LimitMeaning(|Growing(g.arcs, RemovedArcs(g, ops), s, g.vertexCount)|, g.vertexCount, fraction);
  }

  lemma TooManyIsSome(g: Graph, ops: seq<EdgeUpdate>, s: nat, limit: nat, withinLimit: bool, affected: nat)
    requires Judged(g, ops, s, limit, withinLimit, affected) && !withinLimit
    ensures Growing(g.arcs, RemovedArcs(g, ops), s, g.vertexCount) != {}
  {
  }

  lemma NothingOf(u: nat, row: seq<nat>)
    ensures RowOf(u, row[..0]) == {}
  {
    SamePairs(RowOf(u, row[..0]), {});
  }

  lemma RowAdvances(row: seq<nat>, u: nat, i: nat)
    requires Ascending(row) && i < |row|
    ensures row[i] in row && (u, row[i]) !in RowOf(u, row[..i])
    ensures RowOf(u, row[..i + 1]) == RowOf(u, row[..i]) + {(u, row[i])}
  {
    assert row[..i + 1] == row[..i] + [row[i]] && row[i] !in row[..i];
    SamePairs(RowOf(u, row[..i + 1]), RowOf(u, row[..i]) + {(u, row[i])});
  }

  lemma WholeRowOf(arcs: set<Arc>, u: nat, row: seq<nat>)
    requires forall v: nat :: v in row <==> (u, v) in arcs
    ensures RowOf(u, row) == OutArcs(arcs, u)
  {
    forall x: nat, y: nat
      ensures (x, y) in RowOf(u, row) <==> (x, y) in OutArcs(arcs, u)
    {
    }
    SamePairs(RowOf(u, row), OutArcs(arcs, u));
  }

  /** The deleted arcs are those whose packed key is listed. */
  ghost predicate DeletedByKey(arcs: set<Arc>, directed: bool, packed: set<nat>, deleted: set<Arc>)
  {
    && deleted <= arcs
    && forall x: nat, y: nat {:trigger (x, y) in deleted} | (x, y) in arcs ::
         (x, y) in deleted <==> EdgeKey(Key(directed, x, y)) in packed
  }

  /** Appending a vertex that is not flagged keeps the list free of repeats. */
  lemma AppendListed(queue: seq<nat>, flags: set<nat>, v: nat, n: nat, s: nat)
    requires Distinct(queue) && Elements(queue) <= flags && v !in flags && v < n && v != s
    requires forall x | x in queue :: x < n && x != s
    ensures Distinct(queue + [v]) && Elements(queue + [v]) <= flags + {v}
    ensures forall x | x in queue + [v] :: x < n && x != s
  {
    assert v !in queue;
  }

  lemma CachedSupport(arcs: set<Arc>, dist: seq<nat>, before: map<nat, nat>, after: map<nat, nat>, v: nat)
    requires CacheExact(arcs, dist, before)
    requires after == before || after == before[v := |ParentsOf(arcs, dist, v)|]
    ensures CacheExact(arcs, dist, after)
    ensures Count(before, v) != 0 ==> before[v] == |ParentsOf(arcs, dist, v)|
  {
  }

  /** Whatever is written into the workspace is listed for clearing. */
  lemma TrackLoss(before: Workspace, after: Workspace, touched0: seq<nat>, touched: seq<nat>, v: nat)
    requires after.lost == before.lost[v := Count(before.lost, v) + 1]
    requires after.cache.Keys <= before.cache.Keys + {v}
    requires (after.affected == before.affected && after.queue == before.queue)
      || (after.affected == before.affected + {v} && after.queue == before.queue + [v])
    requires touched0 <= touched && (Count(before.lost, v) == 0 ==> touched == touched0 + [v])
    ensures before.affected <= Elements(before.queue) ==> after.affected <= Elements(after.queue)
    ensures before.lost.Keys <= Elements(touched0) ==> after.lost.Keys <= Elements(touched)
    ensures before.lost.Keys <= Elements(touched0) && before.cache.Keys <= Elements(touched0) ==>
      after.cache.Keys <= Elements(touched)
  {
    assert forall x | x in touched0 :: x in touched;
    assert Count(before.lost, v) == 0 ==> touched[|touched0|] == v && v in touched;
    assert forall x | x in before.queue :: x in before.queue + [v];
    assert v in before.queue + [v];
  }
}
