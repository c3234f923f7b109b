/** The bounded preview run before a repair: it discovers the affected vertices of a batch's final
    deletions and gives up once more than a given share of the vertices is exposed. */
module CascadePreview {
  import opened Distances
  import opened Collections
  import opened DynamicGraphs
  import opened GraphStorage
  import opened BreadthFirst
  import opened Cascade
  import opened CascadeWorklist

  datatype Preview = Preview(evaluated: bool, exceeded: bool, affectedVertices: nat, affectedFraction: real)

  function Ceil(x: real): int
  {
    -((-x).Floor)
  }

  function StopVertices(stopFraction: real, vertices: nat): nat
    requires 0.0 <= stopFraction
  {
    var scaled := Ceil(stopFraction * Max(1, vertices) as real);
    if scaled < 1 then 1 else scaled
  }

  /** More vertices than that: at least two, and all but one of them reach the given share. */
  lemma StopMeaning(stopFraction: real, vertices: nat, count: nat)
    requires 0.0 <= stopFraction
    ensures count > StopVertices(stopFraction, vertices) <==>
              count >= 2 && (count - 1) as real >= stopFraction * Max(1, vertices) as real
  {
    var x := stopFraction * Max(1, vertices) as real;
    assert count - 1 >= Ceil(x) <==> (count - 1) as real >= x;
  }

  function Share(part: nat, whole: nat): real
  {
    part as real / Max(1, whole) as real
  }

  lemma ShareMeaning(part: nat, whole: nat)
    ensures Share(part, whole) * Max(1, whole) as real == part as real
  {
  }

  /** The final deletions of arcs that are present, each listed once. */
  method FinalDeletions(graph: DynamicGraph, ops: seq<EdgeUpdate>)
    returns (deletions: seq<Arc>, finalDeletions: set<Arc>)
    requires graph.Consistent() && graph.directed
    ensures finalDeletions == RemovedArcs(graph.Value(), ops)
    ensures forall a :: a in deletions <==> a in finalDeletions
    ensures forall i, j | 0 <= i < j < |deletions| :: deletions[i] != deletions[j]
  {
    deletions, finalDeletions := [], {};
    var seen: set<Arc> := {};
    var i := |ops|;
    assert ops[..i] == ops;
    while i > 0
      invariant 0 <= i <= |ops|
      invariant forall key :: key in seen ==> LastOp(ops, true, key) != None
      invariant forall key :: key !in seen ==> LastOp(ops, true, key) == LastOp(ops[..i], true, key)
      invariant forall a :: a in finalDeletions <==> a in seen && a in graph.arcs && LastOp(ops, true, a) == Some(false)
      invariant forall a :: a in deletions <==> a in finalDeletions
      invariant forall j, k | 0 <= j < k < |deletions| :: deletions[j] != deletions[k]
    {
      i := i - 1;
      var op := ops[i];
      var key: Arc := (op.src, op.dst);
      assert ops[..i + 1][..i] == ops[..i];
      if key !in seen {
        seen := seen + {key};
        if !op.add {
          var present := graph.HasEdge(op.src, op.dst);
          if present {
            deletions := deletions + [key];
            finalDeletions := finalDeletions + {key};
          }
        }
      }
    }
    assert ops[..0] == [];
  }

  /** Charge every deleted shortest-path arc to its target. */
  method ChargeDeletions(deletions: seq<Arc>, dist: seq<nat>, ghost arcs: set<Arc>)
    returns (lost: map<nat, nat>, ghost charged: set<Arc>)
    requires forall i, j | 0 <= i < j < |deletions| :: deletions[i] != deletions[j]
    requires forall a | a in deletions :: a in arcs
    ensures forall p: nat, v: nat :: (p, v) in charged <==> (p, v) in deletions && p in ParentsOf(arcs, dist, v)
    ensures CountsCharges(charged, {}, lost)
  {
    lost, charged := map[], {};
    var i := 0;
    while i < |deletions|
      invariant 0 <= i <= |deletions|
      invariant forall p: nat, v: nat ::
        (p, v) in charged <==> (p, v) in deletions[..i] && p in ParentsOf(arcs, dist, v)
      invariant CountsCharges(charged, {}, lost)
    {
      var (u, v) := deletions[i];
      assert deletions[..i + 1] == deletions[..i] + [(u, v)];
      assert deletions[i] in deletions && (u, v) !in deletions[..i];
      if Parent(dist, u, v) {
        CountStep(charged, {}, lost, u, v);
        lost := lost[v := Count(lost, v) + 1];
        charged := charged + {(u, v)};
      }
      i := i + 1;
    }
  }

  /** The queue lists the affected vertices once each, and every cached count is that of an in-row. */
  ghost predicate Tidy(inArcs: set<Arc>, dist: seq<nat>, w: Workspace)
  {
    && CacheExact(inArcs, dist, w.cache)
    && Distinct(w.queue) && w.affected == Elements(w.queue) && forall v | v in w.queue :: v < |dist|
  }

  /** Move v to the affected set once it has lost as many parents as its in-row shows. */
  method MarkIfUnsupported(graph: DynamicGraph, dist: seq<nat>, v: nat, w0: Workspace) returns (w: Workspace)
    requires graph.Consistent() && Tidy(graph.inArcs, dist, w0)
    ensures Tidy(graph.inArcs, dist, w) && w.lost == w0.lost
    ensures if v !in w0.affected && Unsupported(Count(w0.lost, v), |ParentsOf(graph.inArcs, dist, v)|)
            then w.affected == w0.affected + {v} && w.queue == w0.queue + [v]
            else w.affected == w0.affected && w.queue == w0.queue
  {
    w := w0;
    if v in w.affected {
      return;
    }
    if v !in w.cache {
      var count := ShortestSupport(graph, dist, v);
      w := w.(cache := w.cache[v := count]);
    }
    var support := w.cache[v];
    if support != 0 && v in w.lost && w.lost[v] >= support {
      HasParent(graph.inArcs, dist, v);
      Append(w.queue, w.affected, v);
      w := w.(affected := w.affected + {v}, queue := w.queue + [v]);
    }
  }

  lemma HasParent(arcs: set<Arc>, dist: seq<nat>, v: nat)
    requires |ParentsOf(arcs, dist, v)| != 0
    ensures v < |dist|
  {
    var p :| p in ParentsOf(arcs, dist, v);
  }

  /** The search follows the ledger of lost parents. */
  ghost predicate Following(arcs: set<Arc>, deleted: set<Arc>, dist: seq<nat>, charged: set<Arc>, w: Workspace,
                            processed: set<Arc>)
  {
    Worklist(arcs, deleted, dist, charged, w) && UpToDate(arcs, dist, charged, w, processed) && charged <= processed
  }

  lemma SeedMarked(arcs: set<Arc>, deleted: set<Arc>, dist: seq<nat>, charged: set<Arc>, pending: set<nat>,
                   w0: Workspace, w: Workspace, v: nat)
    requires Worklist(arcs, deleted, dist, charged, w0) && Checked(arcs, dist, charged, w0.affected, pending)
    requires CacheExact(arcs, dist, w.cache) && w.lost == w0.lost
    requires if v !in w0.affected && Unsupported(Count(w0.lost, v), |ParentsOf(arcs, dist, v)|)
             then w.affected == w0.affected + {v} && w.queue == w0.queue + [v]
             else w.affected == w0.affected && w.queue == w0.queue
    ensures Worklist(arcs, deleted, dist, charged, w) && Checked(arcs, dist, charged, w.affected, pending - {v})
  {
    if v !in w0.affected {
      assert Charges(charged, v) <= ParentsOf(arcs, dist, v);
      CountDecides(arcs, dist, charged, v);
      MarkKeepsLedger(arcs, deleted, dist, charged, w0.affected, pending, v);
      Append(w0.queue, w0.affected, v);
    }
  }

  lemma OnlyCountedCanSaturate(arcs: set<Arc>, deleted: set<Arc>, dist: seq<nat>, charged: set<Arc>,
                               lost: map<nat, nat>)
    requires CountsCharges(charged, {}, lost)
    ensures Checked(arcs, dist, charged, {}, lost.Keys)
  {
    forall v: nat | v !in lost.Keys && ParentsOf(arcs, dist, v) != {}
      ensures !Saturated(arcs, dist, charged, v)
    {
      assert Count(lost, v) == 0;
      assert Charges(charged, v) == {};
      var p :| p in ParentsOf(arcs, dist, v);
      assert p !in Charges(charged, v);
    }
  }

  /** Mark, in any order, the vertices that lost every parent to the deletions alone. */
  method MarkSeeds(graph: DynamicGraph, dist: seq<nat>, lost: map<nat, nat>, ghost charged: set<Arc>,
                   ghost deleted: set<Arc>)
    returns (w: Workspace)
    requires graph.Consistent()
    requires ChargedIsLost(graph.arcs, deleted, dist, charged, {}) && CountsCharges(charged, {}, lost)
    ensures Tidy(graph.inArcs, dist, w)
    ensures graph.Transposed() ==>
      Worklist(graph.arcs, deleted, dist, charged, w) && Checked(graph.arcs, dist, charged, w.affected, {})
  {
    w := Workspace(lost, map[], {}, []);
    var pending := lost.Keys;
    OnlyCountedCanSaturate(graph.arcs, deleted, dist, charged, lost);
    while pending != {}
      invariant pending <= lost.Keys && Tidy(graph.inArcs, dist, w)
      invariant graph.Transposed() ==> Worklist(graph.arcs, deleted, dist, charged, w)
      invariant graph.Transposed() ==> Checked(graph.arcs, dist, charged, w.affected, pending)
    {
      var v :| v in pending;
      ghost var w0 := w;
      w := MarkIfUnsupported(graph, dist, v, w);
      if graph.Transposed() {
        SeedMarked(graph.arcs, deleted, dist, charged, pending, w0, w, v);
      }
      pending := pending - {v};
    }
  }

  /** Charge the deletions and mark the vertices that need no more than those. */
  method SeedWorklist(graph: DynamicGraph, ops: seq<EdgeUpdate>, dist: seq<nat>)
    returns (deleted: set<Arc>, w: Workspace, ghost charged: set<Arc>)
    requires graph.Consistent() && graph.directed
    ensures deleted == RemovedArcs(graph.Value(), ops) && Tidy(graph.inArcs, dist, w)
    ensures graph.Transposed() ==> Following(graph.arcs, deleted, dist, charged, w, deleted)
  {
    var deletions;
    deletions, deleted := FinalDeletions(graph, ops);
    var lost;
    lost, charged := ChargeDeletions(deletions, dist, graph.arcs);
    w := MarkSeeds(graph, dist, lost, charged, deleted);
    assert charged <= deleted by {
      forall a | a in charged
        ensures a in deleted
      {
        assert (a.0, a.1) in charged;
      }
    }
  }

  /** Charge the arc (u, v) of an affected vertex if it is a surviving shortest-path arc into an unaffected one. */
  method ExpandArc(graph: DynamicGraph, dist: seq<nat>, u: nat, v: nat, deletionKeys: set<Arc>, w0: Workspace,
                   ghost charged0: set<Arc>, ghost processed: set<Arc>, ghost good: bool)
    returns (w: Workspace, ghost charged: set<Arc>)
    requires graph.Consistent() && Tidy(graph.inArcs, dist, w0) && u < |dist| && dist[u] != UNREACHABLE
    requires (u, v) in graph.arcs
    requires good ==>
      graph.Transposed() && Following(graph.arcs, deletionKeys, dist, charged0, w0, processed) && u in w0.affected
      && TargetsReached(graph.arcs, dist, u) && deletionKeys <= processed
      && ((u, v) in processed ==> (u, v) in deletionKeys)
    ensures Tidy(graph.inArcs, dist, w) && w0.queue <= w.queue
    ensures good ==> Following(graph.arcs, deletionKeys, dist, charged, w, processed + {(u, v)})
  {
    w, charged := w0, charged0;
    if v < |dist| && dist[v] == Next(dist[u]) && (u, v) !in deletionKeys && v !in w.affected {
      var counted := w.(lost := w.lost[v := Count(w.lost, v) + 1]);
      w := MarkIfUnsupported(graph, dist, v, counted);
      charged := charged0 + {(u, v)};
      if good {
        assert u in ParentsOf(graph.arcs, dist, v);
        LossRecorded(graph.arcs, deletionKeys, dist, charged0, processed, w0, w, u, v);
      }
    } else if good {
      if (u, v) in processed {
        assert processed + {(u, v)} == processed;
      } else {
        NothingToRecord(graph.arcs, dist, charged, w, processed, u, v);
      }
    }
  }

  /** Expand one affected vertex: its surviving shortest-path arcs are lost to their targets, until the limit is
      passed. */
  method Expand(graph: DynamicGraph, dist: seq<nat>, u: nat, stop: nat, deletionKeys: set<Arc>, w0: Workspace,
                ghost charged0: set<Arc>, ghost processed0: set<Arc>, ghost good: bool)
    returns (w: Workspace, ghost charged: set<Arc>)
    requires graph.Consistent() && Tidy(graph.inArcs, dist, w0) && u < |dist| && dist[u] != UNREACHABLE
    requires good ==>
      graph.Transposed() && Following(graph.arcs, deletionKeys, dist, charged0, w0, processed0) && u in w0.affected
      && TargetsReached(graph.arcs, dist, u) && deletionKeys <= processed0
      && forall v: nat | (u, v) in processed0 :: (u, v) in deletionKeys
    ensures Tidy(graph.inArcs, dist, w) && w0.queue <= w.queue
    ensures good ==>
      Worklist(graph.arcs, deletionKeys, dist, charged, w) && charged <= processed0 + OutArcs(graph.arcs, u)
    ensures good && |w.queue| <= stop ==>
      UpToDate(graph.arcs, dist, charged, w, processed0 + OutArcs(graph.arcs, u))
  {
    w, charged := w0, charged0;
    ghost var processed := processed0;
    var row := graph.Neighbors(u);
    var i := 0;
    while i < |row| && |w.queue| <= stop
      invariant 0 <= i <= |row| && Tidy(graph.inArcs, dist, w) && w0.queue <= w.queue
      invariant good ==> Following(graph.arcs, deletionKeys, dist, charged, w, processed)
      invariant processed0 <= processed <= processed0 + OutArcs(graph.arcs, u)
      invariant forall k | i <= k < |row| :: (u, row[k]) in processed ==> (u, row[k]) in processed0
      invariant forall k | 0 <= k < i :: (u, row[k]) in processed
    {
      var v := row[i];
      assert v in row;
      if good {
        StaysAffected(w0, w, u);
      }
      w, charged := ExpandArc(graph, dist, u, v, deletionKeys, w, charged, processed, good);
      processed := processed + {(u, v)};
      i := i + 1;
    }
    if i == |row| {
      assert processed == processed0 + OutArcs(graph.arcs, u) by {
        WholeRow(graph.arcs, u, row, processed0, processed);
      }
    }
  }

  lemma StaysAffected(w0: Workspace, w: Workspace, u: nat)
    requires w0.affected == Elements(w0.queue) && w.affected == Elements(w.queue) && w0.queue <= w.queue
    requires u in w0.affected
    ensures u in w.affected
  {
    var i :| 0 <= i < |w0.queue| && w0.queue[i] == u;
    assert w.queue[i] == u;
  }

  lemma WholeRow(arcs: set<Arc>, u: nat, row: seq<nat>, processed0: set<Arc>, processed: set<Arc>)
    requires forall v: nat :: v in row <==> (u, v) in arcs
    requires processed0 <= processed <= processed0 + OutArcs(arcs, u)
    requires forall k | 0 <= k < |row| :: (u, row[k]) in processed
    ensures processed == processed0 + OutArcs(arcs, u)
  {
    forall a | a in OutArcs(arcs, u)
      ensures a in processed
    {
      assert a == (u, a.1) && a.1 in row;
    }
  }

  /** Expand the vertex at the head of the queue. */
  method ExpandHead(graph: DynamicGraph, dist: seq<nat>, head: nat, stop: nat, deletionKeys: set<Arc>, w0: Workspace,
                    ghost charged0: set<Arc>, ghost s: nat, ghost good: bool)
    returns (w: Workspace, ghost charged: set<Arc>)
    requires graph.Consistent() && Tidy(graph.inArcs, dist, w0) && head < |w0.queue| <= stop
    requires good ==> graph.Transposed() && Basis(graph.arcs, s, dist) && deletionKeys <= graph.arcs
    requires good ==> Searching(graph.arcs, deletionKeys, dist, charged0, w0, head, stop)
    ensures Tidy(graph.inArcs, dist, w) && w0.queue <= w.queue
    ensures good ==> Searching(graph.arcs, deletionKeys, dist, charged, w, head + 1, stop)
  {
    w, charged := w0, charged0;
    var u := w.queue[head];
    ghost var done := Elements(w0.queue[..head]);
    ghost var lost := LostArcs(graph.arcs, deletionKeys, done);
    if good {
      BeforeExpand(graph.arcs, deletionKeys, s, dist, charged0, w0, done, head);
    }
    assert u in w.queue;
    if u >= |dist| || dist[u] == UNREACHABLE {
      return;
    }
    w, charged := Expand(graph, dist, u, stop, deletionKeys, w0, charged0, lost, good);
    if good {
      NextDone(w0.queue, w.queue, head);
      QueueInRange(graph.arcs, deletionKeys, s, dist, charged, w);
    }
  }

  /** The discovery, given up once more vertices than `stop` are affected. */
  method DiscoverWithin(graph: DynamicGraph, ops: seq<EdgeUpdate>, dist: seq<nat>, stop: nat, ghost s: nat)
    returns (affected: set<nat>)
    requires graph.Consistent() && Simple(graph.Value()) && graph.directed
    ensures graph.Transposed() && |dist| == graph.vertexCount && Exact(graph.arcs, s, dist) ==>
      var growing := Growing(graph.arcs, RemovedArcs(graph.Value(), ops), s, graph.vertexCount);
      affected <= growing && (|affected| <= stop ==> affected == growing) && (|affected| > stop <==> |growing| > stop)
  {
    ghost var good := graph.Transposed() && |dist| == graph.vertexCount && Exact(graph.arcs, s, dist);
    var deleted, w;
    ghost var charged;
    deleted, w, charged := SeedWorklist(graph, ops, dist);
    if good {
      StartSearch(graph.arcs, deleted, s, dist, charged, w, stop);
    }
    TidyIsShort(graph.inArcs, dist, w);
    var head := 0;
    while head < |w.queue| && |w.queue| <= stop
      invariant 0 <= head <= |w.queue| <= |dist| && Tidy(graph.inArcs, dist, w)
      invariant good ==> Searching(graph.arcs, deleted, dist, charged, w, head, stop)
      decreases |dist| - head
    {
      w, charged := ExpandHead(graph, dist, head, stop, deleted, w, charged, s, good);
      TidyIsShort(graph.inArcs, dist, w);
      head := head + 1;
    }
    if good {
      EndSearch(graph.arcs, deleted, s, dist, charged, w, head, stop, stop);
    }
    DistinctCardinality(w.queue);
    affected := w.affected;
  }

  /** The preview of a graph whose in-rows are the transpose of its out-rows, for exact distances, reports exactly the
      vertices whose distance grows, or that there are more than the limit, whatever the order in which the hash map
      of counters is traversed. */
  method Discover(graph: DynamicGraph, ops: seq<EdgeUpdate>, dist: seq<nat>, stopFraction: real, ghost s: nat)
    returns (out: Preview, affected: set<nat>)
    requires graph.Consistent() && Simple(graph.Value()) && graph.directed && 0.0 <= stopFraction
    ensures out.evaluated && out.affectedVertices == |affected|
    ensures out.affectedFraction * Max(1, graph.vertexCount) as real == |affected| as real
    ensures out.exceeded <==>
              |affected| >= 2 && (|affected| - 1) as real >= stopFraction * Max(1, graph.vertexCount) as real
    ensures graph.Transposed() && |dist| == graph.vertexCount && Exact(graph.arcs, s, dist) ==>
      var growing := Growing(graph.arcs, RemovedArcs(graph.Value(), ops), s, graph.vertexCount);
      && affected <= growing && (!out.exceeded ==> affected == growing)
      && (out.exceeded <==>
           |growing| >= 2 && (|growing| - 1) as real >= stopFraction * Max(1, graph.vertexCount) as real)
  {
    var stop := StopVertices(stopFraction, graph.vertexCount);
    affected := DiscoverWithin(graph, ops, dist, stop, s);
    StopMeaning(stopFraction, graph.vertexCount,
                |Growing(graph.arcs, RemovedArcs(graph.Value(), ops), s, graph.vertexCount)|);
    StopMeaning(stopFraction, graph.vertexCount, |affected|);
    ShareMeaning(|affected|, graph.vertexCount);
    out := Preview(true, |affected| > stop, |affected|, Share(|affected|, graph.vertexCount));
  }

  lemma TidyIsShort(inArcs: set<Arc>, dist: seq<nat>, w: Workspace)
    requires Tidy(inArcs, dist, w)
    ensures |w.queue| <= |dist|
  {
    DistinctIsShort(w.queue, |dist|);
  }
}
