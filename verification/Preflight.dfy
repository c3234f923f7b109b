/** The reusable preflight: the affected vertices of a batch are discovered once, before a plan is chosen, and
    the prepared work is then either committed by a repair or discarded in favour of a recompute. Nothing checks that
    the batch committed is the one prepared, or that no other batch came in between. */
module Preflight {
  import opened Collections
  import opened Distances
  import opened DynamicGraphs
  import opened TwoSided
  import opened GraphStorage
  import opened BreadthFirst
  import opened Cascade
  import opened BfsBatches
  import opened IncrementalBfs

  datatype Report = Report(prepared: bool, exceeded: bool, affectedVertices: nat, deletionCandidates: nat)

  class PreflightBfs {
    const bfs: IncrementalBfs
    var ready: bool
    var exceeded: bool
    /** The batch that was prepared. */
    ghost var batch: seq<EdgeUpdate>

    /** The workspace of the engine holds what the batch will push away. */
    ghost predicate Prepared()
      reads this, bfs, bfs.graph
    {
      && ListsFinal(bfs.finalAdditions, batch, bfs.graph.directed, true) && bfs.Tracked()
      && (!exceeded ==> bfs.FoundGrowing(RemovedArcs(bfs.graph.Value(), batch)))
    }

    /** The labels are exact, and the workspace is clean or holds the prepared batch. */
    ghost predicate Good()
      reads this, bfs, bfs.graph, bfs.seenFinalUpdates, bfs.finalDeletionKeys
    {
      bfs.Valid() && if ready then Prepared() else bfs.Clean()
    }

    constructor (bfs: IncrementalBfs)
      requires bfs.Ready()
      ensures Good() && this.bfs == bfs && !ready
    {
      this.bfs := bfs;
      ready, exceeded, batch := false, false, [];
    }

    method DiscardDeletionPreflight()
      requires bfs.Sane()
      modifies this`ready, this`exceeded, bfs`flags, bfs`lost, bfs`support, bfs`touched
      ensures bfs.Sane() && !ready && !exceeded
      ensures old(Good()) ==> Good()
    {
      if ready {
        bfs.ClearWorkspace();
      }
      ready, exceeded := false, false;
    }

    /** The report counts the vertices that lose a shortest-path arc; of an empty batch it reports nothing. */
    ghost predicate Counted(r: Report, ops: seq<EdgeUpdate>)
      reads this, bfs, bfs.graph
    {
      if ops == [] then r.deletionCandidates == 0 && r.affectedVertices == 0
      else r.deletionCandidates == |HurtSet(RemovedArcs(bfs.graph.Value(), ops), bfs.dist)|
    }

    /** Prepare a batch that is not empty. */
    method PrepareWork(ops: seq<EdgeUpdate>, affectedFractionLimit: real) returns (r: Report)
      requires bfs.Sane() && ops != [] && InRange(ops) && 0.0 <= affectedFractionLimit
      modifies this, bfs, bfs.seenFinalUpdates, bfs.finalDeletionKeys
      ensures bfs.Sane() && bfs.dist == old(bfs.dist)
      ensures r.prepared && r.exceeded == exceeded && ready && batch == ops
      ensures r.affectedVertices == bfs.lastAffectedVertices && Counted(r, ops)
      ensures r.deletionCandidates == bfs.lastDeletionCandidates && !bfs.lastUsedFullRecompute
      ensures old(bfs.Ready() && bfs.Readable(ops)) ==> Good()
      ensures old(bfs.Ready() && bfs.Readable(ops)) ==>
        Assessed(bfs.graph.Value(), ops, bfs.source, affectedFractionLimit, exceeded, bfs.lastAffectedVertices)
    {
      var withinLimit := bfs.PrepareShare(ops, affectedFractionLimit);
      batch := ops;
      ready, exceeded := true, !withinLimit;
      r := Report(true, exceeded, bfs.lastAffectedVertices, bfs.lastDeletionCandidates);
    }

    /** Discover the affected vertices of a batch, when nothing is prepared. */
    method PreflightAnew(ops: seq<EdgeUpdate>, affectedFractionLimit: real) returns (r: Report)
      requires bfs.Sane() && !ready && InRange(ops) && 0.0 <= affectedFractionLimit
      modifies this, bfs, bfs.seenFinalUpdates, bfs.finalDeletionKeys
      ensures bfs.Sane() && bfs.dist == old(bfs.dist)
      ensures r.prepared == ready && (r.exceeded <==> ready && exceeded) && (ready <==> ops != [])
      ensures (ready ==> batch == ops)
      ensures r.affectedVertices == bfs.lastAffectedVertices && Counted(r, ops)
      ensures r.deletionCandidates == bfs.lastDeletionCandidates && !bfs.lastUsedFullRecompute
      ensures old(Good() && bfs.Readable(ops)) ==> Good()
      ensures old(Good() && bfs.Readable(ops)) && ops != [] ==>
        Assessed(bfs.graph.Value(), ops, bfs.source, affectedFractionLimit, exceeded, bfs.lastAffectedVertices)
    {
      if ops == [] {
        bfs.lastDeletionCandidates, bfs.lastAffectedVertices, bfs.lastUsedFullRecompute := 0, 0, false;
        return Report(false, false, 0, 0);
      }
      r := PrepareWork(ops, affectedFractionLimit);
    }

    /** Discover the affected vertices of a batch, giving up above a share of the vertices. Work that was prepared
        before is discarded. */
    method PreflightDeletionCascade(ops: seq<EdgeUpdate>, affectedFractionLimit: real) returns (r: Report)
      requires bfs.Sane() && InRange(ops) && 0.0 <= affectedFractionLimit
      modifies this, bfs, bfs.seenFinalUpdates, bfs.finalDeletionKeys
      ensures bfs.Sane() && bfs.dist == old(bfs.dist)
      ensures r.prepared == ready && (r.exceeded <==> ready && exceeded) && (ready <==> ops != [])
      ensures (ready ==> batch == ops)
      ensures r.affectedVertices == bfs.lastAffectedVertices && Counted(r, ops)
      ensures r.deletionCandidates == bfs.lastDeletionCandidates && !bfs.lastUsedFullRecompute
      ensures old(Good() && bfs.Readable(ops)) ==> Good()
      ensures old(Good() && bfs.Readable(ops)) && ops != [] ==>
        Assessed(bfs.graph.Value(), ops, bfs.source, affectedFractionLimit, exceeded, bfs.lastAffectedVertices)
    {
      if ready {
        DiscardDeletionPreflight();
      }
      r := PreflightAnew(ops, affectedFractionLimit);
    }

    /** What was prepared does for this batch: it covers it, and the in-rows of the vertices prepared as pushed away are
        right after it. */
    ghost predicate Serves(ops: seq<EdgeUpdate>)
      reads this, bfs, bfs.graph
    {
      var g := bfs.graph.Value();
      && Covers(g, batch, ops)
      && RightInto(ApplyOps(bfs.graph.Sides(), g.directed, ops),
                   Growing(g.arcs, RemovedArcs(g, batch), bfs.source, |bfs.dist|))
    }

    /** The batch ends with the edges added that were prepared, and removes the arcs that were prepared. */
    ghost predicate SameWork(ops: seq<EdgeUpdate>)
      reads this, bfs, bfs.graph
    {
      && SameAdditions(batch, ops, bfs.graph.directed)
      && RemovedArcs(bfs.graph.Value(), batch) == RemovedArcs(bfs.graph.Value(), ops)
    }

    /** Doing the same work is one way of being covered. */
    lemma SameWorkServes(ops: seq<EdgeUpdate>)
      requires Simple(bfs.graph.Value()) && SameWork(ops)
      requires bfs.graph.Transposed() && bfs.graph.StaysTransposed(ops)
      ensures Serves(ops)
    {
      SameWorkCovers(bfs.graph.Value(), batch, ops);
      TransposedAfterBatch(bfs.graph.Sides(), bfs.graph.directed, ops);
    }

    /** Commit the prepared work for some batch. Nothing happens when there is none. The labels are exact if the work
        serves the batch, and then as after any repair. */
    method ApplyPreflighted(ops: seq<EdgeUpdate>) returns (ok: bool)
      requires bfs.Sane() && InRange(ops)
      modifies this`ready, this`exceeded, bfs, bfs.graph
      ensures ok <==> old(ready) && !old(exceeded)
      ensures bfs.Sane() && (ok ==> !ready && !exceeded)
      ensures !ok ==> unchanged(this) && unchanged(bfs) && unchanged(bfs.graph)
      ensures ok ==> bfs.graph.Value() == ApplyAll(old(bfs.graph.Value()), ops)
      ensures ok ==> bfs.graph.TookBatch(old(bfs.graph.Sides()), old(bfs.graph.outgoing), ops)
      ensures ok && old(bfs.graph.Transposed()) ==>
        (bfs.graph.Transposed() <==> old(bfs.graph.StaysTransposed(ops)))
      ensures ok && old(Good()) ==> bfs.Clean()
      ensures ok && old(Good() && Serves(ops)) ==> bfs.ExactUnlessLate(old(bfs.graph.vertexCount))
      ensures ok ==> bfs.affectedVertices == old(bfs.affectedVertices) && bfs.OnlyListedRose(old(bfs.dist))
      ensures ok ==> bfs.finalAdditions == old(bfs.finalAdditions)
      ensures ok && old(bfs.KeptClear(bfs.dist)) ==> bfs.NearCommitted(old(bfs.dist))
    {
      if !ready || exceeded {
        return false;
      }
      bfs.CommitWork(ops, batch);
      ready, exceeded := false, false;
      ok := true;
    }

    /** Carry out a batch for which nothing stays prepared: recompute, or commit what was prepared, or repair afresh. */
    method CarryOut(ops: seq<EdgeUpdate>, chooseFull: bool, prepared: bool) returns (reused: bool)
      requires bfs.Sane() && InRange(ops) && 0.0 <= bfs.deletionFallbackFraction
      requires prepared == ready && (exceeded ==> chooseFull || !ready) && (ready ==> batch == ops)
      modifies this, bfs, bfs.graph, bfs.seenFinalUpdates, bfs.finalDeletionKeys
      ensures bfs.Sane() && !ready && bfs.graph.Value() == ApplyAll(old(bfs.graph.Value()), ops)
      ensures reused <==> !chooseFull && prepared
      ensures chooseFull ==> bfs.Valid()
      ensures old(Good() && bfs.RowsSuffice(ops)) && bfs.source < old(bfs.graph.vertexCount) ==> Good()
    {
      reused := false;
      if chooseFull {
        if prepared {
          DiscardDeletionPreflight();
        }
        bfs.Rebuild(ops);
      } else if prepared {
        if Good() && bfs.RowsSuffice(ops) {
          CoversItself(bfs.graph.Value(), ops);
          UnhurtIsEmpty(bfs.graph.Value(), ops, bfs.source, bfs.dist);
        }
        reused := ApplyPreflighted(ops);
      } else {
        bfs.Apply(ops);
      }
    }

    /** One batch of the driver: preflight it or not, as the measured pressure says; recompute when the preflight
        is exceeded or the selector wants it; otherwise reuse the prepared work if there is any. Whatever the choices,
        the labels stay exact while the in-rows that the batch is repaired with are right, and prepared work is never
        both kept and out of date. */
    method Process(ops: seq<EdgeUpdate>, pressure: bool, wantsFull: bool, affectedFractionLimit: real)
      returns (reused: bool)
      requires bfs.Sane() && !ready && InRange(ops) && 0.0 <= affectedFractionLimit
      requires 0.0 <= bfs.deletionFallbackFraction
      modifies this, bfs, bfs.graph, bfs.seenFinalUpdates, bfs.finalDeletionKeys
      ensures bfs.Sane() && !ready && bfs.graph.Value() == ApplyAll(old(bfs.graph.Value()), ops)
      ensures wantsFull ==> bfs.Valid()
      ensures old(Good() && bfs.RowsSuffice(ops)) && bfs.source < old(bfs.graph.vertexCount) ==> Good()
      ensures old(Good() && bfs.Readable(ops)) ==>
        (reused <==> (pressure && !wantsFull && ops != [] &&
          !TooMany(|Growing(old(bfs.graph.arcs), RemovedArcs(old(bfs.graph.Value()), ops), bfs.source,
                            old(bfs.graph.vertexCount))|, old(bfs.graph.vertexCount), affectedFractionLimit)))
    {
      var cascade := Report(false, false, 0, 0);
      if pressure {
        cascade := PreflightDeletionCascade(ops, affectedFractionLimit);
      }
      reused := CarryOut(ops, cascade.exceeded || wantsFull, cascade.prepared);
    }
  }
}
