/** The worklist theory shared by the bounded preview and by incremental repair: counters of lost parents,
    a cache of parent counts, and the queue of affected vertices. */
module CascadeWorklist {
  import opened Distances
  import opened Collections
  import opened DynamicGraphs
  import opened GraphStorage
  import opened BreadthFirst
  import opened Cascade

  /** The counters of lost parents, the cached parent counts, and the affected vertices in discovery order. */
  datatype Workspace = Workspace(lost: map<nat, nat>, cache: map<nat, nat>, affected: set<nat>, queue: seq<nat>)

  function Count(lost: map<nat, nat>, v: nat): nat
  {
    if v in lost then lost[v] else 0
  }

  /** Every cached support is the number of shortest-path parents. */
  ghost predicate CacheExact(arcs: set<Arc>, dist: seq<nat>, cache: map<nat, nat>)
  {
    forall v | v in cache :: cache[v] == |ParentsOf(arcs, dist, v)|
  }

  /** The counters agree with the losses charged so far. */
  ghost predicate CountsCharges(charged: set<Arc>, affected: set<nat>, lost: map<nat, nat>)
  {
    forall v: nat | v !in affected :: Count(lost, v) == |Charges(charged, v)|
  }

  lemma CountStep(charged: set<Arc>, affected: set<nat>, lost: map<nat, nat>, u: nat, v: nat)
    requires CountsCharges(charged, affected, lost) && (u, v) !in charged && v !in affected
    ensures CountsCharges(charged + {(u, v)}, affected, lost[v := Count(lost, v) + 1])
  {
    ChargeOne(charged, u, v);
  }

  /** The state of the worklist between two steps. */
  ghost predicate Worklist(arcs: set<Arc>, deleted: set<Arc>, dist: seq<nat>, charged: set<Arc>, w: Workspace)
  {
    && Ledger(arcs, deleted, dist, charged, w.affected)
    && CacheExact(arcs, dist, w.cache)
    && CountsCharges(charged, w.affected, w.lost)
    && Distinct(w.queue) && w.affected == Elements(w.queue)
  }

  /** Every processed arc has been accounted for and no vertex is left unchecked. */
  ghost predicate UpToDate(arcs: set<Arc>, dist: seq<nat>, charged: set<Arc>, w: Workspace, processed: set<Arc>)
  {
    Checked(arcs, dist, charged, w.affected, {}) && Covered(arcs, dist, charged, w.affected, processed)
  }

  /** Count the shortest-path parents in the in-row of v, as it is stored. */
  method ShortestSupport(graph: DynamicGraph, dist: seq<nat>, v: nat) returns (count: nat)
    requires graph.Consistent()
    ensures count == |ParentsOf(graph.inArcs, dist, v)|
  {
    count := 0;
    if v >= |dist| || dist[v] == UNREACHABLE {
      assert ParentsOf(graph.inArcs, dist, v) == {};
      return;
    }
    ghost var counted: set<nat> := {};
    var row := graph.InNeighbors(v);
    var i := 0;
    while i < |row|
      invariant 0 <= i <= |row| && count == |counted|
      invariant forall p :: p in counted <==> p in row[..i] && Parent(dist, p, v)
    {
      var p := row[i];
      assert row[..i + 1] == row[..i] + [p];
      assert p !in row[..i];
      if Parent(dist, p, v) {
        count := count + 1;
        counted := counted + {p};
      }
      i := i + 1;
    }
    assert row[..i] == row;
    assert counted == ParentsOf(graph.inArcs, dist, v);
  }

  /** Marking a saturated vertex keeps the ledger and leaves nothing unchecked. */
  lemma MarkKeepsLedger(arcs: set<Arc>, deleted: set<Arc>, dist: seq<nat>, charged: set<Arc>, affected: set<nat>,
                        pending: set<nat>, v: nat)
    requires Ledger(arcs, deleted, dist, charged, affected) && Checked(arcs, dist, charged, affected, pending)
    ensures ParentsOf(arcs, dist, v) != {} && Saturated(arcs, dist, charged, v) ==>
              Ledger(arcs, deleted, dist, charged, affected + {v})
                && Checked(arcs, dist, charged, affected + {v}, pending - {v})
    ensures !(ParentsOf(arcs, dist, v) != {} && Saturated(arcs, dist, charged, v)) ==>
              Checked(arcs, dist, charged, affected, pending - {v})
  {
    if ParentsOf(arcs, dist, v) != {} && Saturated(arcs, dist, charged, v) {
      forall p: nat, w: nat | (p, w) in charged
        ensures p in ParentsOf(arcs, dist, w) && Lost(deleted, affected + {v}, p, w)
      {
      }
    }
  }

  /** Charging one more lost parent arc keeps the ledger and leaves only its target to be checked again. */
  lemma ChargeKeepsLedger(arcs: set<Arc>, deleted: set<Arc>, dist: seq<nat>, charged: set<Arc>, affected: set<nat>,
                          u: nat, v: nat)
    requires Ledger(arcs, deleted, dist, charged, affected) && Checked(arcs, dist, charged, affected, {})
    requires u in ParentsOf(arcs, dist, v) && Lost(deleted, affected, u, v)
    ensures Ledger(arcs, deleted, dist, charged + {(u, v)}, affected)
    ensures Checked(arcs, dist, charged + {(u, v)}, affected, {v})
  {
    var more := charged + {(u, v)};
    forall w: nat
      ensures Saturated(arcs, dist, charged, w) ==> Saturated(arcs, dist, more, w)
      ensures w != v && Saturated(arcs, dist, more, w) ==> Saturated(arcs, dist, charged, w)
    {
    }
  }

  lemma ChargeCovers(arcs: set<Arc>, dist: seq<nat>, charged: set<Arc>, affected0: set<nat>, affected: set<nat>,
                     processed: set<Arc>, u: nat, v: nat)
    requires Covered(arcs, dist, charged, affected0, processed) && affected0 <= affected
    ensures Covered(arcs, dist, charged + {(u, v)}, affected, processed + {(u, v)})
  {
  }

  lemma Append(queue: seq<nat>, affected: set<nat>, v: nat)
    requires Distinct(queue) && affected == Elements(queue) && v !in affected
    ensures Distinct(queue + [v]) && affected + {v} == Elements(queue + [v])
  {
  }

  lemma NextDone(queue0: seq<nat>, queue: seq<nat>, head: nat)
    requires head < |queue0| && queue0 <= queue
    ensures Elements(queue[..head + 1]) == Elements(queue0[..head]) + {queue0[head]}
  {
    assert queue[..head + 1] == queue0[..head] + [queue0[head]];
  }

  lemma SubsetSize(small: set<nat>, large: set<nat>)
    requires small <= large
    ensures |small| <= |large|
  {
    assert large == small + (large - small);
  }

  lemma QueueInRange(arcs: set<Arc>, deleted: set<Arc>, s: nat, dist: seq<nat>, charged: set<Arc>, w: Workspace)
    requires Basis(arcs, s, dist) && Worklist(arcs, deleted, dist, charged, w)
    ensures |w.queue| <= |dist|
    ensures forall u | u in w.queue :: u < |dist| && dist[u] != UNREACHABLE
    ensures forall i, j | 0 <= i < j < |w.queue| :: w.queue[j] !in w.queue[..i]
  {
    forall u | u in w.queue
      ensures u < |dist| && dist[u] != UNREACHABLE
    {
      LedgerSoundAt(arcs, deleted, s, dist, charged, w.affected, u);
    }
    DistinctIsShort(w.queue, |dist|);
  }

  /** What the search has found when it stops. */
  lemma Conclude(arcs: set<Arc>, deleted: set<Arc>, s: nat, dist: seq<nat>, charged: set<Arc>, w: Workspace, stop: nat)
    requires Basis(arcs, s, dist) && Worklist(arcs, deleted, dist, charged, w)
    requires |w.queue| <= stop ==> UpToDate(arcs, dist, charged, w, LostArcs(arcs, deleted, w.affected))
    ensures |w.queue| == |w.affected| && w.affected <= Growing(arcs, deleted, s, |dist|)
    ensures |w.queue| <= stop ==> w.affected == Growing(arcs, deleted, s, |dist|)
    ensures |w.queue| <= stop ==> OthersSupported(arcs, deleted, s, dist, w.affected)
    ensures |w.queue| > stop <==> |Growing(arcs, deleted, s, |dist|)| > stop
  {
    DistinctCardinality(w.queue);
    LedgerSound(arcs, deleted, s, dist, charged, w.affected);
    if |w.queue| <= stop {
      LedgerComplete(arcs, deleted, s, dist, charged, w.affected);
    } else {
      SubsetSize(w.affected, Growing(arcs, deleted, s, |dist|));
    }
  }

  /** Whether counting one more loss leaves v without support, given how many parents it has. */
  predicate Unsupported(lost: nat, support: nat)
  {
    support != 0 && lost >= support
  }

  /** One lost shortest-path arc charged to its target, and the target marked if that was its last parent. */
  lemma LossRecorded(arcs: set<Arc>, deleted: set<Arc>, dist: seq<nat>, charged: set<Arc>, processed: set<Arc>,
                     w0: Workspace, w: Workspace, u: nat, v: nat)
    requires Worklist(arcs, deleted, dist, charged, w0) && UpToDate(arcs, dist, charged, w0, processed)
    requires charged <= processed && (u, v) !in processed
    requires Lost(deleted, w0.affected, u, v) && v !in w0.affected && u in ParentsOf(arcs, dist, v)
    requires CacheExact(arcs, dist, w.cache) && w.lost == w0.lost[v := Count(w0.lost, v) + 1]
    requires if Unsupported(w.lost[v], |ParentsOf(arcs, dist, v)|)
             then w.affected == w0.affected + {v} && w.queue == w0.queue + [v]
             else w.affected == w0.affected && w.queue == w0.queue
    ensures Worklist(arcs, deleted, dist, charged + {(u, v)}, w)
    ensures UpToDate(arcs, dist, charged + {(u, v)}, w, processed + {(u, v)})
  {
    var more := charged + {(u, v)};
    CountStep(charged, w0.affected, w0.lost, u, v);
    ChargeKeepsLedger(arcs, deleted, dist, charged, w0.affected, u, v);
    MarkKeepsLedger(arcs, deleted, dist, more, w0.affected, {v}, v);
    assert {v} - {v} == {};
    assert Charges(more, v) <= ParentsOf(arcs, dist, v);
    CountDecides(arcs, dist, more, v);
    Append(w0.queue, w0.affected, v);
    ChargeCovers(arcs, dist, charged, w0.affected, w.affected, processed, u, v);
  }

  /** An arc that is no shortest-path arc into an unaffected vertex needs no charge. */
  lemma NothingToRecord(arcs: set<Arc>, dist: seq<nat>, charged: set<Arc>, w: Workspace, processed: set<Arc>, u: nat,
                        v: nat)
    requires UpToDate(arcs, dist, charged, w, processed)
    requires v in w.affected || u !in ParentsOf(arcs, dist, v)
    ensures UpToDate(arcs, dist, charged, w, processed + {(u, v)})
  {
  }

  /** The vertex is reached, and so is everything it points to. */
  ghost predicate TargetsReached(arcs: set<Arc>, dist: seq<nat>, u: nat)
  {
    u < |dist| && dist[u] < UNREACHABLE && forall v: nat | (u, v) in arcs && v < |dist| :: dist[v] != UNREACHABLE
  }

  lemma ReachedTargets(arcs: set<Arc>, s: nat, dist: seq<nat>, u: nat)
    requires Basis(arcs, s, dist) && u < |dist| && dist[u] != UNREACHABLE
    ensures TargetsReached(arcs, dist, u)
  {
    EntryIsWalk(arcs, s, dist, u);
    forall v: nat | (u, v) in arcs
      ensures dist[v] != UNREACHABLE
    {
      StepIsRelaxed(arcs, s, dist, u, v);
    }
  }

  ghost function OutArcs(arcs: set<Arc>, u: nat): set<Arc>
  {
    set a | a in arcs && a.0 == u
  }

  /** Expanding one more vertex loses exactly its outgoing arcs; of those only deleted ones were lost before. */
  lemma LostStep(arcs: set<Arc>, deleted: set<Arc>, done: set<nat>, u: nat)
    requires deleted <= arcs && u !in done
    ensures LostArcs(arcs, deleted, done + {u}) == LostArcs(arcs, deleted, done) + OutArcs(arcs, u)
    ensures deleted <= LostArcs(arcs, deleted, done)
    ensures forall v: nat | (u, v) in LostArcs(arcs, deleted, done) :: (u, v) in deleted
  {
  }

  /** What holds of the vertex at the head of the queue. */
  lemma BeforeExpand(arcs: set<Arc>, deleted: set<Arc>, s: nat, dist: seq<nat>, charged: set<Arc>, w: Workspace,
                     done: set<nat>, head: nat)
    requires Basis(arcs, s, dist) && Worklist(arcs, deleted, dist, charged, w) && deleted <= arcs
    requires head < |w.queue| && done == Elements(w.queue[..head])
    ensures var u := w.queue[head]; var lost := LostArcs(arcs, deleted, done);
            && u in w.affected && TargetsReached(arcs, dist, u)
            && LostArcs(arcs, deleted, done + {u}) == lost + OutArcs(arcs, u)
            && deleted <= lost && forall v: nat | (u, v) in lost :: (u, v) in deleted
  {
    var u := w.queue[head];
    QueueInRange(arcs, deleted, s, dist, charged, w);
    assert u in w.queue && u in w.affected;
    assert u !in w.queue[..head];
    ReachedTargets(arcs, s, dist, u);
    LostStep(arcs, deleted, done, u);
  }

  /** The first `head` vertices of the queue have been expanded. */
  ghost predicate Searching(arcs: set<Arc>, deleted: set<Arc>, dist: seq<nat>, charged: set<Arc>, w: Workspace,
                            head: nat, stop: nat)
  {
    && head <= |w.queue| <= |dist| && Worklist(arcs, deleted, dist, charged, w)
    && charged <= LostArcs(arcs, deleted, Elements(w.queue[..head]))
    && (|w.queue| <= stop ==> UpToDate(arcs, dist, charged, w, LostArcs(arcs, deleted, Elements(w.queue[..head]))))
  }

  /** Before anything is expanded only the deletions are lost. */
  lemma StartSearch(arcs: set<Arc>, deleted: set<Arc>, s: nat, dist: seq<nat>, charged: set<Arc>, w: Workspace,
                    stop: nat)
    requires Basis(arcs, s, dist) && Worklist(arcs, deleted, dist, charged, w) && deleted <= arcs
    requires charged <= deleted && UpToDate(arcs, dist, charged, w, deleted)
    ensures Searching(arcs, deleted, dist, charged, w, 0, stop)
  {
    QueueInRange(arcs, deleted, s, dist, charged, w);
    assert Elements(w.queue[..0]) == {} && LostArcs(arcs, deleted, {}) == deleted;
  }

  /** What the search has found when it stops, having expanded the whole queue or passed the limit. */
  lemma EndSearch(arcs: set<Arc>, deleted: set<Arc>, s: nat, dist: seq<nat>, charged: set<Arc>, w: Workspace,
                  head: nat, stop: nat, limit: nat)
    requires Basis(arcs, s, dist) && Searching(arcs, deleted, dist, charged, w, head, stop)
    requires (head == |w.queue| <= stop) || |w.queue| > limit
    ensures |w.queue| == |w.affected| && w.affected <= Growing(arcs, deleted, s, |dist|)
    ensures |w.queue| <= limit ==> w.affected == Growing(arcs, deleted, s, |dist|)
    ensures |w.queue| <= limit ==> OthersSupported(arcs, deleted, s, dist, w.affected)
    ensures |w.queue| > limit <==> |Growing(arcs, deleted, s, |dist|)| > limit
  {
    assert head == |w.queue| ==> w.queue[..head] == w.queue;
    Conclude(arcs, deleted, s, dist, charged, w, limit);
  }
}
