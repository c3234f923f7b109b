/** What a batch means for the labels of the graph it is applied to. */
module BfsBatches {
  import opened Collections
  import opened Distances
  import opened DynamicGraphs
  import opened TwoSided
  import opened BreadthFirst
  import opened Cascade
  import opened CascadeWorklist
  import opened Relaxation

  /** The arcs whose key is listed. */
  ghost function KeyedArcs(arcs: set<Arc>, directed: bool, edges: seq<Arc>): set<Arc>
  {
    set a | a in arcs && HasKey(edges, directed, Key(directed, a.0, a.1))
  }

  lemma NothingCharged(arcs: set<Arc>, dist: seq<nat>)
    ensures Checked(arcs, dist, {}, {}, {})
  {
    forall v: nat | ParentsOf(arcs, dist, v) != {}
      ensures !Saturated(arcs, dist, {}, v)
    {
      var p :| p in ParentsOf(arcs, dist, v);
    }
  }

  lemma HasKeyStep(edges: seq<Arc>, directed: bool, i: nat, key: Arc)
    requires i < |edges|
    ensures HasKey(edges[..i + 1], directed, key) <==>
              HasKey(edges[..i], directed, key) || Key(directed, edges[i].0, edges[i].1) == key
  {
    assert edges[..i + 1] == edges[..i] + [edges[i]];
    if HasKey(edges[..i], directed, key) {
      var e :| e in edges[..i] && Key(directed, e.0, e.1) == key;
      assert e in edges[..i + 1];
    }
    assert edges[i] in edges[..i + 1];
  }

  lemma KeyedStep(g: Graph, edges: seq<Arc>, i: nat)
    requires Simple(g) && i < |edges| && DistinctKeys(edges, g.directed) && edges[i] in g.arcs
    ensures var (u, v) := edges[i]; var keyed := KeyedArcs(g.arcs, g.directed, edges[..i]);
            && (u, v) !in keyed && (!g.directed ==> (v, u) !in keyed) && u != v
            && KeyedArcs(g.arcs, g.directed, edges[..i + 1]) == keyed + {(u, v)} + if g.directed then {} else {(v, u)}
  {
    var (u, v) := edges[i];
    assert (u, v) in g.arcs;
    assert !HasKey(edges[..i], g.directed, Key(g.directed, u, v));
    forall a | a in g.arcs
      ensures a in KeyedArcs(g.arcs, g.directed, edges[..i + 1]) <==>
                a in KeyedArcs(g.arcs, g.directed, edges[..i]) || a == (u, v) || (!g.directed && a == (v, u))
    {
      HasKeyStep(edges, g.directed, i, Key(g.directed, a.0, a.1));
    }
  }

  lemma ExistingAreRemoved(g: Graph, ops: seq<EdgeUpdate>, deletions: seq<Arc>, existing: seq<Arc>)
    requires Simple(g) && ListsFinal(deletions, ops, g.directed, false)
    requires forall e :: e in existing <==> e in deletions && e in g.arcs
    ensures RemovedArcs(g, ops) == KeyedArcs(g.arcs, g.directed, existing)
  {
    forall a | a in g.arcs
      ensures a in RemovedArcs(g, ops) <==> a in KeyedArcs(g.arcs, g.directed, existing)
    {
      var key := Key(g.directed, a.0, a.1);
      if HasKey(deletions, g.directed, key) {
        var e :| e in deletions && Key(g.directed, e.0, e.1) == key;
        assert e == a || e == (a.1, a.0);
        assert (a.0, a.1) in g.arcs;
        assert e in existing;
      }
      if HasKey(existing, g.directed, key) {
        var e :| e in existing && Key(g.directed, e.0, e.1) == key;
        assert e in deletions;
      }
    }
  }

  /** The vertices that an existing deletion is a shortest-path arc to. */
  ghost predicate HurtBy(existing: seq<Arc>, directed: bool, dist: seq<nat>, candidates: set<nat>)
  {
    forall v: nat :: v in candidates <==>
      exists u: nat :: ((u, v) in existing || (!directed && (v, u) in existing)) && Parent(dist, u, v)
  }

  lemma HurtByOneMore(existing: seq<Arc>, directed: bool, dist: seq<nat>, candidates: set<nat>, u: nat, v: nat)
    requires HurtBy(existing, directed, dist, candidates)
    ensures HurtBy(existing + [(u, v)], directed, dist,
                   candidates + (if Parent(dist, u, v) then {v} else {})
                   + if !directed && Parent(dist, v, u) then {u} else {})
  {
    var more := existing + [(u, v)];
    forall x: nat, y: nat
      ensures (x, y) in more <==> (x, y) in existing || (x, y) == (u, v)
    {
    }
    forall w: nat, x: nat | ((x, w) in more || (!directed && (w, x) in more)) && Parent(dist, x, w)
      ensures w in candidates || (w == v && Parent(dist, u, v)) || (w == u && !directed && Parent(dist, v, u))
    {
    }
    forall w: nat | w in candidates
      ensures exists x: nat :: ((x, w) in more || (!directed && (w, x) in more)) && Parent(dist, x, w)
    {
      var x: nat :| ((x, w) in existing || (!directed && (w, x) in existing)) && Parent(dist, x, w);
      assert (x, w) in more || (!directed && (w, x) in more);
    }
    assert (u, v) in more;
  }

  /** There are such vertices exactly when the removal hurts. */
  /** The vertices that lose a shortest-path arc. */
  ghost function HurtSet(removed: set<Arc>, dist: seq<nat>): (hurt: set<nat>)
    ensures forall v: nat :: v in hurt <==> exists u: nat :: (u, v) in removed && Parent(dist, u, v)
  {
    var hurt := set a | a in removed && Parent(dist, a.0, a.1) :: a.1;
    forall v: nat | exists u: nat :: (u, v) in removed && Parent(dist, u, v)
      ensures v in hurt
    {
      var u: nat :| (u, v) in removed && Parent(dist, u, v);
      assert (u, v).1 == v;
    }
    hurt
  }

  lemma HurtTargets(g: Graph, existing: seq<Arc>, candidates: set<nat>, dist: seq<nat>)
    requires Simple(g) && HurtBy(existing, g.directed, dist, candidates) && forall e | e in existing :: e in g.arcs
    ensures candidates == HurtSet(KeyedArcs(g.arcs, g.directed, existing), dist)
    ensures candidates != {} <==> Hurts(KeyedArcs(g.arcs, g.directed, existing), dist)
  {
    var removed := KeyedArcs(g.arcs, g.directed, existing);
    var hurt := HurtSet(removed, dist);
    forall v: nat | v in candidates
      ensures v in hurt
    {
      var u: nat :| ((u, v) in existing || (!g.directed && (v, u) in existing)) && Parent(dist, u, v);
      assert (u, v) in g.arcs && HasKey(existing, g.directed, Key(g.directed, u, v));
      assert (u, v) in removed;
    }
    forall v: nat | v in hurt
      ensures v in candidates
    {
      var u: nat :| (u, v) in removed && Parent(dist, u, v);
      ListedOrientation(g.arcs, g.directed, existing, u, v);
    }
    HurtSome(removed, dist);
  }

  lemma HurtSome(removed: set<Arc>, dist: seq<nat>)
    ensures HurtSet(removed, dist) != {} <==> Hurts(removed, dist)
  {
    if Hurts(removed, dist) {
      var u: nat, v: nat :| (u, v) in removed && Parent(dist, u, v);
      assert v in HurtSet(removed, dist);
    }
  }

  lemma ListedOrientation(arcs: set<Arc>, directed: bool, edges: seq<Arc>, u: nat, v: nat)
    requires (u, v) in KeyedArcs(arcs, directed, edges)
    ensures (u, v) in edges || (!directed && (v, u) in edges)
  {
    var e :| e in edges && Key(directed, e.0, e.1) == Key(directed, u, v);
  }

  lemma AdditionStep(additions: seq<Arc>, directed: bool, i: nat)
    requires i < |additions|
    ensures var (u, v) := additions[i];
            ArcsOf(additions[i..], directed) - {(u, v)} - (if directed then {} else {(v, u)}) <=
              ArcsOf(additions[i + 1..], directed)
  {
    assert additions[i..] == [additions[i]] + additions[i + 1..];
  }

  lemma NothingExcusedYet(arcs: set<Arc>, dist: seq<nat>, added: set<Arc>)
    requires Settled(arcs - added, dist, {}, {})
    ensures Settled(arcs, dist, {}, added)
  {
    forall u: nat, v: nat | (u, v) in arcs && u < |dist| && v < |dist|
      ensures dist[v] <= dist[u] + 1 || (u, v) in added
    {
      assert (u, v) in added || (u, v) in arcs - added;
    }
  }

  lemma SoundFromOutside(arcs: set<Arc>, s: nat, dist: seq<nat>)
    requires forall v: nat | v < |dist| && dist[v] != UNREACHABLE :: Walk(arcs, s, v, dist[v])
    ensures Sound(arcs, s, dist)
  {
  }

  /** With the source outside the graph nothing is reached, so nothing can be pushed away. */
  lemma SourceWasInside(arcs: set<Arc>, removed: set<Arc>, s: nat, dist: seq<nat>)
    requires Basis(arcs, s, dist)
    ensures s >= |dist| ==> NothingReached(dist) && Growing(arcs, removed, s, |dist|) == {}
  {
    if s >= |dist| {
      forall v: nat | v < |dist|
        ensures dist[v] == UNREACHABLE && !Grows(arcs, removed, s, v)
      {
        EntryIsWalk(arcs, s, dist, v);
        if dist[v] != UNREACHABLE {
          NothingFromOutside(arcs, s, |dist|, v, dist[v]);
        }
        if k: nat :| Walk(arcs - removed, s, v, k) {
          WalkMonotone(arcs - removed, arcs, s, v, k);
          NothingFromOutside(arcs, s, |dist|, v, k);
        }
      }
    }
  }

  lemma SourceStays(arcs: set<Arc>, removed: set<Arc>, s: nat, n: nat)
    ensures s !in Growing(arcs, removed, s, n)
  {
    assert Walk(arcs, s, s, 0) && Walk(arcs - removed, s, s, 0);
    DistIsLeast(arcs, s, s, 0);
    DistIsLeast(arcs - removed, s, s, 0);
  }

  // ---------- What a batch does to the arcs ----------

  /** Every arc that was not removed is still there, and every new arc is one of the added ones. */
  ghost predicate Effect(before: set<Arc>, removed: set<Arc>, added: set<Arc>, after: set<Arc>)
  {
    added <= after && after - added <= before && before - removed <= after
  }

  /** Some removed arc lies on a shortest path. */
  ghost predicate Hurts(removed: set<Arc>, dist: seq<nat>)
  {
    exists u: nat, v: nat :: (u, v) in removed && Parent(dist, u, v)
  }

  /** The arc is the last one of a shortest walk. */
  ghost predicate OnShortest(arcs: set<Arc>, s: nat, u: nat, v: nat)
  {
    Dist(arcs, s, u) != UNREACHABLE && Dist(arcs, s, v) == Dist(arcs, s, u) + 1
  }

  /** The same as Hurts, told from the distances. */
  ghost predicate HurtsAt(g: Graph, s: nat, ops: seq<EdgeUpdate>)
  {
    exists u: nat, v: nat {:trigger OnShortest(g.arcs, s, u, v)} ::
      (u, v) in RemovedArcs(g, ops) && OnShortest(g.arcs, s, u, v)
  }

  lemma ParentIsShortest(arcs: set<Arc>, s: nat, dist: seq<nat>, u: nat, v: nat)
    requires Basis(arcs, s, dist) && (u, v) in arcs
    ensures Parent(dist, u, v) <==> OnShortest(arcs, s, u, v)
  {
    EntryIsWalk(arcs, s, dist, u);
    EntryIsWalk(arcs, s, dist, v);
    StepIsRelaxed(arcs, s, dist, u, v);
  }

  lemma HurtsIsAt(g: Graph, s: nat, ops: seq<EdgeUpdate>, dist: seq<nat>)
    requires Basis(g.arcs, s, dist)
    ensures Hurts(RemovedArcs(g, ops), dist) <==> HurtsAt(g, s, ops)
  {
    var removed := RemovedArcs(g, ops);
    if Hurts(removed, dist) {
      var u: nat, v: nat :| (u, v) in removed && Parent(dist, u, v);
      ParentIsShortest(g.arcs, s, dist, u, v);
    }
    if HurtsAt(g, s, ops) {
      var u: nat, v: nat :| (u, v) in removed && OnShortest(g.arcs, s, u, v);
      ParentIsShortest(g.arcs, s, dist, u, v);
    }
  }

  /** The in-rows that a batch is repaired with are right: all of them before it, if it hurts, and those of the
      vertices it pushes away after it. */
  ghost predicate Suffices(g: Graph, r: Rows, s: nat, ops: seq<EdgeUpdate>)
  {
    HurtsAt(g, s, ops) ==>
      r.Transposed() &&
      RightInto(ApplyOps(r, g.directed, ops), Growing(g.arcs, RemovedArcs(g, ops), s, g.vertexCount))
  }

  /** In-rows that are and stay the transpose suffice. */
  lemma TransposedSuffices(g: Graph, r: Rows, s: nat, ops: seq<EdgeUpdate>)
    requires r.Transposed() && StaysTransposed(r, g.directed, ops)
    ensures Suffices(g, r, s, ops)
  {
    TransposedAfterBatch(r, g.directed, ops);
  }

  lemma {:induction false} SomeDeletion(ops: seq<EdgeUpdate>, directed: bool, key: Arc)
    requires LastOp(ops, directed, key) == Some(false)
    ensures exists op :: op in ops && !op.add
  {
    var last := |ops| - 1;
    if Key(directed, ops[last].src, ops[last].dst) == key {
      assert ops[last] in ops;
    } else {
      SomeDeletion(ops[..last], directed, key);
      var op :| op in ops[..last] && !op.add;
      assert op in ops;
    }
  }

  /** A batch of additions reads no in-row. */
  lemma AdditionsSuffice(g: Graph, r: Rows, s: nat, ops: seq<EdgeUpdate>)
    requires forall op | op in ops :: op.add
    ensures Suffices(g, r, s, ops)
  {
    if a :| a in RemovedArcs(g, ops) {
      SomeDeletion(ops, g.directed, Key(g.directed, a.0, a.1));
    }
  }

  /** The in-rows of these vertices are right. */
  ghost predicate RightInto(r: Rows, targets: set<nat>)
  {
    Into(r.inArcs, targets) == Into(r.arcs, targets)
  }

  /** What was prepared for one batch does for another: every arc prepared as added is there after it, every new arc was
      prepared as added, and every arc not prepared as removed stays. */
  ghost predicate Covers(g: Graph, prepared: seq<EdgeUpdate>, ops: seq<EdgeUpdate>)
  {
    forall u: nat, v: nat | u != v :: CoversArc(g, prepared, ops, u, v)
  }

  ghost predicate CoversArc(g: Graph, prepared: seq<EdgeUpdate>, ops: seq<EdgeUpdate>, u: nat, v: nat)
  {
    match LastOp(prepared, g.directed, Key(g.directed, u, v))
    case Some(true) => (u, v) in ApplyAll(g, ops).arcs
    case Some(false) => (u, v) in ApplyAll(g, ops).arcs ==> (u, v) in g.arcs
    case None => (u, v) in ApplyAll(g, ops).arcs <==> (u, v) in g.arcs
  }

  lemma CoversIsEffect(g: Graph, prepared: seq<EdgeUpdate>, ops: seq<EdgeUpdate>, additions: seq<Arc>)
    requires Simple(g) && ListsFinal(additions, prepared, g.directed, true)
    ensures Covers(g, prepared, ops) <==>
              Effect(g.arcs, RemovedArcs(g, prepared), ArcsOf(additions, g.directed), ApplyAll(g, ops).arcs)
  {
    var added, removed, after := ArcsOf(additions, g.directed), RemovedArcs(g, prepared), ApplyAll(g, ops).arcs;
    forall u: nat, v: nat | u != v
      ensures (u, v) in added <==> LastOp(prepared, g.directed, Key(g.directed, u, v)) == Some(true)
    {
      ArcIsListed(prepared, g.directed, additions, true, u, v);
    }
    forall v: nat
      ensures (v, v) !in after && (v, v) !in g.arcs
    {
      LastOperationWins(g, ops, v, v);
    }
    if Covers(g, prepared, ops) {
      forall a: Arc
        ensures a in added ==> a in after
        ensures a in after && a !in added ==> a in g.arcs
        ensures a in g.arcs && a !in removed ==> a in after
      {
        assert a == (a.0, a.1);
        assert a.0 != a.1 ==> CoversArc(g, prepared, ops, a.0, a.1);
      }
    }
    if Effect(g.arcs, removed, added, after) {
      forall u: nat, v: nat | u != v
        ensures CoversArc(g, prepared, ops, u, v)
      {
        assert (u, v) in after && (u, v) !in added ==> (u, v) in g.arcs;
        assert (u, v) in g.arcs && (u, v) !in removed ==> (u, v) in after;
      }
    }
  }

  /** The batches end with the same edges added. */
  ghost predicate SameAdditions(left: seq<EdgeUpdate>, right: seq<EdgeUpdate>, directed: bool)
  {
    forall u: nat, v: nat {:trigger Key(directed, u, v)} | u != v ::
      LastOp(left, directed, Key(directed, u, v)) == Some(true) <==>
        LastOp(right, directed, Key(directed, u, v)) == Some(true)
  }

  /** A batch with the same final additions that removes the same arcs is covered. */
  lemma SameWorkCovers(g: Graph, prepared: seq<EdgeUpdate>, ops: seq<EdgeUpdate>)
    requires Simple(g) && SameAdditions(prepared, ops, g.directed) && RemovedArcs(g, prepared) == RemovedArcs(g, ops)
    ensures Covers(g, prepared, ops)
  {
    forall u: nat, v: nat | u != v
      ensures CoversArc(g, prepared, ops, u, v)
    {
      assert Key(g.directed, u, v) == Key(g.directed, u, v);
      LastOperationWins(g, ops, u, v);
      assert (u, v) in RemovedArcs(g, prepared) <==> (u, v) in RemovedArcs(g, ops);
    }
  }

  /** What the labels of the old graph still say about the new one. */
  lemma BatchLabels(arcs: set<Arc>, removed: set<Arc>, s: nat, dist0: seq<nat>, count: nat, affected: set<nat>,
                    after: set<Arc>, dist: seq<nat>)
    requires Basis(arcs, s, dist0) && Relaxation.Labelled(arcs, s, dist0, count)
    requires affected == Growing(arcs, removed, s, |dist0|) && OthersSupported(arcs, removed, s, dist0, affected)
    requires arcs - removed <= after
    requires dist0 <= dist && forall v: nat | |dist0| <= v < |dist| :: dist[v] == UNREACHABLE
    ensures forall v: nat | v < |dist| :: dist[v] <= UNREACHABLE
    ensures forall v: nat | v < |dist| && v !in affected && dist[v] != UNREACHABLE :: Walk(after, s, v, dist[v])
    ensures count == |Reached(dist)|
    ensures s < |dist0| ==> dist[s] == 0 && s !in affected
    ensures s >= |dist0| ==> affected == {} && NothingReached(dist)
  {
    ExactIsRelaxed(arcs, s, dist0);
    SourceWasInside(arcs, removed, s, dist0);
    SourceStays(arcs, removed, s, |dist0|);
    forall v: nat | v < |dist| && v !in affected && dist[v] != UNREACHABLE
      ensures Walk(after, s, v, dist[v])
    {
      ShortestWalkKept(arcs, removed, s, dist0, affected, v);
      WalkMonotone(arcs - removed, after, s, v, dist0[v]);
    }
    assert Reached(dist) == Reached(dist0);
  }

  /** Apart from the added arcs, the old labels are still relaxed in the new graph. */
  lemma BatchSettled(arcs: set<Arc>, s: nat, dist0: seq<nat>, added: set<Arc>, after: set<Arc>, dist: seq<nat>)
    requires Basis(arcs, s, dist0) && after - added <= arcs && dist0 <= dist
    ensures Settled(after - added, dist, {}, {})
  {
    ExactIsRelaxed(arcs, s, dist0);
    forall u: nat, v: nat | (u, v) in after - added && u < |dist| && v < |dist|
      ensures dist[v] <= dist[u] + 1
    {
      assert (u, v) in arcs;
    }
  }

  lemma Verdict(arcs: set<Arc>, s: nat, dist: seq<nat>, count: nat, oldVertexCount: nat)
    requires Within(arcs, |dist|) && |dist| <= UNREACHABLE && oldVertexCount <= |dist|
    requires Relaxation.Labelled(arcs, s, dist, count) && Relaxed(arcs, dist)
    requires s < oldVertexCount ==> dist[s] == 0
    requires s >= oldVertexCount ==> NothingReached(dist)
    ensures Exact(arcs, s, dist) <==> s < oldVertexCount || s >= |dist|
  {
    if s < oldVertexCount || s >= |dist| {
      CertificateIsExact(arcs, s, dist);
    } else {
      assert Walk(arcs, s, s, 0);
      DistIsLeast(arcs, s, s, 0);
      assert dist[s] != Dist(arcs, s, s);
    }
  }
}
