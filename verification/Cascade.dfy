/** Deletion cascades: which vertices move away from the source when a batch's final deletions
    are removed. The worklist counts, for every vertex, how many of its shortest-path parents
    have been lost; the main theorem says that this finds exactly the vertices whose distance grows. */
module Cascade {
  import opened Collections
  import opened Distances
  import opened DynamicGraphs

  /** p is a shortest-path parent of v. */
  predicate Parent(dist: seq<nat>, p: nat, v: nat)
  {
    p < |dist| && v < |dist| && dist[p] != UNREACHABLE && dist[v] != UNREACHABLE && Next(dist[p]) == dist[v]
  }

  ghost function ParentsOf(arcs: set<Arc>, dist: seq<nat>, v: nat): (ps: set<nat>)
    ensures forall p: nat :: p in ps <==> (p, v) in arcs && Parent(dist, p, v)
  {
    set a | a in arcs && a.1 == v && Parent(dist, a.0, v) :: a.0
  }

  /** The vertices whose distance strictly grows, or that become unreachable, without the deleted arcs. */
  ghost predicate Grows(arcs: set<Arc>, deleted: set<Arc>, s: nat, v: nat)
  {
    Dist(arcs - deleted, s, v) > Dist(arcs, s, v)
  }

  ghost function Growing(arcs: set<Arc>, deleted: set<Arc>, s: nat, n: nat): set<nat>
  {
    set v: nat | v < n && Grows(arcs, deleted, s, v)
  }

  /** The arcs present in the graph whose last operation in the batch is a deletion. */
  ghost function RemovedArcs(g: Graph, ops: seq<EdgeUpdate>): set<Arc>
  {
    set a | a in g.arcs && LastOp(ops, g.directed, Key(g.directed, a.0, a.1)) == Some(false)
  }

  /** The distances the cascade starts from. */
  ghost predicate Basis(arcs: set<Arc>, s: nat, dist: seq<nat>)
  {
    Within(arcs, |dist|) && |dist| <= UNREACHABLE && Exact(arcs, s, dist)
  }

  /** The arcs that no longer hold up their target: deleted, or leaving an affected vertex. */
  ghost predicate Lost(deleted: set<Arc>, affected: set<nat>, p: nat, v: nat)
  {
    (p, v) in deleted || p in affected
  }

  ghost predicate HasLostAll(arcs: set<Arc>, deleted: set<Arc>, s: nat, dist: seq<nat>, affected: set<nat>, v: nat)
  {
    && v < |dist| && v != s && dist[v] != UNREACHABLE
    && forall p: nat | (p, v) in arcs && Parent(dist, p, v) :: Lost(deleted, affected, p, v)
  }

  ghost predicate KeepsOne(arcs: set<Arc>, deleted: set<Arc>, dist: seq<nat>, affected: set<nat>, v: nat)
  {
    exists p: nat :: (p, v) in arcs && Parent(dist, p, v) && !Lost(deleted, affected, p, v)
  }

  /** Every affected vertex has lost all its parents. */
  ghost predicate AllParentsLost(arcs: set<Arc>, deleted: set<Arc>, s: nat, dist: seq<nat>, affected: set<nat>)
  {
    forall v {:trigger HasLostAll(arcs, deleted, s, dist, affected, v)} | v in affected ::
      HasLostAll(arcs, deleted, s, dist, affected, v)
  }

  /** Every other reached vertex keeps a parent. */
  ghost predicate OthersSupported(arcs: set<Arc>, deleted: set<Arc>, s: nat, dist: seq<nat>, affected: set<nat>)
  {
    forall v: nat {:trigger KeepsOne(arcs, deleted, dist, affected, v)}
      | v < |dist| && v !in affected && v != s && dist[v] != UNREACHABLE ::
      KeepsOne(arcs, deleted, dist, affected, v)
  }

  // ---------- The semantic theorem ----------

  lemma {:induction false} NoShortWalkLeft(arcs: set<Arc>, deleted: set<Arc>, s: nat, dist: seq<nat>,
                                           affected: set<nat>, v: nat, k: nat)
    requires Within(arcs, |dist|) && Relaxed(arcs, dist) && s < |dist| && dist[s] == 0
    requires forall u: nat | u < |dist| :: dist[u] <= UNREACHABLE
    requires AllParentsLost(arcs, deleted, s, dist, affected)
    requires v in affected && v < |dist| && k <= dist[v]
    ensures !Walk(arcs - deleted, s, v, k)
    decreases k
  {
    assert HasLostAll(arcs, deleted, s, dist, affected, v);
    if k > 0 && Walk(arcs - deleted, s, v, k) {
      var u: nat :| (u, v) in arcs - deleted && Walk(arcs - deleted, s, u, k - 1);
      WalkMonotone(arcs - deleted, arcs, s, u, k - 1);
      RelaxedIsBelowWalks(arcs, s, dist, u, k - 1);
      assert (u, v) in arcs && Parent(dist, u, v);
      NoShortWalkLeft(arcs, deleted, s, dist, affected, u, k - 1);
    }
  }

  lemma {:induction false} ShortestWalkKept(arcs: set<Arc>, deleted: set<Arc>, s: nat, dist: seq<nat>,
                                            affected: set<nat>, v: nat)
    requires OthersSupported(arcs, deleted, s, dist, affected)
    requires s < |dist| ==> dist[s] == 0
    requires forall u: nat | u < |dist| :: dist[u] <= UNREACHABLE
    requires v < |dist| && v !in affected && dist[v] != UNREACHABLE
    ensures Walk(arcs - deleted, s, v, dist[v])
    decreases dist[v]
  {
    if v != s {
      assert KeepsOne(arcs, deleted, dist, affected, v);
      var p: nat :| (p, v) in arcs && Parent(dist, p, v) && !Lost(deleted, affected, p, v);
      ShortestWalkKept(arcs, deleted, s, dist, affected, p);
    }
  }

  lemma LostParentsGrow(arcs: set<Arc>, deleted: set<Arc>, s: nat, dist: seq<nat>, affected: set<nat>, v: nat)
    requires Basis(arcs, s, dist) && AllParentsLost(arcs, deleted, s, dist, affected) && v in affected
    ensures Grows(arcs, deleted, s, v)
  {
    assert HasLostAll(arcs, deleted, s, dist, affected, v);
    SourceInRange(arcs, s, dist, v);
    ExactIsRelaxed(arcs, s, dist);
    if k: nat :| Walk(arcs - deleted, s, v, k) {
      DistIsLeast(arcs - deleted, s, v, k);
      var d := Dist(arcs - deleted, s, v);
      if d <= dist[v] {
        NoShortWalkLeft(arcs, deleted, s, dist, affected, v, d);
      }
    }
  }

  lemma SourceInRange(arcs: set<Arc>, s: nat, dist: seq<nat>, v: nat)
    requires Basis(arcs, s, dist) && v < |dist| && dist[v] != UNREACHABLE
    ensures s < |dist|
  {
    EntryIsWalk(arcs, s, dist, v);
    if s >= |dist| {
      NothingFromOutside(arcs, s, |dist|, v, dist[v]);
    }
  }

  lemma SupportedStays(arcs: set<Arc>, deleted: set<Arc>, s: nat, dist: seq<nat>, affected: set<nat>, v: nat)
    requires Basis(arcs, s, dist) && OthersSupported(arcs, deleted, s, dist, affected)
    requires v < |dist| && v !in affected
    ensures Dist(arcs - deleted, s, v) == dist[v]
  {
    ExactIsRelaxed(arcs, s, dist);
    if dist[v] != UNREACHABLE {
      ShortestWalkKept(arcs, deleted, s, dist, affected, v);
    }
    if k: nat :| Walk(arcs - deleted, s, v, k) {
      DistIsLeast(arcs - deleted, s, v, k);
      WalkMonotone(arcs - deleted, arcs, s, v, Dist(arcs - deleted, s, v));
      DistIsLeast(arcs, s, v, Dist(arcs - deleted, s, v));
      DistBelowVertexCount(arcs, s, v, |dist|);
      if dist[v] != UNREACHABLE {
        DistIsLeast(arcs - deleted, s, v, dist[v]);
      }
    }
  }

  /** A set whose members have lost every parent while all others keep one is the set of growing vertices. */
  lemma AffectedIsGrowing(arcs: set<Arc>, deleted: set<Arc>, s: nat, dist: seq<nat>, affected: set<nat>)
    requires Basis(arcs, s, dist)
    requires AllParentsLost(arcs, deleted, s, dist, affected) && OthersSupported(arcs, deleted, s, dist, affected)
    ensures affected == Growing(arcs, deleted, s, |dist|)
  {
    forall v: nat
      ensures v in affected ==> v < |dist|
      ensures v < |dist| ==> (v in affected <==> Grows(arcs, deleted, s, v))
    {
      if v in affected {
        assert HasLostAll(arcs, deleted, s, dist, affected, v);
        LostParentsGrow(arcs, deleted, s, dist, affected, v);
      } else if v < |dist| {
        SupportedStays(arcs, deleted, s, dist, affected, v);
      }
    }
  }

  // ---------- The ledger of lost parents ----------

  /** Every parent arc of v has been charged as lost. */
  ghost predicate Saturated(arcs: set<Arc>, dist: seq<nat>, charged: set<Arc>, v: nat)
  {
    forall p | p in ParentsOf(arcs, dist, v) :: (p, v) in charged
  }

  /** The parents of v charged so far. */
  ghost function Charges(charged: set<Arc>, v: nat): (ps: set<nat>)
    ensures forall p: nat :: p in ps <==> (p, v) in charged
  {
    set a | a in charged && a.1 == v :: a.0
  }

  ghost predicate ChargedIsLost(arcs: set<Arc>, deleted: set<Arc>, dist: seq<nat>, charged: set<Arc>,
                                affected: set<nat>)
  {
    forall p: nat, v: nat | (p, v) in charged :: p in ParentsOf(arcs, dist, v) && Lost(deleted, affected, p, v)
  }

  ghost predicate AffectedAreSaturated(arcs: set<Arc>, dist: seq<nat>, charged: set<Arc>, affected: set<nat>)
  {
    forall v | v in affected ::
      ParentsOf(arcs, dist, v) != {} && Saturated(arcs, dist, charged, v)
  }

  /** What every step of the worklist keeps. */
  ghost predicate Ledger(arcs: set<Arc>, deleted: set<Arc>, dist: seq<nat>, charged: set<Arc>, affected: set<nat>)
  {
    ChargedIsLost(arcs, deleted, dist, charged, affected) && AffectedAreSaturated(arcs, dist, charged, affected)
  }

  /** No vertex outside `affected` and `pending` has lost its last parent. */
  ghost predicate Checked(arcs: set<Arc>, dist: seq<nat>, charged: set<Arc>, affected: set<nat>, pending: set<nat>)
  {
    forall v: nat {:trigger Saturated(arcs, dist, charged, v)}
      | v !in affected && v !in pending && ParentsOf(arcs, dist, v) != {} :: !Saturated(arcs, dist, charged, v)
  }

  /** Every processed shortest-path arc into an unaffected vertex has been charged. */
  ghost predicate Covered(arcs: set<Arc>, dist: seq<nat>, charged: set<Arc>, affected: set<nat>, processed: set<Arc>)
  {
    forall p: nat, v: nat | (p, v) in processed && v !in affected && p in ParentsOf(arcs, dist, v) :: (p, v) in charged
  }

  /** The arcs that count as lost: the deleted ones and those leaving the vertices in `done`. */
  ghost function LostArcs(arcs: set<Arc>, deleted: set<Arc>, done: set<nat>): set<Arc>
  {
    deleted + set a | a in arcs && a.0 in done
  }

  lemma ChargeOne(charged: set<Arc>, p: nat, v: nat)
    requires (p, v) !in charged
    ensures |Charges(charged + {(p, v)}, v)| == |Charges(charged, v)| + 1
    ensures forall w: nat | w != v :: Charges(charged + {(p, v)}, w) == Charges(charged, w)
  {
    assert Charges(charged + {(p, v)}, v) == Charges(charged, v) + {p};
    forall w: nat | w != v
      ensures Charges(charged + {(p, v)}, w) == Charges(charged, w)
    {
    }
  }

  /** Counting decides saturation. */
  lemma CountDecides(arcs: set<Arc>, dist: seq<nat>, charged: set<Arc>, v: nat)
    requires Charges(charged, v) <= ParentsOf(arcs, dist, v)
    ensures Saturated(arcs, dist, charged, v) <==> |Charges(charged, v)| >= |ParentsOf(arcs, dist, v)|
  {
    var have, all := Charges(charged, v), ParentsOf(arcs, dist, v);
    assert |all| == |have| + |all - have| by {
      assert all == have + (all - have);
    }
    if |have| >= |all| {
      assert all - have == {};
    } else {
      var p :| p in all - have;
    }
  }

  lemma ParentIsCloser(arcs: set<Arc>, s: nat, dist: seq<nat>, p: nat, v: nat)
    requires Basis(arcs, s, dist) && Parent(dist, p, v)
    ensures dist[v] == dist[p] + 1 && v != s
  {
    ExactIsRelaxed(arcs, s, dist);
  }

  lemma LedgerSoundAt(arcs: set<Arc>, deleted: set<Arc>, s: nat, dist: seq<nat>, charged: set<Arc>, affected: set<nat>,
                      v: nat)
    requires Basis(arcs, s, dist) && Ledger(arcs, deleted, dist, charged, affected) && v in affected
    ensures HasLostAll(arcs, deleted, s, dist, affected, v)
  {
    assert Saturated(arcs, dist, charged, v);
    var p :| p in ParentsOf(arcs, dist, v);
    ParentIsCloser(arcs, s, dist, p, v);
    forall q: nat | (q, v) in arcs && Parent(dist, q, v)
      ensures Lost(deleted, affected, q, v)
    {
      assert q in ParentsOf(arcs, dist, v);
    }
  }

  /** At any moment, even when the search is cut short, every affected vertex really grows. */
  lemma LedgerSound(arcs: set<Arc>, deleted: set<Arc>, s: nat, dist: seq<nat>, charged: set<Arc>, affected: set<nat>)
    requires Basis(arcs, s, dist) && Ledger(arcs, deleted, dist, charged, affected)
    ensures AllParentsLost(arcs, deleted, s, dist, affected)
    ensures affected <= Growing(arcs, deleted, s, |dist|)
  {
    forall v | v in affected
      ensures HasLostAll(arcs, deleted, s, dist, affected, v)
    {
      LedgerSoundAt(arcs, deleted, s, dist, charged, affected, v);
    }
    forall v | v in affected
      ensures v < |dist| && Grows(arcs, deleted, s, v)
    {
      assert HasLostAll(arcs, deleted, s, dist, affected, v);
      LostParentsGrow(arcs, deleted, s, dist, affected, v);
    }
  }

  lemma LedgerCompleteAt(arcs: set<Arc>, deleted: set<Arc>, s: nat, dist: seq<nat>, charged: set<Arc>,
                         affected: set<nat>, v: nat)
    requires Basis(arcs, s, dist)
    requires Checked(arcs, dist, charged, affected, {})
    requires Covered(arcs, dist, charged, affected, LostArcs(arcs, deleted, affected))
    requires v < |dist| && v !in affected && v != s && dist[v] != UNREACHABLE
    ensures KeepsOne(arcs, deleted, dist, affected, v)
  {
    var p := ParentExists(arcs, s, dist, v);
    assert Next(dist[p]) == dist[p] + 1 by {
      ExactIsRelaxed(arcs, s, dist);
    }
    assert p in ParentsOf(arcs, dist, v);
    assert !Saturated(arcs, dist, charged, v);
    var q :| q in ParentsOf(arcs, dist, v) && (q, v) !in charged;
  }

  /** Once every loss is charged and every vertex checked, the affected set is exact. */
  lemma LedgerComplete(arcs: set<Arc>, deleted: set<Arc>, s: nat, dist: seq<nat>, charged: set<Arc>, affected: set<nat>)
    requires Basis(arcs, s, dist) && Ledger(arcs, deleted, dist, charged, affected)
    requires Checked(arcs, dist, charged, affected, {})
    requires Covered(arcs, dist, charged, affected, LostArcs(arcs, deleted, affected))
    ensures OthersSupported(arcs, deleted, s, dist, affected)
    ensures affected == Growing(arcs, deleted, s, |dist|)
  {
    LedgerSound(arcs, deleted, s, dist, charged, affected);
    forall v: nat | v < |dist| && v !in affected && v != s && dist[v] != UNREACHABLE
      ensures KeepsOne(arcs, deleted, dist, affected, v)
    {
      LedgerCompleteAt(arcs, deleted, s, dist, charged, affected, v);
    }
    AffectedIsGrowing(arcs, deleted, s, dist, affected);
  }

  /** When no shortest-path arc is deleted, every reached vertex keeps a parent. */
  lemma UnhurtStaysSupported(arcs: set<Arc>, deleted: set<Arc>, s: nat, dist: seq<nat>)
    requires Basis(arcs, s, dist)
    requires forall u: nat, v: nat | (u, v) in deleted :: !Parent(dist, u, v)
    ensures OthersSupported(arcs, deleted, s, dist, {})
    ensures Growing(arcs, deleted, s, |dist|) == {}
  {
    forall v: nat | v < |dist| && v != s && dist[v] != UNREACHABLE
      ensures KeepsOne(arcs, deleted, dist, {}, v)
    {
      var p := ParentExists(arcs, s, dist, v);
      EntryIsWalk(arcs, s, dist, p);
      assert Parent(dist, p, v);
    }
    AffectedIsGrowing(arcs, deleted, s, dist, {});
  }
}
