/** Hop distances in a directed graph given by its set of arcs.
    `Dist` is the mathematical distance the code must agree with; `CertificateIsExact` is the
    local criterion every breadth-first and repair loop of this project is proved against. */
module Distances {

  /** The marker kept in a distance vector for a vertex that cannot be reached. */
  const UNREACHABLE: nat := 0xFFFF_FFFF

  /** The 32-bit increment: the successor of the marker wraps to 0. */
  function Next(d: nat): nat
  {
    (d + 1) % 0x1_0000_0000
  }

  type Arc = (nat, nat)

  /** Sets of arcs are equal when they hold the same pairs. */
  lemma SamePairs(left: set<Arc>, right: set<Arc>)
    requires forall u: nat, v: nat :: (u, v) in left <==> (u, v) in right
    ensures left == right
  {
    forall a: Arc
      ensures a in left <==> a in right
    {
      assert a == (a.0, a.1);
    }
  }

  // ---------- Walks and distance ----------

  /** There is a walk of exactly k arcs from s to v. */
  ghost predicate Walk(arcs: set<Arc>, s: nat, v: nat, k: nat)
    decreases k
  {
    if k == 0 then v == s else exists u: nat :: (u, v) in arcs && Walk(arcs, s, u, k - 1)
  }

  ghost predicate Reachable(arcs: set<Arc>, s: nat, v: nat)
  {
    exists k: nat :: Walk(arcs, s, v, k)
  }

  ghost predicate IsLeast(arcs: set<Arc>, s: nat, v: nat, k: nat)
  {
    Walk(arcs, s, v, k) && forall j: nat | Walk(arcs, s, v, j) :: k <= j
  }

  lemma {:induction false} LeastExists(arcs: set<Arc>, s: nat, v: nat, k: nat)
    requires Walk(arcs, s, v, k)
    ensures exists d: nat :: d <= k && IsLeast(arcs, s, v, d)
    decreases k
  {
    if j: nat :| j < k && Walk(arcs, s, v, j) {
      LeastExists(arcs, s, v, j);
    } else {
      assert IsLeast(arcs, s, v, k);
    }
  }

  /** The number of arcs on a shortest walk, or the marker when there is none. */
  ghost function Dist(arcs: set<Arc>, s: nat, v: nat): nat
  {
    if Reachable(arcs, s, v) then
      var k: nat :| Walk(arcs, s, v, k);
      LeastExists(arcs, s, v, k);
      var d: nat :| IsLeast(arcs, s, v, d);
      d
    else
      UNREACHABLE
  }

  lemma DistIsLeast(arcs: set<Arc>, s: nat, v: nat, k: nat)
    requires Walk(arcs, s, v, k)
    ensures IsLeast(arcs, s, v, Dist(arcs, s, v)) && Dist(arcs, s, v) <= k
  {
    LeastExists(arcs, s, v, k);
  }

  lemma LeastIsDist(arcs: set<Arc>, s: nat, v: nat, d: nat)
    requires IsLeast(arcs, s, v, d)
    ensures Dist(arcs, s, v) == d
  {
    DistIsLeast(arcs, s, v, d);
  }

  // ---------- No distance reaches the marker ----------

  ghost predicate Within(arcs: set<Arc>, n: nat)
  {
    forall u: nat, v: nat | (u, v) in arcs :: u < n && v < n
  }

  lemma {:induction false} BoundedSet(s: set<nat>, n: nat)
    requires forall x | x in s :: x < n
    ensures |s| <= n
    decreases n
  {
    if n == 0 {
      assert s == {};
    } else {
      BoundedSet(s - {n - 1}, n - 1);
      assert |s| <= |s - {n - 1}| + 1;
    }
  }

  /** A shortest walk of length k visits a vertex at every distance 0..k. */
  lemma {:induction false} LevelsAreFilled(arcs: set<Arc>, s: nat, v: nat, k: nat, n: nat) returns (levels: set<nat>)
    requires IsLeast(arcs, s, v, k) && Within(arcs, n) && v < n
    ensures |levels| == k + 1
    ensures forall x | x in levels :: x < n && exists j: nat :: j <= k && IsLeast(arcs, s, x, j)
    decreases k
  {
    if k == 0 {
      levels := {v};
    } else {
      var u: nat :| (u, v) in arcs && Walk(arcs, s, u, k - 1);
      forall j: nat | Walk(arcs, s, u, j)
        ensures k - 1 <= j
      {
        assert Walk(arcs, s, v, j + 1);
      }
      assert IsLeast(arcs, s, u, k - 1);
      var before := LevelsAreFilled(arcs, s, u, k - 1, n);
      assert v !in before;
      levels := before + {v};
    }
  }

  lemma DistBelowVertexCount(arcs: set<Arc>, s: nat, v: nat, n: nat)
    requires Within(arcs, n) && v < n && Reachable(arcs, s, v)
    ensures Dist(arcs, s, v) < n
  {
    var k: nat :| Walk(arcs, s, v, k);
    DistIsLeast(arcs, s, v, k);
    var levels := LevelsAreFilled(arcs, s, v, Dist(arcs, s, v), n);
    BoundedSet(levels, n);
  }

  // ---------- The local criterion ----------

  ghost predicate Exact(arcs: set<Arc>, s: nat, dist: seq<nat>)
  {
    forall v: nat {:trigger Dist(arcs, s, v)} | v < |dist| :: dist[v] == Dist(arcs, s, v)
  }

  /** Every finite entry is the length of some walk. */
  ghost predicate Sound(arcs: set<Arc>, s: nat, dist: seq<nat>)
  {
    forall v: nat {:trigger Walk(arcs, s, v, dist[v])} | v < |dist| && dist[v] != UNREACHABLE ::
      Walk(arcs, s, v, dist[v])
  }

  /** No arc leads to an entry more than one above its origin. */
  ghost predicate Relaxed(arcs: set<Arc>, dist: seq<nat>)
  {
    forall u: nat, v: nat {:trigger (u, v) in arcs} | (u, v) in arcs && u < |dist| && v < |dist| ::
      dist[v] <= dist[u] + 1
  }

  lemma SoundAt(arcs: set<Arc>, s: nat, dist: seq<nat>, v: nat)
    requires Sound(arcs, s, dist) && v < |dist|
    ensures dist[v] != UNREACHABLE ==> Walk(arcs, s, v, dist[v]) && Reachable(arcs, s, v)
  {
    assert dist[v] != UNREACHABLE ==> Walk(arcs, s, v, dist[v]);
  }

  /** Writing the length of a walk into one entry keeps a vector sound. */
  lemma SoundUpdate(arcs: set<Arc>, s: nat, dist: seq<nat>, v: nat, d: nat)
    requires Sound(arcs, s, dist) && v < |dist|
    requires d != UNREACHABLE ==> Walk(arcs, s, v, d)
    ensures Sound(arcs, s, dist[v := d])
  {
    var after := dist[v := d];
    forall x: nat | x < |after| && after[x] != UNREACHABLE
      ensures Walk(arcs, s, x, after[x])
    {
      SoundAt(arcs, s, dist, x);
    }
  }

  lemma {:induction false} RelaxedIsBelowWalks(arcs: set<Arc>, s: nat, dist: seq<nat>, v: nat, k: nat)
    requires Within(arcs, |dist|) && Relaxed(arcs, dist)
    requires s < |dist| && dist[s] == 0
    requires v < |dist| && Walk(arcs, s, v, k)
    ensures dist[v] <= k
    decreases k
  {
    if k > 0 {
      var u: nat :| (u, v) in arcs && Walk(arcs, s, u, k - 1);
      RelaxedIsBelowWalks(arcs, s, dist, u, k - 1);
    }
  }

  lemma {:induction false} NothingFromOutside(arcs: set<Arc>, s: nat, n: nat, v: nat, k: nat)
    requires Within(arcs, n) && s >= n && v < n
    ensures !Walk(arcs, s, v, k)
    decreases k
  {
    if k > 0 && Walk(arcs, s, v, k) {
      var u: nat :| (u, v) in arcs && Walk(arcs, s, u, k - 1);
      NothingFromOutside(arcs, s, n, u, k - 1);
    }
  }

  /** A vector that is sound, relaxed and 0 at the source is the distance vector. */
  lemma CertificateIsExact(arcs: set<Arc>, s: nat, dist: seq<nat>)
    requires Within(arcs, |dist|) && |dist| <= UNREACHABLE
    requires forall v: nat | v < |dist| :: dist[v] <= UNREACHABLE
    requires s < |dist| ==> dist[s] == 0
    requires Sound(arcs, s, dist) && Relaxed(arcs, dist)
    ensures Exact(arcs, s, dist)
  {
    forall v: nat | v < |dist|
      ensures dist[v] == Dist(arcs, s, v)
    {
      if Reachable(arcs, s, v) {
        var k: nat :| Walk(arcs, s, v, k);
        DistIsLeast(arcs, s, v, k);
        DistBelowVertexCount(arcs, s, v, |dist|);
        if s >= |dist| {
          NothingFromOutside(arcs, s, |dist|, v, k);
        } else {
          RelaxedIsBelowWalks(arcs, s, dist, v, Dist(arcs, s, v));
          SoundAt(arcs, s, dist, v);
        }
      } else {
        SoundAt(arcs, s, dist, v);
      }
    }
  }

  /** What the entry at one vertex says: a finite entry is a walk of fewer arcs than there are vertices. */
  lemma EntryIsWalk(arcs: set<Arc>, s: nat, dist: seq<nat>, v: nat)
    requires Within(arcs, |dist|) && |dist| <= UNREACHABLE && Exact(arcs, s, dist) && v < |dist|
    ensures dist[v] == Dist(arcs, s, v)
    ensures dist[v] != UNREACHABLE ==> Walk(arcs, s, v, dist[v]) && dist[v] < |dist|
  {
    assert dist[v] == Dist(arcs, s, v);
    if k: nat :| Walk(arcs, s, v, k) {
      DistIsLeast(arcs, s, v, k);
      DistBelowVertexCount(arcs, s, v, |dist|);
    }
  }

  lemma StepIsRelaxed(arcs: set<Arc>, s: nat, dist: seq<nat>, u: nat, v: nat)
    requires Within(arcs, |dist|) && |dist| <= UNREACHABLE && Exact(arcs, s, dist) && (u, v) in arcs
    ensures dist[u] != UNREACHABLE ==> dist[v] <= dist[u] + 1 && dist[v] != UNREACHABLE
    ensures dist[v] <= UNREACHABLE
  {
    EntryIsWalk(arcs, s, dist, u);
    EntryIsWalk(arcs, s, dist, v);
    if dist[u] != UNREACHABLE {
      assert Walk(arcs, s, v, dist[u] + 1);
      DistIsLeast(arcs, s, v, dist[u] + 1);
      DistBelowVertexCount(arcs, s, v, |dist|);
    }
  }

  /** Conversely a distance vector is 0 at the source only, relaxed, and its finite entries stay below
      the vertex count, so that none of them can be mistaken for the marker. */
  lemma ExactIsRelaxed(arcs: set<Arc>, s: nat, dist: seq<nat>)
    requires Within(arcs, |dist|) && |dist| <= UNREACHABLE && Exact(arcs, s, dist)
    ensures s < |dist| ==> dist[s] == 0
    ensures Relaxed(arcs, dist)
    ensures forall v: nat | v < |dist| :: dist[v] < |dist| || dist[v] == UNREACHABLE
    ensures forall u: nat, v: nat | (u, v) in arcs && dist[u] != UNREACHABLE :: dist[v] != UNREACHABLE
    ensures forall v: nat | v < |dist| && dist[v] == 0 :: v == s
  {
    if s < |dist| {
      assert Walk(arcs, s, s, 0);
      DistIsLeast(arcs, s, s, 0);
      assert dist[s] == Dist(arcs, s, s);
    }
    forall v: nat | v < |dist|
      ensures dist[v] < |dist| || dist[v] == UNREACHABLE
      ensures dist[v] == 0 ==> v == s
    {
      EntryIsWalk(arcs, s, dist, v);
    }
    forall u: nat, v: nat | (u, v) in arcs
      ensures dist[v] <= dist[u] + 1
      ensures dist[u] != UNREACHABLE ==> dist[v] != UNREACHABLE
    {
      EntryIsWalk(arcs, s, dist, u);
      StepIsRelaxed(arcs, s, dist, u, v);
    }
  }

  lemma Predecessor(arcs: set<Arc>, s: nat, v: nat, d: nat) returns (u: nat)
    requires IsLeast(arcs, s, v, d) && v != s
    ensures d > 0 && (u, v) in arcs && Reachable(arcs, s, u) && Dist(arcs, s, u) == d - 1
  {
    u :| (u, v) in arcs && Walk(arcs, s, u, d - 1);
    forall j: nat | Walk(arcs, s, u, j)
      ensures d - 1 <= j
    {
      assert Walk(arcs, s, v, j + 1);
    }
    LeastIsDist(arcs, s, u, d - 1);
  }

  /** A reached vertex other than the source has a parent one step closer. */
  lemma ParentExists(arcs: set<Arc>, s: nat, dist: seq<nat>, v: nat) returns (u: nat)
    requires Within(arcs, |dist|) && |dist| <= UNREACHABLE && Exact(arcs, s, dist)
    requires v < |dist| && v != s && dist[v] != UNREACHABLE
    ensures (u, v) in arcs && dist[u] != UNREACHABLE && dist[u] + 1 == dist[v]
  {
    EntryIsWalk(arcs, s, dist, v);
    DistIsLeast(arcs, s, v, dist[v]);
    u := Predecessor(arcs, s, v, dist[v]);
    EntryIsWalk(arcs, s, dist, u);
    DistBelowVertexCount(arcs, s, u, |dist|);
  }

  /** More arcs, shorter distances. */
  lemma {:induction false} WalkMonotone(small: set<Arc>, large: set<Arc>, s: nat, v: nat, k: nat)
    requires small <= large && Walk(small, s, v, k)
    ensures Walk(large, s, v, k)
    decreases k
  {
    if k > 0 {
      var u: nat :| (u, v) in small && Walk(small, s, u, k - 1);
      WalkMonotone(small, large, s, u, k - 1);
    }
  }
}
