/** Weighted distances, capped at the largest distance the code represents, and label correction for them. */
module WeightedPaths {
  import Distances

  type Arc = Distances.Arc

  /** A quarter of the 64-bit range: the label of a vertex that has no shorter path. */
  const INFINITE: nat := 0xFFFF_FFFF_FFFF_FFFF / 4

  type Weights = map<Arc, nat>

  /** There is a walk of `hops` arcs and total weight d from s to v. */
  ghost predicate WeightedWalk(w: Weights, s: nat, v: nat, hops: nat, d: nat)
    decreases hops
  {
    if hops == 0 then v == s && d == 0
    else exists u: nat :: (u, v) in w && w[(u, v)] <= d && WeightedWalk(w, s, u, hops - 1, d - w[(u, v)])
  }

  ghost predicate PathWeight(w: Weights, s: nat, v: nat, d: nat)
  {
    exists hops: nat :: WeightedWalk(w, s, v, hops, d)
  }

  ghost predicate IsLeastWeight(w: Weights, s: nat, v: nat, d: nat)
  {
    PathWeight(w, s, v, d) && forall e: nat | PathWeight(w, s, v, e) :: d <= e
  }

  lemma {:induction false} LeastWeightExists(w: Weights, s: nat, v: nat, d: nat)
    requires PathWeight(w, s, v, d)
    ensures exists e: nat :: e <= d && IsLeastWeight(w, s, v, e)
    decreases d
  {
    if e: nat :| e < d && PathWeight(w, s, v, e) {
      LeastWeightExists(w, s, v, e);
    } else {
      assert IsLeastWeight(w, s, v, d);
    }
  }

  /** The smaller of INFINITE and the least path weight. */
  ghost function CappedDistance(w: Weights, s: nat, v: nat): nat
  {
    if exists d: nat :: d < INFINITE && PathWeight(w, s, v, d) then
      var d: nat :| d < INFINITE && PathWeight(w, s, v, d);
      LeastWeightExists(w, s, v, d);
      var e: nat :| e <= d && IsLeastWeight(w, s, v, e);
      e
    else
      INFINITE
  }

  /** The cap, a quarter of the 64-bit range, in its two directions: never above a path, and a path's weight unless it
      is the cap. */
  lemma CappedDistanceMeaning(w: Weights, s: nat, v: nat)
    ensures CappedDistance(w, s, v) <= 0x3FFF_FFFF_FFFF_FFFF
    ensures CappedDistance(w, s, v) < 0x3FFF_FFFF_FFFF_FFFF ==> IsLeastWeight(w, s, v, CappedDistance(w, s, v))
    ensures forall d: nat | PathWeight(w, s, v, d) :: CappedDistance(w, s, v) <= d
  {
  }

  // ---------- The local criterion ----------

  ghost predicate WithinRange(w: Weights, n: nat)
  {
    forall u: nat, v: nat {:trigger (u, v) in w} | (u, v) in w :: u < n && v < n
  }

  /** Every finite label is at least the weight of some path. */
  ghost predicate Reached(w: Weights, s: nat, v: nat, d: nat)
  {
    exists e: nat :: e <= d && PathWeight(w, s, v, e)
  }

  ghost predicate Sound(w: Weights, s: nat, dist: seq<nat>)
  {
    forall v: nat {:trigger Reached(w, s, v, dist[v])} | v < |dist| && dist[v] != INFINITE :: Reached(w, s, v, dist[v])
  }

  /** Every arc is relaxed, or leaves an open vertex, or is excused. */
  ghost predicate Settled(w: Weights, dist: seq<nat>, open: set<nat>, excused: set<Arc>)
  {
    forall u: nat, v: nat {:trigger (u, v) in w} | (u, v) in w && u < |dist| && v < |dist| ::
      dist[v] <= dist[u] + w[(u, v)] || u in open || (u, v) in excused
  }

  ghost predicate Exact(w: Weights, s: nat, dist: seq<nat>)
  {
    forall v: nat {:trigger CappedDistance(w, s, v)} | v < |dist| :: dist[v] == CappedDistance(w, s, v)
  }

  ghost predicate Capped(dist: seq<nat>)
  {
    forall v: nat | v < |dist| :: dist[v] <= INFINITE
  }

  lemma {:induction false} SettledIsBelowPaths(w: Weights, s: nat, dist: seq<nat>, v: nat, hops: nat, d: nat)
    requires WithinRange(w, |dist|) && Settled(w, dist, {}, {})
    requires s < |dist| && dist[s] == 0 && v < |dist| && WeightedWalk(w, s, v, hops, d)
    ensures dist[v] <= d
    decreases hops
  {
    if hops > 0 {
      var u: nat :| (u, v) in w && w[(u, v)] <= d && WeightedWalk(w, s, u, hops - 1, d - w[(u, v)]);
      SettledIsBelowPaths(w, s, dist, u, hops - 1, d - w[(u, v)]);
    }
  }

  lemma {:induction false} NothingFromOutside(w: Weights, s: nat, n: nat, v: nat, hops: nat, d: nat)
    requires WithinRange(w, n) && s >= n && v < n
    ensures !WeightedWalk(w, s, v, hops, d)
    decreases hops
  {
    if hops > 0 && WeightedWalk(w, s, v, hops, d) {
      var u: nat :| (u, v) in w && w[(u, v)] <= d && WeightedWalk(w, s, u, hops - 1, d - w[(u, v)]);
      NothingFromOutside(w, s, n, u, hops - 1, d - w[(u, v)]);
    }
  }

  lemma SoundAt(w: Weights, s: nat, dist: seq<nat>, v: nat) returns (hops: nat, e: nat)
    requires Sound(w, s, dist) && v < |dist| && dist[v] != INFINITE
    ensures e <= dist[v] && WeightedWalk(w, s, v, hops, e)
  {
    assert Reached(w, s, v, dist[v]);
    e :| e <= dist[v] && PathWeight(w, s, v, e);
    hops :| WeightedWalk(w, s, v, hops, e);
  }

  lemma CertificateIsExact(w: Weights, s: nat, dist: seq<nat>)
    requires WithinRange(w, |dist|) && Capped(dist) && Sound(w, s, dist) && Settled(w, dist, {}, {})
    requires s < |dist| ==> dist[s] == 0
    ensures Exact(w, s, dist)
  {
    forall v: nat | v < |dist|
      ensures dist[v] == CappedDistance(w, s, v)
    {
      CappedDistanceMeaning(w, s, v);
      CertificateAt(w, s, dist, v, CappedDistance(w, s, v));
    }
  }

  lemma CertificateAt(w: Weights, s: nat, dist: seq<nat>, v: nat, d: nat)
    requires WithinRange(w, |dist|) && Capped(dist) && Sound(w, s, dist) && Settled(w, dist, {}, {})
    requires s < |dist| ==> dist[s] == 0
    requires v < |dist| && d <= INFINITE && (d < INFINITE ==> PathWeight(w, s, v, d))
    requires forall e: nat | PathWeight(w, s, v, e) :: d <= e
    ensures dist[v] == d
  {
    if d < INFINITE {
      var hops: nat :| WeightedWalk(w, s, v, hops, d);
      if s < |dist| {
        SettledIsBelowPaths(w, s, dist, v, hops, d);
      } else {
        NothingFromOutside(w, s, |dist|, v, hops, d);
      }
    }
    if dist[v] != INFINITE {
      var hops, e := SoundAt(w, s, dist, v);
      assert PathWeight(w, s, v, e);
    }
  }
}
