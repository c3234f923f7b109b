/** Counting triangles of an undirected graph: the definition, and the sums over ordered triples that the
    incremental formulas manipulate. */
module Triangles {
  import opened Distances
  import opened Sums

  ghost predicate Undirected(arcs: set<Arc>)
  {
    forall u: nat, v: nat {:trigger (u, v) in arcs} | (u, v) in arcs :: u != v && (v, u) in arcs
  }

  /** The triangles, each listed once with its vertices in increasing order. */
  ghost function TriangleSet(n: nat, arcs: set<Arc>): set<(nat, nat, nat)>
  {
    set u: nat, v: nat, w: nat | u < v < w < n && Corner(arcs, arcs, arcs, u, v, w) :: (u, v, w)
  }

  ghost function TriangleCount(n: nat, arcs: set<Arc>): nat
  {
    |TriangleSet(n, arcs)|
  }

  // ---------- Sums over ordered triples ----------

  /** The three sides of the triple belong to the three given sets. */
  ghost predicate Corner(x: set<Arc>, y: set<Arc>, z: set<Arc>, u: nat, v: nat, w: nat)
  {
    (u, v) in x && (u, w) in y && (v, w) in z
  }

  ghost function Tri(x: set<Arc>, y: set<Arc>, z: set<Arc>, u: nat, v: nat, w: nat): int
  {
    if Corner(x, y, z, u, v, w) then 1 else 0
  }

  ghost function Line(n: nat, x: set<Arc>, y: set<Arc>, z: set<Arc>, u: nat, v: nat): int
  {
    Sum(n, (w: nat) => Tri(x, y, z, u, v, w))
  }

  ghost function Plane(n: nat, x: set<Arc>, y: set<Arc>, z: set<Arc>, u: nat): int
  {
    Sum(n, (v: nat) => Line(n, x, y, z, u, v))
  }

  ghost function Cube(n: nat, x: set<Arc>, y: set<Arc>, z: set<Arc>): int
  {
    Sum(n, (u: nat) => Plane(n, x, y, z, u))
  }

  /** Exchanging the last two vertices exchanges the first two sets. */
  lemma CubeSwapLast(n: nat, x: set<Arc>, y: set<Arc>, z: set<Arc>)
    requires Undirected(z)
    ensures Cube(n, x, y, z) == Cube(n, y, x, z)
  {
    forall u: nat | u < n
      ensures Plane(n, x, y, z, u) == Plane(n, y, x, z, u)
    {
      var g := (v: nat, w: nat) => Tri(x, y, z, u, v, w);
      SumExchange(n, n, g);
      forall v: nat | v < n
        ensures Sum(n, (w: nat) => g(w, v)) == Line(n, y, x, z, u, v)
        ensures Sum(n, (w: nat) => g(v, w)) == Line(n, x, y, z, u, v)
      {
        SumEq(n, (w: nat) => g(w, v), (w: nat) => Tri(y, x, z, u, v, w));
        SumEq(n, (w: nat) => g(v, w), (w: nat) => Tri(x, y, z, u, v, w));
      }
      SumEq(n, (v: nat) => Sum(n, (w: nat) => g(w, v)), (v: nat) => Line(n, y, x, z, u, v));
      SumEq(n, (v: nat) => Sum(n, (w: nat) => g(v, w)), (v: nat) => Line(n, x, y, z, u, v));
    }
    SumEq(n, (u: nat) => Plane(n, x, y, z, u), (u: nat) => Plane(n, y, x, z, u));
  }

  /** Exchanging the first two vertices exchanges the last two sets. */
  lemma CubeSwapFirst(n: nat, x: set<Arc>, y: set<Arc>, z: set<Arc>)
    requires Undirected(x)
    ensures Cube(n, x, y, z) == Cube(n, x, z, y)
  {
    var g := (u: nat, v: nat) => Line(n, x, y, z, u, v);
    SumExchange(n, n, g);
    forall u: nat | u < n
      ensures Sum(n, (v: nat) => g(v, u)) == Plane(n, x, z, y, u)
      ensures Sum(n, (v: nat) => g(u, v)) == Plane(n, x, y, z, u)
    {
      SumEq(n, (v: nat) => g(u, v), (v: nat) => Line(n, x, y, z, u, v));
      forall v: nat | v < n
        ensures g(v, u) == Line(n, x, z, y, u, v)
      {
        SumEq(n, (w: nat) => Tri(x, y, z, v, u, w), (w: nat) => Tri(x, z, y, u, v, w));
      }
      SumEq(n, (v: nat) => g(v, u), (v: nat) => Line(n, x, z, y, u, v));
    }
    SumEq(n, (u: nat) => Sum(n, (v: nat) => g(v, u)), (u: nat) => Plane(n, x, z, y, u));
    SumEq(n, (u: nat) => Sum(n, (v: nat) => g(u, v)), (u: nat) => Plane(n, x, y, z, u));
  }

  /** A disjoint union in the first set splits the sum. */
  lemma CubeAdd(n: nat, x1: set<Arc>, x2: set<Arc>, y: set<Arc>, z: set<Arc>)
    requires x1 !! x2
    ensures Cube(n, x1 + x2, y, z) == Cube(n, x1, y, z) + Cube(n, x2, y, z)
  {
    var x := x1 + x2;
    forall u: nat | u < n
      ensures Plane(n, x, y, z, u) == Plane(n, x1, y, z, u) + Plane(n, x2, y, z, u)
    {
      forall v: nat | v < n
        ensures Line(n, x, y, z, u, v) == Line(n, x1, y, z, u, v) + Line(n, x2, y, z, u, v)
      {
        SumAdd(n, (w: nat) => Tri(x1, y, z, u, v, w), (w: nat) => Tri(x2, y, z, u, v, w),
               (w: nat) => Tri(x, y, z, u, v, w));
      }
      SumAdd(n, (v: nat) => Line(n, x1, y, z, u, v), (v: nat) => Line(n, x2, y, z, u, v),
             (v: nat) => Line(n, x, y, z, u, v));
    }
    SumAdd(n, (u: nat) => Plane(n, x1, y, z, u), (u: nat) => Plane(n, x2, y, z, u), (u: nat) => Plane(n, x, y, z, u));
  }

  lemma CubeNonneg(n: nat, x: set<Arc>, y: set<Arc>, z: set<Arc>)
    ensures Cube(n, x, y, z) >= 0
  {
    forall u: nat | u < n
      ensures Plane(n, x, y, z, u) >= 0
    {
      forall v: nat | v < n
        ensures Line(n, x, y, z, u, v) >= 0
      {
        SumNonneg(n, (w: nat) => Tri(x, y, z, u, v, w));
      }
      SumNonneg(n, (v: nat) => Line(n, x, y, z, u, v));
    }
    SumNonneg(n, (u: nat) => Plane(n, x, y, z, u));
  }

  // ---------- Ordered triples against triangles ----------

  /** The triangles with largest vertex w and middle vertex v. */
  ghost function Below(x: set<Arc>, w: nat, v: nat): int
  {
    Sum(v, (u: nat) => Tri(x, x, x, u, v, w))
  }

  ghost function Layer(x: set<Arc>, w: nat): int
  {
    Sum(w, (v: nat) => Below(x, w, v))
  }

  /** The triangle count as nested sums over u < v < w. */
  ghost function TriangleSum(n: nat, x: set<Arc>): int
  {
    Sum(n, (w: nat) => Layer(x, w))
  }

  /** The ordered triples that end in vertex m, with first vertex u. */
  ghost function Ending(m: nat, x: set<Arc>, u: nat): int
  {
    Sum(m, (v: nat) => Tri(x, x, x, u, v, m))
  }

  ghost function AllEnding(m: nat, x: set<Arc>): int
  {
    Sum(m, (u: nat) => Ending(m, x, u))
  }

  /** Adding vertex m to the range adds its triangles in both orders of the other two. */
  lemma PlaneStep(m: nat, x: set<Arc>, u: nat)
    requires Undirected(x)
    ensures Plane(m + 1, x, x, x, u) == Plane(m, x, x, x, u) + 2 * Ending(m, x, u)
  {
    var last := (v: nat) => Tri(x, x, x, u, v, m);
    SumAdd(m, (v: nat) => Line(m, x, x, x, u, v), last, (v: nat) => Line(m + 1, x, x, x, u, v));
    SumEq(m, (w: nat) => Tri(x, x, x, u, m, w), last);
    SumEq(m, last, (v: nat) => Tri(x, x, x, u, v, m));
  }

  lemma TopPlane(m: nat, x: set<Arc>)
    requires Undirected(x)
    ensures Plane(m + 1, x, x, x, m) == AllEnding(m, x)
  {
    PlaneStep(m, x, m);
    SumZero(m, (v: nat) => Tri(x, x, x, m, v, m));
    forall v: nat | v < m
      ensures Line(m, x, x, x, m, v) == Ending(m, x, v)
    {
      SumEq(m, (w: nat) => Tri(x, x, x, m, v, w), (w: nat) => Tri(x, x, x, v, w, m));
    }
    SumEq(m, (v: nat) => Line(m, x, x, x, m, v), (v: nat) => Ending(m, x, v));
  }

  lemma EndingIsTwiceLayer(m: nat, x: set<Arc>)
    requires Undirected(x)
    ensures AllEnding(m, x) == 2 * Layer(x, m)
  {
    var g := (u: nat, v: nat) => Tri(x, x, x, u, v, m);
    SumSymmetric(m, g);
    var rows := (u: nat) => RowSum(m, g, u);
    var columns := (v: nat) => ColumnSum(v, g, v);
    forall k: nat | k < m
      ensures rows(k) == Ending(m, x, k) && columns(k) == Below(x, m, k)
    {
      SumEq(m, (v: nat) => g(k, v), (v: nat) => Tri(x, x, x, k, v, m));
      SumEq(k, (u: nat) => g(u, k), (u: nat) => Tri(x, x, x, u, k, m));
    }
    SumEq(m, rows, (u: nat) => Ending(m, x, u));
    SumEq(m, columns, (v: nat) => Below(x, m, v));
  }

  /** Over all ordered triples every triangle is counted six times. */
  lemma {:induction false} CubeIsSixfold(n: nat, x: set<Arc>)
    requires Undirected(x)
    ensures Cube(n, x, x, x) == 6 * TriangleSum(n, x)
  {
    if n > 0 {
      var m := n - 1;
      CubeIsSixfold(m, x);
      var ending := (u: nat) => Ending(m, x, u);
      var twice := (u: nat) => 2 * Ending(m, x, u);
      forall u: nat | u < m
        ensures Plane(n, x, x, x, u) == Plane(m, x, x, x, u) + twice(u)
      {
        PlaneStep(m, x, u);
      }
      SumAdd(m, (u: nat) => Plane(m, x, x, x, u), twice, (u: nat) => Plane(n, x, x, x, u));
      SumAdd(m, ending, ending, twice);
      SumEq(m, ending, (u: nat) => Ending(m, x, u));
      TopPlane(m, x);
      EndingIsTwiceLayer(m, x);
    }
  }

  // ---------- The nested sums count the set ----------

  ghost function Fixed(x: set<Arc>, w: nat, v: nat, bound: nat): set<(nat, nat, nat)>
  {
    set u: nat | u < bound && Corner(x, x, x, u, v, w) :: (u, v, w)
  }

  ghost function TopLayer(x: set<Arc>, w: nat, bound: nat): set<(nat, nat, nat)>
  {
    set u: nat, v: nat | u < v < bound && Corner(x, x, x, u, v, w) :: (u, v, w)
  }

  lemma {:induction false} FixedSize(x: set<Arc>, w: nat, v: nat, bound: nat)
    ensures |Fixed(x, w, v, bound)| == Sum(bound, (u: nat) => Tri(x, x, x, u, v, w))
  {
    if bound > 0 {
      var u := bound - 1;
      FixedSize(x, w, v, u);
      assert Fixed(x, w, v, bound) == Fixed(x, w, v, u) + if Corner(x, x, x, u, v, w) then {(u, v, w)} else {};
    }
  }

  lemma {:induction false} TopLayerSize(x: set<Arc>, w: nat, bound: nat)
    ensures |TopLayer(x, w, bound)| == Sum(bound, (v: nat) => Below(x, w, v))
  {
    if bound > 0 {
      var v := bound - 1;
      TopLayerSize(x, w, v);
      FixedSize(x, w, v, v);
      assert TopLayer(x, w, bound) == TopLayer(x, w, v) + Fixed(x, w, v, v);
      assert TopLayer(x, w, v) !! Fixed(x, w, v, v);
    }
  }

  lemma {:induction false} SumCountsSet(n: nat, x: set<Arc>)
    ensures TriangleSum(n, x) == TriangleCount(n, x)
  {
    if n > 0 {
      var w := n - 1;
      SumCountsSet(w, x);
      TopLayerSize(x, w, w);
      assert TriangleSet(n, x) == TriangleSet(w, x) + TopLayer(x, w, w);
      assert TriangleSet(w, x) !! TopLayer(x, w, w);
    }
  }

  lemma CubeCountsTriangles(n: nat, x: set<Arc>)
    requires Undirected(x)
    ensures Cube(n, x, x, x) == 6 * TriangleCount(n, x)
  {
    CubeIsSixfold(n, x);
    SumCountsSet(n, x);
  }

  // ---------- Common neighbours and the batch sums ----------

  /** How many w are reached from u in y and from v in z. */
  ghost function Common(n: nat, y: set<Arc>, z: set<Arc>, u: nat, v: nat): int
  {
    Sum(n, (w: nat) => if (u, w) in y && (v, w) in z then 1 else 0)
  }

  /** The ordered triples over a single arc are its common neighbours. */
  lemma CubeOfArc(n: nat, y: set<Arc>, z: set<Arc>, u: nat, v: nat)
    requires u < n && v < n
    ensures Cube(n, {(u, v)}, y, z) == Common(n, y, z, u, v)
  {
    var x: set<Arc> := {(u, v)};
    forall p: nat, q: nat
      ensures Line(n, x, y, z, p, q) == if p == u && q == v then Common(n, y, z, u, v) else 0
    {
      if p == u && q == v {
        SumEq(n, (w: nat) => Tri(x, y, z, u, v, w), (w: nat) => if (u, w) in y && (v, w) in z then 1 else 0);
      } else {
        SumZero(n, (w: nat) => Tri(x, y, z, p, q, w));
      }
    }
    var none := (_: nat) => 0;
    SumZero(n, none);
    forall p: nat
      ensures Plane(n, x, y, z, p) == if p == u then Common(n, y, z, u, v) else 0
    {
      if p == u {
        SumPoint(n, none, (q: nat) => Line(n, x, y, z, p, q), v, Common(n, y, z, u, v));
      } else {
        SumZero(n, (q: nat) => Line(n, x, y, z, p, q));
      }
    }
    SumPoint(n, none, (p: nat) => Plane(n, x, y, z, p), u, Common(n, y, z, u, v));
  }

  lemma CommonSymmetric(n: nat, y: set<Arc>, z: set<Arc>, u: nat, v: nat)
    ensures Common(n, y, z, u, v) == Common(n, z, y, v, u)
  {
    SumEq(n, (w: nat) => if (u, w) in y && (v, w) in z then 1 else 0,
          (w: nat) => if (v, w) in z && (u, w) in y then 1 else 0);
  }

  lemma {:induction false} CommonIsCard(n: nat, y: set<Arc>, z: set<Arc>, u: nat, v: nat)
    ensures Common(n, y, z, u, v) == |set w: nat | w < n && (u, w) in y && (v, w) in z|
  {
    var shared := set w: nat | w < n && (u, w) in y && (v, w) in z;
    if n > 0 {
      var before := set w: nat | w < n - 1 && (u, w) in y && (v, w) in z;
      CommonIsCard(n - 1, y, z, u, v);
      assert shared == before + if (u, n - 1) in y && (v, n - 1) in z then {n - 1} else {};
    } else {
      assert shared == {};
    }
  }

  ghost function Both(edges: seq<Arc>): set<Arc>
  {
    if edges == [] then {}
    else Both(edges[..|edges| - 1]) + {edges[|edges| - 1], (edges[|edges| - 1].1, edges[|edges| - 1].0)}
  }

  /** Loop-free edges inside the range, no two of them equal up to orientation. */
  ghost predicate FreshEdges(n: nat, edges: seq<Arc>)
  {
    && (forall i | 0 <= i < |edges| :: edges[i].0 < n && edges[i].1 < n && edges[i].0 != edges[i].1)
    && (forall i, j | 0 <= i < j < |edges| :: edges[i] != edges[j] && edges[i] != (edges[j].1, edges[j].0))
  }

  lemma {:induction false} BothMembers(edges: seq<Arc>, u: nat, v: nat)
    ensures (u, v) in Both(edges) <==> (u, v) in edges || (v, u) in edges
  {
    if edges != [] {
      var last := |edges| - 1;
      BothMembers(edges[..last], u, v);
      assert edges == edges[..last] + [edges[last]];
    }
  }

  lemma BothUndirected(n: nat, edges: seq<Arc>)
    requires FreshEdges(n, edges)
    ensures Undirected(Both(edges))
  {
    forall u: nat, v: nat | (u, v) in Both(edges)
      ensures u != v && (v, u) in Both(edges)
    {
      BothMembers(edges, u, v);
      BothMembers(edges, v, u);
    }
  }

  /** The sum over the batch of the common neighbours, in both orientations. */
  ghost function BatchSum(n: nat, edges: seq<Arc>, y: set<Arc>, z: set<Arc>): int
  {
    if edges == [] then 0
    else
      var (u, v) := edges[|edges| - 1];
      BatchSum(n, edges[..|edges| - 1], y, z) + Common(n, y, z, u, v) + Common(n, y, z, v, u)
  }

  lemma {:induction false} BatchSumIsCube(n: nat, edges: seq<Arc>, y: set<Arc>, z: set<Arc>)
    requires FreshEdges(n, edges)
    ensures BatchSum(n, edges, y, z) == Cube(n, Both(edges), y, z)
  {
    if edges == [] {
      CubeEmpty(n, y, z);
    } else {
      var last := |edges| - 1;
      var (u, v) := edges[last];
      var before := Both(edges[..last]);
      BatchSumIsCube(n, edges[..last], y, z);
      BothMembers(edges[..last], u, v);
      BothMembers(edges[..last], v, u);
      CubeAdd(n, before, {(u, v)}, y, z);
      CubeAdd(n, before + {(u, v)}, {(v, u)}, y, z);
      CubeOfArc(n, y, z, u, v);
      CubeOfArc(n, y, z, v, u);
      assert Both(edges) == before + {(u, v)} + {(v, u)};
    }
  }

  lemma CubeEmpty(n: nat, y: set<Arc>, z: set<Arc>)
    ensures Cube(n, {}, y, z) == 0
  {
    forall u: nat
      ensures Plane(n, {}, y, z, u) == 0
    {
      forall v: nat
        ensures Line(n, {}, y, z, u, v) == 0
      {
        SumZero(n, (w: nat) => Tri({}, y, z, u, v, w));
      }
      SumZero(n, (v: nat) => Line(n, {}, y, z, u, v));
    }
    SumZero(n, (u: nat) => Plane(n, {}, y, z, u));
  }

  // ---------- Inclusion-exclusion ----------

  /** With base b and fresh edges d, every sum over the union splits into the four kinds of triples. */
  lemma CubeExpand(n: nat, b: set<Arc>, d: set<Arc>)
    requires Undirected(b) && Undirected(d) && b !! d
    ensures Cube(n, d, b + d, b + d) == Cube(n, d, b, b) + 2 * Cube(n, d, d, b) + Cube(n, d, d, d)
    ensures Cube(n, d, b + d, d) == Cube(n, d, d, b) + Cube(n, d, d, d)
    ensures Cube(n, b + d, b + d, b + d) ==
      Cube(n, b, b, b) + 3 * Cube(n, d, b, b) + 3 * Cube(n, d, d, b) + Cube(n, d, d, d)
  {
    var e := b + d;
    assert Undirected(e);
    // one new side chosen first
    CubeAdd(n, b, d, e, e);
    CubeSwapLast(n, d, e, e);
    CubeAdd(n, b, d, d, e);
    CubeSwapFirst(n, b, d, e);
    CubeSwapLast(n, b, e, d);
    CubeAdd(n, b, d, b, d);
    CubeSwapFirst(n, d, d, e);
    CubeSwapLast(n, d, e, d);
    CubeAdd(n, b, d, d, d);
    // orderings of the mixed triples
    CubeSwapLast(n, b, b, d);
    CubeSwapFirst(n, b, b, d);
    CubeSwapLast(n, b, d, b);
    CubeSwapFirst(n, d, b, b);
    CubeSwapLast(n, b, d, d);
    CubeSwapFirst(n, d, b, d);
    // the base-first part
    CubeSwapLast(n, b, e, e);
    CubeAdd(n, b, d, b, e);
    CubeSwapFirst(n, b, b, e);
    CubeSwapLast(n, b, e, b);
    CubeAdd(n, b, d, b, b);
    CubeSwapFirst(n, d, b, e);
    CubeSwapLast(n, d, e, b);
    CubeAdd(n, b, d, d, b);
  }

  /** Inclusion-exclusion on sums: the divisions are exact, the subtraction stays nonnegative, and the result
      is the number of triangles the batch created. */
  lemma InclusionExclusion(n: nat, base: set<Arc>, edges: seq<Arc>, s1: int)
    requires Undirected(base) && FreshEdges(n, edges) && base !! Both(edges)
    requires 2 * s1 == BatchSum(n, edges, base + Both(edges), base + Both(edges))
    ensures var d := Both(edges); var e := base + d;
            var s2, s3 := BatchSum(n, edges, e, d), BatchSum(n, edges, d, d);
            && s2 % 2 == 0 && s3 % 6 == 0 && 0 <= s2 / 2 <= s1 && s3 >= 0
            && s1 - s2 / 2 + s3 / 6 == TriangleCount(n, e) - TriangleCount(n, base)
  {
    var d := Both(edges);
    var e := base + d;
    BothUndirected(n, edges);
    assert Undirected(e);
    BatchSumIsCube(n, edges, e, e);
    BatchSumIsCube(n, edges, e, d);
    BatchSumIsCube(n, edges, d, d);
    CubeExpand(n, base, d);
    CubeCountsTriangles(n, e);
    CubeCountsTriangles(n, base);
    CubeCountsTriangles(n, d);
    CubeNonneg(n, d, base, base);
    CubeNonneg(n, d, d, base);
    CubeNonneg(n, d, d, d);
    Halves(Cube(n, d, base, base), Cube(n, d, d, base), TriangleCount(n, d), s1, TriangleCount(n, e),
           TriangleCount(n, base));
  }

  /** The arithmetic of the formula: p, q are the triples with one and two new sides, 6 * r those with three. */
  lemma Halves(p: int, q: int, r: int, s1: int, after: int, before: int)
    requires p >= 0 && q >= 0 && r >= 0
    requires 2 * s1 == p + 2 * q + 6 * r
    requires 6 * after == 6 * before + 3 * p + 3 * q + 6 * r
    ensures (q + 6 * r) % 2 == 0 && 0 <= (q + 6 * r) / 2 <= s1
    ensures s1 - (q + 6 * r) / 2 + r == after - before
  {
    assert p == 2 * (s1 - q - 3 * r);
    assert q == 2 * (after - before - r - (s1 - q - 3 * r));
  }
}
