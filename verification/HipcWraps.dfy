/** Insertions on which the 64-bit accumulators wrap around: one that the accounting check refuses, and one that gets a
    wrong report without any error. */
module HipcWraps {
  import opened Distances
  import opened DynamicGraphs
  import opened Collections
  import opened SortedRows
  import opened Sums
  import opened Triangles
  import opened Hipc

  // ---------- Batches with the same sum at every edge ----------

  ghost predicate Each(n: nat, y: set<Arc>, z: set<Arc>, e: Arc, shared: int)
  {
    Common(n, y, z, e.0, e.1) == Common(n, y, z, e.1, e.0) == shared
  }

  lemma {:induction false} SumOfEqual(n: nat, edges: seq<Arc>, y: set<Arc>, z: set<Arc>, shared: int)
    requires forall e | e in edges :: Each(n, y, z, e, shared)
    ensures BatchSum(n, edges, y, z) == |edges| * (2 * shared)
  {
    if edges != [] {
      var last := |edges| - 1;
      assert edges[last] in edges;
      SumOfEqual(n, edges[..last], y, z, shared);
      assert |edges| * (2 * shared) == last * (2 * shared) + 2 * shared;
    }
  }

  function Numbers(low: nat, high: nat): (numbers: set<nat>)
    requires low <= high
    ensures |numbers| == high - low && forall w: nat :: w in numbers <==> low <= w < high
    decreases high - low
  {
    if low == high then {} else Numbers(low, high - 1) + {high - 1}
  }

  lemma CommonIs(n: nat, y: set<Arc>, z: set<Arc>, u: nat, v: nat, shared: set<nat>)
    requires forall w: nat :: w in shared <==> w < n && (u, w) in y && (v, w) in z
    ensures Common(n, y, z, u, v) == |shared|
  {
    CommonIsCard(n, y, z, u, v);
    var counted := set w: nat | w < n && (u, w) in y && (v, w) in z;
    forall w: nat
      ensures w in counted <==> w in shared
    {
    }
    assert counted == shared;
  }

  // ---------- A complete graph inserted at once ----------

  /** Two lists without a common edge in either orientation. */
  lemma FreshJoin(n: nat, xs: seq<Arc>, ys: seq<Arc>)
    requires FreshEdges(n, xs) && FreshEdges(n, ys)
    requires forall x, y | x in xs && y in ys :: x != y && x != (y.1, y.0)
    ensures FreshEdges(n, xs + ys)
  {
    var edges := xs + ys;
    forall i, j | 0 <= i < j < |edges|
      ensures edges[i] != edges[j] && edges[i] != (edges[j].1, edges[j].0)
    {
      if i < |xs| <= j {
        assert edges[i] in xs && edges[j] in ys;
      }
    }
  }


  function CompleteBatch(n: nat): seq<Arc>
  {
    if n == 0 then [] else CompleteBatch(n - 1) + seq(n - 1, i requires 0 <= i < n - 1 => (i, n - 1))
  }

  lemma {:induction false} CompleteMembers(n: nat, u: nat, v: nat)
    ensures (u, v) in CompleteBatch(n) <==> u < v < n
  {
    if n > 0 {
      CompleteMembers(n - 1, u, v);
      var row := seq(n - 1, i requires 0 <= i < n - 1 => (i, n - 1));
      assert u < v == n - 1 ==> row[u] == (u, v);
    }
  }

  lemma {:induction false} CompleteIsFresh(n: nat)
    ensures FreshEdges(n, CompleteBatch(n)) && 2 * |CompleteBatch(n)| == n * (n - 1)
  {
    if n > 0 {
      CompleteIsFresh(n - 1);
      var before, row := CompleteBatch(n - 1), seq(n - 1, i requires 0 <= i < n - 1 => (i, n - 1));
      forall e | e in before
        ensures e.0 < e.1 < n - 1
      {
        assert e == (e.0, e.1);
        CompleteMembers(n - 1, e.0, e.1);
      }
      FreshJoin(n, before, row);
      assert n * (n - 1) == (n - 1) * (n - 2) + 2 * (n - 1);
    }
  }

  /** Any two vertices of a complete graph share all the others. */
  lemma CompleteShares(n: nat, d: set<Arc>, e: Arc)
    requires forall u: nat, v: nat :: (u, v) in d <==> u < n && v < n && u != v
    requires e.0 < n && e.1 < n && e.0 != e.1
    ensures Each(n, d, d, e, n - 2)
  {
    var others := Numbers(0, n) - {e.0, e.1};
    assert Numbers(0, n) == others + {e.0, e.1};
    CommonIs(n, d, d, e.0, e.1, others);
    CommonIs(n, d, d, e.1, e.0, others);
  }

  lemma Regrouped(x: int, y: int)
    ensures x * (2 * y) == 2 * x * y
  {
  }

  /** The third sum over a complete graph counts its ordered triples. */
  lemma CompleteSum(n: nat, pairs: int, triples: int) returns (edges: seq<Arc>)
    requires pairs == n * (n - 1) && triples == pairs * (n - 2)
    ensures FreshEdges(n, edges) && BatchSum(n, edges, Both(edges), Both(edges)) == triples
  {
    edges := CompleteBatch(n);
    var d := Both(edges);
    CompleteIsFresh(n);
    forall u: nat, v: nat
      ensures (u, v) in d <==> u < n && v < n && u != v
    {
      BothMembers(edges, u, v);
      CompleteMembers(n, u, v);
      CompleteMembers(n, v, u);
    }
    forall e | e in edges
      ensures Each(n, d, d, e, n - 2)
    {
      CompleteShares(n, d, e);
    }
    SumOfEqual(n, edges, d, d, n - 2);
    Regrouped(|edges|, n - 2);
  }

  /** The ordered triples of a complete graph. */
  function Triples(n: nat): int
  {
    n * (n - 1) * (n - 2)
  }

  /** Vertices without an edge, all of them joined in one batch: unless the third accumulator wraps around in threes,
      the check refuses the insertions although there is nothing wrong with them. */
  lemma SoundInsertionsRefused(n: nat) returns (edges: seq<Arc>)
    requires High(Triples(n)) % 3 != 0
    ensures FreshEdges(n, edges) && Wraps3(n, edges) == High(Triples(n))
    ensures forall r :: Accounted(n, {}, edges, r) ==> r == Failure(ACCOUNTING_FAILED)
  {
    edges := CompleteSum(n, n * (n - 1), Triples(n));
  }

  /** Three million vertices are enough. */
  lemma ThreeMillion()
    ensures High(Triples(3_000_000)) == 1
  {
    assert Triples(3_000_000) == 26_999_973_000_006_000_000;
  }

  // ---------- A complete bipartite graph inserted between two cliques ----------

  function BipartiteBatch(k: nat, m: nat): seq<Arc>
  {
    if k == 0 then [] else BipartiteBatch(k - 1, m) + seq(m, j requires 0 <= j < m => (k - 1, m + j))
  }

  lemma {:induction false} BipartiteMembers(k: nat, m: nat, u: nat, v: nat)
    ensures (u, v) in BipartiteBatch(k, m) <==> u < k && m <= v < 2 * m
  {
    if k > 0 {
      BipartiteMembers(k - 1, m, u, v);
      var row := seq(m, j requires 0 <= j < m => (k - 1, m + j));
      assert u == k - 1 && m <= v < 2 * m ==> row[v - m] == (u, v);
    }
  }

  lemma {:induction false} BipartiteIsFresh(k: nat, m: nat)
    requires k <= m
    ensures FreshEdges(2 * m, BipartiteBatch(k, m)) && |BipartiteBatch(k, m)| == k * m
  {
    if k > 0 {
      BipartiteIsFresh(k - 1, m);
      var before, row := BipartiteBatch(k - 1, m), seq(m, j requires 0 <= j < m => (k - 1, m + j));
      forall e | e in before
        ensures e.0 < k - 1 && m <= e.1
      {
        assert e == (e.0, e.1);
        BipartiteMembers(k - 1, m, e.0, e.1);
      }
      FreshJoin(2 * m, before, row);
      assert k * m == (k - 1) * m + m;
    }
  }

  /** Two cliques of m vertices each. */
  ghost function Cliques(m: nat): (arcs: set<Arc>)
    ensures forall u: nat, v: nat :: (u, v) in arcs <==> u < 2 * m && v < 2 * m && u != v && (u < m <==> v < m)
    ensures Undirected(arcs)
  {
    set u: nat, v: nat | u < 2 * m && v < 2 * m && u != v && (u < m <==> v < m) :: (u, v)
  }

  ghost predicate Between(m: nat, d: set<Arc>)
  {
    forall u: nat, v: nat :: (u, v) in d <==> u < 2 * m && v < 2 * m && (u < m <==> v >= m)
  }

  lemma AllJoined(m: nat, d: set<Arc>)
    requires Between(m, d)
    ensures Cliques(m) !! d
    ensures forall u: nat, v: nat :: (u, v) in Cliques(m) + d <==> u < 2 * m && v < 2 * m && u != v
  {
    var b := Cliques(m);
    forall u: nat, v: nat
      ensures (u, v) in b + d <==> u < 2 * m && v < 2 * m && u != v
    {
      assert (u, v) in b <==> u < 2 * m && v < 2 * m && u != v && (u < m <==> v < m);
    }
  }

  /** Over any edge of u and a new edge of v they share the m - 1 others on the side of u. */
  lemma SharedOverNew(m: nat, e: set<Arc>, d: set<Arc>, u: nat, v: nat)
    requires Between(m, d) && u < 2 * m && v < 2 * m && (u < m <==> v >= m)
    requires forall x: nat, y: nat :: (x, y) in e <==> x < 2 * m && y < 2 * m && x != y
    ensures Common(2 * m, e, d, u, v) == m - 1
  {
    var side := if u < m then Numbers(0, m) else Numbers(m, 2 * m);
    var shared := side - {u};
    assert side == shared + {u};
    forall w: nat
      ensures w in shared <==> w < 2 * m && (u, w) in e && (v, w) in d
    {
      assert (u, w) in e <==> w < 2 * m && u != w;
      assert (v, w) in d <==> w < 2 * m && (v < m <==> w >= m);
    }
    CommonIs(2 * m, e, d, u, v, shared);
  }

  /** Over two new ones they share none. */
  lemma NoneShared(m: nat, d: set<Arc>, u: nat, v: nat)
    requires Between(m, d) && u < m <= v < 2 * m
    ensures Each(2 * m, d, d, (u, v), 0)
  {
    CommonIs(2 * m, d, d, u, v, {});
    CommonIs(2 * m, d, d, v, u, {});
  }

  lemma BipartiteEdges(m: nat) returns (edges: seq<Arc>)
    ensures FreshEdges(2 * m, edges) && |edges| == m * m && Between(m, Both(edges))
    ensures forall e | e in edges :: e.0 < m <= e.1 < 2 * m
  {
    edges := BipartiteBatch(m, m);
    BipartiteIsFresh(m, m);
    var d := Both(edges);
    forall u: nat, v: nat
      ensures (u, v) in d <==> u < 2 * m && v < 2 * m && (u < m <==> v >= m)
    {
      BothMembers(edges, u, v);
      BipartiteMembers(m, m, u, v);
      BipartiteMembers(m, m, v, u);
    }
    forall e | e in edges
      ensures e.0 < m <= e.1 < 2 * m
    {
      assert e == (e.0, e.1);
      BipartiteMembers(m, m, e.0, e.1);
    }
  }

  lemma BipartiteShares(m: nat, d: set<Arc>, e: Arc)
    requires Between(m, d) && e.0 < m <= e.1 < 2 * m
    ensures var both := Cliques(m) + d;
      && Each(2 * m, both, both, e, 2 * (m - 1)) && Each(2 * m, both, d, e, m - 1) && Each(2 * m, d, d, e, 0)
  {
    AllJoined(m, d);
    CompleteShares(2 * m, Cliques(m) + d, e);
    SharedOverNew(m, Cliques(m) + d, d, e.0, e.1);
    SharedOverNew(m, Cliques(m) + d, d, e.1, e.0);
    NoneShared(m, d, e.0, e.1);
  }

  lemma BipartiteSums(m: nat, edges: seq<Arc>, created: int)
    requires Between(m, Both(edges)) && created == |edges| * (m - 1) && forall e | e in edges :: e.0 < m <= e.1 < 2 * m
    ensures var n, d := 2 * m, Both(edges); var e := Cliques(m) + d;
      && BatchSum(n, edges, e, e) == 4 * created && BatchSum(n, edges, e, d) == 2 * created
      && BatchSum(n, edges, d, d) == 0
  {
    var n, both, d := 2 * m, Cliques(m) + Both(edges), Both(edges);
    forall e | e in edges
      ensures Each(n, both, both, e, 2 * (m - 1)) && Each(n, both, d, e, m - 1) && Each(n, d, d, e, 0)
    {
      BipartiteShares(m, d, e);
    }
    SumOfEqual(n, edges, both, both, 2 * (m - 1));
    SumOfEqual(n, edges, both, d, m - 1);
    SumOfEqual(n, edges, d, d, 0);
    Multiples(|edges|, m - 1);
  }

  lemma Multiples(x: int, y: int)
    ensures x * (2 * (2 * y)) == 4 * (x * y) && x * (2 * y) == 2 * (x * y)
  {
  }

  /** Two cliques of m vertices each, joined in one batch: no check fires, and when the second accumulator wraps around
      an odd number of times the report is wrong. */
  lemma WrongReport(m: nat, created: nat) returns (base: set<Arc>, edges: seq<Arc>)
    requires m > 0 && created == m * m * (m - 1) < WORD64 && High(2 * created) % 2 != 0
    ensures Undirected(base) && FreshEdges(2 * m, edges) && base !! Both(edges)
    ensures Created(2 * m, base, edges) == created
    ensures forall r :: Accounted(2 * m, base, edges, r) ==> r.Success? && r.value != created
  {
    base := Cliques(m);
    edges := BipartiteEdges(m);
    AllJoined(m, Both(edges));
    SameProduct(|edges|, m * m, m - 1);
    BipartiteSums(m, edges, created);
    HalfWordOff(2 * m, base, edges, created);
  }

  lemma SameProduct(x: int, y: int, z: int)
    requires x == y
    ensures x * z == y * z
  {
  }

  lemma HalfWordOff(n: nat, base: set<Arc>, edges: seq<Arc>, created: nat)
    requires Undirected(base) && FreshEdges(n, edges) && base !! Both(edges)
    requires BatchSum(n, edges, base + Both(edges), base + Both(edges)) == 4 * created
    requires BatchSum(n, edges, base + Both(edges), Both(edges)) == 2 * created
    requires BatchSum(n, edges, Both(edges), Both(edges)) == 0
    requires created < WORD64 && High(2 * created) % 2 != 0
    ensures Created(n, base, edges) == created
    ensures forall r :: Accounted(n, base, edges, r) ==> r.Success? && r.value != created
  {
    InclusionExclusion(n, base, edges, 2 * created);
    assert Wraps2(n, base, edges) == High(2 * created) && Wraps3(n, edges) == 0;
    assert Low(created + HALF64) != created;
  }

  /** A little over two million vertices in each are enough. */
  lemma TwoMillion() returns (m: nat, created: nat)
    ensures m == 2_200_000 && created == m * m * (m - 1) < WORD64 && High(2 * created) == 1
  {
    m, created := 2_200_000, 10_647_995_160_000_000_000;
  }
}
