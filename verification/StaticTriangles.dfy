/** Triangle counting and neighbourhood similarity on the packed graph. */
module StaticTriangles {
  import opened Collections
  import opened Distances
  import opened BreadthFirst
  import opened Csr
  import opened SortedRows
  import opened Triangles

  /** The shared entries of two rows that lie above a vertex. */
  ghost function SharedAbove(a: seq<nat>, b: seq<nat>, v: nat): set<nat>
  {
    set x | x in a && x in b && x > v
  }

  /** The merge that skips everything up to v before it compares. */
  method SkippingMerge(a: seq<nat>, b: seq<nat>, v: nat) returns (count: nat)
    requires Ascending(a) && Ascending(b)
    ensures count == |SharedAbove(a, b, v)|
  {
    var i, j := 0, 0;
    count := 0;
    ghost var shared: set<nat> := {};
    while i < |a| && j < |b|
      invariant 0 <= i <= |a| && 0 <= j <= |b| && count == |shared|
      invariant forall x :: x in shared ==> x in SharedAbove(a, b, v)
      invariant forall k, l | 0 <= k < |a| && 0 <= l < |b| && a[k] == b[l] && a[k] > v :: a[k] in shared <==> k < i
      invariant forall k, l | 0 <= k < |a| && 0 <= l < |b| && a[k] == b[l] && a[k] > v :: k < i <==> l < j
      decreases |a| - i + |b| - j
    {
      if a[i] <= v {
        i := i + 1;
      } else if b[j] <= v {
        j := j + 1;
      } else if a[i] == b[j] {
        assert a[i] !in shared;
        shared := shared + {a[i]};
        count := count + 1;
        i, j := i + 1, j + 1;
      } else if a[i] < b[j] {
        i := i + 1;
      } else {
        j := j + 1;
      }
    }
    assert shared == SharedAbove(a, b, v);
  }

  /** The plain merge of the reference counter, which tests each shared entry against v. */
  method PlainMerge(a: seq<nat>, b: seq<nat>, v: nat) returns (count: nat)
    requires Ascending(a) && Ascending(b)
    ensures count == |SharedAbove(a, b, v)|
  {
    var i, j := 0, 0;
    count := 0;
    ghost var shared: set<nat> := {};
    while i < |a| && j < |b|
      invariant 0 <= i <= |a| && 0 <= j <= |b| && count == |shared|
      invariant forall x :: x in shared ==> x in SharedAbove(a, b, v)
      invariant forall k, l | 0 <= k < |a| && 0 <= l < |b| && a[k] == b[l] && a[k] > v :: a[k] in shared <==> k < i
      invariant forall k, l | 0 <= k < |a| && 0 <= l < |b| && a[k] == b[l] :: k < i <==> l < j
    {
      if a[i] == b[j] {
        if b[j] > v {
          assert a[i] !in shared;
          shared := shared + {a[i]};
          count := count + 1;
        }
        i, j := i + 1, j + 1;
      } else if a[i] < b[j] {
        i := i + 1;
      } else {
        j := j + 1;
      }
    }
    assert shared == SharedAbove(a, b, v);
  }

  // ---------- The counting loops ----------

  ghost function WithCorner(u: nat, v: nat, tips: set<nat>): set<(nat, nat, nat)>
  {
    set w | w in tips :: (u, v, w)
  }

  lemma {:induction false} WithCornerSize(u: nat, v: nat, tips: set<nat>)
    ensures |WithCorner(u, v, tips)| == |tips|
    decreases tips
  {
    if tips != {} {
      var w :| w in tips;
      WithCornerSize(u, v, tips - {w});
      assert WithCorner(u, v, tips) == WithCorner(u, v, tips - {w}) + {(u, v, w)};
    }
  }

  /** The triangles whose least vertex is below u, or is u with its middle vertex among the first j neighbours. */
  ghost predicate FoundUpTo(g: CsrGraph, u: nat, j: nat, found: set<(nat, nat, nat)>)
    requires g.Valid() && u <= g.vertexCount && (u < g.vertexCount ==> j <= |g.Neighbors(u)|)
  {
    forall t :: t in found <==>
      (t in TriangleSet(g.vertexCount, g.Arcs())
        && (t.0 < u || (t.0 == u && u < g.vertexCount && t.1 in g.Neighbors(u)[..j])))
  }

  lemma FoundStep(g: CsrGraph, u: nat, j: nat, found: set<(nat, nat, nat)>)
    requires g.Valid() && u < g.vertexCount && j < |g.Neighbors(u)| && g.Neighbors(u)[j] < g.vertexCount
    requires FoundUpTo(g, u, j, found)
    ensures var v := g.Neighbors(u)[j];
            var more := WithCorner(u, v, SharedAbove(g.Neighbors(u), g.Neighbors(v), v));
            && (v <= u ==> FoundUpTo(g, u, j + 1, found))
            && (v > u ==> found !! more && FoundUpTo(g, u, j + 1, found + more))
  {
    var row := g.Neighbors(u);
    var v := row[j];
    var tips := SharedAbove(row, g.Neighbors(v), v);
    assert row[..j + 1] == row[..j] + [v];
    assert v !in row[..j];
    forall t | t in TriangleSet(g.vertexCount, g.Arcs()) && t.0 == u && t.1 == v
      ensures v > u && t in WithCorner(u, v, tips)
    {
      assert t == (u, v, t.2);
    }
    forall t | v > u && t in WithCorner(u, v, tips)
      ensures t in TriangleSet(g.vertexCount, g.Arcs()) && t !in found
    {
      assert v in row;
      assert Corner(g.Arcs(), g.Arcs(), g.Arcs(), u, v, t.2);
    }
  }

  /** Count the triangles of one least vertex with either merge. */
  method CountFrom(g: CsrGraph, u: nat, skipping: bool, ghost found0: set<(nat, nat, nat)>)
    returns (count: nat, ghost found: set<(nat, nat, nat)>)
    requires g.Valid() && u < g.vertexCount && FoundUpTo(g, u, 0, found0)
    ensures FoundUpTo(g, u + 1, 0, found) && |found| == |found0| + count
  {
    count, found := 0, found0;
    var row := g.Neighbors(u);
    var j := 0;
    while j < |row|
      invariant 0 <= j <= |row| && |found| == |found0| + count
      invariant FoundUpTo(g, u, j, found)
    {
      var v := row[j];
      assert v in row && v < g.vertexCount;
      FoundStep(g, u, j, found);
      if v > u {
        var above;
        if skipping {
          above := SkippingMerge(row, g.Neighbors(v), v);
        } else {
          above := PlainMerge(row, g.Neighbors(v), v);
        }
        WithCornerSize(u, v, SharedAbove(row, g.Neighbors(v), v));
        count := count + above;
        found := found + WithCorner(u, v, SharedAbove(row, g.Neighbors(v), v));
      }
      j := j + 1;
    }
    RowDone(g, u, found);
  }

  lemma RowDone(g: CsrGraph, u: nat, found: set<(nat, nat, nat)>)
    requires g.Valid() && u < g.vertexCount && FoundUpTo(g, u, |g.Neighbors(u)|, found)
    ensures FoundUpTo(g, u + 1, 0, found)
  {
    var row := g.Neighbors(u);
    assert row[..|row|] == row;
    forall t | t in TriangleSet(g.vertexCount, g.Arcs()) && t.0 == u
      ensures t.1 in row
    {
      assert Corner(g.Arcs(), g.Arcs(), g.Arcs(), t.0, t.1, t.2);
    }
  }

  method CountAll(g: CsrGraph, skipping: bool) returns (count: nat)
    requires g.Valid() && g.vertexCount <= UNREACHABLE
    ensures count == TriangleCount(g.vertexCount, g.Arcs())
  {
    count := 0;
    ghost var found: set<(nat, nat, nat)> := {};
    var u := 0;
    while u < g.vertexCount
      invariant 0 <= u <= g.vertexCount && count == |found|
      invariant FoundUpTo(g, u, 0, found)
    {
      var more;
      more, found := CountFrom(g, u, skipping, found);
      count := count + more;
      u := u + 1;
    }
    assert found == TriangleSet(g.vertexCount, g.Arcs());
  }

  /** The number of unordered triangles, each counted once; directed graphs are refused. */
  method CountTriangles(g: CsrGraph) returns (r: Result<nat, string>)
    requires g.Valid() && g.vertexCount <= UNREACHABLE
    ensures r.Failure? <==> g.directed
    ensures r.Success? ==> r.value == TriangleCount(g.vertexCount, g.Arcs())
  {
    if g.directed {
      return Failure("triangle counting needs an undirected graph");
    }
    var count := CountAll(g, true);
    r := Success(count);
  }

  /** The unskipped counter agrees with the skipping one on every graph with sorted rows. */
  method ReferenceTriangles(g: CsrGraph) returns (count: nat)
    requires g.Valid() && g.vertexCount <= UNREACHABLE
    ensures count == TriangleCount(g.vertexCount, g.Arcs())
  {
    count := CountAll(g, false);
  }

  // ---------- Similarity ----------

  ghost function RowSet(g: CsrGraph, v: nat): set<nat>
    requires g.Valid() && v < g.vertexCount
  {
    Elements(g.Neighbors(v))
  }

  /** The shared neighbours of two vertices; a vertex outside the graph is an error. */
  method CommonNeighborCount(g: CsrGraph, u: nat, v: nat) returns (r: Result<nat, string>)
    requires g.Valid()
    ensures r.Success? <==> u < g.vertexCount && v < g.vertexCount
    ensures r.Success? ==> r.value == |RowSet(g, u) * RowSet(g, v)|
  {
    if u >= g.vertexCount || v >= g.vertexCount {
      return Failure("vertex out of range");
    }
    var count := IntersectionCount(g.Neighbors(u), g.Neighbors(v));
    assert RowSet(g, u) * RowSet(g, v) == set x | x in g.Neighbors(u) && x in g.Neighbors(v);
    r := Success(count);
  }

  lemma UnionSize(a: set<nat>, b: set<nat>)
    ensures |a + b| == |a| + |b| - |a * b|
  {
    assert a + b == a + (b - a) && b == (b - a) + a * b;
  }

  function Ratio(part: nat, whole: nat): (r: real)
    requires whole > 0
    ensures IsRatio(r, part, whole)
  {
    part as real / whole as real
  }

  ghost predicate IsRatio(r: real, part: nat, whole: nat)
  {
    r * whole as real == part as real
  }

  /** The shared neighbours as a share of all neighbours of the two vertices; the union never counts below zero. */
  method JaccardSimilarity(g: CsrGraph, u: nat, v: nat) returns (r: Result<real, string>)
    requires g.Valid()
    ensures r.Success? <==> u < g.vertexCount && v < g.vertexCount
    ensures r.Success? ==>
      var all := RowSet(g, u) + RowSet(g, v);
      if all == {} then r.value == 0.0 else IsRatio(r.value, |RowSet(g, u) * RowSet(g, v)|, |all|)
  {
    var common := CommonNeighborCount(g, u, v);
    if common.Failure? {
      return Failure(common.error);
    }
    var intersection := common.value;
    DistinctCardinality(g.Neighbors(u));
    DistinctCardinality(g.Neighbors(v));
    UnionSize(RowSet(g, u), RowSet(g, v));
    var unionSize: nat := |g.Neighbors(u)| + |g.Neighbors(v)| - intersection;
    r := Success(if unionSize == 0 then 0.0 else Ratio(intersection, unionSize));
  }
}
