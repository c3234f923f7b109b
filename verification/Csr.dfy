/** The static graph: edges are sorted, deduplicated and packed into rows, forwards and transposed. */
module Csr {
  import opened Distances
  import opened DynamicGraphs
  import opened Collections
  import opened SortedRows

  /** Offsets start at 0, never decrease, and end at the number of packed entries. */
  predicate Packed(offsets: seq<nat>, entries: nat, n: nat)
  {
    && |offsets| == n + 1 && offsets[0] == 0 && offsets[n] == entries
    && forall i, j | 0 <= i <= j <= n :: offsets[i] <= offsets[j]
  }

  function Slice(offsets: seq<nat>, entries: seq<nat>, n: nat, v: nat): seq<nat>
    requires Packed(offsets, |entries|, n) && v < n
  {
    entries[offsets[v]..offsets[v + 1]]
  }

  datatype CsrGraph = CsrGraph(directed: bool, vertexCount: nat, offsets: seq<nat>, targets: seq<nat>,
                               inOffsets: seq<nat>, sources: seq<nat>)
  {
    predicate WellPacked()
    {
      Packed(offsets, |targets|, vertexCount) && Packed(inOffsets, |sources|, vertexCount)
    }

    function Neighbors(v: nat): seq<nat>
      requires WellPacked() && v < vertexCount
    {
      Slice(offsets, targets, vertexCount, v)
    }

    function InNeighbors(v: nat): seq<nat>
      requires WellPacked() && v < vertexCount
    {
      Slice(inOffsets, sources, vertexCount, v)
    }

    /** Rows strictly increase and stay in range, and the incoming rows are the exact transpose. */
    ghost predicate Valid()
    {
      && WellPacked()
      && (forall v | 0 <= v < vertexCount :: Ascending(Neighbors(v)) && Ascending(InNeighbors(v)))
      && (forall u: nat, v: nat | u < vertexCount && v in Neighbors(u) :: v < vertexCount && v != u)
      && (forall u: nat, v: nat | u < vertexCount && v < vertexCount :: v in Neighbors(u) <==> u in InNeighbors(v))
      && (forall u: nat, v: nat | v < vertexCount && u in InNeighbors(v) :: u < vertexCount)
      && (!directed ==> forall u: nat, v: nat | u < vertexCount && v in Neighbors(u) :: u in Neighbors(v))
    }

    ghost function Arcs(): (arcs: set<Arc>)
      requires Valid()
      ensures forall u: nat, v: nat :: (u, v) in arcs <==> u < vertexCount && v in Neighbors(u)
      ensures Within(arcs, vertexCount)
    {
      set u: nat, v: nat | u < vertexCount && v < vertexCount && v in Neighbors(u) :: (u, v)
    }
  }

  // ---------- Grouping pairs by key ----------

  /** The values paired with a key, in order. */
  function Group(pairs: seq<Arc>, key: nat): seq<nat>
  {
    if pairs == [] then []
    else
      var last := pairs[|pairs| - 1];
      Group(pairs[..|pairs| - 1], key) + if last.0 == key then [last.1] else []
  }

  lemma GroupStep(pairs: seq<Arc>, i: nat, key: nat)
    requires i < |pairs|
    ensures Group(pairs[..i + 1], key) == Group(pairs[..i], key) + if pairs[i].0 == key then [pairs[i].1] else []
  {
    assert pairs[..i + 1][..i] == pairs[..i];
  }

  lemma {:induction false} GroupPrefix(pairs: seq<Arc>, i: nat, key: nat)
    requires i <= |pairs|
    ensures Group(pairs[..i], key) <= Group(pairs, key)
    decreases |pairs| - i
  {
    if i < |pairs| {
      GroupStep(pairs, i, key);
      GroupPrefix(pairs, i + 1, key);
    } else {
      assert pairs[..i] == pairs;
    }
  }

  lemma {:induction false} GroupMembers(pairs: seq<Arc>, key: nat, value: nat)
    ensures value in Group(pairs, key) <==> (key, value) in pairs
  {
    if pairs != [] {
      var last := |pairs| - 1;
      GroupMembers(pairs[..last], key, value);
      assert pairs == pairs[..last] + [pairs[last]];
    }
  }

  /** Pairs with equal keys come with increasing values. */
  ghost predicate Grouped(pairs: seq<Arc>)
  {
    forall i, j | 0 <= i < j < |pairs| && pairs[i].0 == pairs[j].0 :: pairs[i].1 < pairs[j].1
  }

  lemma {:induction false} GroupAscends(pairs: seq<Arc>, key: nat)
    requires Grouped(pairs)
    ensures Ascending(Group(pairs, key))
  {
    if pairs != [] {
      var last := |pairs| - 1;
      GroupAscends(pairs[..last], key);
      var row := Group(pairs[..last], key);
      forall j | 0 <= j < |row| && pairs[last].0 == key
        ensures row[j] < pairs[last].1
      {
        assert row[j] in row;
        GroupMembers(pairs[..last], key, row[j]);
        var i :| 0 <= i < last && pairs[i] == (key, row[j]);
      }
    }
  }

  // ---------- Packing the groups ----------

  /** Offsets are the running totals of the group sizes. */
  ghost predicate Offsets(pairs: seq<Arc>, n: nat, offsets: seq<nat>)
  {
    && |offsets| == n + 1 && offsets[0] == 0
    && forall k: nat {:trigger Group(pairs, k)} | k < n :: offsets[k + 1] == offsets[k] + |Group(pairs, k)|
  }

  /** The size of every group, one place to the right. */
  ghost predicate Counts(pairs: seq<Arc>, n: nat, counts: seq<nat>)
  {
    && |counts| == n + 1 && counts[0] == 0
    && forall k: nat {:trigger Group(pairs, k)} | k < n :: counts[k + 1] == |Group(pairs, k)|
  }

  lemma CountOne(pairs: seq<Arc>, i: nat, n: nat, counts: seq<nat>)
    requires i < |pairs| && pairs[i].0 < n && Counts(pairs[..i], n, counts)
    ensures var at := pairs[i].0 + 1;
            && Counts(pairs[..i + 1], n, counts[at := counts[at] + 1])
            && Sum(counts[at := counts[at] + 1]) == Sum(counts) + 1
  {
    var at := pairs[i].0 + 1;
    SumUpdate(counts, at, counts[at] + 1);
    forall k: nat {:trigger Group(pairs[..i + 1], k)} | k < n
      ensures counts[at := counts[at] + 1][k + 1] == |Group(pairs[..i + 1], k)|
    {
      GroupStep(pairs, i, k);
    }
  }

  lemma {:induction false} AllZero(xs: seq<nat>)
    requires forall i | 0 <= i < |xs| :: xs[i] == 0
    ensures Sum(xs) == 0
  {
    if xs != [] {
      AllZero(xs[..|xs| - 1]);
    }
  }

  /** Count the pairs of every key, then sum the counts. */
  method CountOffsets(pairs: seq<Arc>, n: nat) returns (offsets: seq<nat>)
    requires forall i | 0 <= i < |pairs| :: pairs[i].0 < n
    ensures Offsets(pairs, n, offsets) && Packed(offsets, |pairs|, n)
  {
    var counts: seq<nat> := seq(n + 1, _ => 0);
    AllZero(counts);
    var i := 0;
    while i < |pairs|
      invariant 0 <= i <= |pairs|
      invariant Counts(pairs[..i], n, counts) && Sum(counts) == i
    {
      CountOne(pairs, i, n, counts);
      counts := counts[pairs[i].0 + 1 := counts[pairs[i].0 + 1] + 1];
      i := i + 1;
    }
    assert pairs[..i] == pairs;
    offsets := PrefixSums(counts);
    assert counts[..n + 1] == counts;
    forall k: nat {:trigger Group(pairs, k)} | k < n
      ensures offsets[k + 1] == offsets[k] + |Group(pairs, k)|
    {
      assert counts[k + 1] == |Group(pairs, k)|;
    }
  }

  method PrefixSums(counts: seq<nat>) returns (sums: seq<nat>)
    requires |counts| > 0 && counts[0] == 0
    ensures |sums| == |counts| && sums[0] == 0 && sums[|sums| - 1] == Sum(counts)
    ensures forall k | 0 <= k < |sums| - 1 :: sums[k + 1] == sums[k] + counts[k + 1]
    ensures forall j, k | 0 <= j <= k < |sums| :: sums[j] <= sums[k]
  {
    sums := counts;
    var i := 1;
    assert counts[..1] == [0] && counts[..1][..0] == [];
    while i < |sums|
      invariant 1 <= i <= |sums| == |counts|
      invariant sums[0] == 0 && sums[i - 1] == Sum(counts[..i])
      invariant forall k | i <= k < |sums| :: sums[k] == counts[k]
      invariant forall k | 0 <= k < i - 1 :: sums[k + 1] == sums[k] + counts[k + 1]
      invariant forall j, k | 0 <= j <= k < i :: sums[j] <= sums[k]
    {
      assert counts[..i + 1][..i] == counts[..i];
      sums := sums[i := sums[i] + sums[i - 1]];
      i := i + 1;
    }
    assert counts[..i] == counts;
  }

  /** The cursor of key k stands after the part of its row already written. */
  ghost predicate RowPlaced(pairs: seq<Arc>, offsets: seq<nat>, cursor: seq<nat>, entries: seq<nat>, k: nat)
  {
    && k < |cursor| && k + 1 < |offsets|
    && cursor[k] == offsets[k] + |Group(pairs, k)| && cursor[k] <= offsets[k + 1] && offsets[k + 1] <= |entries|
    && entries[offsets[k]..cursor[k]] == Group(pairs, k)
  }

  /** All the given pairs have been placed. */
  ghost predicate Placed(pairs: seq<Arc>, n: nat, offsets: seq<nat>, cursor: seq<nat>, entries: seq<nat>)
  {
    |cursor| == n + 1 && forall k: nat {:trigger RowPlaced(pairs, offsets, cursor, entries, k)} | k < n ::
      RowPlaced(pairs, offsets, cursor, entries, k)
  }

  /** Writing one pair at its cursor extends its own row and disturbs no other. */
  lemma PlaceAt(pairs: seq<Arc>, i: nat, n: nat, offsets: seq<nat>, cursor: seq<nat>, entries: seq<nat>, k: nat)
    requires i < |pairs| && pairs[i].0 < n && k < n && |cursor| == n + 1
    requires Offsets(pairs, n, offsets) && Packed(offsets, |entries|, n)
    requires RowPlaced(pairs[..i], offsets, cursor, entries, pairs[i].0)
    requires RowPlaced(pairs[..i], offsets, cursor, entries, k)
    ensures cursor[pairs[i].0] < |entries|
    ensures var (u, v) := pairs[i];
            RowPlaced(pairs[..i + 1], offsets, cursor[u := cursor[u] + 1], entries[cursor[u] := v], k)
  {
    var (u, v) := pairs[i];
    GroupStep(pairs, i, u);
    GroupPrefix(pairs, i + 1, u);
    assert |Group(pairs[..i + 1], u)| <= |Group(pairs, u)|;
    assert cursor[u] < offsets[u + 1] <= offsets[n];
    var cursor', entries' := cursor[u := cursor[u] + 1], entries[cursor[u] := v];
    GroupStep(pairs, i, k);
    if k == u {
      assert entries'[offsets[k]..cursor'[k]] == entries[offsets[k]..cursor[k]] + [v];
    } else {
      assert k < u ==> cursor[k] <= offsets[k + 1] <= offsets[u];
      assert k > u ==> cursor[u] < offsets[u + 1] <= offsets[k];
      assert entries'[offsets[k]..cursor'[k]] == entries[offsets[k]..cursor[k]];
    }
  }

  lemma PlaceOne(pairs: seq<Arc>, i: nat, n: nat, offsets: seq<nat>, cursor: seq<nat>, entries: seq<nat>)
    requires i < |pairs| && Offsets(pairs, n, offsets) && Packed(offsets, |entries|, n)
    requires Placed(pairs[..i], n, offsets, cursor, entries) && pairs[i].0 < n
    ensures cursor[pairs[i].0] < |entries|
    ensures var (u, v) := pairs[i];
            Placed(pairs[..i + 1], n, offsets, cursor[u := cursor[u] + 1], entries[cursor[u] := v])
  {
    var (u, v) := pairs[i];
    assert RowPlaced(pairs[..i], offsets, cursor, entries, u);
    PlaceAt(pairs, i, n, offsets, cursor, entries, u);
    var cursor', entries' := cursor[u := cursor[u] + 1], entries[cursor[u] := v];
    forall k: nat {:trigger RowPlaced(pairs[..i + 1], offsets, cursor', entries', k)} | k < n
      ensures RowPlaced(pairs[..i + 1], offsets, cursor', entries', k)
    {
      assert RowPlaced(pairs[..i], offsets, cursor, entries, k);
      PlaceAt(pairs, i, n, offsets, cursor, entries, k);
    }
  }

  /** The slices are exactly the groups, in key order. */
  ghost predicate PacksGroups(pairs: seq<Arc>, n: nat, offsets: seq<nat>, entries: seq<nat>)
  {
    Packed(offsets, |entries|, n) && forall k: nat {:trigger Group(pairs, k)} | k < n ::
      Slice(offsets, entries, n, k) == Group(pairs, k)
  }

  /** Pack the groups into one sequence of rows with moving cursors. */
  method PackRows(pairs: seq<Arc>, n: nat) returns (offsets: seq<nat>, entries: seq<nat>)
    requires forall i | 0 <= i < |pairs| :: pairs[i].0 < n
    ensures PacksGroups(pairs, n, offsets, entries)
  {
    offsets := CountOffsets(pairs, n);
    entries := seq(|pairs|, _ => 0);
    var cursor := offsets;
    var i := 0;
    forall k: nat {:trigger RowPlaced(pairs[..0], offsets, cursor, entries, k)} | k < n
      ensures RowPlaced(pairs[..0], offsets, cursor, entries, k)
    {
    }
    while i < |pairs|
      invariant 0 <= i <= |pairs| && |entries| == |pairs|
      invariant Placed(pairs[..i], n, offsets, cursor, entries)
    {
      var (u, v) := pairs[i];
      PlaceOne(pairs, i, n, offsets, cursor, entries);
      entries := entries[cursor[u] := v];
      cursor := cursor[u := cursor[u] + 1];
      i := i + 1;
    }
    assert pairs[..i] == pairs;
    forall k: nat | k < n
      ensures Slice(offsets, entries, n, k) == Group(pairs, k)
    {
      assert RowPlaced(pairs, offsets, cursor, entries, k);
      assert cursor[k] == offsets[k + 1];
    }
  }

  // ---------- Sorting and building ----------

  predicate Less(a: Arc, b: Arc)
  {
    a.0 < b.0 || (a.0 == b.0 && a.1 < b.1)
  }

  ghost predicate Sorted(es: seq<Arc>)
  {
    forall i, j | 0 <= i < j < |es| :: Less(es[i], es[j])
  }

  /** The edges in increasing order, each once: the effect of sorting and then dropping equal neighbours. */
  method SortUnique(edges: seq<Arc>) returns (es: seq<Arc>)
    ensures Sorted(es)
    ensures forall e :: e in es <==> e in edges
  {
    es := [];
    var i := 0;
    while i < |edges|
      invariant 0 <= i <= |edges|
      invariant Sorted(es)
      invariant forall e :: e in es <==> e in edges[..i]
    {
      var e := edges[i];
      assert edges[..i + 1] == edges[..i] + [e];
      es := Insert(es, e);
      i := i + 1;
    }
    assert edges[..i] == edges;
  }

  method Insert(es: seq<Arc>, e: Arc) returns (r: seq<Arc>)
    requires Sorted(es)
    ensures Sorted(r) && forall x :: x in r <==> x in es || x == e
  {
    var i := 0;
    while i < |es| && Less(es[i], e)
      invariant 0 <= i <= |es|
      invariant forall j | 0 <= j < i :: Less(es[j], e)
    {
      i := i + 1;
    }
    if i < |es| && es[i] == e {
      return es;
    }
    assert es == es[..i] + es[i..];
    InsertedEdge(es[..i], e, es[i..]);
    r := es[..i] + [e] + es[i..];
  }

  lemma InsertedEdge(left: seq<Arc>, e: Arc, right: seq<Arc>)
    requires Sorted(left + right)
    requires forall x | x in left :: Less(x, e)
    requires forall x | x in right :: Less(e, x)
    ensures Sorted(left + [e] + right)
    ensures forall x :: x in left + [e] + right <==> x in left + right || x == e
  {
    InsertedOrder(left, e, right, Less);
    forall x
      ensures x in left + [e] + right <==> x in left + right || x == e
    {
      InsertedMembers(left, e, right, x);
    }
  }

  function Transposed(es: seq<Arc>): (r: seq<Arc>)
    ensures |r| == |es| && forall i | 0 <= i < |es| :: r[i] == (es[i].1, es[i].0)
  {
    seq(|es|, i requires 0 <= i < |es| => (es[i].1, es[i].0))
  }

  lemma TransposedMembers(es: seq<Arc>, u: nat, v: nat)
    ensures (v, u) in Transposed(es) <==> (u, v) in es
  {
    if (u, v) in es {
      var i :| 0 <= i < |es| && es[i] == (u, v);
      assert Transposed(es)[i] == (v, u);
    }
  }

  lemma ArcsOfStep(edges: seq<Arc>, directed: bool, i: nat, x: nat, y: nat)
    requires i < |edges|
    ensures (x, y) in ArcsOf(edges[..i + 1], directed) <==>
              (x, y) in ArcsOf(edges[..i], directed)
                || (x != y && ((x, y) == edges[i] || (!directed && (y, x) == edges[i])))
  {
    assert edges[..i + 1] == edges[..i] + [edges[i]];
  }

  /** The arcs to store, without self-loops and in both directions when undirected, and the vertex count they need. */
  method ExpandEdges(edges: seq<Arc>, directed: bool) returns (expanded: seq<Arc>, n: nat, ghost top: Arc)
    ensures forall u: nat, v: nat :: (u, v) in expanded <==> (u, v) in ArcsOf(edges, directed)
    ensures forall e | e in expanded :: e.0 < n && e.1 < n
    ensures n > 0 ==> top in expanded && Max(top.0, top.1) == n - 1
  {
    expanded, top := [], (0, 0);
    var maxVertex: nat, hasVertex := 0, false;
    var i := 0;
    while i < |edges|
      invariant 0 <= i <= |edges|
      invariant forall u: nat, v: nat :: (u, v) in expanded <==> (u, v) in ArcsOf(edges[..i], directed)
      invariant forall e | e in expanded :: hasVertex && e.0 <= maxVertex && e.1 <= maxVertex
      invariant if hasVertex then top in expanded && Max(top.0, top.1) == maxVertex else maxVertex == 0
    {
      var (u, v) := edges[i];
      forall x: nat, y: nat
        ensures (x, y) in ArcsOf(edges[..i + 1], directed) <==>
                  (x, y) in ArcsOf(edges[..i], directed)
                    || (x != y && ((x, y) == (u, v) || (!directed && (y, x) == (u, v))))
      {
        ArcsOfStep(edges, directed, i, x, y);
      }
      i := i + 1;
      if u == v {
        continue;
      }
      expanded := expanded + [(u, v)];
      if !directed {
        expanded := expanded + [(v, u)];
      }
      if !hasVertex || Max(u, v) >= maxVertex {
        top := (u, v);
      }
      maxVertex := Max(maxVertex, Max(u, v));
      hasVertex := true;
    }
    assert edges[..i] == edges;
    n := if hasVertex then maxVertex + 1 else 0;
  }

  lemma OutRowsGrouped(es: seq<Arc>)
    requires Sorted(es)
    ensures Grouped(es) && Grouped(Transposed(es))
  {
    forall i, j | 0 <= i < j < |es|
      ensures es[i].0 == es[j].0 ==> es[i].1 < es[j].1
      ensures es[i].1 == es[j].1 ==> es[i].0 < es[j].0
    {
      assert Less(es[i], es[j]);
    }
  }

  /** The rows of u hold the sorted pairs that leave and enter it. */
  ghost predicate RowsOf(g: CsrGraph, es: seq<Arc>, u: nat)
    requires g.WellPacked() && u < g.vertexCount
  {
    g.Neighbors(u) == Group(es, u) && g.InNeighbors(u) == Group(Transposed(es), u)
  }

  lemma RowMembers(g: CsrGraph, es: seq<Arc>, u: nat, v: nat)
    requires g.WellPacked() && u < g.vertexCount && RowsOf(g, es, u)
    ensures v in g.Neighbors(u) <==> (u, v) in es
    ensures v in g.InNeighbors(u) <==> (v, u) in es
  {
    GroupMembers(es, u, v);
    GroupMembers(Transposed(es), u, v);
    TransposedMembers(es, v, u);
  }

  /** Rows packed from sorted, loop-free, in-range pairs make a valid graph with exactly those arcs. */
  lemma RowsMakeGraph(g: CsrGraph, es: seq<Arc>, edges: seq<Arc>)
    requires g.WellPacked() && Sorted(es)
    requires forall u: nat {:trigger RowsOf(g, es, u)} | u < g.vertexCount :: RowsOf(g, es, u)
    requires forall e | e in es :: e.0 < g.vertexCount && e.1 < g.vertexCount
    requires forall u: nat, v: nat :: (u, v) in es <==> (u, v) in ArcsOf(edges, g.directed)
    ensures g.Valid() && g.Arcs() == ArcsOf(edges, g.directed)
  {
    OutRowsGrouped(es);
    forall u: nat | u < g.vertexCount
      ensures Ascending(g.Neighbors(u)) && Ascending(g.InNeighbors(u))
    {
      assert RowsOf(g, es, u);
      GroupAscends(es, u);
      GroupAscends(Transposed(es), u);
    }
    forall u: nat, v: nat | u < g.vertexCount
      ensures v in g.Neighbors(u) <==> (u, v) in ArcsOf(edges, g.directed)
      ensures v in g.InNeighbors(u) <==> (v, u) in ArcsOf(edges, g.directed)
      ensures v in g.Neighbors(u) || v in g.InNeighbors(u) ==> v < g.vertexCount && v != u
    {
      assert RowsOf(g, es, u);
      RowMembers(g, es, u, v);
    }
    forall a
      ensures a in g.Arcs() <==> a in ArcsOf(edges, g.directed)
    {
      assert (a.0, a.1) == a;
      assert a in es ==> a.0 < g.vertexCount;
    }
  }

  /** Build both directions of the static graph. It stores exactly the given edges without self-loops and
      duplicates, in strictly increasing rows, and no more vertices than the largest endpoint needs. */
  method Build(edges: seq<Arc>, directed: bool) returns (g: CsrGraph)
    ensures g.Valid() && g.directed == directed
    ensures g.Arcs() == ArcsOf(edges, directed)
    ensures g.vertexCount > 0 ==> exists a :: a in g.Arcs() && Max(a.0, a.1) == g.vertexCount - 1
  {
    var expanded, n;
    ghost var top;
    expanded, n, top := ExpandEdges(edges, directed);
    var es := SortUnique(expanded);
    forall i | 0 <= i < |es|
      ensures es[i].0 < n && es[i].1 < n
    {
      assert es[i] in expanded;
    }
    var offsets, targets := PackRows(es, n);
    var inOffsets, sources := PackRows(Transposed(es), n);
    g := CsrGraph(directed, n, offsets, targets, inOffsets, sources);
    assert forall u: nat {:trigger RowsOf(g, es, u)} | u < n :: RowsOf(g, es, u);
    RowsMakeGraph(g, es, edges);
    if n > 0 {
      assert (top.0, top.1) in ArcsOf(edges, directed) && top == (top.0, top.1);
    }
  }

  // ---------- Membership by binary search ----------

  /** Binary search in the row of u: exactly edge membership, and false outside the graph. */
  method HasEdge(g: CsrGraph, u: nat, v: nat) returns (found: bool)
    requires g.Valid()
    ensures found <==> (u, v) in g.Arcs()
  {
    if u >= g.vertexCount || v >= g.vertexCount {
      return false;
    }
    found := Member(g.Neighbors(u), v);
  }
}
