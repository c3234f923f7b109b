/** The insertion-only incremental triangle count by inclusion and exclusion over sorted adjacency lists. */
module Hipc {
  import opened Distances
  import opened DynamicGraphs
  import opened Collections
  import opened Csr
  import opened SortedRows
  import opened Sums
  import opened Triangles

  /** One ascending list of neighbours per vertex. */
  type Adj = seq<seq<nat>>

  ghost predicate Lists(adj: Adj, arcs: set<Arc>)
  {
    && (forall u: nat | u < |adj| :: Ascending(adj[u]))
    && (forall u: nat, v: nat :: (u, v) in arcs <==> u < |adj| && v in adj[u])
    && Within(arcs, |adj|)
  }

  // ---------- Building the lists ----------

  ghost predicate NonDecreasing(row: seq<nat>)
  {
    forall i, j | 0 <= i < j < |row| :: row[i] <= row[j]
  }

  method InsertInOrder(row: seq<nat>, value: nat) returns (r: seq<nat>)
    requires NonDecreasing(row)
    ensures NonDecreasing(r) && multiset(r) == multiset(row) + multiset{value}
  {
    var i := 0;
    while i < |row| && row[i] < value
      invariant 0 <= i <= |row|
      invariant forall k | 0 <= k < i :: row[k] < value
    {
      i := i + 1;
    }
    assert row == row[..i] + row[i..];
    assert forall k | i <= k < |row| :: value <= row[k];
    r := row[..i] + [value] + row[i..];
  }

  /** Sort without dropping duplicates; a list without duplicates becomes strictly increasing. */
  method SortRow(row: seq<nat>) returns (r: seq<nat>)
    ensures multiset(r) == multiset(row) && NonDecreasing(r)
  {
    r := [];
    var i := 0;
    while i < |row|
      invariant 0 <= i <= |row| && multiset(r) == multiset(row[..i]) && NonDecreasing(r)
    {
      assert row[..i + 1] == row[..i] + [row[i]];
      r := InsertInOrder(r, row[i]);
      i := i + 1;
    }
    assert row[..i] == row;
  }

  lemma SortedDistinctAscends(row: seq<nat>, r: seq<nat>)
    requires multiset(r) == multiset(row) && NonDecreasing(r)
    requires forall x :: multiset(row)[x] <= 1
    ensures Ascending(r) && forall x :: x in r <==> x in row
  {
    forall x
      ensures x in r <==> x in row
    {
      assert x in r <==> x in multiset(r);
      assert x in row <==> x in multiset(row);
    }
    forall i, j | 0 <= i < j < |r|
      ensures r[i] < r[j]
    {
      assert r == r[..j] + [r[j]] + r[j + 1..];
      assert multiset(r)[r[j]] >= multiset(r[..j])[r[j]] + 1;
      assert r[i] in r[..j];
    }
  }

  /** Append both orientations of every edge. */
  method PushEdges(n: nat, edges: seq<Arc>) returns (rows: Adj)
    requires FreshRange(n, edges)
    ensures |rows| == n
    ensures forall u: nat, v: nat | u < n :: v in rows[u] <==> (u, v) in Both(edges)
    ensures FreshEdges(n, edges) ==> forall u: nat, v: nat | u < n :: multiset(rows[u])[v] <= 1
  {
    rows := seq(n, _ => []);
    var i := 0;
    while i < |edges|
      invariant 0 <= i <= |edges| && |rows| == n
      invariant forall u: nat, v: nat | u < n :: v in rows[u] <==> (u, v) in Both(edges[..i])
      invariant FreshEdges(n, edges) ==> forall u: nat, v: nat | u < n :: multiset(rows[u])[v] <= 1
    {
      var (u, v) := edges[i];
      assert edges[..i + 1][..i] == edges[..i];
      BothMembers(edges[..i], u, v);
      BothMembers(edges[..i], v, u);
      rows := rows[u := rows[u] + [v]];
      rows := rows[v := rows[v] + [u]];
      i := i + 1;
    }
    assert edges[..i] == edges;
  }

  ghost predicate FreshRange(n: nat, edges: seq<Arc>)
  {
    forall i | 0 <= i < |edges| :: edges[i].0 < n && edges[i].1 < n && edges[i].0 != edges[i].1
  }

  method BuildAdjacency(n: nat, edges: seq<Arc>) returns (adj: Adj)
    requires FreshRange(n, edges)
    ensures |adj| == n && Lists(adj, Both(edges))
  {
    adj := PushEdges(n, edges);
    var u := 0;
    while u < n
      invariant 0 <= u <= n && |adj| == n
      invariant forall k: nat | k < u :: Ascending(adj[k])
      invariant forall k: nat, v: nat | k < n :: v in adj[k] <==> (k, v) in Both(edges)
    {
      var row := SortUniqueRow(adj[u]);
      adj := adj[u := row];
      u := u + 1;
    }
    BothWithin(n, edges);
  }

  lemma {:induction false} BothWithin(n: nat, edges: seq<Arc>)
    requires FreshRange(n, edges)
    ensures Within(Both(edges), n)
  {
    forall u: nat, v: nat | (u, v) in Both(edges)
      ensures u < n && v < n
    {
      BothMembers(edges, u, v);
    }
  }

  function Edges(ops: seq<EdgeUpdate>): (es: seq<Arc>)
    ensures |es| == |ops| && forall i | 0 <= i < |ops| :: es[i] == (ops[i].src, ops[i].dst)
  {
    seq(|ops|, i requires 0 <= i < |ops| => (ops[i].src, ops[i].dst))
  }

  const ADDITIONS_ONLY := "only additions are supported"

  /** The lists of the batch alone; deletions are refused. */
  method BuildUpdateAdjacency(n: nat, ops: seq<EdgeUpdate>) returns (r: Result<Adj, string>)
    requires FreshEdges(n, Edges(ops))
    ensures r.Failure? <==> exists op :: op in ops && !op.add
    ensures r.Failure? ==> r == Failure(ADDITIONS_ONLY)
    ensures r.Success? ==> |r.value| == n && Lists(r.value, Both(Edges(ops)))
  {
    var i := 0;
    while i < |ops|
      invariant 0 <= i <= |ops|
      invariant forall op | op in ops[..i] :: op.add
    {
      if !ops[i].add {
        return Failure(ADDITIONS_ONLY);
      }
      assert ops[..i + 1] == ops[..i] + [ops[i]];
      i := i + 1;
    }
    assert ops[..i] == ops;
    var delta := PushEdges(n, Edges(ops));
    var u := 0;
    while u < n
      invariant 0 <= u <= n && |delta| == n
      invariant forall k: nat | k < u :: Ascending(delta[k])
      invariant forall k: nat, v: nat | k < n :: v in delta[k] <==> (k, v) in Both(Edges(ops))
      invariant forall k: nat, v: nat | u <= k < n :: multiset(delta[k])[v] <= 1
    {
      var row := SortRow(delta[u]);
      SortedDistinctAscends(delta[u], row);
      delta := delta[u := row];
      u := u + 1;
    }
    BothWithin(n, Edges(ops));
    r := Success(delta);
  }

  /** Ascending rows with these arcs. */
  ghost predicate RowsOf(adj: Adj, arcs: set<Arc>)
  {
    && (forall u: nat | u < |adj| :: Ascending(adj[u]))
    && (forall u: nat, v: nat | u < |adj| :: v in adj[u] <==> (u, v) in arcs)
  }

  method InsertEdge(adj0: Adj, u: nat, v: nat, ghost arcs: set<Arc>) returns (adj: Adj)
    requires RowsOf(adj0, arcs) && u < |adj0| && v < |adj0|
    ensures |adj| == |adj0| && RowsOf(adj, arcs + {(u, v), (v, u)})
  {
    var row := InsertSorted(adj0[u], v);
    adj := adj0[u := row];
    row := InsertSorted(adj[v], u);
    adj := adj[v := row];
  }

  /** Insert the batch into the lists of the base graph. */
  method ApplyBatchToAdjacency(base: Adj, ops: seq<EdgeUpdate>, ghost arcs: set<Arc>) returns (post: Adj)
    requires Lists(base, arcs) && FreshRange(|base|, Edges(ops))
    ensures |post| == |base| && Lists(post, arcs + Both(Edges(ops)))
  {
    post := base;
    ghost var edges := Edges(ops);
    var i := 0;
    assert edges[..0] == [];
    while i < |ops|
      invariant 0 <= i <= |ops| && |post| == |base|
      invariant RowsOf(post, arcs + Both(edges[..i]))
    {
      var op := ops[i];
      assert edges[i] == (op.src, op.dst);
      assert edges[..i + 1][..i] == edges[..i];
      post := InsertEdge(post, op.src, op.dst, arcs + Both(edges[..i]));
      i := i + 1;
    }
    assert edges[..i] == edges;
    BothWithin(|base|, edges);
  }

  // ---------- The formula ----------

  /** Intersecting two rows counts the common neighbours of their owners. */
  method CommonOf(a: Adj, b: Adj, u: nat, v: nat, ghost y: set<Arc>, ghost z: set<Arc>) returns (count: nat)
    requires Lists(a, y) && Lists(b, z) && |a| == |b| && u < |a| && v < |b|
    ensures count == Common(|a|, y, z, u, v)
  {
    count := IntersectionCount(a[u], b[v]);
    CommonIsCard(|a|, y, z, u, v);
    assert (set x | x in a[u] && x in b[v]) == set w: nat | w < |a| && (u, w) in y && (v, w) in z by {
      forall x: nat
        ensures x in a[u] && x in b[v] <==> x < |a| && (u, x) in y && (v, x) in z
      {
        assert x in a[u] <==> (u, x) in y;
        assert x in b[v] <==> (v, x) in z;
      }
    }
  }

  const WORD64: nat := 0x1_0000_0000_0000_0000
  const HALF64: nat := 0x8000_0000_0000_0000

  /** What 64 bits hold of a number, and how often it wraps around. */
  function Low(x: int): nat
  {
    x % 0x1_0000_0000_0000_0000
  }

  function High(x: int): int
  {
    x / 0x1_0000_0000_0000_0000
  }

  /** The three accumulators. */
  datatype Sums64 = Sums64(s1: nat, s2: nat, s3: nat)

  /** An accumulator holds what 64 bits hold of a total. */
  ghost predicate Holds(s: nat, total: nat)
  {
    forall word: nat {:trigger Word(word)} :: Word(word) ==> s == Low(total)
  }

  predicate Word(x: nat)
  {
    x < WORD64
  }

  lemma HeldWord(s: nat, total: nat)
    requires Holds(s, total)
    ensures s == Low(total)
  {
    assert Word(0);
  }

  method Accumulate(s: nat, common: nat, ghost total: nat) returns (r: nat)
    requires Holds(s, total)
    ensures Holds(r, total + common)
  {
    HeldWord(s, total);
    r := Low(s + common);
  }

  /** All three accumulators hold their totals. */
  ghost predicate HoldAll(sums: Sums64, total1: nat, total2: nat, total3: nat)
  {
    Holds(sums.s1, total1) && Holds(sums.s2, total2) && Holds(sums.s3, total3)
  }

  /** The five intersections of one operation, in both orientations where the two lists differ. */
  method AddPhases(post: Adj, delta: Adj, u: nat, v: nat, sums: Sums64, ghost e: set<Arc>, ghost d: set<Arc>,
                   ghost total1: nat, ghost total2: nat, ghost total3: nat)
    returns (r: Sums64)
    requires |post| == |delta| && Lists(post, e) && Lists(delta, d) && u < |post| && v < |post|
    requires HoldAll(sums, total1, total2, total3)
    ensures var n := |post|;
            var more1, more2 := Common(n, e, e, u, v), Common(n, e, d, u, v) + Common(n, e, d, v, u);
            var more3 := Common(n, d, d, u, v) + Common(n, d, d, v, u);
            && more1 >= 0 && more2 >= 0 && more3 >= 0
            && HoldAll(r, total1 + more1, total2 + more2, total3 + more3)
  {
    var common := CommonOf(post, post, u, v, e, e);
    var s1 := Accumulate(sums.s1, common, total1);
    common := CommonOf(post, delta, u, v, e, d);
    var s2 := Accumulate(sums.s2, common, total2);
    ghost var first := common;
    common := CommonOf(post, delta, v, u, e, d);
    s2 := Accumulate(s2, common, total2 + first);
    common := CommonOf(delta, delta, u, v, d, d);
    var s3 := Accumulate(sums.s3, common, total3);
    first := common;
    common := CommonOf(delta, delta, v, u, d, d);
    s3 := Accumulate(s3, common, total3 + first);
    r := Sums64(s1, s2, s3);
  }

  lemma OneMoreEdge(n: nat, edges: seq<Arc>, i: nat, y: set<Arc>, z: set<Arc>)
    requires i < |edges|
    ensures var (u, v) := edges[i];
            BatchSum(n, edges[..i + 1], y, z) ==
              BatchSum(n, edges[..i], y, z) + Common(n, y, z, u, v) + Common(n, y, z, v, u)
  {
    assert edges[..i + 1][..i] == edges[..i];
  }

  /** The three totals over the first edges of a batch. */
  ghost predicate Totals(n: nat, edges: seq<Arc>, e: set<Arc>, d: set<Arc>, total1: nat, total2: nat, total3: nat)
  {
    && 2 * total1 == BatchSum(n, edges, e, e)
    && total2 == BatchSum(n, edges, e, d)
    && total3 == BatchSum(n, edges, d, d)
  }

  lemma OneMoreTotal(n: nat, edges: seq<Arc>, i: nat, e: set<Arc>, d: set<Arc>, total1: nat, total2: nat, total3: nat)
    requires i < |edges| && Totals(n, edges[..i], e, d, total1, total2, total3)
    ensures var (u, v) := edges[i];
            var more1, more2 := Common(n, e, e, u, v), Common(n, e, d, u, v) + Common(n, e, d, v, u);
            var more3 := Common(n, d, d, u, v) + Common(n, d, d, v, u);
            more1 >= 0 && more2 >= 0 && more3 >= 0 ==>
              Totals(n, edges[..i + 1], e, d, total1 + more1, total2 + more2, total3 + more3)
  {
    OneMoreEdge(n, edges, i, e, e);
    OneMoreEdge(n, edges, i, e, d);
    OneMoreEdge(n, edges, i, d, d);
    CommonSymmetric(n, e, e, edges[i].0, edges[i].1);
  }

  /** The three phases: post/post, post/update and update/update intersections over the batch. The accumulators hold
      64 bits. */
  method SumPhases(post: Adj, delta: Adj, ops: seq<EdgeUpdate>, ghost e: set<Arc>, ghost d: set<Arc>)
    returns (sums: Sums64, ghost total1: nat, ghost total2: nat, ghost total3: nat)
    requires |post| == |delta| && Lists(post, e) && Lists(delta, d)
    requires FreshRange(|post|, Edges(ops))
    ensures Totals(|post|, Edges(ops), e, d, total1, total2, total3) && HoldAll(sums, total1, total2, total3)
  {
    sums := Sums64(0, 0, 0);
    total1, total2, total3 := 0, 0, 0;
    ghost var edges, n := Edges(ops), |post|;
    var i := 0;
    assert edges[..0] == [];
    while i < |ops|
      invariant 0 <= i <= |ops|
      invariant Totals(n, edges[..i], e, d, total1, total2, total3) && HoldAll(sums, total1, total2, total3)
    {
      var u, v := ops[i].src, ops[i].dst;
      assert edges[i] == (u, v);
      sums := AddPhases(post, delta, u, v, sums, e, d, total1, total2, total3);
      OneMoreTotal(n, edges, i, e, d, total1, total2, total3);
      total1 := total1 + Common(n, e, e, u, v);
      total2 := total2 + (Common(n, e, d, u, v) + Common(n, e, d, v, u));
      total3 := total3 + (Common(n, d, d, u, v) + Common(n, d, d, v, u));
      i := i + 1;
    }
    assert edges[..i] == edges;
  }

  /** How often the second and the third accumulator wrap around over a batch. */
  ghost function Wraps2(n: nat, base: set<Arc>, edges: seq<Arc>): int
  {
    High(BatchSum(n, edges, base + Both(edges), Both(edges)))
  }

  ghost function Wraps3(n: nat, edges: seq<Arc>): int
  {
    High(BatchSum(n, edges, Both(edges), Both(edges)))
  }

  /** The triangles a batch creates. */
  ghost function Created(n: nat, base: set<Arc>, edges: seq<Arc>): int
  {
    TriangleCount(n, base + Both(edges)) - TriangleCount(n, base)
  }

  const ACCOUNTING_FAILED := "the accounting invariant failed"

  /** What the accounting reports: the triangles the batch creates, off by half a word when the accumulators have
      wrapped around an odd number of times in all, and an error when the third has not wrapped in threes. */
  ghost predicate Accounted(n: nat, base: set<Arc>, edges: seq<Arc>, r: Result<nat, string>)
  {
    if Wraps3(n, edges) % 3 != 0 then r == Failure(ACCOUNTING_FAILED)
    else
      r == Success(Low(Created(n, base, edges) + (Wraps2(n, base, edges) + Wraps3(n, edges) / 3) % 2 * HALF64))
  }

  /** Halving a wrapped even number loses half a word with every wrap. */
  lemma WrappedHalf(total: nat)
    requires total % 2 == 0
    ensures Low(total) % 2 == 0 && Low(total) / 2 == total / 2 - High(total) * HALF64
  {
    assert total == High(total) * WORD64 + Low(total);
  }

  /** Dividing a wrapped multiple of six by six loses half a word with every three wraps. */
  lemma WrappedSixth(total: nat)
    requires total % 6 == 0
    ensures Low(total) % 6 == 0 <==> High(total) % 3 == 0
    ensures High(total) % 3 == 0 ==> Low(total) / 6 == total / 6 - High(total) / 3 * HALF64
  {
    assert total == High(total) * WORD64 + Low(total);
    var threes, rest := High(total) / 3, High(total) % 3;
    assert High(total) == 3 * threes + rest;
    assert total == 6 * (threes * HALF64) + (rest * WORD64 + Low(total));
  }

  /** Two numbers that differ by whole words are the same in 64 bits. */
  lemma SameLow(x: int, y: int, words: int)
    requires x == y + words * WORD64
    ensures Low(x) == Low(y)
  {
  }

  lemma WrappedSums(total1: nat, total2: nat, total3: nat, created: int)
    requires total2 % 2 == 0 && total3 % 6 == 0 && total1 - total2 / 2 + total3 / 6 == created
    ensures Low(total2) % 2 == 0
    ensures Low(total3) % 6 == 0 <==> High(total3) % 3 == 0
    ensures High(total3) % 3 == 0 ==>
      Low(Low(total1) - Low(total2) / 2 + Low(total3) / 6) ==
      Low(created + (High(total2) + High(total3) / 3) % 2 * HALF64)
  {
    WrappedHalf(total2);
    WrappedSixth(total3);
    if High(total3) % 3 == 0 {
      var wraps2, threes := High(total2), High(total3) / 3;
      var parity := (wraps2 + threes) % 2;
      var words := (wraps2 - threes - parity) / 2;
      assert wraps2 - threes == parity + 2 * words;
      SameLow(Low(total1) - Low(total2) / 2 + Low(total3) / 6, created + parity * HALF64, words - High(total1));
    }
  }

  lemma TotalsCount(n: nat, base: set<Arc>, edges: seq<Arc>, total1: nat, total2: nat, total3: nat)
    requires Undirected(base) && FreshEdges(n, edges) && base !! Both(edges)
    requires Totals(n, edges, base + Both(edges), Both(edges), total1, total2, total3)
    ensures total2 % 2 == 0 && total3 % 6 == 0 && total1 - total2 / 2 + total3 / 6 == Created(n, base, edges)
    ensures High(total2) == Wraps2(n, base, edges) && High(total3) == Wraps3(n, edges)
  {
    InclusionExclusion(n, base, edges, total1);
  }

  /** What the three accumulators make of the formula. */
  lemma FormulaOf(sums: Sums64, total1: nat, total2: nat, total3: nat, created: int)
    requires HoldAll(sums, total1, total2, total3)
    requires total2 % 2 == 0 && total3 % 6 == 0 && total1 - total2 / 2 + total3 / 6 == created
    ensures sums.s2 % 2 != 0 || sums.s3 % 6 != 0 <==> High(total3) % 3 != 0
    ensures High(total3) % 3 == 0 ==>
      Low(sums.s1 - sums.s2 / 2 + sums.s3 / 6) == Low(created + (High(total2) + High(total3) / 3) % 2 * HALF64)
  {
    HeldWord(sums.s1, total1);
    HeldWord(sums.s2, total2);
    HeldWord(sums.s3, total3);
    WrappedSums(total1, total2, total3, created);
  }

  /** Either outcome of the accounting check reports what it should. */
  lemma ReportOf(n: nat, base: set<Arc>, edges: seq<Arc>, sums: Sums64, total1: nat, total2: nat, total3: nat)
    requires Undirected(base) && FreshEdges(n, edges) && base !! Both(edges)
    requires Totals(n, edges, base + Both(edges), Both(edges), total1, total2, total3)
    requires HoldAll(sums, total1, total2, total3)
    ensures Accounted(n, base, edges,
                      if sums.s2 % 2 != 0 || sums.s3 % 6 != 0 then Failure(ACCOUNTING_FAILED)
                      else Success(Low(sums.s1 - sums.s2 / 2 + sums.s3 / 6)))
  {
    TotalsCount(n, base, edges, total1, total2, total3);
    FormulaOf(sums, total1, total2, total3, Created(n, base, edges));
  }

  /** S1 - S2/2 + S3/6 over the batch, in 64 bits. */
  method InsertDelta(post: Adj, delta: Adj, ops: seq<EdgeUpdate>, ghost base: set<Arc>)
    returns (r: Result<nat, string>, sums: Sums64)
    requires |post| == |delta| && Undirected(base)
    requires FreshEdges(|post|, Edges(ops)) && base !! Both(Edges(ops))
    requires Lists(post, base + Both(Edges(ops))) && Lists(delta, Both(Edges(ops)))
    ensures Accounted(|post|, base, Edges(ops), r)
    ensures exists total1: nat, total2: nat, total3: nat {:trigger HoldAll(sums, total1, total2, total3)} ::
      && HoldAll(sums, total1, total2, total3)
      && Totals(|post|, Edges(ops), base + Both(Edges(ops)), Both(Edges(ops)), total1, total2, total3)
  {
    ghost var total1, total2, total3;
    sums, total1, total2, total3 := SumPhases(post, delta, ops, base + Both(Edges(ops)), Both(Edges(ops)));
    ReportOf(|post|, base, Edges(ops), sums, total1, total2, total3);
    if sums.s2 % 2 != 0 || sums.s3 % 6 != 0 {
      return Failure(ACCOUNTING_FAILED), sums;
    }
    r := Success(Low(sums.s1 - sums.s2 / 2 + sums.s3 / 6));
  }

  /** The report is the number of triangles created if and only if the third accumulator wraps in threes, the wraps
      come to an even number, and the answer itself fits. */
  lemma ReportIsExact(n: nat, base: set<Arc>, edges: seq<Arc>, r: Result<nat, string>)
    requires Undirected(base) && FreshEdges(n, edges) && base !! Both(edges) && Accounted(n, base, edges, r)
    ensures r == Success(Created(n, base, edges)) <==>
              && Wraps3(n, edges) % 3 == 0
              && (Wraps2(n, base, edges) + Wraps3(n, edges) / 3) % 2 == 0
              && Created(n, base, edges) < WORD64
  {
    MoreTriangles(n, base, edges);
  }

  lemma MoreTriangles(n: nat, base: set<Arc>, edges: seq<Arc>)
    ensures Created(n, base, edges) >= 0
  {
    var before, after := TriangleSet(n, base), TriangleSet(n, base + Both(edges));
    assert after == before + (after - before);
  }

  lemma {:induction false} BatchSumBound(n: nat, edges: seq<Arc>, y: set<Arc>, z: set<Arc>)
    ensures 0 <= BatchSum(n, edges, y, z) <= 2 * |edges| * n
  {
    if edges != [] {
      var last := |edges| - 1;
      BatchSumBound(n, edges[..last], y, z);
      CommonBound(n, y, z, edges[last].0, edges[last].1);
      CommonBound(n, y, z, edges[last].1, edges[last].0);
      assert 2 * |edges| * n == 2 * last * n + 2 * n;
    }
  }

  lemma {:induction false} BatchSumIsEven(n: nat, edges: seq<Arc>, y: set<Arc>)
    ensures BatchSum(n, edges, y, y) % 2 == 0
  {
    if edges != [] {
      var last := |edges| - 1;
      BatchSumIsEven(n, edges[..last], y);
      CommonSymmetric(n, y, y, edges[last].0, edges[last].1);
    }
  }

  lemma CommonBound(n: nat, y: set<Arc>, z: set<Arc>, u: nat, v: nat)
    ensures 0 <= Common(n, y, z, u, v) <= n
  {
    CommonIsCard(n, y, z, u, v);
    BoundedSet((set w: nat | w < n && (u, w) in y && (v, w) in z), n);
  }

  lemma CreatedFits(n: nat, base: set<Arc>, edges: seq<Arc>, bound: int)
    requires Undirected(base) && FreshEdges(n, edges) && base !! Both(edges)
    requires BatchSum(n, edges, base + Both(edges), base + Both(edges)) <= bound
    requires BatchSum(n, edges, Both(edges), Both(edges)) <= bound
    ensures Created(n, base, edges) <= bound
  {
    var e := base + Both(edges);
    BatchSumIsEven(n, edges, e);
    InclusionExclusion(n, base, edges, BatchSum(n, edges, e, e) / 2);
  }

  /** A batch of k edges on n vertices with 2kn below 2^64 wraps nothing. */
  lemma SmallBatchDoesNotWrap(n: nat, base: set<Arc>, edges: seq<Arc>)
    requires Undirected(base) && FreshEdges(n, edges) && base !! Both(edges)
    requires 2 * |edges| * n < WORD64
    ensures Wraps2(n, base, edges) == 0 && Wraps3(n, edges) == 0 && Created(n, base, edges) < WORD64
  {
    var d := Both(edges);
    BatchSumBound(n, edges, base + d, d);
    BatchSumBound(n, edges, d, d);
    BatchSumBound(n, edges, base + d, base + d);
    CreatedFits(n, base, edges, 2 * |edges| * n);
  }

  /** Then the accounting check never fires, and the report is the number of triangles the insertions created. */
  lemma UnwrappedIsExact(n: nat, base: set<Arc>, edges: seq<Arc>, r: Result<nat, string>)
    requires Undirected(base) && FreshEdges(n, edges) && base !! Both(edges) && Accounted(n, base, edges, r)
    requires Wraps2(n, base, edges) == 0 && Wraps3(n, edges) == 0 && Created(n, base, edges) < WORD64
    ensures r == Success(Created(n, base, edges))
  {
    ReportIsExact(n, base, edges, r);
  }

  /** Update the lists of a base graph and count what the batch added, as one answer. */
  method CountInsertions(n: nat, baseEdges: seq<Arc>, ops: seq<EdgeUpdate>) returns (r: Result<nat, string>)
    requires FreshRange(n, baseEdges) && FreshEdges(n, Edges(ops)) && Both(baseEdges) !! Both(Edges(ops))
    ensures (exists op :: op in ops && !op.add) ==> r == Failure(ADDITIONS_ONLY)
    ensures (forall op | op in ops :: op.add) ==> Accounted(n, Both(baseEdges), Edges(ops), r)
    ensures (forall op | op in ops :: op.add) && 2 * |ops| * n < WORD64 ==>
      && r.Success?
      && TriangleCount(n, Both(baseEdges)) + r.value == TriangleCount(n, Both(baseEdges) + Both(Edges(ops)))
  {
    var base := BuildAdjacency(n, baseEdges);
    var delta := BuildUpdateAdjacency(n, ops);
    if delta.Failure? {
      return Failure(ADDITIONS_ONLY);
    }
    var post := ApplyBatchToAdjacency(base, ops, Both(baseEdges));
    forall u: nat, v: nat | (u, v) in Both(baseEdges)
      ensures u != v && (v, u) in Both(baseEdges)
    {
      BothMembers(baseEdges, u, v);
      BothMembers(baseEdges, v, u);
    }
    var sums;
    r, sums := InsertDelta(post, delta.value, ops, Both(baseEdges));
    if 2 * |ops| * n < WORD64 {
      SmallBatchDoesNotWrap(n, Both(baseEdges), Edges(ops));
      UnwrappedIsExact(n, Both(baseEdges), Edges(ops), r);
    }
  }

  // ---------- Generating a batch ----------

  /** One step of the 64-bit linear congruential generator. */
  function NextState(state: nat): nat
  {
    (state * 6364136223846793005 + 1442695040888963407) % WORD64
  }

  /** The states of the generator from an odd seed on. */
  ghost function GeneratorState(seed: nat, j: nat): nat
  {
    if j == 0 then (if seed % 2 == 0 then seed + 1 else seed)
    else (GeneratorState(seed, j - 1) * 6364136223846793005 + 1442695040888963407) % 0x1_0000_0000_0000_0000
  }

  /** Attempt t draws two vertices from the upper bits of the next two states. */
  ghost function Draw(n: nat, seed: nat, t: nat): Arc
    requires n > 0
  {
    (GeneratorState(seed, 2 * t + 1) / 0x2_0000 % n, GeneratorState(seed, 2 * t + 2) / 0x2_0000 % n)
  }

  /** The missing edges among the first t draws, without self-loops and repetitions in either orientation. */
  ghost function Drawn(n: nat, arcs: set<Arc>, seed: nat, t: nat): seq<Arc>
    requires n > 0
  {
    if t == 0 then []
    else
      var before, e := Drawn(n, arcs, seed, t - 1), Draw(n, seed, t - 1);
      if e.0 == e.1 || e in arcs || e in before || (e.1, e.0) in before then before else before + [e]
  }

  lemma {:induction false} DrawnPrefix(n: nat, arcs: set<Arc>, seed: nat, t: nat, t': nat)
    requires n > 0 && t <= t'
    ensures Drawn(n, arcs, seed, t) <= Drawn(n, arcs, seed, t')
  {
    if t < t' {
      DrawnPrefix(n, arcs, seed, t, t' - 1);
    }
  }

  lemma {:induction false} DrawnIsFresh(n: nat, arcs: set<Arc>, seed: nat, t: nat)
    requires n > 0
    ensures FreshEdges(n, Drawn(n, arcs, seed, t)) && forall e | e in Drawn(n, arcs, seed, t) :: e !in arcs
  {
    if t > 0 {
      DrawnIsFresh(n, arcs, seed, t - 1);
      var before, e := Drawn(n, arcs, seed, t - 1), Draw(n, seed, t - 1);
      if !(e.0 == e.1 || e in arcs || e in before || (e.1, e.0) in before) {
        OneMoreFresh(n, before, e);
      }
    }
  }

  lemma OneMoreFresh(n: nat, edges: seq<Arc>, e: Arc)
    requires FreshEdges(n, edges) && e.0 < n && e.1 < n && e.0 != e.1 && e !in edges && (e.1, e.0) !in edges
    ensures FreshEdges(n, edges + [e])
  {
    var after := edges + [e];
    forall i, j | 0 <= i < j < |after|
      ensures after[i] != after[j] && after[i] != (after[j].1, after[j].0)
    {
      assert after[i] in edges && (after[i].0, after[i].1) == after[i];
    }
  }

  /** The keys of the edges selected, in either orientation. */
  ghost predicate SelectedKeys(selected: set<Arc>, edges: seq<Arc>)
  {
    forall u: nat, v: nat {:trigger Key(false, u, v)} ::
      Key(false, u, v) in selected <==> (u, v) in edges || (v, u) in edges
  }

  lemma SelectOne(selected: set<Arc>, edges: seq<Arc>, e: Arc)
    requires SelectedKeys(selected, edges)
    ensures SelectedKeys(selected + {Key(false, e.0, e.1)}, edges + [e])
  {
  }

  /** The first attempts are made. */
  ghost predicate Drawing(n: nat, arcs: set<Arc>, seed: nat, attempts: nat, state: nat, ops: seq<EdgeUpdate>,
                          selected: set<Arc>)
    requires n > 0
  {
    && state == GeneratorState(seed, 2 * attempts) && Edges(ops) == Drawn(n, arcs, seed, attempts)
    && SelectedKeys(selected, Edges(ops)) && forall op | op in ops :: op.add
  }

  /** One attempt: draw two vertices, and keep the edge if it is missing and not yet drawn. */
  method Attempt(n: nat, arcs: set<Arc>, ghost seed: nat, ghost attempts: nat, state0: nat, ops0: seq<EdgeUpdate>,
                 selected0: set<Arc>)
    returns (state: nat, ops: seq<EdgeUpdate>, selected: set<Arc>)
    requires n > 0 && Drawing(n, arcs, seed, attempts, state0, ops0, selected0)
    ensures Drawing(n, arcs, seed, attempts + 1, state, ops, selected) && |ops| <= |ops0| + 1
  {
    ops, selected := ops0, selected0;
    state := NextState(state0);
    var u := (state / 0x2_0000) % n;
    state := NextState(state);
    var v := (state / 0x2_0000) % n;
    assert (u, v) == Draw(n, seed, attempts);
    if u == v || (u, v) in arcs {
      return;
    }
    var key := Key(false, u, v);
    if key !in selected {
      SelectOne(selected, Edges(ops), (u, v));
      selected := selected + {key};
      ops := ops + [EdgeUpdate(u, v, true)];
      assert Edges(ops) == Edges(ops0) + [(u, v)];
    }
  }

  /** Draw missing edges, no two alike up to orientation, or give up after a bounded number of attempts. */
  method MakeUpdates(n: nat, arcs: set<Arc>, requested: nat, seed: nat) returns (r: Result<seq<EdgeUpdate>, string>)
    requires n > 0 && Within(arcs, n) && Undirected(arcs)
    ensures r.Success? ==>
      |r.value| == requested && FreshEdges(n, Edges(r.value)) && arcs !! Both(Edges(r.value))
        && forall op | op in r.value :: op.add
    ensures var drawn := Drawn(n, arcs, seed, if requested * 200 < 10000 then 10000 else requested * 200);
      && (r.Failure? <==> |drawn| < requested)
      && (r.Success? ==> Edges(r.value) == drawn[..requested])
  {
    var ops: seq<EdgeUpdate> := [];
    var selected: set<Arc> := {};
    var state: nat := if seed % 2 == 0 then seed + 1 else seed;
    var maxAttempts := if requested * 200 < 10000 then 10000 else requested * 200;
    var attempts := 0;
    while |ops| < requested && attempts < maxAttempts
      invariant |ops| <= requested && attempts <= maxAttempts
      invariant Drawing(n, arcs, seed, attempts, state, ops, selected)
      decreases maxAttempts - attempts
    {
      state, ops, selected := Attempt(n, arcs, seed, attempts, state, ops, selected);
      attempts := attempts + 1;
    }
    DrawnPrefix(n, arcs, seed, attempts, maxAttempts);
    if |ops| != requested {
      return Failure("could not generate the requested updates");
    }
    DrawnIsFresh(n, arcs, seed, attempts);
    MissingFromBoth(arcs, Edges(ops));
    r := Success(ops);
  }

  lemma MissingFromBoth(arcs: set<Arc>, edges: seq<Arc>)
    requires Undirected(arcs) && forall e | e in edges :: e !in arcs
    ensures arcs !! Both(edges)
  {
    forall a | a in Both(edges)
      ensures a !in arcs
    {
      BothMembers(edges, a.0, a.1);
      assert (a.0, a.1) == a;
    }
  }
}
