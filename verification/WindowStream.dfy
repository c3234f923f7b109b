/** The rebuild baseline on a sliding window: the active edges are kept as 64-bit keys, and after every
    batch the static graph of the window is rebuilt and searched. */
module WindowStream {
  import opened Distances
  import opened PackedKeys
  import opened DynamicGraphs
  import opened BreadthFirst
  import opened Csr
  import opened StaticBfs
  import opened GraphStorage
  import opened IncrementalBfs

  // ---------- Edge keys ----------

  ghost function Keys(es: seq<Arc>): set<nat>
  {
    set e | e in es :: EdgeKey(e)
  }

  ghost predicate DistinctEdges(es: seq<Arc>)
  {
    forall i, j | 0 <= i < j < |es| :: es[i] != es[j]
  }

  ghost predicate Identifiers(es: seq<Arc>, vertices: nat)
  {
    vertices <= UNREACHABLE && forall e | e in es :: e.0 < vertices && e.1 < vertices
  }

  lemma KeysMember(es: seq<Arc>, e: Arc, vertices: nat)
    requires Identifiers(es, vertices) && e.0 < WORD && e.1 < WORD
    ensures EdgeKey(e) in Keys(es) <==> e in es
  {
    KeyRoundTrip(e);
    if EdgeKey(e) in Keys(es) {
      var x :| x in es && EdgeKey(x) == EdgeKey(e);
      KeyRoundTrip(x);
    }
  }

  lemma {:induction false} KeysSize(es: seq<Arc>, vertices: nat)
    requires Identifiers(es, vertices) && DistinctEdges(es)
    ensures |Keys(es)| == |es|
  {
    if es != [] {
      var last := |es| - 1;
      assert es == es[..last] + [es[last]];
      KeysSize(es[..last], vertices);
      assert es[last] in es;
      KeysMember(es[..last], es[last], vertices);
      assert Keys(es) == Keys(es[..last]) + {EdgeKey(es[last])};
    }
  }

  // ---------- The batches of a sliding window ----------

  /** Add the arriving edges, then remove as many that leave the window. */
  function BatchOf(edges: seq<Arc>, imported: nat, begin: nat, end: nat): seq<EdgeUpdate>
    requires imported <= begin <= end <= |edges|
  {
    seq(end - begin, i requires 0 <= i < end - begin => EdgeUpdate(edges[begin + i].0, edges[begin + i].1, true)) +
    seq(end - begin, i requires 0 <= i < end - begin =>
      EdgeUpdate(edges[begin - imported + i].0, edges[begin - imported + i].1, false))
  }

  method MakeBatch(edges: seq<Arc>, imported: nat, begin: nat, end: nat) returns (ops: seq<EdgeUpdate>)
    requires imported <= begin <= end <= |edges|
    ensures ops == BatchOf(edges, imported, begin, end)
  {
    ops := [];
    for i := begin to end
      invariant ops == BatchOf(edges, imported, begin, end)[..i - begin]
    {
      ops := ops + [EdgeUpdate(edges[i].0, edges[i].1, true)];
    }
    for i := begin to end
      invariant ops == BatchOf(edges, imported, begin, end)[..end - begin + (i - begin)]
    {
      var removeIndex := i - imported;
      ops := ops + [EdgeUpdate(edges[removeIndex].0, edges[removeIndex].1, false)];
    }
  }

  /** The edges of the window after the first i operations of its batch. */
  function WindowDuring(edges: seq<Arc>, imported: nat, begin: nat, end: nat, i: nat): seq<Arc>
    requires imported <= begin <= end <= |edges| && i <= 2 * (end - begin)
  {
    if i <= end - begin then edges[begin - imported..begin + i]
    else edges[begin - imported + (i - (end - begin))..end]
  }

  /** One operation turns one list of edges into another. */
  ghost predicate Changes(before: seq<Arc>, after: seq<Arc>, op: EdgeUpdate)
  {
    forall e :: e in after <==> if e == (op.src, op.dst) then op.add else e in before
  }

  /** What one operation does to the window. */
  lemma WindowChanges(edges: seq<Arc>, imported: nat, begin: nat, end: nat, i: nat)
    requires imported <= begin <= end <= |edges| && i < 2 * (end - begin) && DistinctEdges(edges)
    ensures var op := BatchOf(edges, imported, begin, end)[i];
            var before := WindowDuring(edges, imported, begin, end, i);
            var after := WindowDuring(edges, imported, begin, end, i + 1);
            (op.src, op.dst) in edges && Changes(before, after, op)
  {
    var m := end - begin;
    var before := WindowDuring(edges, imported, begin, end, i);
    var after := WindowDuring(edges, imported, begin, end, i + 1);
    var op := BatchOf(edges, imported, begin, end)[i];
    if i < m {
      var arriving := edges[begin + i];
      assert op == EdgeUpdate(arriving.0, arriving.1, true) && arriving in edges;
      assert after == before + [arriving];
    } else {
      var leaving := edges[begin - imported + (i - m)];
      assert op == EdgeUpdate(leaving.0, leaving.1, false) && leaving in edges;
      assert before == [leaving] + after;
      assert leaving !in after;
    }
  }

  /** What it does to the active keys. */
  lemma WindowKeys(edges: seq<Arc>, imported: nat, begin: nat, end: nat, i: nat, vertices: nat)
    requires imported <= begin <= end <= |edges| && i < 2 * (end - begin)
    requires Identifiers(edges, vertices) && DistinctEdges(edges)
    ensures var op := BatchOf(edges, imported, begin, end)[i];
            var before := Keys(WindowDuring(edges, imported, begin, end, i));
            var after := Keys(WindowDuring(edges, imported, begin, end, i + 1));
            after == if op.add then before + {EdgeKey((op.src, op.dst))} else before - {EdgeKey((op.src, op.dst))}
  {
    var op := BatchOf(edges, imported, begin, end)[i];
    var e := (op.src, op.dst);
    var before := WindowDuring(edges, imported, begin, end, i);
    var after := WindowDuring(edges, imported, begin, end, i + 1);
    WindowChanges(edges, imported, begin, end, i);
    KeyRoundTrip(e);
    forall x | x in before || x in after
      ensures EdgeKey(x) == EdgeKey(e) ==> x == e
    {
      assert x in edges;
      KeyRoundTrip(x);
    }
    assert op.add ==> e in after;
  }

  // ---------- The reference graph ----------

  /** The graph of the window that ends at a position. */
  ghost function WindowGraph(edges: seq<Arc>, imported: nat, end: nat, vertices: nat): Graph
    requires imported <= end <= |edges|
  {
    Graph(true, vertices, ArcsOf(edges[end - imported..end], true))
  }

  lemma OneArcChanges(before: seq<Arc>, after: seq<Arc>, op: EdgeUpdate, vertices: nat)
    requires Changes(before, after, op) && op.src < vertices && op.dst < vertices
    ensures ApplyOne(Graph(true, vertices, ArcsOf(before, true)), op) == Graph(true, vertices, ArcsOf(after, true))
  {
    SamePairs(ArcsOf(after, true), ApplyOne(Graph(true, vertices, ArcsOf(before, true)), op).arcs);
  }

  /** The graph follows the lists of edges that its operations turn into one another. */
  lemma {:induction false} GraphFollows(lists: seq<seq<Arc>>, ops: seq<EdgeUpdate>, vertices: nat)
    requires |lists| == |ops| + 1
    requires forall i | 0 <= i < |ops| ::
      Changes(lists[i], lists[i + 1], ops[i]) && ops[i].src < vertices && ops[i].dst < vertices
    ensures ApplyAll(Graph(true, vertices, ArcsOf(lists[0], true)), ops)
         == Graph(true, vertices, ArcsOf(lists[|ops|], true))
  {
    if ops != [] {
      var last := |ops| - 1;
      GraphFollows(lists[..|ops|], ops[..last], vertices);
      OneArcChanges(lists[last], lists[|ops|], ops[last], vertices);
    }
  }

  /** The windows during a batch, from one window to the next. */
  lemma WindowsDuring(edges: seq<Arc>, imported: nat, begin: nat, end: nat, ops: seq<EdgeUpdate>, vertices: nat)
    returns (lists: seq<seq<Arc>>)
    requires imported <= begin <= end <= |edges| && Identifiers(edges, vertices) && DistinctEdges(edges)
    requires ops == BatchOf(edges, imported, begin, end)
    ensures |lists| == |ops| + 1
    ensures lists[0] == edges[begin - imported..begin] && lists[|ops|] == edges[end - imported..end]
    ensures forall i | 0 <= i < |ops| ::
      Changes(lists[i], lists[i + 1], ops[i]) && ops[i].src < vertices && ops[i].dst < vertices
  {
    lists := seq(|ops| + 1, i requires 0 <= i <= |ops| => WindowDuring(edges, imported, begin, end, i));
    forall i | 0 <= i < |ops|
      ensures Changes(lists[i], lists[i + 1], ops[i]) && ops[i].src < vertices && ops[i].dst < vertices
    {
      assert lists[i] == WindowDuring(edges, imported, begin, end, i);
      assert lists[i + 1] == WindowDuring(edges, imported, begin, end, i + 1);
      WindowChanges(edges, imported, begin, end, i);
      assert (ops[i].src, ops[i].dst) in edges;
    }
    assert lists[0] == WindowDuring(edges, imported, begin, end, 0);
    assert lists[|ops|] == WindowDuring(edges, imported, begin, end, |ops|);
  }

  /** Applied to the graph of a window, its batch gives the graph of the next one. */
  lemma BatchAdvancesGraph(edges: seq<Arc>, imported: nat, begin: nat, end: nat, vertices: nat)
    requires imported <= begin <= end <= |edges| && Identifiers(edges, vertices) && DistinctEdges(edges)
    ensures ApplyAll(WindowGraph(edges, imported, begin, vertices), BatchOf(edges, imported, begin, end))
         == WindowGraph(edges, imported, end, vertices)
  {
    var ops := BatchOf(edges, imported, begin, end);
    var lists := WindowsDuring(edges, imported, begin, end, ops, vertices);
    GraphFollows(lists, ops, vertices);
  }

  /** Insert and erase keys, operation by operation: the window slides from ending at begin to ending at end. */
  method SlideWindow(active0: set<nat>, ops: seq<EdgeUpdate>, ghost edges: seq<Arc>, ghost imported: nat,
                     ghost begin: nat, ghost end: nat, ghost vertices: nat)
    returns (active: set<nat>)
    requires imported <= begin <= end <= |edges| && Identifiers(edges, vertices) && DistinctEdges(edges)
    requires ops == BatchOf(edges, imported, begin, end) && active0 == Keys(edges[begin - imported..begin])
    ensures active == Keys(edges[end - imported..end]) && |active| == imported
  {
    active := active0;
    var i := 0;
    while i < |ops|
      invariant 0 <= i <= |ops|
      invariant active == Keys(WindowDuring(edges, imported, begin, end, i))
    {
      var op := ops[i];
      WindowKeys(edges, imported, begin, end, i, vertices);
      var key := EdgeKey((op.src, op.dst));
      active := if op.add then active + {key} else active - {key};
      i := i + 1;
    }
    WindowSize(edges, imported, end, vertices);
  }

  lemma WindowSize(edges: seq<Arc>, imported: nat, end: nat, vertices: nat)
    requires imported <= end <= |edges| && Identifiers(edges, vertices) && DistinctEdges(edges)
    ensures |Keys(edges[end - imported..end])| == imported
  {
    var window := edges[end - imported..end];
    assert forall e | e in window :: e in edges;
    KeysSize(window, vertices);
  }

  // ---------- Rebuild and search ----------

  /** Unpack the active keys, in whatever order the hash set yields them. */
  method Snapshot(active: set<nat>) returns (snapshot: seq<Arc>)
    ensures forall e :: e in snapshot <==> exists key :: key in active && EdgeOf(key) == e
  {
    snapshot := [];
    var pending := active;
    while pending != {}
      invariant pending <= active
      invariant forall e :: e in snapshot <==> exists key :: key in active - pending && EdgeOf(key) == e
    {
      var key :| key in pending;
      ghost var before := pending;
      pending := pending - {key};
      assert active - pending == (active - before) + {key};
      snapshot := snapshot + [EdgeOf(key)];
    }
    assert active - pending == active;
  }

  lemma SnapshotArcs(window: seq<Arc>, snapshot: seq<Arc>, vertices: nat)
    requires Identifiers(window, vertices)
    requires forall e :: e in snapshot <==> exists key :: key in Keys(window) && EdgeOf(key) == e
    ensures ArcsOf(snapshot, true) == ArcsOf(window, true)
  {
    forall e: Arc
      ensures e in snapshot <==> e in window
    {
      if e in window {
        KeyRoundTrip(e);
        assert EdgeKey(e) in Keys(window);
      }
      if e in snapshot {
        var key :| key in Keys(window) && EdgeOf(key) == e;
        var x :| x in window && EdgeKey(x) == key;
        KeyRoundTrip(x);
      }
    }
    forall a: Arc
      ensures a in ArcsOf(snapshot, true) <==> a in ArcsOf(window, true)
    {
      assert a == (a.0, a.1);
    }
  }

  method WindowSnapshot(active: set<nat>, ghost window: seq<Arc>, ghost vertices: nat) returns (snapshot: seq<Arc>)
    requires Identifiers(window, vertices) && active == Keys(window)
    ensures ArcsOf(snapshot, true) == ArcsOf(window, true)
  {
    snapshot := Snapshot(active);
    SnapshotArcs(window, snapshot, vertices);
  }

  /** Some edge of the window has an endpoint no smaller than the root, so that the packed graph has a row for it;
      or the root is not a declared vertex at all. */
  ghost predicate RootHasRow(window: seq<Arc>, root: nat, vertices: nat)
  {
    root >= vertices || exists a :: a in ArcsOf(window, true) && root <= Max(a.0, a.1)
  }

  /** One rebuild: the produced distances are those of the window exactly when the root has a row. */
  ghost predicate ProducedFor(window: seq<Arc>, root: nat, vertices: nat, dist: seq<nat>)
  {
    |dist| == vertices && (Exact(ArcsOf(window, true), root, dist) <==> RootHasRow(window, root, vertices))
  }

  lemma WindowWithin(window: seq<Arc>, vertices: nat)
    requires Identifiers(window, vertices)
    ensures Within(ArcsOf(window, true), vertices)
  {
  }

  lemma NothingOutside(arcs: set<Arc>, n: nat)
    requires Within(arcs, n)
    ensures Inside(arcs, n) == arcs
  {
    forall a | a in arcs
      ensures a in Inside(arcs, n)
    {
      assert (a.0, a.1) in arcs;
    }
  }

  /** The packed graph has one vertex more than its largest endpoint. */
  lemma RowsOfWindow(window: seq<Arc>, root: nat, vertices: nat, count: nat)
    requires Identifiers(window, vertices) && Within(ArcsOf(window, true), count)
    requires count > 0 ==> exists a :: a in ArcsOf(window, true) && Max(a.0, a.1) == count - 1
    ensures count <= vertices && (root < count || root >= vertices <==> RootHasRow(window, root, vertices))
  {
    WindowWithin(window, vertices);
    forall a | a in ArcsOf(window, true)
      ensures Max(a.0, a.1) < count && Max(a.0, a.1) < vertices
    {
      assert (a.0, a.1) in ArcsOf(window, true);
    }
  }

  method RebuildAndSearch(active: set<nat>, root: nat, vertices: nat, ghost window: seq<Arc>) returns (dist: seq<nat>)
    requires Identifiers(window, vertices) && active == Keys(window)
    ensures ProducedFor(window, root, vertices, dist)
  {
    var snapshot := WindowSnapshot(active, window, vertices);
    var csr := Build(snapshot, true);
    WindowWithin(window, vertices);
    RowsOfWindow(window, root, vertices, csr.vertexCount);
    dist := CsrBfs(csr, root, vertices);
    NothingOutside(csr.Arcs(), vertices);
  }

  // ---------- The whole stream ----------

  /** Where the batch that ends at ends[i] begins. */
  function BeginOf(imported: nat, ends: seq<nat>, i: nat): nat
    requires i <= |ends|
  {
    if i == 0 then imported else ends[i - 1]
  }

  function NextEnd(edges: seq<Arc>, begin: nat, batchSize: nat): nat
  {
    if begin + batchSize < |edges| then begin + batchSize else |edges|
  }

  /** The i-th batch has the given size, or ends with the stream, and its distances are those of the new window. */
  ghost predicate BatchDone(edges: seq<Arc>, imported: nat, root: nat, vertices: nat, batchSize: nat,
                            ends: seq<nat>, produced: seq<seq<nat>>, i: nat)
    requires i < |ends| == |produced|
  {
    && imported <= BeginOf(imported, ends, i) < ends[i] <= |edges|
    && (var size := ends[i] - BeginOf(imported, ends, i); size == batchSize || (size < batchSize && ends[i] == |edges|))
    && ProducedFor(edges[ends[i] - imported..ends[i]], root, vertices, produced[i])
  }

  ghost predicate AllProduced(edges: seq<Arc>, imported: nat, root: nat, vertices: nat, batchSize: nat,
                              ends: seq<nat>, produced: seq<seq<nat>>)
  {
    && |ends| == |produced|
    && forall i: nat | i < |ends| :: BatchDone(edges, imported, root, vertices, batchSize, ends, produced, i)
  }

  ghost predicate RowAt(edges: seq<Arc>, imported: nat, root: nat, vertices: nat, end: nat)
  {
    imported <= end <= |edges| ==> RootHasRow(edges[end - imported..end], root, vertices)
  }

  /** In every window so far the root has a row. */
  ghost predicate RootAlwaysHasRow(edges: seq<Arc>, imported: nat, root: nat, vertices: nat, ends: seq<nat>)
  {
    forall end | end in ends :: RowAt(edges, imported, root, vertices, end)
  }

  method LoadInitial(edges: seq<Arc>, imported: nat) returns (active: set<nat>)
    requires imported <= |edges|
    ensures active == Keys(edges[..imported])
  {
    active := {};
    var i := 0;
    while i < imported
      invariant 0 <= i <= imported
      invariant active == Keys(edges[..i])
    {
      assert edges[..i + 1] == edges[..i] + [edges[i]];
      active := active + {EdgeKey(edges[i])};
      i := i + 1;
    }
  }

  lemma WindowGraphIsSimple(edges: seq<Arc>, imported: nat, end: nat, vertices: nat)
    requires imported <= end <= |edges| && Identifiers(edges, vertices)
    ensures Simple(WindowGraph(edges, imported, end, vertices))
  {
    assert forall e | e in edges[end - imported..end] :: e in edges;
  }

  /** The reference: the mutable graph of the initial window. */
  method LoadReference(edges: seq<Arc>, imported: nat, vertices: nat) returns (reference: DynamicGraph)
    requires imported <= |edges| && Identifiers(edges, vertices)
    ensures fresh(reference) && reference.Consistent()
    ensures reference.Value() == WindowGraph(edges, imported, imported, vertices)
  {
    reference := new DynamicGraph(vertices, true);
    WindowGraphIsSimple(edges, imported, imported, vertices);
    assert edges[..imported] == edges[0..imported];
    reference.BulkLoadEdges(edges[..imported]);
  }

  /** Advance the reference by the batch and compare: the produced distances are those of the reference graph
      exactly when they are those of the window. */
  method Compare(reference: DynamicGraph, ops: seq<EdgeUpdate>, produced: seq<nat>, root: nat, ghost window: Graph)
    returns (same: bool)
    requires reference.Consistent() && ApplyAll(reference.Value(), ops) == window && Simple(window)
    modifies reference
    ensures reference.Consistent() && reference.Value() == window
    ensures |produced| == window.vertexCount ==> (same <==> Exact(window.arcs, root, produced))
  {
    reference.Apply(ops);
    var check, _ := FullBfs(reference, root);
    same := produced == check;
    assert same || |produced| != |check| || exists v: nat :: v < |check| && produced[v] != check[v];
    assert forall v: nat | v < |check| :: check[v] == Dist(window.arcs, root, v);
  }

  /** The run stands at `begin`: the active keys are those of the window, every batch so far is done, and the flag
      says whether the root had a row in each of their windows. */
  ghost predicate RanUpTo(edges: seq<Arc>, vertices: nat, root: nat, imported: nat, batchSize: nat, begin: nat,
                          active: set<nat>, ends: seq<nat>, produced: seq<seq<nat>>, exact: bool)
  {
    && imported <= begin <= |edges| && begin == BeginOf(imported, ends, |ends|)
    && active == Keys(edges[begin - imported..begin]) && |active| == imported
    && AllProduced(edges, imported, root, vertices, batchSize, ends, produced)
    && (exact <==> RootAlwaysHasRow(edges, imported, root, vertices, ends))
  }

  lemma OneMoreDone(edges: seq<Arc>, imported: nat, root: nat, vertices: nat, batchSize: nat,
                    ends: seq<nat>, produced: seq<seq<nat>>, end: nat, dist: seq<nat>)
    requires AllProduced(edges, imported, root, vertices, batchSize, ends, produced)
    requires imported <= BeginOf(imported, ends, |ends|) < end <= |edges|
    requires var size := end - BeginOf(imported, ends, |ends|);
      size == batchSize || (size < batchSize && end == |edges|)
    requires ProducedFor(edges[end - imported..end], root, vertices, dist)
    ensures AllProduced(edges, imported, root, vertices, batchSize, ends + [end], produced + [dist])
  {
    var ends', produced' := ends + [end], produced + [dist];
    forall i: nat | i < |ends'|
      ensures BatchDone(edges, imported, root, vertices, batchSize, ends', produced', i)
    {
      assert i < |ends| ==> BatchDone(edges, imported, root, vertices, batchSize, ends, produced, i);
    }
  }

  lemma OneMoreRow(edges: seq<Arc>, imported: nat, root: nat, vertices: nat, ends: seq<nat>, end: nat)
    ensures RootAlwaysHasRow(edges, imported, root, vertices, ends + [end]) <==>
              RootAlwaysHasRow(edges, imported, root, vertices, ends) && RowAt(edges, imported, root, vertices, end)
  {
    var more := ends + [end];
    assert forall e :: e in more <==> e in ends || e == end;
  }

  lemma OneMoreBatch(edges: seq<Arc>, vertices: nat, root: nat, imported: nat, batchSize: nat, begin: nat,
                     active0: set<nat>, ends: seq<nat>, produced: seq<seq<nat>>, exact: bool,
                     end: nat, active: set<nat>, dist: seq<nat>, same: bool)
    requires RanUpTo(edges, vertices, root, imported, batchSize, begin, active0, ends, produced, exact)
    requires begin < end == NextEnd(edges, begin, batchSize) && begin < |edges|
    requires active == Keys(edges[end - imported..end]) && |active| == imported
    requires ProducedFor(edges[end - imported..end], root, vertices, dist)
    requires same <==> RowAt(edges, imported, root, vertices, end)
    ensures RanUpTo(edges, vertices, root, imported, batchSize, end, active, ends + [end], produced + [dist],
                    exact && same)
  {
    OneMoreDone(edges, imported, root, vertices, batchSize, ends, produced, end, dist);
    OneMoreRow(edges, imported, root, vertices, ends, end);
  }

  /** One batch: the keys and the reference advance to the next window, and the rebuilt search is compared. */
  method OneBatch(edges: seq<Arc>, vertices: nat, root: nat, imported: nat, begin: nat, end: nat, active0: set<nat>,
                  reference: DynamicGraph)
    returns (active: set<nat>, produced: seq<nat>, same: bool)
    requires Identifiers(edges, vertices) && DistinctEdges(edges) && imported <= begin <= end <= |edges|
    requires active0 == Keys(edges[begin - imported..begin])
    requires reference.Consistent() && reference.Value() == WindowGraph(edges, imported, begin, vertices)
    modifies reference
    ensures active == Keys(edges[end - imported..end]) && |active| == imported
    ensures ProducedFor(edges[end - imported..end], root, vertices, produced)
    ensures reference.Consistent() && reference.Value() == WindowGraph(edges, imported, end, vertices)
    ensures same <==> RowAt(edges, imported, root, vertices, end)
  {
    ghost var window := edges[end - imported..end];
    var ops := MakeBatch(edges, imported, begin, end);
    active := SlideWindow(active0, ops, edges, imported, begin, end, vertices);
    assert forall e | e in window :: e in edges;
    produced := RebuildAndSearch(active, root, vertices, window);
    BatchAdvancesGraph(edges, imported, begin, end, vertices);
    WindowGraphIsSimple(edges, imported, end, vertices);
    same := Compare(reference, ops, produced, root, WindowGraph(edges, imported, end, vertices));
  }

  /** Load the initial window, as keys and as the reference graph. */
  method StartRun(edges: seq<Arc>, vertices: nat, root: nat, imported: nat, batchSize: nat)
    returns (active: set<nat>, reference: DynamicGraph)
    requires Identifiers(edges, vertices) && DistinctEdges(edges) && imported <= |edges|
    ensures RanUpTo(edges, vertices, root, imported, batchSize, imported, active, [], [], true)
    ensures fresh(reference) && reference.Consistent()
    ensures reference.Value() == WindowGraph(edges, imported, imported, vertices)
  {
    active := LoadInitial(edges, imported);
    reference := LoadReference(edges, imported, vertices);
    assert edges[imported - imported..imported] == edges[..imported];
    WindowSize(edges, imported, imported, vertices);
  }

  /** One turn of the loop. */
  method NextBatch(edges: seq<Arc>, vertices: nat, root: nat, imported: nat, batchSize: nat, begin: nat,
                   active0: set<nat>, ends0: seq<nat>, produced0: seq<seq<nat>>, exact0: bool, reference: DynamicGraph)
    returns (end: nat, active: set<nat>, ends: seq<nat>, produced: seq<seq<nat>>, exact: bool)
    requires Identifiers(edges, vertices) && DistinctEdges(edges) && begin < |edges| && batchSize > 0
    requires RanUpTo(edges, vertices, root, imported, batchSize, begin, active0, ends0, produced0, exact0)
    requires reference.Consistent() && reference.Value() == WindowGraph(edges, imported, begin, vertices)
    modifies reference
    ensures begin < end <= |edges| && imported <= end && |ends| == |ends0| + 1
    ensures RanUpTo(edges, vertices, root, imported, batchSize, end, active, ends, produced, exact)
    ensures reference.Consistent() && reference.Value() == WindowGraph(edges, imported, end, vertices)
  {
    end := NextEnd(edges, begin, batchSize);
    var dist, same;
    active, dist, same := OneBatch(edges, vertices, root, imported, begin, end, active0, reference);
    OneMoreBatch(edges, vertices, root, imported, batchSize, begin, active0, ends0, produced0, exact0,
                 end, active, dist, same);
    ends, produced, exact := ends0 + [end], produced0 + [dist], exact0 && same;
  }

  lemma RunEnds(edges: seq<Arc>, vertices: nat, root: nat, imported: nat, batchSize: nat, active: set<nat>,
                ends: seq<nat>, produced: seq<seq<nat>>, exact: bool)
    requires RanUpTo(edges, vertices, root, imported, batchSize, |edges|, active, ends, produced, exact)
    ensures AllProduced(edges, imported, root, vertices, batchSize, ends, produced)
    ensures |edges| == BeginOf(imported, ends, |ends|)
    ensures active == Keys(edges[|edges| - imported..]) && |active| == imported
    ensures exact <==> RootAlwaysHasRow(edges, imported, root, vertices, ends)
  {
    assert edges[|edges| - imported..|edges|] == edges[|edges| - imported..];
  }

  /** Run the baseline over a whole stream. After every batch the active set is the last `imported` edges and its size
      never changes. The run is reported exact if and only if the root has a row in every window. */
  method RunA0(edges: seq<Arc>, vertices: nat, root: nat, imported: nat, batchSize: nat)
    returns (ends: seq<nat>, active: set<nat>, produced: seq<seq<nat>>, exact: bool, fullBatches: nat)
    requires Identifiers(edges, vertices) && DistinctEdges(edges) && imported <= |edges| && batchSize > 0
    ensures AllProduced(edges, imported, root, vertices, batchSize, ends, produced) && fullBatches == |ends|
    ensures |edges| == BeginOf(imported, ends, |ends|)
    ensures active == Keys(edges[|edges| - imported..]) && |active| == imported
    ensures exact <==> RootAlwaysHasRow(edges, imported, root, vertices, ends)
  {
    var reference;
    active, reference := StartRun(edges, vertices, root, imported, batchSize);
    ends, produced, exact, fullBatches := [], [], true, 0;
    var begin := imported;
    while begin < |edges|
      invariant imported <= begin <= |edges| && fullBatches == |ends|
      invariant RanUpTo(edges, vertices, root, imported, batchSize, begin, active, ends, produced, exact)
      invariant fresh(reference) && reference.Consistent()
      invariant reference.Value() == WindowGraph(edges, imported, begin, vertices)
    {
      begin, active, ends, produced, exact :=
        NextBatch(edges, vertices, root, imported, batchSize, begin, active, ends, produced, exact, reference);
      fullBatches := fullBatches + 1;
    }
    RunEnds(edges, vertices, root, imported, batchSize, active, ends, produced, exact);
  }
}
