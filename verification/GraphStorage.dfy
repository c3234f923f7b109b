/** The dynamic graph as it is stored: out-rows and in-rows, each compact under an overlay, compacted row by row. */
module GraphStorage {
  import opened Collections
  import opened Distances
  import opened DynamicGraphs
  import opened BreadthFirst
  import opened Csr
  import opened RowStores
  import opened TwoSided

  // ---------- Building compact rows ----------

  /** Distribute sorted pairs over the rows of their first components. */
  method PackByRow(es: seq<Arc>, n: nat) returns (rows: seq<seq<nat>>)
    requires Sorted(es) && forall e | e in es :: e.0 < n
    ensures |rows| == n && forall u: nat | u < n :: Ascending(rows[u])
    ensures forall u: nat, v: nat | u < n :: v in rows[u] <==> (u, v) in es
  {
    rows := seq(n, _ => []);
    var i := 0;
    while i < |es|
      invariant 0 <= i <= |es| && |rows| == n
      invariant forall u: nat | u < n :: Ascending(rows[u])
      invariant forall u: nat, v: nat | u < n :: v in rows[u] <==> (u, v) in es[..i]
    {
      var (u, v) := es[i];
      assert es[i] in es && es[..i + 1] == es[..i] + [es[i]];
      forall k | 0 <= k < |rows[u]|
        ensures rows[u][k] < v
      {
        assert rows[u][k] in rows[u];
        var j :| 0 <= j < i && es[j] == (u, rows[u][k]);
        assert Less(es[j], es[i]);
      }
      rows := rows[u := rows[u] + [v]];
      i := i + 1;
    }
    assert es[..i] == es;
  }

  lemma LastAscends(row: seq<nat>, x: nat)
    requires Ascending(row) && forall y | y in row :: y < x
    ensures Ascending(row + [x])
  {
    assert forall k | 0 <= k < |row| :: row[k] in row;
  }

  /** Append u to the row of everything it points to. */
  method Scatter(row: seq<nat>, u: nat, rows0: seq<seq<nat>>) returns (rows: seq<seq<nat>>)
    requires Ascending(row) && forall v | v in row :: v < |rows0|
    requires forall v: nat | v < |rows0| :: Ascending(rows0[v])
    requires forall v: nat, x: nat | v < |rows0| && x in rows0[v] :: x < u
    ensures |rows| == |rows0|
    ensures forall v: nat | v < |rows| :: Ascending(rows[v])
    ensures forall v: nat, x: nat | v < |rows| :: x in rows[v] <==> x in rows0[v] || (x == u && v in row)
  {
    rows := rows0;
    var k := 0;
    while k < |row|
      invariant 0 <= k <= |row| && |rows| == |rows0|
      invariant forall v: nat | v < |rows| :: Ascending(rows[v])
      invariant forall v: nat | v < |rows| :: rows[v] == if v in row[..k] then rows0[v] + [u] else rows0[v]
    {
      var v := row[k];
      assert v in row && row[..k + 1] == row[..k] + [v];
      LastAscends(rows0[v], u);
      assert v !in row[..k];
      rows := rows[v := rows[v] + [u]];
      k := k + 1;
    }
    assert row[..k] == row;
  }

  /** The transposed rows: u enters the row of v when v is in the row of u. */
  method TransposeRows(source: seq<seq<nat>>) returns (rows: seq<seq<nat>>)
    requires forall u: nat | u < |source| :: Ascending(source[u]) && forall v | v in source[u] :: v < |source|
    ensures |rows| == |source| && forall v: nat | v < |rows| :: Ascending(rows[v])
    ensures forall v: nat, u: nat | v < |rows| :: u in rows[v] <==> u < |source| && v in source[u]
  {
    rows := seq(|source|, _ => []);
    var u := 0;
    while u < |source|
      invariant 0 <= u <= |source| && |rows| == |source|
      invariant forall v: nat | v < |rows| :: Ascending(rows[v])
      invariant forall v: nat, x: nat | v < |rows| && x in rows[v] :: x < u
      invariant forall v: nat, x: nat {:trigger x in rows[v]} | v < |rows| && x < u :: x in rows[v] <==> v in source[x]
    {
      rows := Scatter(source[u], u, rows);
      u := u + 1;
    }
  }

  ghost predicate Flipped(arcs: set<Arc>, r: set<Arc>)
  {
    forall u: nat, v: nat {:trigger (u, v) in r} :: (u, v) in r <==> (v, u) in arcs
  }

  ghost function Flip(arcs: set<Arc>): (r: set<Arc>)
    ensures Flipped(arcs, r)
  {
    assert Flipped(arcs, set a | a in arcs :: (a.1, a.0));
    var r :| Flipped(arcs, r);
    r
  }

  lemma {:induction false} FlipSize(arcs: set<Arc>)
    ensures |Flip(arcs)| == |arcs|
    decreases |arcs|
  {
    if arcs == {} {
      SamePairs(Flip(arcs), {});
    } else {
      var a :| a in arcs;
      FlipSize(arcs - {a});
      assert a == (a.0, a.1);
      SamePairs(Flip(arcs), Flip(arcs - {a}) + {(a.1, a.0)});
    }
  }

  lemma FlipTwice(arcs: set<Arc>)
    ensures Flip(Flip(arcs)) == arcs
  {
    SamePairs(Flip(Flip(arcs)), arcs);
  }

  lemma FlipSet(arcs: set<Arc>, u: nat, v: nat, present: bool)
    ensures Flip(SetArc(arcs, u, v, present)) == SetArc(Flip(arcs), v, u, present)
  {
    SamePairs(Flip(SetArc(arcs, u, v, present)), SetArc(Flip(arcs), v, u, present));
  }

  lemma {:induction false} SortedSize(es: seq<Arc>)
    requires Sorted(es)
    ensures |set e | e in es| == |es|
  {
    if es == [] {
      assert (set e | e in es) == {};
    } else {
      var last := |es| - 1;
      SortedSize(es[..last]);
      assert es == es[..last] + [es[last]];
      assert es[last] !in es[..last];
      assert (set e | e in es) == (set e | e in es[..last]) + {es[last]};
    }
  }

  /** Freshly built rows: no patches and no pending changes. */
  function Loaded(rows: seq<seq<nat>>, edges: nat): Side
  {
    Side(rows, map[], seq(|rows|, _ => []), [], edges, 0, 0)
  }

  lemma LoadedIsValid(rows: seq<seq<nat>>, edges: nat, arcs: set<Arc>)
    requires forall u: nat | u < |rows| :: Ascending(rows[u])
    requires forall u: nat, v: nat :: (u, v) in arcs <==> u < |rows| && v in rows[u]
    requires edges == |arcs|
    ensures Loaded(rows, edges).Valid(|rows|) && Loaded(rows, edges).DirtyCovers() && Loaded(rows, edges).Normalised()
    ensures Loaded(rows, edges).CompactArcs() == arcs && Loaded(rows, edges).Arcs() == arcs
    ensures Loaded(rows, edges).Size() == 0
  {
    var s := Loaded(rows, edges);
    assert forall u: nat :: s.Overlay(u) == [];
    SamePairs(s.CompactArcs(), arcs);
    EmptyOverlays(s, true);
    EmptyOverlays(s, false);
  }

  // ---------- The mutable graph ----------

  const AUTOMATIC_MINIMUM := 65536
  const AUTOMATIC_RATIO := 0.01
  const AUTOMATIC_DENSITY := 0.5

  /** Whether an overlay of this size is compacted without being asked. */
  predicate MaintenanceDue(pending: nat, compactEdges: nat)
  {
    pending >= AUTOMATIC_MINIMUM && pending as real / Max(1, compactEdges) as real >= AUTOMATIC_RATIO
  }

  /** An overlay that cannot come to be compacted unasked. */
  predicate Roomy(pending: nat, compactEdges: nat)
  {
    pending < 65536 || 100 * pending < Max(1, compactEdges)
  }

  lemma RoomyMeansNotDue(pending: nat, compactEdges: nat)
    ensures MaintenanceDue(pending, compactEdges) <==> !Roomy(pending, compactEdges)
  {
    var p, c := pending as real, Max(1, compactEdges) as real;
    QuotientAtLeast(p, c, AUTOMATIC_RATIO);
    assert p >= 0.01 * c <==> 100 * pending >= Max(1, compactEdges);
  }

  lemma RoomyIsNotDue(pending: nat, bound: nat, compactEdges: nat)
    requires pending <= bound && Roomy(bound, compactEdges)
    ensures Roomy(pending, compactEdges) && !MaintenanceDue(pending, compactEdges)
  {
    RoomyMeansNotDue(pending, compactEdges);
  }

  /** Fold one side into its compact rows where `rows` says, seen through the arcs. */
  ghost predicate CompactedWhere(before: set<Arc>, arcs: set<Arc>, after: set<Arc>, rows: set<nat>)
  {
    forall u: nat, v: nat {:trigger (u, v) in after} :: (u, v) in after <==>
      (u, v) in if u in rows then arcs else before
  }

  /** Two stores that hold the two sides of a graph. */
  ghost predicate StoresBoth(outgoing: Side, incoming: Side, n: nat, rows: Rows)
  {
    && Stores(outgoing, n, rows.arcs, rows.compactOut) && outgoing.Normalised()
    && Stores(incoming, n, Flip(rows.inArcs), Flip(rows.compactIn))
  }

  /** One arc written on both sides, with the compact presence of the out-row told to both. */
  lemma BothWritten(outgoing: Side, incoming: Side, out: Side, into: Side, n: nat, u: nat, v: nat, present: bool,
                    rows: Rows)
    requires StoresBoth(outgoing, incoming, n, rows) && ((u, v) in rows.arcs) != present
    requires Rewritten(outgoing, out, n, u, v, if present == ((u, v) in rows.compactOut) then None else Some(present))
    requires Rewritten(incoming, into, n, v, u, if present == ((u, v) in rows.compactOut) then None else Some(present))
    ensures StoresBoth(Marked(out, u), Marked(into, v), n, TwoSided.ApplyArc(rows, u, v, present))
  {
    var now := if present == ((u, v) in rows.compactOut) then None else Some(present);
    MarkedStores(outgoing, out, n, u, v, now, rows.arcs, rows.compactOut);
    MarkedStores(incoming, into, n, v, u, now, Flip(rows.inArcs), Flip(rows.compactIn));
    FlipSet(rows.inArcs, u, v, if now.Some? then now.value else (u, v) in rows.compactIn);
  }

  /** Whether an arc is present, from the overlay or else from the compact row. */
  lemma PresenceIsEffective(s: Side, n: nat, arcs: set<Arc>, compact: set<Arc>, u: nat, v: nat)
    requires Stores(s, n, arcs, compact)
    ensures (u, v) in compact <==> v in s.CompactRow(u)
    ensures (u, v) in arcs <==> match Override(s.Overlay(u), v) case Some(seen) => seen case None => (u, v) in compact
  {
    WhatIsStored(s, n, arcs, compact);
    s.ArcsAreEffective(n, u, v);
  }

  /** Set or clear one arc on both sides. The in-side is told what the compact out-row holds. */
  method WriteArc(outgoing: Side, incoming: Side, u: nat, v: nat, present: bool, ghost n: nat, ghost rows: Rows)
    returns (out: Side, into: Side)
    requires StoresBoth(outgoing, incoming, n, rows) && u < n && v < n
    ensures StoresBoth(out, into, n, TwoSided.ApplyArc(rows, u, v, present))
    ensures out.Size() <= outgoing.Size() + 1 && out.compactEdges == outgoing.compactEdges
  {
    var basePresentOut := CompactContains(outgoing, u, v, n);
    PresenceIsEffective(outgoing, n, rows.arcs, rows.compactOut, u, v);
    var changed;
    changed, out := SetIfChanged(outgoing, u, v, present, basePresentOut, n);
    into := incoming;
    if changed {
      into := Set(incoming, v, u, present, basePresentOut, n);
      BothWritten(outgoing, incoming, out, into, n, u, v, present, rows);
      out, into := Marked(out, u), Marked(into, v);
    }
  }

  /** One side with some rows folded, and every row with changes if `all`. */
  lemma FoldedStores(s: Side, r: Side, n: nat, arcs: set<Arc>, compact: set<Arc>, rows: set<nat>)
    requires Stores(s, n, arcs, compact) && RowsFolded(s, r, n, rows) && r.DirtyCovers()
    ensures Stores(r, n, arcs, r.CompactArcs()) && CompactedWhere(compact, arcs, r.CompactArcs(), rows)
    ensures s.Normalised() ==> r.Normalised()
    ensures r.Size() <= s.Size()
  {
    WhatIsStored(s, n, arcs, compact);
    FoldedArcs(s, r, n, rows);
  }

  /** When every row with changes is folded, nothing is left pending. */
  lemma FoldedWholly(s: Side, r: Side, n: nat, arcs: set<Arc>, compact: set<Arc>, rows: set<nat>)
    requires Stores(s, n, arcs, compact) && RowsFolded(s, r, n, rows)
    requires forall u: nat | s.Overlay(u) != [] :: u in rows
    ensures r.CompactArcs() == arcs && r.Size() == 0
  {
    WhatIsStored(s, n, arcs, compact);
    AllFolded(s, r, n, rows);
  }

  lemma AllDense(s: Side, threshold: real)
    requires s.DirtyCovers() && threshold <= 0.0
    ensures forall u: nat | s.Overlay(u) != [] :: u in DenseRows(s, threshold)
  {
    forall u: nat | s.Overlay(u) != []
      ensures u in DenseRows(s, threshold)
    {
      NotNegative(-threshold, Max(8, |s.CompactRow(u)|) as real);
    }
  }

  /** Compact the dense rows of one side. */
  method CompactDenseSide(s: Side, threshold: real, ghost n: nat, ghost arcs: set<Arc>, ghost compact: set<Arc>)
    returns (compacted: bool, r: Side)
    requires Stores(s, n, arcs, compact)
    ensures r.Valid(n) && Stores(r, n, arcs, r.CompactArcs())
    ensures CompactedWhere(compact, arcs, r.CompactArcs(), DenseRows(s, threshold))
    ensures s.Normalised() ==> r.Normalised()
    ensures r.Size() <= s.Size()
    ensures threshold <= 0.0 ==> r.CompactArcs() == arcs && r.Size() == 0
    ensures compacted <==> DenseRows(s, threshold) != {}
  {
    compacted, r := CompactDenseRows(s, threshold, n);
    FoldedStores(s, r, n, arcs, compact, DenseRows(s, threshold));
    if threshold <= 0.0 {
      AllDense(s, threshold);
      FoldedWholly(s, r, n, arcs, compact, DenseRows(s, threshold));
    }
  }

  /** Compact every dirty row of one side. */
  method CompactMarkedSide(s: Side, ghost n: nat, ghost arcs: set<Arc>, ghost compact: set<Arc>) returns (r: Side)
    requires Stores(s, n, arcs, compact)
    ensures Stores(r, n, arcs, arcs) && r.Size() == 0
    ensures s.Normalised() ==> r.Normalised()
  {
    r := CompactMarkedRows(s, n);
    ghost var rows := Elements(s.dirty);
    WhatIsStored(s, n, arcs, compact);
    assert forall u: nat | s.Overlay(u) != [] :: u in rows;
    MarkedCovers(s, r, n, rows);
    FoldedStores(s, r, n, arcs, compact, rows);
    FoldedWholly(s, r, n, arcs, compact, rows);
  }

  lemma MarkedCovers(s: Side, r: Side, n: nat, rows: set<nat>)
    requires s.Valid(n) && RowsFolded(s, r, n, rows) && forall u: nat | s.Overlay(u) != [] :: u in rows
    ensures r.DirtyCovers()
  {
    forall u: nat
      ensures r.Overlay(u) == []
    {
      assert RowAfter(s, r, rows, u);
    }
  }

  /** Room for at least n vertices on both sides. */
  method EnsureVertex(outgoing: Side, incoming: Side, vertexCount: nat, v: nat, ghost rows: Rows)
    returns (out: Side, into: Side, n: nat)
    requires StoresBoth(outgoing, incoming, vertexCount, rows)
    ensures StoresBoth(out, into, n, rows) && n == Max(vertexCount, v + 1)
    ensures out.Size() == outgoing.Size() && out.compactEdges == outgoing.compactEdges
  {
    out, into, n := outgoing, incoming, v + 1;
    if n <= vertexCount {
      n := vertexCount;
      return;
    }
    GrownStores(outgoing, vertexCount, n, rows.arcs, rows.compactOut);
    GrownStores(incoming, vertexCount, n, Flip(rows.inArcs), Flip(rows.compactIn));
    out, into := Grown(outgoing, n), Grown(incoming, n);
  }

  /** One operation that is not a self-loop: both orientations of an undirected edge, one after the other. */
  method WriteOp(outgoing: Side, incoming: Side, vertexCount: nat, directed: bool, op: EdgeUpdate, ghost rows: Rows)
    returns (out: Side, into: Side, n: nat)
    requires StoresBoth(outgoing, incoming, vertexCount, rows) && op.src != op.dst
    ensures StoresBoth(out, into, n, ApplyOp(rows, directed, op)) && n == Max(vertexCount, Max(op.src, op.dst) + 1)
    ensures out.Size() <= outgoing.Size() + 2 && out.compactEdges == outgoing.compactEdges
  {
    out, into, n := EnsureVertex(outgoing, incoming, vertexCount, Max(op.src, op.dst), rows);
    out, into := WriteArc(out, into, op.src, op.dst, op.add, n, rows);
    if !directed {
      out, into := WriteArc(out, into, op.dst, op.src, op.add, n, TwoSided.ApplyArc(rows, op.src, op.dst, op.add));
    }
  }

  lemma OneOp(g: Graph, r: Rows, op: EdgeUpdate)
    requires r.arcs == g.arcs
    ensures ApplyOp(r, g.directed, op).arcs == ApplyOne(g, op).arcs
    ensures ApplyOp(r, g.directed, op).compactOut == r.compactOut && ApplyOp(r, g.directed, op).compactIn == r.compactIn
  {
    var once := TwoSided.ApplyArc(r, op.src, op.dst, op.add);
    OneArc(r, op.src, op.dst, op.add);
    OneArc(once, op.dst, op.src, op.add);
  }

  class DynamicGraph {
    const directed: bool
    var vertexCount: nat
    var outgoing: Side
    var incoming: Side
    /** What the two sides hold; the in-side is given by its arcs. */
    ghost var arcs: set<Arc>
    ghost var inArcs: set<Arc>
    ghost var compactOut: set<Arc>
    ghost var compactIn: set<Arc>

    ghost predicate Consistent()
      reads this
    {
      StoresBoth(outgoing, incoming, vertexCount, Sides())
    }

    ghost function Value(): Graph
      reads this
    {
      Graph(directed, vertexCount, arcs)
    }

    ghost function Sides(): Rows
      reads this
    {
      Rows(arcs, inArcs, compactOut, compactIn)
    }

    /** The in-rows are the transpose of the out-rows. */
    ghost predicate Transposed()
      reads this
    {
      inArcs == arcs
    }

    /** They will still be after the batch. */
    ghost predicate StaysTransposed(ops: seq<EdgeUpdate>)
      reads this
    {
      TwoSided.StaysTransposed(Sides(), directed, ops)
    }

    /** The two sides agree, as arcs and as compact arcs. */
    ghost predicate Aligned()
      reads this
    {
      Sides().Transposed() && Sides().SidesAgree()
    }

    /** What Apply says of the two sides. */
    ghost predicate TookBatch(before: Rows, outgoing0: Side, ops: seq<EdgeUpdate>)
      reads this
    {
      && (before.Transposed() && before.SidesAgree() && Roomy(outgoing0.Size() + 2 * |ops|, outgoing0.compactEdges) ==>
           Aligned() && outgoing.Size() <= outgoing0.Size() + 2 * |ops|
             && outgoing.compactEdges == outgoing0.compactEdges)
      && (before.Transposed() && before.SidesAgree() ==> Transposed())
      && inArcs == ApplyOps(before, directed, ops).inArcs
    }

    /** What automatic maintenance makes of two sides: nothing while there is room, and otherwise their dense rows are
        folded. */
    ghost predicate Maintained(outgoing0: Side, incoming0: Side, before: Rows)
      reads this
    {
      if Roomy(outgoing0.Size(), outgoing0.compactEdges) then
        Sides() == before && outgoing == outgoing0 && incoming == incoming0
      else
        && arcs == before.arcs && inArcs == before.inArcs
        && CompactedWhere(before.compactOut, arcs, compactOut, DenseRows(outgoing0, 0.5))
        && CompactedWhere(Flip(before.compactIn), Flip(inArcs), Flip(compactIn), DenseRows(incoming0, 0.5))
    }

    /** After a batch that is not empty the sides are maintained once, as they are when all operations are applied. */
    ghost predicate MaintainedAfter(before: Rows, ops: seq<EdgeUpdate>)
      reads this
    {
      if ops == [] then Sides() == before
      else exists outgoing1: Side, incoming1: Side ::
        && StoresBoth(outgoing1, incoming1, vertexCount, ApplyOps(before, directed, ops))
        && Maintained(outgoing1, incoming1, ApplyOps(before, directed, ops))
    }

    /** No automatic compaction within this many operations. */
    predicate RoomFor(operations: nat)
      reads this
    {
      Roomy(outgoing.Size() + 2 * operations, outgoing.compactEdges)
    }

    constructor (vertices: nat, directed: bool)
      ensures Consistent() && Value() == Graph(directed, vertices, {}) && Sides() == Rows({}, {}, {}, {})
      ensures outgoing.Size() == 0
    {
      this.directed := directed;
      vertexCount := vertices;
      outgoing, incoming := EmptySide(vertices), EmptySide(vertices);
      arcs, inArcs, compactOut, compactIn := {}, {}, {}, {};
      new;
      SamePairs(Flip({}), {});
    }

    /** One operation: self-loops are ignored, any other makes room for its ends. */
    method ApplyUnversioned(op: EdgeUpdate)
      requires Consistent()
      modifies this
      ensures Consistent() && Value() == ApplyOne(old(Value()), op)
      ensures Sides() == ApplyOp(old(Sides()), directed, op)
      ensures outgoing.Size() <= old(outgoing.Size()) + 2 && outgoing.compactEdges == old(outgoing.compactEdges)
    {
      if op.src == op.dst {
        return;
      }
      ghost var after := ApplyOp(Sides(), directed, op);
      OneOp(Value(), Sides(), op);
      outgoing, incoming, vertexCount := WriteOp(outgoing, incoming, vertexCount, directed, op, Sides());
      arcs, inArcs := after.arcs, after.inArcs;
    }

    /** The out-row of u in increasing order, empty outside the graph. */
    method Neighbors(u: nat) returns (row: seq<nat>)
      requires Consistent()
      ensures Ascending(row) && forall v: nat :: v in row <==> (u, v) in arcs
    {
      row := ReadRow(outgoing, u, vertexCount, arcs, compactOut);
    }

    /** The in-row of v as it is stored. */
    method InNeighbors(v: nat) returns (row: seq<nat>)
      requires Consistent()
      ensures Ascending(row) && forall u: nat :: u in row <==> (u, v) in inArcs
    {
      row := ReadRow(incoming, v, vertexCount, Flip(inArcs), Flip(compactIn));
      assert forall u: nat :: u in row <==> (v, u) in Flip(inArcs);
    }

    method HasEdge(u: nat, v: nat) returns (found: bool)
      requires Consistent()
      ensures found <==> (u, v) in arcs
    {
      PresenceIsEffective(outgoing, vertexCount, arcs, compactOut, u, v);
      if u >= vertexCount {
        return false;
      }
      RowsAreInOrder(outgoing, vertexCount, u);
      var seen := OverrideFor(outgoing.Overlay(u), v);
      if seen.Some? {
        return seen.value;
      }
      found := CompactContains(outgoing, u, v, vertexCount);
    }

    /** Three counters give the number of arcs. */
    method EdgeCountDirected() returns (count: nat)
      requires Consistent()
      ensures count == |arcs|
    {
      WhatIsStored(outgoing, vertexCount, arcs, compactOut);
      outgoing.CountArcs(vertexCount);
      count := outgoing.compactEdges + outgoing.additions - outgoing.deletions;
    }

    /** Compact the rows whose overlay is dense, each side by its own rows. Nothing changes from outside, but the two
        sides may come to hold different arcs compact. */
    method MaybeCompact(threshold: real) returns (compacted: bool)
      requires Consistent()
      modifies this
      ensures Consistent() && vertexCount == old(vertexCount) && arcs == old(arcs) && inArcs == old(inArcs)
      ensures CompactedWhere(old(compactOut), arcs, compactOut, DenseRows(old(outgoing), threshold))
      ensures CompactedWhere(Flip(old(compactIn)), Flip(inArcs), Flip(compactIn), DenseRows(old(incoming), threshold))
      ensures compacted <==> DenseRows(old(outgoing), threshold) != {} || DenseRows(old(incoming), threshold) != {}
      ensures outgoing.Size() <= old(outgoing.Size())
      ensures threshold <= 0.0 ==> compactOut == arcs && compactIn == inArcs && IsCompact()
    {
      var outCompacted, inCompacted;
      outCompacted, outgoing := CompactDenseSide(outgoing, threshold, vertexCount, arcs, compactOut);
      compactOut := outgoing.CompactArcs();
      inCompacted, incoming := CompactDenseSide(incoming, threshold, vertexCount, Flip(inArcs), Flip(compactIn));
      compactIn := Flip(incoming.CompactArcs());
      FlipTwice(incoming.CompactArcs());
      FlipTwice(inArcs);
      compacted := outCompacted || inCompacted;
    }

    predicate IsCompact()
      reads this
    {
      outgoing.Size() == 0 && incoming.Size() == 0
    }

    /** The compact out-row of u. In a compact graph it is the out-row. */
    method CompactNeighbors(u: nat) returns (row: seq<nat>)
      requires Consistent()
      ensures Ascending(row) && forall v: nat :: v in row <==> (u, v) in compactOut
      ensures IsCompact() ==> compactOut == arcs
    {
      row := outgoing.CompactRow(u);
      RowsAreInOrder(outgoing, vertexCount, u);
      WhatIsStored(outgoing, vertexCount, arcs, compactOut);
      if IsCompact() {
        CompactSide(outgoing, vertexCount, arcs, compactOut);
      }
    }

    /** Compact every row: both sides then hold compact exactly what they show. */
    method Compact()
      requires Consistent()
      modifies this
      ensures Consistent() && vertexCount == old(vertexCount) && IsCompact()
      ensures Sides() == Rows(old(arcs), old(inArcs), old(arcs), old(inArcs))
    {
      if IsCompact() {
        CompactSide(outgoing, vertexCount, arcs, compactOut);
        CompactSide(incoming, vertexCount, Flip(inArcs), Flip(compactIn));
        FlipTwice(inArcs);
        FlipTwice(compactIn);
        return;
      }
      outgoing := CompactMarkedSide(outgoing, vertexCount, arcs, compactOut);
      incoming := CompactMarkedSide(incoming, vertexCount, Flip(inArcs), Flip(compactIn));
      compactOut, compactIn := arcs, inArcs;
    }

    /** After a batch, compact dense rows if the overlay has become large. */
    method AutomaticMaintenance()
      requires Consistent()
      modifies this
      ensures Consistent() && vertexCount == old(vertexCount) && arcs == old(arcs) && inArcs == old(inArcs)
      ensures Maintained(old(outgoing), old(incoming), old(Sides()))
    {
      RoomyMeansNotDue(outgoing.Size(), outgoing.compactEdges);
      if MaintenanceDue(outgoing.Size(), outgoing.compactEdges) {
        var _ := MaybeCompact(AUTOMATIC_DENSITY);
      }
    }

    /** Apply a batch in order. The out-rows hold the edge set it defines, and the in-rows what TwoSided.ApplyOps says;
        compaction can only change what is held compact. */
    method Apply(ops: seq<EdgeUpdate>)
      requires Consistent()
      modifies this
      ensures Consistent() && Value() == ApplyAll(old(Value()), ops)
      ensures inArcs == ApplyOps(old(Sides()), directed, ops).inArcs
      ensures old(RoomFor(|ops|)) ==>
        Sides() == ApplyOps(old(Sides()), directed, ops) && outgoing.compactEdges == old(outgoing.compactEdges)
        && outgoing.Size() <= old(outgoing.Size()) + 2 * |ops|
      ensures old(Transposed()) ==> (Transposed() <==> old(StaysTransposed(ops)))
      ensures old(Aligned()) ==> old(StaysTransposed(ops)) && (old(RoomFor(|ops|)) ==> Aligned())
      ensures TookBatch(old(Sides()), old(outgoing), ops)
      ensures MaintainedAfter(old(Sides()), ops)
    {
      if Sides().Transposed() {
        TransposedAfterBatch(Sides(), directed, ops);
        if Sides().SidesAgree() {
          AgreeingSidesStay(Sides(), directed, ops);
        }
      }
      var i := 0;
      while i < |ops|
        invariant 0 <= i <= |ops| && Consistent()
        invariant Value() == ApplyAll(old(Value()), ops[..i]) && Sides() == ApplyOps(old(Sides()), directed, ops[..i])
        invariant outgoing.Size() <= old(outgoing.Size()) + 2 * i && outgoing.compactEdges == old(outgoing.compactEdges)
      {
        assert ops[..i + 1][..i] == ops[..i];
        ApplyUnversioned(ops[i]);
        i := i + 1;
      }
      assert ops[..i] == ops;
      if ops != [] {
        if Roomy(old(outgoing.Size()) + 2 * |ops|, old(outgoing.compactEdges)) {
          RoomyIsNotDue(outgoing.Size(), old(outgoing.Size()) + 2 * |ops|, outgoing.compactEdges);
        }
        AutomaticMaintenance();
      }
    }

    /** Replace the contents by the given edges, without self-loops and duplicates. */
    method BulkLoadEdges(edges: seq<Arc>)
      requires Consistent()
      modifies this
      ensures Consistent() && Aligned() && IsCompact()
      ensures arcs == compactOut == ArcsOf(edges, directed)
      ensures vertexCount == old(vertexCount) ||
        exists e :: e in arcs && vertexCount == Max(e.0, e.1) + 1 > old(vertexCount)
      ensures Within(arcs, old(vertexCount)) ==> vertexCount == old(vertexCount)
    {
      ghost var loaded, top;
      outgoing, incoming, vertexCount, loaded, top := LoadBoth(edges, directed, vertexCount);
      arcs, inArcs, compactOut, compactIn := loaded, loaded, loaded, loaded;
    }
  }

  /** Build both sides from sorted arcs. */
  method BuildBoth(es: seq<Arc>, n: nat, ghost arcs: set<Arc>) returns (out: Side, into: Side)
    requires Sorted(es) && forall e | e in es :: e.0 < n && e.1 < n
    requires forall u: nat, v: nat {:trigger (u, v) in arcs} :: (u, v) in arcs <==> (u, v) in es
    ensures StoresBoth(out, into, n, Rows(arcs, arcs, arcs, arcs)) && out.Size() == 0 && into.Size() == 0
  {
    var rows := PackByRow(es, n);
    SortedArcs(es, arcs);
    forall u: nat, v: nat
      ensures (u, v) in arcs <==> u < |rows| && v in rows[u]
      ensures u < |rows| && v in rows[u] ==> v < n
    {
      assert (u, v) in arcs ==> (u, v) in es;
    }
    LoadedIsValid(rows, |es|, arcs);
    var inRows := TransposeRows(rows);
    FlipSize(arcs);
    forall v: nat, u: nat
      ensures (v, u) in Flip(arcs) <==> v < |inRows| && u in inRows[v]
    {
      assert (v, u) in Flip(arcs) <==> (u, v) in arcs;
    }
    LoadedIsValid(inRows, |es|, Flip(arcs));
    out, into := Loaded(rows, |es|), Loaded(inRows, |es|);
  }

  /** Build both sides from a list of edges, with room for the largest endpoint. */
  method LoadBoth(edges: seq<Arc>, directed: bool, vertexCount: nat)
    returns (out: Side, into: Side, n: nat, ghost arcs: set<Arc>, ghost top: Arc)
    ensures arcs == ArcsOf(edges, directed)
    ensures StoresBoth(out, into, n, Rows(arcs, arcs, arcs, arcs)) && out.Size() == 0 && into.Size() == 0
    ensures n == vertexCount || (top in arcs && n == Max(top.0, top.1) + 1 > vertexCount)
  {
    var expanded, needed;
    expanded, needed, top := ExpandEdges(edges, directed);
    n := Max(vertexCount, needed);
    var es := SortUnique(expanded);
    arcs := ArcsOf(edges, directed);
    assert forall e | e in es :: e in expanded;
    assert n != vertexCount ==> top == (top.0, top.1) && (top.0, top.1) in arcs;
    out, into := BuildBoth(es, n, arcs);
  }

  lemma SortedArcs(es: seq<Arc>, arcs: set<Arc>)
    requires Sorted(es) && forall u: nat, v: nat :: (u, v) in arcs <==> (u, v) in es
    ensures |arcs| == |es|
  {
    SortedSize(es);
    SamePairs(arcs, set e | e in es);
  }

  lemma CompactSide(s: Side, n: nat, arcs: set<Arc>, compact: set<Arc>)
    requires Stores(s, n, arcs, compact) && s.Size() == 0
    ensures compact == arcs
  {
    WhatIsStored(s, n, arcs, compact);
    assert s.Pending(true) == {} && s.Pending(false) == {};
  }

  /** A row read from one side. */
  method ReadRow(s: Side, u: nat, ghost n: nat, ghost arcs: set<Arc>, ghost compact: set<Arc>) returns (row: seq<nat>)
    requires Stores(s, n, arcs, compact)
    ensures Ascending(row) && forall v: nat :: v in row <==> (u, v) in arcs
  {
    RowsAreInOrder(s, n, u);
    WhatIsStored(s, n, arcs, compact);
    row := MaterializeRow(s.CompactRow(u), s.Overlay(u));
    forall v: nat
      ensures v in row <==> (u, v) in arcs
    {
      s.ArcsAreEffective(n, u, v);
    }
  }
}
