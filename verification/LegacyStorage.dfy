/** The older storage engine: sorted base rows with unordered sets of pending additions and deletions. */
module LegacyStorage {
  import opened Collections
  import opened Distances
  import opened DynamicGraphs
  import opened BreadthFirst
  import opened Csr
  import opened SortedRows

  // ---------- Sets of arcs given row by row ----------

  ghost function RowArcs(rows: seq<set<nat>>): set<Arc>
  {
    set u: nat, v: nat | u < |rows| && v in rows[u] :: (u, v)
  }

  ghost function Sizes(rows: seq<set<nat>>): nat
  {
    if rows == [] then 0 else Sizes(rows[..|rows| - 1]) + |rows[|rows| - 1]|
  }

  lemma {:induction false} OneRow(u: nat, row: set<nat>) returns (arcs: set<Arc>)
    ensures |arcs| == |row| && forall a :: a in arcs <==> a.0 == u && a.1 in row
    decreases |row|
  {
    if row == {} {
      arcs := {};
    } else {
      var v :| v in row;
      var rest := OneRow(u, row - {v});
      assert (u, v) !in rest;
      arcs := rest + {(u, v)};
    }
  }

  /** The number of arcs is the sum of the row sizes. */
  lemma {:induction false} RowArcsSize(rows: seq<set<nat>>)
    ensures |RowArcs(rows)| == Sizes(rows)
  {
    if rows == [] {
      assert RowArcs(rows) == {};
    } else {
      var last := |rows| - 1;
      RowArcsSize(rows[..last]);
      var arcs := OneRow(last, rows[last]);
      assert RowArcs(rows) == RowArcs(rows[..last]) + arcs by {
        forall u: nat, v: nat
          ensures (u, v) in RowArcs(rows) <==> (u, v) in RowArcs(rows[..last]) + arcs
        {
          assert u < last ==> rows[..last][u] == rows[u];
        }
        assert forall a :: a in RowArcs(rows) <==> (a.0, a.1) in RowArcs(rows);
      }
      assert RowArcs(rows[..last]) !! arcs;
    }
  }

  lemma {:induction false} SizesCombine(base: seq<set<nat>>, add: seq<set<nat>>, del: seq<set<nat>>,
                                        rows: seq<set<nat>>)
    requires |base| == |add| == |del| == |rows|
    requires forall u | 0 <= u < |rows| ::
      add[u] !! base[u] && del[u] <= base[u] && rows[u] == base[u] - del[u] + add[u]
    ensures Sizes(rows) == Sizes(base) + Sizes(add) - Sizes(del)
  {
    if rows != [] {
      var last := |rows| - 1;
      SizesCombine(base[..last], add[..last], del[..last], rows[..last]);
      assert base[last] == (base[last] - del[last]) + del[last];
      assert |rows[last]| == |base[last] - del[last]| + |add[last]|;
    }
  }

  lemma {:induction false} SizesZero(rows: seq<set<nat>>)
    requires forall u | 0 <= u < |rows| :: rows[u] == {}
    ensures Sizes(rows) == 0
  {
    if rows != [] {
      SizesZero(rows[..|rows| - 1]);
    }
  }

  // ---------- What a batch means ----------

  function SetOne(arcs: set<Arc>, op: EdgeUpdate): set<Arc>
  {
    if op.add then arcs + {(op.src, op.dst)} else arcs - {(op.src, op.dst)}
  }

  /** The arcs after a batch, taken in order. Self-loops are not special here. */
  function SetAll(arcs: set<Arc>, ops: seq<EdgeUpdate>): set<Arc>
  {
    if ops == [] then arcs else SetOne(SetAll(arcs, ops[..|ops| - 1]), ops[|ops| - 1])
  }

  function Room(n: nat, ops: seq<EdgeUpdate>): nat
  {
    if ops == [] then n
    else Max(Room(n, ops[..|ops| - 1]), Max(ops[|ops| - 1].src, ops[|ops| - 1].dst) + 1)
  }

  /** Apart from self-loops a batch does what it does to the directed graph of the newer engine. */
  lemma {:induction false} AgreesUpToLoops(g: Graph, arcs: set<Arc>, ops: seq<EdgeUpdate>)
    requires g.directed && Simple(g) && forall a | a in arcs && a.0 != a.1 :: a in g.arcs
    requires g.arcs <= arcs
    ensures ApplyAll(g, ops).directed
    ensures forall u: nat, v: nat | u != v :: (u, v) in SetAll(arcs, ops) <==> (u, v) in ApplyAll(g, ops).arcs
    ensures forall v: nat :: (v, v) !in ApplyAll(g, ops).arcs
  {
    if ops != [] {
      AgreesUpToLoops(g, arcs, ops[..|ops| - 1]);
    }
  }

  /** A self-loop that was not there is kept exactly when the last operation on it adds it. */
  lemma {:induction false} LoopIsKept(arcs: set<Arc>, ops: seq<EdgeUpdate>, v: nat)
    requires (v, v) !in arcs
    ensures (v, v) in SetAll(arcs, ops) <==> LastOp(ops, true, (v, v)) == Some(true)
  {
    if ops != [] {
      LoopIsKept(arcs, ops[..|ops| - 1], v);
    }
  }

  /** The two engines hold the same arcs after a batch exactly when no self-loop is added last. */
  lemma SameArcsUnlessLoops(g: Graph, ops: seq<EdgeUpdate>)
    requires g.directed && Simple(g)
    ensures SetAll(g.arcs, ops) == ApplyAll(g, ops).arcs <==> forall v: nat :: LastOp(ops, true, (v, v)) != Some(true)
  {
    AgreesUpToLoops(g, g.arcs, ops);
    forall v: nat
      ensures (v, v) in SetAll(g.arcs, ops) <==> LastOp(ops, true, (v, v)) == Some(true)
    {
      LoopIsKept(g.arcs, ops, v);
    }
    if forall v: nat :: LastOp(ops, true, (v, v)) != Some(true) {
      SamePairs(SetAll(g.arcs, ops), ApplyAll(g, ops).arcs);
    }
  }

  /** One self-loop is enough to tell the engines apart. */
  lemma LoopTellsApart(g: Graph, v: nat)
    requires g.directed && Simple(g)
    ensures (v, v) in SetAll(g.arcs, [EdgeUpdate(v, v, true)]) && (v, v) !in ApplyAll(g, [EdgeUpdate(v, v, true)]).arcs
  {
    assert [EdgeUpdate(v, v, true)][..0] == [];
  }

  // ---------- The storage ----------

  /** The largest endpoint of an edge that is not a self-loop, if there is one. */
  method LargestEndpoint(edges: seq<Arc>) returns (saw: bool, largest: nat)
    ensures saw <==> exists e :: e in edges && e.0 != e.1
    ensures saw ==> exists e :: e in edges && e.0 != e.1 && largest == Max(e.0, e.1)
    ensures forall e | e in edges && e.0 != e.1 :: Max(e.0, e.1) <= largest
  {
    saw, largest := false, 0;
    ghost var top: Arc := (0, 0);
    var i := 0;
    while i < |edges|
      invariant 0 <= i <= |edges|
      invariant saw ==> top in edges && top.0 != top.1 && largest == Max(top.0, top.1)
      invariant !saw ==> largest == 0
      invariant forall e | e in edges[..i] && e.0 != e.1 :: saw && Max(e.0, e.1) <= largest
    {
      var e := edges[i];
      assert edges[..i + 1] == edges[..i] + [e] && e in edges;
      if e.0 != e.1 {
        if !saw || Max(e.0, e.1) > largest {
          top := e;
        }
        largest := Max(largest, Max(e.0, e.1));
        saw := true;
      }
      i := i + 1;
    }
    assert edges[..i] == edges;
  }

  class LegacyDynamicGraph {
    var base: seq<seq<nat>>
    var deltaAdd: seq<set<nat>>
    var deltaDel: seq<set<nat>>

    /** Base rows ascend, pending additions are not in the base, pending deletions are. */
    ghost predicate Valid()
      reads this
    {
      && |deltaAdd| == |deltaDel| == |base|
      && forall u | 0 <= u < |base| ::
         Ascending(base[u]) && deltaAdd[u] !! Elements(base[u]) && deltaDel[u] <= Elements(base[u])
    }

    ghost function LogicalRow(u: nat): set<nat>
      requires |deltaAdd| == |deltaDel| == |base| && u < |base|
      reads this
    {
      Elements(base[u]) - deltaDel[u] + deltaAdd[u]
    }

    ghost function LogicalRows(): seq<set<nat>>
      requires |deltaAdd| == |deltaDel| == |base|
      reads this
    {
      seq(|base|, u requires 0 <= u < |base| && |deltaAdd| == |deltaDel| == |base| reads this => LogicalRow(u))
    }

    ghost function Arcs(): (arcs: set<Arc>)
      requires |deltaAdd| == |deltaDel| == |base|
      reads this
      ensures forall u: nat, v: nat :: (u, v) in arcs <==> u < |base| && v in LogicalRow(u)
    {
      RowArcs(LogicalRows())
    }

    ghost predicate Compacted()
      reads this
    {
      && (forall u | 0 <= u < |deltaAdd| :: deltaAdd[u] == {})
      && (forall u | 0 <= u < |deltaDel| :: deltaDel[u] == {})
    }

    constructor (vertices: nat)
      ensures Valid() && Compacted() && base == seq(vertices, _ => []) && Arcs() == {}
    {
      base := seq(vertices, _ => []);
      deltaAdd := seq(vertices, _ => {});
      deltaDel := seq(vertices, _ => {});
      new;
      assert forall a :: a !in Arcs();
    }

    method EnsureVertex(v: nat)
      requires Valid()
      modifies this
      ensures Valid() && |base| == Max(old(|base|), v + 1) && Arcs() == old(Arcs())
      ensures old(Compacted()) ==> Compacted()
    {
      if v + 1 > |base| {
        ghost var before := Arcs();
        var more := v + 1 - |base|;
        base := base + seq(more, _ => []);
        deltaAdd := deltaAdd + seq(more, _ => {});
        deltaDel := deltaDel + seq(more, _ => {});
        assert forall u, v :: (u, v) in Arcs() <==> (u, v) in before;
        SamePairs(Arcs(), before);
      }
    }

    /** Binary search in the base row. */
    method InBase(u: nat, v: nat) returns (found: bool)
      requires Valid() && u < |base|
      ensures found <==> v in base[u]
    {
      found := Member(base[u], v);
    }

    method ApplyOne(u: nat, v: nat, add: bool)
      requires Valid() && u < |base|
      modifies this`deltaAdd, this`deltaDel
      ensures Valid() && Arcs() == SetOne(old(Arcs()), EdgeUpdate(u, v, add))
      ensures forall w | 0 <= w < |base| && w != u :: deltaAdd[w] == old(deltaAdd[w]) && deltaDel[w] == old(deltaDel[w])
      ensures v !in base[u] ==>
        deltaDel[u] == old(deltaDel[u]) && deltaAdd[u] == if add then old(deltaAdd[u]) + {v} else old(deltaAdd[u]) - {v}
      ensures v in base[u] ==>
        deltaAdd[u] == old(deltaAdd[u]) && deltaDel[u] == if add then old(deltaDel[u]) - {v} else old(deltaDel[u]) + {v}
    {
      ghost var before := Arcs();
      var inBase := InBase(u, v);
      if add {
        deltaDel := deltaDel[u := deltaDel[u] - {v}];
        if !inBase {
          deltaAdd := deltaAdd[u := deltaAdd[u] + {v}];
        }
      } else {
        deltaAdd := deltaAdd[u := deltaAdd[u] - {v}];
        if inBase {
          deltaDel := deltaDel[u := deltaDel[u] + {v}];
        }
      }
      SamePairs(Arcs(), SetOne(before, EdgeUpdate(u, v, add)));
    }

    method Apply(ops: seq<EdgeUpdate>)
      requires Valid()
      modifies this
      ensures Valid() && Arcs() == SetAll(old(Arcs()), ops) && |base| == Room(old(|base|), ops)
    {
      var i := 0;
      while i < |ops|
        invariant 0 <= i <= |ops| && Valid()
        invariant Arcs() == SetAll(old(Arcs()), ops[..i]) && |base| == Room(old(|base|), ops[..i])
      {
        assert ops[..i + 1][..i] == ops[..i];
        EnsureVertex(Max(ops[i].src, ops[i].dst));
        ApplyOne(ops[i].src, ops[i].dst, ops[i].add);
        i := i + 1;
      }
      assert ops[..i] == ops;
    }

    /** The logical row in increasing order, empty outside the graph. */
    method Neighbors(u: nat) returns (row: seq<nat>)
      requires Valid()
      ensures Ascending(row) && Elements(row) == if u < |base| then LogicalRow(u) else {}
    {
      if u >= |base| {
        return [];
      }
      var out: seq<nat> := [];
      var i := 0;
      while i < |base[u]|
        invariant 0 <= i <= |base[u]|
        invariant Elements(out) == Elements(base[u][..i]) - deltaDel[u]
      {
        var v := base[u][i];
        assert base[u][..i + 1] == base[u][..i] + [v];
        ElementsPush(base[u][..i], v);
        ElementsPush(out, v);
        if v !in deltaDel[u] {
          out := out + [v];
        }
        i := i + 1;
      }
      assert base[u][..i] == base[u];
      ghost var kept := Elements(out);
      var pending := deltaAdd[u];
      while pending != {}
        invariant pending <= deltaAdd[u]
        invariant Elements(out) == kept + (deltaAdd[u] - pending)
      {
        var v :| v in pending;
        pending := pending - {v};
        ElementsPush(out, v);
        if v !in deltaDel[u] {
          out := out + [v];
        }
      }
      row := SortUniqueRow(out);
    }

    /** Fold the pending changes of every row into its base. */
    method Compact()
      requires Valid()
      modifies this
      ensures Valid() && Compacted() && |base| == old(|base|) && Arcs() == old(Arcs())
    {
      ghost var before := LogicalRows();
      ghost var arcs := Arcs();
      var u := 0;
      while u < |base|
        invariant 0 <= u <= |base| == old(|base|) && Valid()
        invariant forall w | 0 <= w < u :: deltaAdd[w] == {} && deltaDel[w] == {}
        invariant LogicalRows() == before
      {
        if deltaAdd[u] != {} || deltaDel[u] != {} {
          var row := Neighbors(u);
          base := base[u := row];
          deltaAdd := deltaAdd[u := {}];
          deltaDel := deltaDel[u := {}];
          assert LogicalRow(u) == before[u];
        }
        u := u + 1;
      }
    }

    /** The number of base entries. It misses the pending changes: it is the number of arcs exactly when as many
        additions as deletions are pending, and in particular after compaction. */
    method EdgeCount() returns (count: nat)
      requires Valid()
      ensures |Arcs()| == count + Sizes(deltaAdd) - Sizes(deltaDel)
      ensures Compacted() ==> count == |Arcs()|
    {
      count := 0;
      ghost var sets: seq<set<nat>> := [];
      var u := 0;
      while u < |base|
        invariant 0 <= u <= |base| && |sets| == u
        invariant forall w | 0 <= w < u :: sets[w] == Elements(base[w])
        invariant count == Sizes(sets)
      {
        DistinctCardinality(base[u]);
        assert (sets + [Elements(base[u])])[..u] == sets;
        sets := sets + [Elements(base[u])];
        count := count + |base[u]|;
        u := u + 1;
      }
      RowArcsSize(LogicalRows());
      SizesCombine(sets, deltaAdd, deltaDel, LogicalRows());
      if Compacted() {
        SizesZero(deltaAdd);
        SizesZero(deltaDel);
      }
    }

    /** Replace the contents by the given edges, without self-loops and duplicates. */
    method BulkLoadEdges(edges: seq<Arc>)
      requires Valid()
      modifies this
      ensures Valid() && Compacted()
      ensures forall u: nat, v: nat :: (u, v) in Arcs() <==> u != v && (u, v) in edges
      ensures |base| == old(|base|) || exists e :: e in edges && e.0 != e.1 && |base| == Max(e.0, e.1) + 1 > old(|base|)
    {
      var saw, maxVertex := LargestEndpoint(edges);
      if saw {
        EnsureVertex(maxVertex);
      }
      base := seq(|base|, _ => []);
      deltaAdd := seq(|base|, _ => {});
      deltaDel := seq(|base|, _ => {});
      PushAll(edges);
      SortRows();
    }

    method PushAll(edges: seq<Arc>)
      requires forall u | 0 <= u < |base| :: base[u] == []
      requires forall e | e in edges && e.0 != e.1 :: e.0 < |base|
      modifies this`base
      ensures |base| == old(|base|)
      ensures forall u: nat, v: nat | u < |base| :: v in base[u] <==> u != v && (u, v) in edges
    {
      var i := 0;
      while i < |edges|
        invariant 0 <= i <= |edges| && |base| == old(|base|)
        invariant forall u: nat, v: nat | u < |base| :: v in base[u] <==> u != v && (u, v) in edges[..i]
      {
        var (u, v) := edges[i];
        assert edges[i] in edges && edges[..i + 1] == edges[..i] + [edges[i]];
        if u != v {
          base := base[u := base[u] + [v]];
        }
        i := i + 1;
      }
      assert edges[..i] == edges;
    }

    method SortRows()
      requires |deltaAdd| == |deltaDel| == |base| && Compacted()
      modifies this`base
      ensures Valid() && |base| == old(|base|)
      ensures forall u: nat | u < |base| :: Elements(base[u]) == Elements(old(base)[u])
    {
      var u := 0;
      while u < |base|
        invariant 0 <= u <= |base| == old(|base|)
        invariant forall w | 0 <= w < u :: Ascending(base[w]) && Elements(base[w]) == Elements(old(base)[w])
        invariant forall w | u <= w < |base| :: base[w] == old(base)[w]
      {
        var row := SortUniqueRow(base[u]);
        base := base[u := row];
        u := u + 1;
      }
    }
  }

  lemma ElementsPush(xs: seq<nat>, x: nat)
    ensures Elements(xs + [x]) == Elements(xs) + {x}
  {
    assert forall y :: y in xs + [x] <==> y in xs || y == x;
  }

  /** Before compaction the count can be wrong: one pending addition is not counted. */
  method PendingAdditionIsMissed() returns (graph: LegacyDynamicGraph, count: nat)
    ensures graph.Valid() && graph.Arcs() == {(0, 1)} && count == 0
  {
    graph := new LegacyDynamicGraph(2);
    graph.ApplyOne(0, 1, true);
    count := graph.EdgeCount();
    assert graph.deltaAdd[..1][..0] == [] && graph.deltaAdd[1] == {} && graph.deltaAdd[..1][0] == graph.deltaAdd[0];
    SizesZero(graph.deltaDel);
  }
}
