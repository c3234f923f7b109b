/** The steady-state workload: rounds that replace edges one for one. */
module Mutation {
  import opened Collections
  import opened Distances
  import opened DynamicGraphs
  import opened GraphStorage
  import PackedKeys

  /** Unsigned 64-bit arithmetic wraps. */
  function Word(x: nat): nat
  {
    x % 0x1_0000_0000_0000_0000
  }

  function MutationKey(directed: bool, u: nat, v: nat): nat
  {
    PackedKeys.EdgeKey(Key(directed, u, v))
  }

  function OpKey(directed: bool, op: EdgeUpdate): Arc
  {
    Key(directed, op.src, op.dst)
  }

  /** Additions less removals. */
  ghost function Balance(ops: seq<EdgeUpdate>): int
  {
    if ops == [] then 0 else Balance(ops[..|ops| - 1]) + if ops[|ops| - 1].add then 1 else -1
  }

  /** A round removes present edges and adds as many absent ones, touching every key at most once, and stays inside
      the graph. */
  ghost predicate Replacement(g: Graph, ops: seq<EdgeUpdate>)
  {
    && Balance(ops) == 0
    && (forall k | 0 <= k < |ops| :: Fits(g, ops[k]))
    && (forall j, k | 0 <= j < k < |ops| :: OpKey(g.directed, ops[j]) != OpKey(g.directed, ops[k]))
  }

  ghost predicate Fits(g: Graph, op: EdgeUpdate)
  {
    op.src != op.dst && op.src < g.vertexCount && op.dst < g.vertexCount && ((op.src, op.dst) in g.arcs <==> !op.add)
  }

  // ---------- A round keeps the number of edges ----------

  lemma {:induction false} UntouchedKey(ops: seq<EdgeUpdate>, directed: bool, key: Arc)
    requires forall k | 0 <= k < |ops| :: OpKey(directed, ops[k]) != key
    ensures LastOp(ops, directed, key) == None
  {
    if ops != [] {
      UntouchedKey(ops[..|ops| - 1], directed, key);
    }
  }

  /** How many arcs a number of edges has. */
  function ArcsFor(directed: bool, edges: int): int
  {
    if directed then edges else edges + edges
  }

  /** One operation on an edge changes the number of arcs by one edge. */
  lemma OneOperation(g: Graph, op: EdgeUpdate)
    requires Simple(g) && Fits(g, op)
    ensures var after := ApplyOne(g, op);
            && after.vertexCount == g.vertexCount && after.directed == g.directed
            && |after.arcs| == |g.arcs| + ArcsFor(g.directed, if op.add then 1 else -1)
  {
    var e, r := (op.src, op.dst), (op.dst, op.src);
    if !g.directed {
      assert e in g.arcs <==> r in g.arcs by {
        assert (op.src, op.dst) in g.arcs ==> (op.dst, op.src) in g.arcs;
        assert (op.dst, op.src) in g.arcs ==> (op.src, op.dst) in g.arcs;
      }
      if op.add {
        assert r !in g.arcs + {e};
      } else {
        assert r in g.arcs - {e};
      }
    }
  }

  /** The edge of the next operation is as it was before the round. */
  lemma NextIsUntouched(g: Graph, ops: seq<EdgeUpdate>, k: nat)
    requires Simple(g) && Replacement(g, ops) && k < |ops|
    ensures (ops[k].src, ops[k].dst) in ApplyAll(g, ops[..k]).arcs <==> (ops[k].src, ops[k].dst) in g.arcs
  {
    LastOperationWins(g, ops[..k], ops[k].src, ops[k].dst);
    UntouchedKey(ops[..k], g.directed, OpKey(g.directed, ops[k]));
  }

  lemma PrefixIsSimple(g: Graph, ops: seq<EdgeUpdate>, k: nat)
    requires Simple(g) && Replacement(g, ops) && k <= |ops|
    ensures Simple(ApplyAll(g, ops[..k])) && ApplyAll(g, ops[..k]).directed == g.directed
  {
    forall x | x in ops[..k]
      ensures x.src < UNREACHABLE && x.dst < UNREACHABLE
    {
      var j :| 0 <= j < k && ops[j] == x;
    }
    ApplyKeepsSimple(g, ops[..k]);
  }

  lemma NextChangesCount(g: Graph, ops: seq<EdgeUpdate>, k: nat)
    requires Simple(g) && Replacement(g, ops) && k < |ops| && ApplyAll(g, ops[..k]).vertexCount == g.vertexCount
    ensures ApplyAll(g, ops[..k + 1]).vertexCount == g.vertexCount
    ensures |ApplyAll(g, ops[..k + 1]).arcs| ==
      |ApplyAll(g, ops[..k]).arcs| + ArcsFor(g.directed, if ops[k].add then 1 else -1)
    ensures Balance(ops[..k + 1]) == Balance(ops[..k]) + if ops[k].add then 1 else -1
  {
    PrefixIsSimple(g, ops, k);
    NextIsUntouched(g, ops, k);
    assert ops[..k + 1][..k] == ops[..k];
    assert Fits(g, ops[k]);
    OneOperation(ApplyAll(g, ops[..k]), ops[k]);
  }

  lemma {:induction false} PrefixCount(g: Graph, ops: seq<EdgeUpdate>, k: nat)
    requires Simple(g) && Replacement(g, ops) && k <= |ops|
    ensures ApplyAll(g, ops[..k]).vertexCount == g.vertexCount
    ensures |ApplyAll(g, ops[..k]).arcs| == |g.arcs| + ArcsFor(g.directed, Balance(ops[..k]))
    decreases k
  {
    if k > 0 {
      PrefixCount(g, ops, k - 1);
      NextChangesCount(g, ops, k - 1);
    }
  }

  /** A round leaves the graph simple and with as many edges and vertices as before. */
  lemma ReplacementKeepsCount(g: Graph, ops: seq<EdgeUpdate>)
    requires Simple(g) && Replacement(g, ops)
    ensures var after := ApplyAll(g, ops);
            Simple(after) && after.directed == g.directed && after.vertexCount == g.vertexCount
              && |after.arcs| == |g.arcs|
  {
    PrefixCount(g, ops, |ops|);
    PrefixIsSimple(g, ops, |ops|);
    assert ops[..|ops|] == ops;
  }

  // ---------- Building a round ----------

  /** An operation of the round has already touched this edge. */
  ghost predicate Reserved(ops: seq<EdgeUpdate>, directed: bool, u: nat, v: nat)
  {
    exists k :: 0 <= k < |ops| && OpKey(directed, ops[k]) == Key(directed, u, v)
  }

  /** The packed keys that the operations occupy. */
  ghost predicate HoldsKeys(g: Graph, ops: seq<EdgeUpdate>, reserved: set<nat>)
  {
    forall u: nat, v: nat {:trigger MutationKey(g.directed, u, v)} | u < g.vertexCount && v < g.vertexCount ::
      MutationKey(g.directed, u, v) in reserved <==> Reserved(ops, g.directed, u, v)
  }

  lemma ReservedNext(ops: seq<EdgeUpdate>, directed: bool, op: EdgeUpdate, u: nat, v: nat)
    ensures Reserved(ops + [op], directed, u, v) <==>
              Reserved(ops, directed, u, v) || OpKey(directed, op) == Key(directed, u, v)
  {
    var after := ops + [op];
    assert forall k | 0 <= k < |ops| :: after[k] == ops[k];
    assert after[|ops|] == op;
  }

  /** Packing keeps edges of 32-bit identifiers apart. */
  lemma SameMutationKey(directed: bool, u: nat, v: nat, x: nat, y: nat)
    requires u < UNREACHABLE && v < UNREACHABLE && x < UNREACHABLE && y < UNREACHABLE
    ensures MutationKey(directed, u, v) == MutationKey(directed, x, y) <==> Key(directed, u, v) == Key(directed, x, y)
  {
    PackedKeys.KeyRoundTrip(Key(directed, u, v));
    PackedKeys.KeyRoundTrip(Key(directed, x, y));
  }

  lemma HoldOneMore(g: Graph, ops: seq<EdgeUpdate>, reserved: set<nat>, op: EdgeUpdate)
    requires g.vertexCount <= UNREACHABLE && HoldsKeys(g, ops, reserved)
    requires op.src < g.vertexCount && op.dst < g.vertexCount
    ensures HoldsKeys(g, ops + [op], reserved + {MutationKey(g.directed, op.src, op.dst)})
  {
    forall u: nat, v: nat | u < g.vertexCount && v < g.vertexCount
      ensures MutationKey(g.directed, u, v) in reserved + {MutationKey(g.directed, op.src, op.dst)} <==>
        Reserved(ops + [op], g.directed, u, v)
    {
      ReservedNext(ops, g.directed, op, u, v);
      SameMutationKey(g.directed, u, v, op.src, op.dst);
    }
  }

  function Pair(u: nat, oldV: nat, newV: nat): seq<EdgeUpdate>
  {
    [EdgeUpdate(u, oldV, false), EdgeUpdate(u, newV, true)]
  }

  lemma HoldPair(g: Graph, ops: seq<EdgeUpdate>, reserved: set<nat>, u: nat, oldV: nat, newV: nat)
    requires g.vertexCount <= UNREACHABLE && HoldsKeys(g, ops, reserved)
    requires u < g.vertexCount && oldV < g.vertexCount && newV < g.vertexCount
    ensures HoldsKeys(g, ops + Pair(u, oldV, newV),
                      reserved + {MutationKey(g.directed, u, oldV), MutationKey(g.directed, u, newV)})
  {
    var removal, addition := EdgeUpdate(u, oldV, false), EdgeUpdate(u, newV, true);
    HoldOneMore(g, ops, reserved, removal);
    HoldOneMore(g, ops + [removal], reserved + {MutationKey(g.directed, u, oldV)}, addition);
    assert ops + [removal] + [addition] == ops + Pair(u, oldV, newV);
    assert reserved + {MutationKey(g.directed, u, oldV)} + {MutationKey(g.directed, u, newV)} ==
      reserved + {MutationKey(g.directed, u, oldV), MutationKey(g.directed, u, newV)};
  }

  /** A pair on two edges that no operation has touched keeps all of them apart. */
  lemma ReplaceOne(g: Graph, ops: seq<EdgeUpdate>, u: nat, oldV: nat, newV: nat)
    requires Simple(g) && Replacement(g, ops) && (u, oldV) in g.arcs
    requires newV < g.vertexCount && newV != u && (u, newV) !in g.arcs
    requires !Reserved(ops, g.directed, u, oldV) && !Reserved(ops, g.directed, u, newV)
    ensures Replacement(g, ops + Pair(u, oldV, newV))
  {
    var n := |ops|;
    var ops' := ops + Pair(u, oldV, newV);
    assert oldV != newV && u != oldV;
    assert ops'[..n + 1][..n] == ops && ops'[..n + 1] == ops + [EdgeUpdate(u, oldV, false)];
    assert OpKey(g.directed, ops'[n]) != OpKey(g.directed, ops'[n + 1]);
  }

  /** The candidates for a new neighbour, 7919 apart. */
  ghost function Candidate(first: nat, t: nat, n: nat): (v: nat)
    requires n > 0
    ensures v < n
  {
    (first + 7919 * t) % n
  }

  /** The t-th candidate for the new neighbour of u is u itself, a neighbour already, or reserved. */
  ghost predicate Blocked(g: Graph, ops: seq<EdgeUpdate>, u: nat, first: nat, t: nat)
    requires g.vertexCount > 0
  {
    var v := Candidate(first, t, g.vertexCount);
    v == u || (u, v) in g.arcs || Reserved(ops, g.directed, u, v)
  }

  /** The first candidate that is not blocked. */
  ghost predicate FirstFree(g: Graph, ops: seq<EdgeUpdate>, u: nat, first: nat, v: nat)
    requires g.vertexCount > 0
  {
    exists t: nat {:trigger Blocked(g, ops, u, first, t)} ::
      && t < 64 && v == Candidate(first, t, g.vertexCount) && !Blocked(g, ops, u, first, t)
      && forall s: nat | s < t :: Blocked(g, ops, u, first, s)
  }

  ghost predicate NoneFree(g: Graph, ops: seq<EdgeUpdate>, u: nat, first: nat)
    requires g.vertexCount > 0
  {
    forall t: nat | t < 64 :: Blocked(g, ops, u, first, t)
  }

  lemma NextCandidate(first: nat, t: nat, n: nat)
    requires n > 0
    ensures (Candidate(first, t, n) + 7919) % n == Candidate(first, t + 1, n)
  {
    ModStep(first + 7919 * t, 7919, n);
  }

  lemma ModStep(x: nat, y: nat, n: nat)
    requires n > 0
    ensures (x % n + y) % n == (x + y) % n
  {
    var sum := x % n + y;
    Regrouped(n, x / n, sum / n);
    assert x == n * (x / n) + x % n && sum == n * (sum / n) + sum % n;
    ModUnique(x + y, n, x / n + sum / n, sum % n);
  }

  lemma Regrouped(n: int, p: int, q: int)
    ensures n * (p + q) == n * p + n * q
  {
  }

  lemma AtLeast(n: int, k: int)
    requires n > 0 && k >= 1
    ensures n * k >= n
  {
  }

  lemma ModUnique(x: int, n: int, q: int, r: int)
    requires x == n * q + r && 0 <= r < n
    ensures x % n == r
  {
    var q', r' := x / n, x % n;
    assert x == n * q' + r';
    Regrouped(n, q, q' - q);
    Regrouped(n, q', q - q');
    if q' > q {
      AtLeast(n, q' - q);
    } else if q > q' {
      AtLeast(n, q - q');
    }
  }

  /** Whether a candidate is free. */
  method IsFree(graph: DynamicGraph, u: nat, v: nat, reserved: set<nat>, ghost ops: seq<EdgeUpdate>)
    returns (free: bool)
    requires graph.Consistent() && Simple(graph.Value()) && u < graph.vertexCount && v < graph.vertexCount
    requires HoldsKeys(graph.Value(), ops, reserved)
    ensures free <==> v != u && (u, v) !in graph.arcs && !Reserved(ops, graph.directed, u, v)
  {
    if v == u {
      return false;
    }
    var present := graph.HasEdge(u, v);
    free := !present && MutationKey(graph.directed, u, v) !in reserved;
  }

  /** Step through candidate targets until one is free, at most 64 of them. */
  method FindTarget(graph: DynamicGraph, u: nat, first: nat, reserved: set<nat>, ghost ops: seq<EdgeUpdate>)
    returns (found: bool, newV: nat)
    requires graph.Consistent() && Simple(graph.Value()) && u < graph.vertexCount && first < graph.vertexCount
    requires HoldsKeys(graph.Value(), ops, reserved)
    ensures newV < graph.vertexCount
    ensures if found then FirstFree(graph.Value(), ops, u, first, newV) else NoneFree(graph.Value(), ops, u, first)
  {
    ghost var g := graph.Value();
    newV := first;
    var tries := 0;
    while tries < 64
      invariant 0 <= tries <= 64 && newV == Candidate(first, tries, g.vertexCount)
      invariant forall t: nat | t < tries :: Blocked(g, ops, u, first, t)
    {
      var free := IsFree(graph, u, newV, reserved, ops);
      assert free <==> !Blocked(g, ops, u, first, tries);
      if free {
        return true, newV;
      }
      newV := NextTarget(newV, graph.vertexCount, first, tries);
      tries := tries + 1;
    }
    found := false;
  }

  method NextTarget(v: nat, n: nat, ghost first: nat, ghost t: nat) returns (next: nat)
    requires 0 < n <= UNREACHABLE && v == Candidate(first, t, n)
    ensures next == Candidate(first, t + 1, n)
  {
    NextCandidate(first, t, n);
    next := Word(v + 7919) % n;
  }

  /** What one sampled row adds to a round: nothing when the row is empty, when the edge it would give up is reserved,
      or when every candidate for the new one is blocked; and otherwise the removal of the one and the addition of the
      other. */
  ghost predicate TurnOf(g: Graph, u: nat, row: seq<nat>, pick: nat, before: seq<EdgeUpdate>, added: seq<EdgeUpdate>)
    requires g.vertexCount > 0
  {
    if row == [] then added == []
    else
      var oldV := row[pick % 0x1_0000_0000_0000_0000 % |row|];
      var first := (oldV + 97 + pick) % 0x1_0000_0000_0000_0000 % g.vertexCount;
      if Reserved(before, g.directed, u, oldV) || NoneFree(g, before, u, first) then added == []
      else
        |added| == 2 && FirstFree(g, before, u, first, added[1].dst) && added == Pair(u, oldV, added[1].dst)
  }

  ghost predicate IsRow(row: seq<nat>, arcs: set<Arc>, u: nat)
  {
    Ascending(row) && forall v: nat :: v in row <==> (u, v) in arcs
  }

  /** Turn i of a round samples one vertex, and picks a neighbour from its row. */
  ghost predicate Turn(g: Graph, round: nat, i: nat, before: seq<EdgeUpdate>, added: seq<EdgeUpdate>)
    requires g.vertexCount > 0
  {
    var u := (round * 104729 + i * 8191) % 0x1_0000_0000_0000_0000 % g.vertexCount;
    exists row :: IsRow(row, g.arcs, u) && TurnOf(g, u, row, round + i, before, added)
  }

  /** The operations of a round, turn by turn; turn i adds those from ends[i] to ends[i + 1]. */
  ghost predicate RoundOf(g: Graph, round: nat, turns: nat, ops: seq<EdgeUpdate>, ends: seq<nat>)
    requires g.vertexCount > 0
  {
    && |ends| == turns + 1 && ends[0] == 0 && ends[turns] == |ops|
    && forall i: nat | i < turns :: TurnAt(g, round, i, ops, ends)
  }

  ghost predicate TurnAt(g: Graph, round: nat, i: nat, ops: seq<EdgeUpdate>, ends: seq<nat>)
    requires g.vertexCount > 0 && i + 1 < |ends|
  {
    ends[i] <= ends[i + 1] <= |ops| && Turn(g, round, i, ops[..ends[i]], ops[ends[i]..ends[i + 1]])
  }

  lemma TurnStays(g: Graph, round: nat, i: nat, ops: seq<EdgeUpdate>, ends: seq<nat>, added: seq<EdgeUpdate>, end: nat)
    requires g.vertexCount > 0 && i + 1 < |ends| && TurnAt(g, round, i, ops, ends)
    ensures TurnAt(g, round, i, ops + added, ends + [end])
  {
    var ops' := ops + added;
    assert ops'[..ends[i]] == ops[..ends[i]] && ops'[ends[i]..ends[i + 1]] == ops[ends[i]..ends[i + 1]];
  }

  lemma RoundNext(g: Graph, round: nat, turns: nat, ops: seq<EdgeUpdate>, ends: seq<nat>, added: seq<EdgeUpdate>)
    requires g.vertexCount > 0 && RoundOf(g, round, turns, ops, ends) && Turn(g, round, turns, ops, added)
    ensures RoundOf(g, round, turns + 1, ops + added, ends + [|ops| + |added|])
  {
    var ops', ends' := ops + added, ends + [|ops| + |added|];
    forall i: nat | i < turns + 1
      ensures TurnAt(g, round, i, ops', ends')
    {
      if i < turns {
        TurnStays(g, round, i, ops, ends, added, |ops| + |added|);
      } else {
        assert ops'[..|ops|] == ops && ops'[|ops|..|ops'|] == added;
      }
    }
  }

  /** One turn of a round. */
  method TakeTurn(graph: DynamicGraph, round: nat, i: nat, ghost ops: seq<EdgeUpdate>, reserved0: set<nat>)
    returns (added: seq<EdgeUpdate>, reserved: set<nat>)
    requires graph.Consistent() && Simple(graph.Value()) && graph.vertexCount > 0
    requires Replacement(graph.Value(), ops) && HoldsKeys(graph.Value(), ops, reserved0)
    ensures Turn(graph.Value(), round, i, ops, added)
    ensures Replacement(graph.Value(), ops + added) && HoldsKeys(graph.Value(), ops + added, reserved)
    ensures |added| <= 2
  {
    var n := graph.vertexCount;
    added, reserved := [], reserved0;
    assert ops + [] == ops;
    var u := Word(round * 104729 + i * 8191) % n;
    var row := graph.Neighbors(u);
    assert IsRow(row, graph.arcs, u);
    if row != [] {
      var oldV := row[Word(round + i) % |row|];
      assert oldV in row && (u, oldV) in graph.arcs;
      var oldKey := MutationKey(graph.directed, u, oldV);
      if oldKey !in reserved {
        var found, newV := FindTarget(graph, u, Word(oldV + 97 + round + i) % n, reserved, ops);
        if found {
          ReplaceOne(graph.Value(), ops, u, oldV, newV);
          HoldPair(graph.Value(), ops, reserved, u, oldV, newV);
          reserved := reserved + {oldKey, MutationKey(graph.directed, u, newV)};
          added := [EdgeUpdate(u, oldV, false), EdgeUpdate(u, newV, true)];
        }
      }
    }
    assert TurnOf(graph.Value(), u, row, round + i, ops, added);
  }

  /** A round replaces one edge for every sampled row that has one to give up and room for another. */
  method MakeMutationRound(graph: DynamicGraph, round: nat, changedRows: nat)
    returns (ops: seq<EdgeUpdate>, ghost ends: seq<nat>)
    requires graph.Consistent() && Simple(graph.Value()) && graph.vertexCount > 0
    ensures Replacement(graph.Value(), ops) && |ops| <= 2 * changedRows
    ensures RoundOf(graph.Value(), round, changedRows, ops, ends)
  {
    ops, ends := [], [0];
    var reserved: set<nat> := {};
    var i := 0;
    while i < changedRows
      invariant 0 <= i <= changedRows && |ops| <= 2 * i
      invariant Replacement(graph.Value(), ops) && HoldsKeys(graph.Value(), ops, reserved)
      invariant RoundOf(graph.Value(), round, i, ops, ends)
    {
      var added;
      added, reserved := TakeTurn(graph, round, i, ops, reserved);
      RoundNext(graph.Value(), round, i, ops, ends, added);
      ends := ends + [|ops| + |added|];
      ops := ops + added;
      i := i + 1;
    }
  }

  // ---------- The campaign ----------

  /** The edges of the rows below u, an undirected edge once. */
  ghost predicate Listed(arcs: set<Arc>, directed: bool, edges: seq<Arc>, u: nat)
  {
    forall x: nat, y: nat :: (x, y) in edges <==> (x, y) in arcs && x < u && (directed || x < y)
  }

  /** The edges of a graph, from the compact rows when nothing is pending. */
  method ListEdges(graph: DynamicGraph) returns (edges: seq<Arc>)
    requires graph.Consistent() && Simple(graph.Value())
    ensures ArcsOf(edges, graph.directed) == graph.arcs
  {
    edges := [];
    var compactSource := graph.IsCompact();
    var u := 0;
    while u < graph.vertexCount
      invariant 0 <= u <= graph.vertexCount && Listed(graph.arcs, graph.directed, edges, u)
    {
      var row;
      if compactSource {
        row := graph.CompactNeighbors(u);
      } else {
        row := graph.Neighbors(u);
      }
      edges := ListRow(edges, u, row, graph.directed, graph.arcs);
      u := u + 1;
    }
    AllListed(graph.Value(), edges);
  }

  method ListRow(edges0: seq<Arc>, u: nat, row: seq<nat>, directed: bool, ghost arcs: set<Arc>)
    returns (edges: seq<Arc>)
    requires Listed(arcs, directed, edges0, u) && forall v: nat :: v in row <==> (u, v) in arcs
    ensures Listed(arcs, directed, edges, u + 1)
  {
    edges := edges0;
    var i := 0;
    while i < |row|
      invariant 0 <= i <= |row|
      invariant forall x: nat, y: nat ::
        (x, y) in edges <==> (x, y) in edges0 || (x == u && y in row[..i] && (directed || x < y))
    {
      assert row[..i + 1] == row[..i] + [row[i]];
      if directed || u < row[i] {
        edges := edges + [(u, row[i])];
      }
      i := i + 1;
    }
    assert row[..i] == row;
  }

  lemma AllListed(g: Graph, edges: seq<Arc>)
    requires Simple(g) && Listed(g.arcs, g.directed, edges, g.vertexCount)
    ensures ArcsOf(edges, g.directed) == g.arcs
  {
    forall x: nat, y: nat
      ensures (x, y) in ArcsOf(edges, g.directed) <==> (x, y) in g.arcs
    {
      assert (x, y) in g.arcs ==> x != y;
      assert !g.directed ==> ((x, y) in g.arcs <==> (y, x) in g.arcs);
    }
    SamePairs(ArcsOf(edges, g.directed), g.arcs);
  }

  /** A graph with the same vertices and edges, built afresh: nothing pending, and both sides aligned. */
  method Consolidate(graph: DynamicGraph) returns (snapshot: DynamicGraph)
    requires graph.Consistent() && Simple(graph.Value())
    ensures fresh(snapshot) && snapshot.Consistent() && snapshot.Value() == graph.Value()
    ensures snapshot.Aligned() && snapshot.IsCompact()
  {
    var edges := ListEdges(graph);
    snapshot := new DynamicGraph(graph.vertexCount, graph.directed);
    snapshot.BulkLoadEdges(edges);
  }

  /** One round: replace edges, compact all rows, and rebuild the graph if the controller says so. */
  method RunRound(graph0: DynamicGraph, round: nat, changedRows: nat, consolidate: bool)
    returns (graph: DynamicGraph, gateFailed: bool, ghost ops: seq<EdgeUpdate>, ghost ends: seq<nat>)
    requires graph0.Consistent() && Simple(graph0.Value()) && graph0.vertexCount > 0
    modifies graph0
    ensures (graph == graph0 || fresh(graph)) && graph.Consistent() && Simple(graph.Value())
    ensures graph.directed == graph0.directed && graph.vertexCount == old(graph0.vertexCount)
    ensures RoundOf(old(graph0.Value()), round, changedRows, ops, ends)
    ensures graph.Value() == ApplyAll(old(graph0.Value()), ops) && |graph.arcs| == old(|graph0.arcs|)
    ensures !gateFailed && graph.IsCompact()
    ensures if consolidate then fresh(graph) && graph.Aligned() else graph == graph0
    ensures old(graph0.Aligned()) && old(graph0.outgoing.Size()) == 0 && 4 * changedRows < AUTOMATIC_MINIMUM ==>
      graph.Aligned()
  {
    graph := graph0;
    var batch;
    batch, ends := MakeMutationRound(graph, round, changedRows);
    ops := batch;
    ReplacementKeepsCount(graph.Value(), batch);
    graph.Apply(batch);
    graph.Compact();
    gateFailed := false;
    if consolidate {
      var before := graph.EdgeCountDirected();
      var snapshot := Consolidate(graph);
      var after := snapshot.EdgeCountDirected();
      gateFailed := before != after;
      graph := snapshot;
    }
  }

  /** The graph after one round. */
  ghost predicate AfterRound(before: Graph, round: nat, changedRows: nat, after: Graph)
  {
    before.vertexCount > 0 && exists ops, ends ::
      RoundOf(before, round, changedRows, ops, ends) && after == ApplyAll(before, ops)
  }

  /** The graphs of a campaign: each round is applied to what the one before has left. */
  ghost predicate Campaign(graphs: seq<Graph>, changedRows: nat, rounds: nat)
  {
    |graphs| == rounds + 1 &&
    forall i: nat | i < rounds :: AfterRound(graphs[i], i, changedRows, graphs[i + 1])
  }

  /** Any number of rounds, compacted after each and rebuilt after some, leaves the edge count as it was at the start,
      so that neither check of the campaign ever fires. */
  method RunCampaign(graph0: DynamicGraph, changedRows: nat, consolidate: seq<bool>)
    returns (graph: DynamicGraph, changed: bool, gateFailed: bool, ghost graphs: seq<Graph>)
    requires graph0.Consistent() && Simple(graph0.Value()) && graph0.vertexCount > 0
    modifies graph0
    ensures graph.Consistent() && Simple(graph.Value()) && graph.vertexCount == old(graph0.vertexCount)
    ensures |graph.arcs| == old(|graph0.arcs|) && !changed && !gateFailed
    ensures Campaign(graphs, changedRows, |consolidate|)
    ensures graphs[0] == old(graph0.Value()) && graphs[|consolidate|] == graph.Value()
    ensures old(graph0.Aligned()) && old(graph0.outgoing.Size()) == 0 && 4 * changedRows < AUTOMATIC_MINIMUM ==>
      graph.Aligned()
  {
    graph, gateFailed := graph0, false;
    var initial := graph.EdgeCountDirected();
    ghost var aligned := graph.Aligned() && graph.outgoing.Size() == 0 && 4 * changedRows < AUTOMATIC_MINIMUM;
    graphs := [graph.Value()];
    var round := 0;
    while round < |consolidate|
      invariant 0 <= round <= |consolidate| && (graph == graph0 || fresh(graph)) && !gateFailed
      invariant graph.Consistent() && Simple(graph.Value()) && graph.vertexCount == old(graph0.vertexCount)
      invariant |graph.arcs| == initial
      invariant Campaign(graphs, changedRows, round)
      invariant graphs[0] == old(graph0.Value()) && graphs[round] == graph.Value()
      invariant aligned ==> graph.Aligned() && graph.outgoing.Size() == 0
    {
      var failed;
      ghost var ops, ends;
      graph, failed, ops, ends := RunRound(graph, round, changedRows, consolidate[round]);
      graphs := graphs + [graph.Value()];
      gateFailed := gateFailed || failed;
      round := round + 1;
    }
    var final := graph.EdgeCountDirected();
    changed := final != initial;
  }
}
