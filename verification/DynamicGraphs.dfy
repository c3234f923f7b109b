/** The evolving simple graph: what a batch of updates does to its arcs, and how the reverse scan
    used by every maintained algorithm splits a batch into its final additions and deletions. */
module DynamicGraphs {
  import opened Collections
  import opened Distances

  datatype EdgeUpdate = EdgeUpdate(src: nat, dst: nat, add: bool)

  /** The value of a dynamic graph; an undirected edge is stored as two arcs. */
  datatype Graph = Graph(directed: bool, vertexCount: nat, arcs: set<Arc>)

  /** An undirected edge has one key, its endpoints in increasing order. */
  function Key(directed: bool, u: nat, v: nat): Arc
  {
    if !directed && v < u then (v, u) else (u, v)
  }

  /** A simple graph whose vertex identifiers, and every distance in it, fit below the marker. */
  ghost predicate Simple(g: Graph)
  {
    && Within(g.arcs, g.vertexCount)
    && g.vertexCount <= UNREACHABLE
    && (forall u: nat, v: nat | (u, v) in g.arcs :: u != v)
    && (!g.directed ==> forall u: nat, v: nat | (u, v) in g.arcs :: (v, u) in g.arcs)
  }

  // ---------- Applying updates in order ----------

  function Max(a: nat, b: nat): nat
  {
    if a < b then b else a
  }

  function SetArc(arcs: set<Arc>, u: nat, v: nat, present: bool): set<Arc>
  {
    if present then arcs + {(u, v)} else arcs - {(u, v)}
  }

  /** Self-loops are ignored; any other update also makes room for its endpoints. */
  function ApplyOne(g: Graph, op: EdgeUpdate): Graph
  {
    if op.src == op.dst then g
    else
      var once := SetArc(g.arcs, op.src, op.dst, op.add);
      Graph(g.directed, Max(g.vertexCount, Max(op.src, op.dst) + 1),
            if g.directed then once else SetArc(once, op.dst, op.src, op.add))
  }

  function ApplyAll(g: Graph, ops: seq<EdgeUpdate>): Graph
  {
    if ops == [] then g else ApplyOne(ApplyAll(g, ops[..|ops| - 1]), ops[|ops| - 1])
  }

  /** The vertices named by a batch are 32-bit identifiers below the marker. */
  predicate InRange(ops: seq<EdgeUpdate>)
  {
    forall op | op in ops :: op.src < UNREACHABLE && op.dst < UNREACHABLE
  }

  lemma {:induction false} ApplyKeepsSimple(g: Graph, ops: seq<EdgeUpdate>)
    requires Simple(g) && InRange(ops)
    ensures Simple(ApplyAll(g, ops)) && ApplyAll(g, ops).directed == g.directed
    ensures ApplyAll(g, ops).vertexCount >= g.vertexCount
  {
    if ops != [] {
      ApplyKeepsSimple(g, ops[..|ops| - 1]);
      assert ops[|ops| - 1] in ops;
    }
  }

  // ---------- The last operation on a key wins ----------

  /** The last operation of the batch on a key: Some(true) for an addition, Some(false) for a deletion. */
  function LastOp(ops: seq<EdgeUpdate>, directed: bool, key: Arc): Option<bool>
  {
    if ops == [] then None
    else
      var op := ops[|ops| - 1];
      if Key(directed, op.src, op.dst) == key then Some(op.add)
      else LastOp(ops[..|ops| - 1], directed, key)
  }

  /** Whether an arc is present after a batch depends on the last operation on its key alone. */
  lemma {:induction false} LastOperationWins(g: Graph, ops: seq<EdgeUpdate>, u: nat, v: nat)
    requires Simple(g)
    ensures ApplyAll(g, ops).directed == g.directed
    ensures (u, v) in ApplyAll(g, ops).arcs <==>
      u != v && match LastOp(ops, g.directed, Key(g.directed, u, v))
                case None => (u, v) in g.arcs
                case Some(add) => add
  {
    if ops != [] {
      var before := ops[..|ops| - 1];
      LastOperationWins(g, before, u, v);
    }
  }

  // ---------- The reverse scan ----------

  /** The arcs of a list of edges: both orientations when undirected, no self-loops. */
  ghost function ArcsOf(edges: seq<Arc>, directed: bool): set<Arc>
    ensures forall u: nat, v: nat :: (u, v) in ArcsOf(edges, directed) <==>
              u != v && ((u, v) in edges || (!directed && (v, u) in edges))
  {
    (set e | e in edges && e.0 != e.1) + (if directed then {} else set e | e in edges && e.0 != e.1 :: (e.1, e.0))
  }

  /** Exactly the keys whose last operation has the given kind, each listed once with its own orientation. */
  ghost predicate ListsFinal(edges: seq<Arc>, ops: seq<EdgeUpdate>, directed: bool, add: bool)
  {
    && (forall key :: LastOp(ops, directed, key) == Some(add) <==> HasKey(edges, directed, key))
    && DistinctKeys(edges, directed)
    && (forall e | e in edges :: exists op :: op in ops && op.src == e.0 && op.dst == e.1)
  }

  ghost predicate HasKey(edges: seq<Arc>, directed: bool, key: Arc)
  {
    exists e :: e in edges && Key(directed, e.0, e.1) == key
  }

  ghost predicate DistinctKeys(edges: seq<Arc>, directed: bool)
  {
    forall i, j | 0 <= i < j < |edges| :: Key(directed, edges[i].0, edges[i].1) != Key(directed, edges[j].0, edges[j].1)
  }

  /** The same for the keys seen so far. */
  ghost predicate ListsSeen(edges: seq<Arc>, seen: set<Arc>, ops: seq<EdgeUpdate>, directed: bool, add: bool)
  {
    && (forall key :: key in seen && LastOp(ops, directed, key) == Some(add) <==> HasKey(edges, directed, key))
    && DistinctKeys(edges, directed)
    && (forall e | e in edges :: exists op :: op in ops && op.src == e.0 && op.dst == e.1)
  }

  lemma ListOneMore(edges: seq<Arc>, seen: set<Arc>, ops: seq<EdgeUpdate>, directed: bool, add: bool, op: EdgeUpdate)
    requires ListsSeen(edges, seen, ops, directed, add) && op in ops
    requires Key(directed, op.src, op.dst) !in seen
    ensures LastOp(ops, directed, Key(directed, op.src, op.dst)) == Some(add) ==>
              ListsSeen(edges + [(op.src, op.dst)], seen + {Key(directed, op.src, op.dst)}, ops, directed, add)
    ensures LastOp(ops, directed, Key(directed, op.src, op.dst)) != Some(add) ==>
              ListsSeen(edges, seen + {Key(directed, op.src, op.dst)}, ops, directed, add)
  {
    var key := Key(directed, op.src, op.dst);
    if LastOp(ops, directed, key) == Some(add) {
      var more := edges + [(op.src, op.dst)];
      assert more[|edges|] == (op.src, op.dst);
      forall k
        ensures HasKey(more, directed, k) <==> HasKey(edges, directed, k) || k == key
      {
        if HasKey(edges, directed, k) {
          var e :| e in edges && Key(directed, e.0, e.1) == k;
          assert e in more;
        }
        assert (op.src, op.dst) in more;
      }
      forall i | 0 <= i < |edges|
        ensures Key(directed, edges[i].0, edges[i].1) != key
      {
        assert edges[i] in edges;
        assert HasKey(edges, directed, Key(directed, edges[i].0, edges[i].1));
      }
    }
  }

  /** The batch applied in order to any edge set E gives (E minus final deletions) plus final additions. */
  lemma FinalSplitIsBatch(g: Graph, ops: seq<EdgeUpdate>, additions: seq<Arc>, deletions: seq<Arc>)
    requires Simple(g)
    requires ListsFinal(additions, ops, g.directed, true) && ListsFinal(deletions, ops, g.directed, false)
    ensures ArcsOf(additions, g.directed) !! ArcsOf(deletions, g.directed)
    ensures ApplyAll(g, ops).arcs == g.arcs - ArcsOf(deletions, g.directed) + ArcsOf(additions, g.directed)
  {
    var added, removed := ArcsOf(additions, g.directed), ArcsOf(deletions, g.directed);
    forall a: Arc
      ensures a !in added || a !in removed
      ensures a in ApplyAll(g, ops).arcs <==> a in g.arcs - removed + added
    {
      FinalSplitAt(g, ops, additions, deletions, a.0, a.1);
    }
  }

  lemma FinalSplitAt(g: Graph, ops: seq<EdgeUpdate>, additions: seq<Arc>, deletions: seq<Arc>, u: nat, v: nat)
    requires Simple(g)
    requires ListsFinal(additions, ops, g.directed, true) && ListsFinal(deletions, ops, g.directed, false)
    ensures (u, v) in ArcsOf(additions, g.directed) <==>
      u != v && LastOp(ops, g.directed, Key(g.directed, u, v)) == Some(true)
    ensures (u, v) in ArcsOf(deletions, g.directed) <==>
      u != v && LastOp(ops, g.directed, Key(g.directed, u, v)) == Some(false)
    ensures (u, v) in ApplyAll(g, ops).arcs <==>
              (u, v) in ArcsOf(additions, g.directed) || ((u, v) in g.arcs && (u, v) !in ArcsOf(deletions, g.directed))
  {
    ArcIsListed(ops, g.directed, additions, true, u, v);
    ArcIsListed(ops, g.directed, deletions, false, u, v);
    LastOperationWins(g, ops, u, v);
  }

  lemma ArcIsListed(ops: seq<EdgeUpdate>, directed: bool, edges: seq<Arc>, add: bool, u: nat, v: nat)
    requires ListsFinal(edges, ops, directed, add)
    ensures u != v ==> ((u, v) in ArcsOf(edges, directed) <==> LastOp(ops, directed, Key(directed, u, v)) == Some(add))
  {
    var key := Key(directed, u, v);
    if LastOp(ops, directed, key) == Some(add) {
      assert HasKey(edges, directed, key);
      var e :| e in edges && Key(directed, e.0, e.1) == key;
    }
    if u != v && (u, v) in ArcsOf(edges, directed) {
      assert HasKey(edges, directed, key);
    }
  }
}
