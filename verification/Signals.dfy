/** The structural signals a selector reads off a batch before choosing a plan. */
module Signals {
  import opened Collections
  import opened Distances
  import opened DynamicGraphs
  import opened Cascade

  datatype L3Signals = L3Signals(
    shortestParentDeletionFraction: real,
    relaxableInsertionFraction: real,
    unreachableTargetInsertionFraction: real,
    reachableEndpointFraction: real,
    structuralChangeFraction: real)

  predicate IsReached(dist: seq<nat>, v: nat)
  {
    v < |dist| && dist[v] != UNREACHABLE
  }

  predicate ParentDeletion(dist: seq<nat>, op: EdgeUpdate)
  {
    !op.add && Parent(dist, op.src, op.dst)
  }

  predicate RelaxableInsertion(dist: seq<nat>, op: EdgeUpdate)
  {
    op.add && IsReached(dist, op.src) && op.dst < |dist| &&
    (!IsReached(dist, op.dst) || Next(dist[op.src]) < dist[op.dst])
  }

  datatype Kind = ParentLoss | Relaxable | NewlyReached | OriginReached | TargetReached

  predicate Is(kind: Kind, dist: seq<nat>, op: EdgeUpdate)
  {
    match kind
    case ParentLoss => ParentDeletion(dist, op)
    case Relaxable => RelaxableInsertion(dist, op)
    case NewlyReached => RelaxableInsertion(dist, op) && !IsReached(dist, op.dst)
    case OriginReached => IsReached(dist, op.src)
    case TargetReached => IsReached(dist, op.dst)
  }

  ghost function CountOps(ops: seq<EdgeUpdate>, kind: Kind, dist: seq<nat>): nat
  {
    if ops == [] then 0
    else CountOps(ops[..|ops| - 1], kind, dist) + if Is(kind, dist, ops[|ops| - 1]) then 1 else 0
  }

  lemma {:induction false} NoneCounted(ops: seq<EdgeUpdate>, kind: Kind, dist: seq<nat>)
    ensures CountOps(ops, kind, dist) == 0 <==> forall op | op in ops :: !Is(kind, dist, op)
  {
    if ops != [] {
      var last := |ops| - 1;
      NoneCounted(ops[..last], kind, dist);
      assert ops == ops[..last] + [ops[last]];
    }
  }

  function Fraction(part: nat, whole: nat): (f: real)
    requires whole > 0
    ensures f >= 0.0 && (f == 0.0 <==> part == 0)
  {
    part as real / whole as real
  }

  ghost predicate IsFraction(f: real, part: nat, whole: nat)
  {
    f * whole as real == part as real
  }

  lemma FractionMeaning(part: nat, whole: nat)
    requires whole > 0
    ensures IsFraction(Fraction(part, whole), part, whole)
  {
  }

  /** What one operation adds to each count. */
  method CountOne(op: EdgeUpdate, dist: seq<nat>)
    returns (parentDeletion: nat, relaxable: nat, unreachableTarget: nat, endpoints: nat)
    ensures parentDeletion == if Is(ParentLoss, dist, op) then 1 else 0
    ensures relaxable == if Is(Relaxable, dist, op) then 1 else 0
    ensures unreachableTarget == if Is(NewlyReached, dist, op) then 1 else 0
    ensures endpoints == (if Is(OriginReached, dist, op) then 1 else 0) + if Is(TargetReached, dist, op) then 1 else 0
  {
    parentDeletion, relaxable, unreachableTarget, endpoints := 0, 0, 0, 0;
    if IsReached(dist, op.src) {
      endpoints := endpoints + 1;
    }
    if IsReached(dist, op.dst) {
      endpoints := endpoints + 1;
    }
    if !op.add {
      if IsReached(dist, op.src) && IsReached(dist, op.dst) && Next(dist[op.src]) == dist[op.dst] {
        parentDeletion := 1;
      }
      return;
    }
    if !IsReached(dist, op.src) || op.dst >= |dist| {
      return;
    }
    if !IsReached(dist, op.dst) || Next(dist[op.src]) < dist[op.dst] {
      relaxable := 1;
      if !IsReached(dist, op.dst) {
        unreachableTarget := 1;
      }
    }
  }

  method CountSignals(ops: seq<EdgeUpdate>, dist: seq<nat>)
    returns (parentDeletions: nat, relaxable: nat, unreachableTargets: nat, endpoints: nat)
    ensures parentDeletions == CountOps(ops, ParentLoss, dist)
    ensures relaxable == CountOps(ops, Relaxable, dist)
    ensures unreachableTargets == CountOps(ops, NewlyReached, dist)
    ensures endpoints == CountOps(ops, OriginReached, dist) + CountOps(ops, TargetReached, dist)
  {
    parentDeletions, relaxable, unreachableTargets, endpoints := 0, 0, 0, 0;
    var i := 0;
    while i < |ops|
      invariant 0 <= i <= |ops|
      invariant parentDeletions == CountOps(ops[..i], ParentLoss, dist)
      invariant relaxable == CountOps(ops[..i], Relaxable, dist)
      invariant unreachableTargets == CountOps(ops[..i], NewlyReached, dist)
      invariant endpoints == CountOps(ops[..i], OriginReached, dist) + CountOps(ops[..i], TargetReached, dist)
    {
      assert ops[..i + 1][..i] == ops[..i];
      var lost, relaxed, reached, ends := CountOne(ops[i], dist);
      parentDeletions, relaxable := parentDeletions + lost, relaxable + relaxed;
      unreachableTargets, endpoints := unreachableTargets + reached, endpoints + ends;
      i := i + 1;
    }
    assert ops[..i] == ops;
  }

  /** No operation of the batch deletes a shortest-path arc or offers a shorter path: the structural share is 0. */
  ghost predicate Quiet(ops: seq<EdgeUpdate>, dist: seq<nat>)
  {
    forall op | op in ops :: !ParentDeletion(dist, op) && !RelaxableInsertion(dist, op)
  }

  /** The share of operations that delete a shortest-path arc or offer a shorter path, at most 1. */
  ghost predicate IsStructuralShare(share: real, ops: seq<EdgeUpdate>, dist: seq<nat>)
  {
    IsShareOf(share, CountOps(ops, ParentLoss, dist) + CountOps(ops, Relaxable, dist), Max(1, |ops|))
  }

  ghost predicate IsShareOf(share: real, part: nat, whole: nat)
  {
    IsFraction(share, if part < whole then part else whole, whole)
  }

  lemma Positive(x: real, y: real)
    requires x > 0.0 && y > 0.0
    ensures x * y > 0.0
  {
  }

  lemma NotNegative(x: real, y: real)
    requires x >= 0.0 && y >= 0.0
    ensures x * y >= 0.0
  {
  }

  function AtMostWhole(x: real): real
  {
    if x < 1.0 then x else 1.0
  }

  lemma Distributes(x: real, y: real, z: real)
    ensures (x + y) * z == x * z + y * z
  {
  }

  lemma SharesAdd(x: nat, y: nat, whole: nat)
    requires whole > 0
    ensures var share := AtMostWhole(Fraction(x, whole) + Fraction(y, whole));
      && IsShareOf(share, x + y, whole)
      && 0.0 <= share <= 1.0 && (share == 0.0 <==> x == 0 && y == 0)
  {
    var left, right := Fraction(x, whole), Fraction(y, whole);
    var sum := left + right;
    FractionMeaning(x, whole);
    FractionMeaning(y, whole);
    Distributes(left, right, whole as real);
    assert sum * whole as real == (x + y) as real;
    if sum < 1.0 {
      Positive(1.0 - sum, whole as real);
      Distributes(1.0 - sum, sum, whole as real);
    } else {
      NotNegative(sum - 1.0, whole as real);
      Distributes(sum - 1.0, 1.0, whole as real);
    }
  }

  /** Measure the shares of a batch that can move a distance. */
  method Measure(ops: seq<EdgeUpdate>, dist: seq<nat>) returns (s: L3Signals)
    ensures var whole := Max(1, |ops|);
            && s.shortestParentDeletionFraction == Fraction(CountOps(ops, ParentLoss, dist), whole)
            && s.relaxableInsertionFraction == Fraction(CountOps(ops, Relaxable, dist), whole)
            && s.unreachableTargetInsertionFraction == Fraction(CountOps(ops, NewlyReached, dist), whole)
            && s.reachableEndpointFraction ==
               Fraction(CountOps(ops, OriginReached, dist) + CountOps(ops, TargetReached, dist), 2 * whole)
    ensures IsStructuralShare(s.structuralChangeFraction, ops, dist)
    ensures 0.0 <= s.structuralChangeFraction <= 1.0
    ensures s.structuralChangeFraction == 0.0 <==> Quiet(ops, dist)
  {
    var parentDeletions, relaxable, unreachableTargets, endpoints := CountSignals(ops, dist);
    var whole := Max(1, |ops|);
    var lost, gained := Fraction(parentDeletions, whole), Fraction(relaxable, whole);
    s := L3Signals(lost, gained, Fraction(unreachableTargets, whole), Fraction(endpoints, 2 * whole),
                   AtMostWhole(lost + gained));
    SharesAdd(parentDeletions, relaxable, whole);
    NoneCounted(ops, ParentLoss, dist);
    NoneCounted(ops, Relaxable, dist);
    assert forall op | op in ops ::
      Is(ParentLoss, dist, op) == ParentDeletion(dist, op) && Is(Relaxable, dist, op) == RelaxableInsertion(dist, op);
  }

  /** The batch ends up adding an arc from a reached vertex to one beyond the label vector, which the signals skip. */
  ghost predicate OpensNewVertex(ops: seq<EdgeUpdate>, dist: seq<nat>)
  {
    exists u: nat, v: nat {:trigger LastOp(ops, true, (u, v))} ::
      LastOp(ops, true, (u, v)) == Some(true) && u != v && IsReached(dist, u) && v >= |dist|
  }

  /** The labels after the vector has grown to the new vertex count. */
  function Padded(dist: seq<nat>, n: nat): seq<nat>
    requires |dist| <= n
  {
    dist + seq(n - |dist|, _ => UNREACHABLE)
  }

  lemma QuietBatchKeepsWalks(g: Graph, ops: seq<EdgeUpdate>, s: nat, dist: seq<nat>, v: nat)
    requires Simple(g) && g.directed && |dist| == g.vertexCount && Exact(g.arcs, s, dist) && Quiet(ops, dist)
    requires IsReached(dist, v)
    ensures Walk(ApplyAll(g, ops).arcs, s, v, dist[v])
  {
    var after, removed := ApplyAll(g, ops), RemovedArcs(g, ops);
    ExactIsRelaxed(g.arcs, s, dist);
    forall u: nat, x: nat | (u, x) in removed
      ensures !Parent(dist, u, x)
    {
      var op := LastOpWitness(ops, (u, x));
    }
    UnhurtStaysSupported(g.arcs, removed, s, dist);
    ShortestWalkKept(g.arcs, removed, s, dist, {}, v);
    forall a | a in g.arcs - removed
      ensures a in after.arcs
    {
      assert (a.0, a.1) in g.arcs;
      LastOperationWins(g, ops, a.0, a.1);
    }
    WalkMonotone(g.arcs - removed, after.arcs, s, v, dist[v]);
  }

  lemma QuietBatchStaysRelaxed(g: Graph, ops: seq<EdgeUpdate>, s: nat, dist: seq<nat>, u: nat, v: nat)
    requires Simple(g) && g.directed && |dist| == g.vertexCount && Exact(g.arcs, s, dist) && Quiet(ops, dist)
    requires (u, v) in ApplyAll(g, ops).arcs && IsReached(dist, u) && v < |dist|
    ensures dist[v] <= dist[u] + 1
  {
    ExactIsRelaxed(g.arcs, s, dist);
    LastOperationWins(g, ops, u, v);
    if LastOp(ops, true, (u, v)) == Some(true) {
      var op := LastOpWitness(ops, (u, v));
    }
  }

  /** A batch without structural change leaves every distance as it was, and new vertices unreachable, if and only
      if it adds no arc from a reached vertex to one beyond the label vector, and does not bring in the source. */
  lemma QuietBatchExactness(g: Graph, ops: seq<EdgeUpdate>, s: nat, dist: seq<nat>)
    requires Simple(g) && g.directed && |dist| == g.vertexCount && Exact(g.arcs, s, dist)
    requires Quiet(ops, dist) && InRange(ops)
    ensures ApplyAll(g, ops).vertexCount >= |dist|
    ensures Exact(ApplyAll(g, ops).arcs, s, Padded(dist, ApplyAll(g, ops).vertexCount)) <==>
              !OpensNewVertex(ops, dist) && (s < |dist| || s >= ApplyAll(g, ops).vertexCount)
  {
    var after := ApplyAll(g, ops);
    ApplyKeepsSimple(g, ops);
    ExactIsRelaxed(g.arcs, s, dist);
    var padded := Padded(dist, after.vertexCount);
    if OpensNewVertex(ops, dist) {
      var u: nat, v: nat :| LastOp(ops, true, (u, v)) == Some(true) && u != v && IsReached(dist, u) && v >= |dist|;
      NewVertexIsReached(g, ops, s, dist, u, v);
      assert padded[v] != Dist(after.arcs, s, v);
    } else if |dist| <= s < after.vertexCount {
      assert Walk(after.arcs, s, s, 0);
      DistIsLeast(after.arcs, s, s, 0);
      assert padded[s] != Dist(after.arcs, s, s);
    } else {
      QuietBatchIsExact(g, ops, s, dist);
    }
  }

  lemma QuietBatchIsExact(g: Graph, ops: seq<EdgeUpdate>, s: nat, dist: seq<nat>)
    requires Simple(g) && g.directed && |dist| == g.vertexCount && Exact(g.arcs, s, dist)
    requires Quiet(ops, dist) && InRange(ops) && !OpensNewVertex(ops, dist)
    requires s < |dist| || s >= ApplyAll(g, ops).vertexCount
    ensures ApplyAll(g, ops).vertexCount >= |dist|
    ensures Exact(ApplyAll(g, ops).arcs, s, Padded(dist, ApplyAll(g, ops).vertexCount))
  {
    var after := ApplyAll(g, ops);
    ApplyKeepsSimple(g, ops);
    ExactIsRelaxed(g.arcs, s, dist);
    var padded := Padded(dist, after.vertexCount);
    forall v: nat | v < |padded| && padded[v] != UNREACHABLE
      ensures Walk(after.arcs, s, v, padded[v])
    {
      QuietBatchKeepsWalks(g, ops, s, dist, v);
    }
    forall u: nat, v: nat | (u, v) in after.arcs
      ensures padded[v] <= padded[u] + 1
    {
      if IsReached(dist, u) {
        LastOperationWins(g, ops, u, v);
        if v < |dist| {
          QuietBatchStaysRelaxed(g, ops, s, dist, u, v);
        }
      }
    }
    CertificateIsExact(after.arcs, s, padded);
  }

  lemma NewVertexIsReached(g: Graph, ops: seq<EdgeUpdate>, s: nat, dist: seq<nat>, u: nat, v: nat)
    requires Simple(g) && g.directed && |dist| == g.vertexCount && Exact(g.arcs, s, dist) && Quiet(ops, dist)
    requires InRange(ops)
    requires LastOp(ops, true, (u, v)) == Some(true) && u != v && IsReached(dist, u) && v >= |dist|
    ensures v < ApplyAll(g, ops).vertexCount && Dist(ApplyAll(g, ops).arcs, s, v) != UNREACHABLE
  {
    var after := ApplyAll(g, ops);
    ApplyKeepsSimple(g, ops);
    LastOperationWins(g, ops, u, v);
    QuietBatchKeepsWalks(g, ops, s, dist, u);
    assert (u, v) in after.arcs;
    assert Walk(after.arcs, s, v, dist[u] + 1);
    DistBelowVertexCount(after.arcs, s, v, after.vertexCount);
  }

  /** In particular, with every endpoint below the label vector no distance changes, whatever the mix of operations. */
  lemma QuietBatchKeepsDistances(g: Graph, ops: seq<EdgeUpdate>, s: nat, dist: seq<nat>)
    requires Simple(g) && g.directed && |dist| == g.vertexCount && Exact(g.arcs, s, dist)
    requires Quiet(ops, dist) && forall op | op in ops :: op.src < |dist| && op.dst < |dist|
    ensures Exact(ApplyAll(g, ops).arcs, s, dist)
  {
    var after := ApplyAll(g, ops);
    ApplyKeepsSimple(g, ops);
    SameVertexCount(g, ops);
    ExactIsRelaxed(g.arcs, s, dist);
    forall v: nat | v < |dist| && dist[v] != UNREACHABLE
      ensures Walk(after.arcs, s, v, dist[v])
    {
      QuietBatchKeepsWalks(g, ops, s, dist, v);
    }
    forall u: nat, v: nat | (u, v) in after.arcs
      ensures dist[v] <= dist[u] + 1
    {
      if IsReached(dist, u) {
        QuietBatchStaysRelaxed(g, ops, s, dist, u, v);
      }
    }
    CertificateIsExact(after.arcs, s, dist);
  }

  lemma {:induction false} LastOpWitness(ops: seq<EdgeUpdate>, key: Arc) returns (op: EdgeUpdate)
    requires LastOp(ops, true, key) != None
    ensures op in ops && (op.src, op.dst) == key && LastOp(ops, true, key) == Some(op.add)
  {
    op := ops[|ops| - 1];
    if (op.src, op.dst) != key {
      op := LastOpWitness(ops[..|ops| - 1], key);
    }
  }

  lemma {:induction false} SameVertexCount(g: Graph, ops: seq<EdgeUpdate>)
    requires forall op | op in ops :: op.src < g.vertexCount && op.dst < g.vertexCount
    ensures ApplyAll(g, ops).vertexCount == g.vertexCount
  {
    if ops != [] {
      SameVertexCount(g, ops[..|ops| - 1]);
      assert ops[|ops| - 1] in ops;
    }
  }

  lemma ApplyTwo(g: Graph, first: EdgeUpdate, second: EdgeUpdate)
    ensures ApplyAll(g, [first, second]) == ApplyOne(ApplyOne(g, first), second)
  {
    assert [first, second][..1] == [first] && [first][..0] == [];
    assert ApplyAll(g, [first]) == ApplyOne(ApplyAll(g, []), first);
  }

  /** Endpoints beyond the vector are invisible to the signals: a path through a new vertex is missed. */
  lemma NewVertexIsMissed()
    ensures var g := Graph(true, 2, {}); var dist := [0, UNREACHABLE];
            var ops := [EdgeUpdate(0, 2, true), EdgeUpdate(2, 1, true)];
            && Simple(g) && Exact(g.arcs, 0, dist)
            && Quiet(ops, dist) && !Exact(ApplyAll(g, ops).arcs, 0, dist)
  {
    var g := Graph(true, 2, {});
    var dist := [0, UNREACHABLE];
    var ops := [EdgeUpdate(0, 2, true), EdgeUpdate(2, 1, true)];
    assert Walk(g.arcs, 0, 0, 0);
    CertificateIsExact(g.arcs, 0, dist);
    ApplyTwo(g, ops[0], ops[1]);
    var after := ApplyAll(g, ops);
    assert (0, 2) in after.arcs && (2, 1) in after.arcs;
    assert Walk(after.arcs, 0, 0, 0);
    assert Walk(after.arcs, 0, 2, 1);
    assert Walk(after.arcs, 0, 1, 2);
    DistIsLeast(after.arcs, 0, 1, 2);
    assert dist[1] != Dist(after.arcs, 0, 1);
  }
}
