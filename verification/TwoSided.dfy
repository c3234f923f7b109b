/** What the two sides of the dynamic graph hold. The overlay of the in-rows is written from the compact membership of
    the out-rows, so an in-row can drift from the transpose of the out-rows once the two are compacted differently.
    This module says exactly when that happens. */
module TwoSided {
  import opened Collections
  import opened Distances
  import opened DynamicGraphs

  /** The arcs seen in the out-rows and in the in-rows, and those held compact on either side. The in-side is given
      by its arcs, not by its rows: (u, v) is in `inArcs` when u is in the in-row of v. */
  datatype Rows = Rows(arcs: set<Arc>, inArcs: set<Arc>, compactOut: set<Arc>, compactIn: set<Arc>)
  {
    /** The in-rows are the transpose of the out-rows. */
    ghost predicate Transposed()
    {
      inArcs == arcs
    }

    /** Both sides hold the same arcs compact. */
    ghost predicate SidesAgree()
    {
      compactIn == compactOut
    }

    /** The in-row of v is right about u. */
    predicate RightAt(u: nat, v: nat)
    {
      (u, v) in inArcs <==> (u, v) in arcs
    }
  }

  /** Setting one arc: an arc that is already as wanted is left alone. The in-side drops its pending change when the
      wanted presence is that of the compact out-row, and so falls back to its own compact row. */
  function ApplyArc(r: Rows, u: nat, v: nat, present: bool): Rows
  {
    if ((u, v) in r.arcs) == present then r
    else
      var inPresent := if present == ((u, v) in r.compactOut) then (u, v) in r.compactIn else present;
      r.(arcs := SetArc(r.arcs, u, v, present), inArcs := SetArc(r.inArcs, u, v, inPresent))
  }

  function ApplyOp(r: Rows, directed: bool, op: EdgeUpdate): Rows
  {
    if op.src == op.dst then r
    else
      var once := ApplyArc(r, op.src, op.dst, op.add);
      if directed then once else ApplyArc(once, op.dst, op.src, op.add)
  }

  function ApplyOps(r: Rows, directed: bool, ops: seq<EdgeUpdate>): Rows
  {
    if ops == [] then r else ApplyOp(ApplyOps(r, directed, ops[..|ops| - 1]), directed, ops[|ops| - 1])
  }

  // ---------- The out-side is the edge set ----------

  lemma OneArc(r: Rows, u: nat, v: nat, present: bool)
    ensures ApplyArc(r, u, v, present).arcs == SetArc(r.arcs, u, v, present)
    ensures ApplyArc(r, u, v, present).compactOut == r.compactOut && ApplyArc(r, u, v, present).compactIn == r.compactIn
  {
  }

  /** The out-rows hold what applying the batch to the edge set gives, and nothing is compacted. */
  lemma {:induction false} OutRowsRefine(g: Graph, r: Rows, ops: seq<EdgeUpdate>)
    requires r.arcs == g.arcs
    ensures ApplyOps(r, g.directed, ops).arcs == ApplyAll(g, ops).arcs && ApplyAll(g, ops).directed == g.directed
    ensures ApplyOps(r, g.directed, ops).compactOut == r.compactOut
    ensures ApplyOps(r, g.directed, ops).compactIn == r.compactIn
  {
    if ops != [] {
      var last := |ops| - 1;
      OutRowsRefine(g, r, ops[..last]);
      var before, op := ApplyOps(r, g.directed, ops[..last]), ops[last];
      OneArc(before, op.src, op.dst, op.add);
      OneArc(ApplyArc(before, op.src, op.dst, op.add), op.dst, op.src, op.add);
    }
  }

  // ---------- One operation ----------

  /** An operation that changes an arc leaves the in-row right if and only if the presence it sets differs from the
      compact out-row's, or the compact in-row agrees with the compact out-row. No other entry is touched. */
  lemma ChangeKeepsRight(r: Rows, u: nat, v: nat, present: bool)
    requires ((u, v) in r.arcs) != present
    ensures ApplyArc(r, u, v, present).RightAt(u, v) <==>
              present != ((u, v) in r.compactOut) || ((u, v) in r.compactIn <==> (u, v) in r.compactOut)
    ensures forall x: nat, y: nat | (x, y) != (u, v) :: ApplyArc(r, u, v, present).RightAt(x, y) <==> r.RightAt(x, y)
  {
  }

  // ---------- A batch ----------

  /** Some operation on the key asks for a presence other than the given one. */
  predicate Disturbed(ops: seq<EdgeUpdate>, directed: bool, key: Arc, present: bool)
  {
    ops != [] &&
    (Disturbed(ops[..|ops| - 1], directed, key, present) ||
     (Key(directed, ops[|ops| - 1].src, ops[|ops| - 1].dst) == key && ops[|ops| - 1].add != present))
  }

  /** The presence of the arc (u, v) after the batch. */
  function Lasting(r: Rows, directed: bool, ops: seq<EdgeUpdate>, u: nat, v: nat): bool
  {
    match LastOp(ops, directed, Key(directed, u, v))
    case None => (u, v) in r.arcs
    case Some(add) => add
  }

  /** The two sides can be told apart at (u, v) once an operation has changed it back to its compact presence. */
  predicate FallsBack(r: Rows, directed: bool, ops: seq<EdgeUpdate>, u: nat, v: nat)
  {
    && u != v && Disturbed(ops, directed, Key(directed, u, v), (u, v) in r.arcs)
    && Lasting(r, directed, ops, u, v) == ((u, v) in r.compactOut)
  }

  /** One arc after a batch: what it is, and when the in-row is right about it. */
  lemma {:induction false} ArcAfterBatch(r: Rows, directed: bool, ops: seq<EdgeUpdate>, u: nat, v: nat)
    requires u != v
    ensures var after := ApplyOps(r, directed, ops);
            && ((u, v) in after.arcs <==> Lasting(r, directed, ops, u, v))
            && ((u, v) in after.inArcs <==>
                 if FallsBack(r, directed, ops, u, v) then (u, v) in r.compactIn
                 else if Disturbed(ops, directed, Key(directed, u, v), (u, v) in r.arcs) then
                   Lasting(r, directed, ops, u, v)
                 else (u, v) in r.inArcs)
            && after.compactOut == r.compactOut && after.compactIn == r.compactIn
            && (!Disturbed(ops, directed, Key(directed, u, v), (u, v) in r.arcs) ==>
                 (Lasting(r, directed, ops, u, v) <==> (u, v) in r.arcs))
  {
    if ops != [] {
      var last := |ops| - 1;
      ArcAfterBatch(r, directed, ops[..last], u, v);
      var before, op := ApplyOps(r, directed, ops[..last]), ops[last];
      var once := ApplyArc(before, op.src, op.dst, op.add);
      OneArc(before, op.src, op.dst, op.add);
      OneArc(once, op.dst, op.src, op.add);
    }
  }

  /** Where the batch makes both sides fall back to their compact rows, these agree. */
  ghost predicate StaysTransposed(r: Rows, directed: bool, ops: seq<EdgeUpdate>)
  {
    forall u: nat, v: nat {:trigger FallsBack(r, directed, ops, u, v)} | FallsBack(r, directed, ops, u, v) ::
      (u, v) in r.compactIn <==> (u, v) in r.compactOut
  }

  /** A batch keeps the in-rows the transpose of the out-rows if and only if the compact sides agree at every arc that
      falls back to them. */
  lemma TransposedAfterBatch(r: Rows, directed: bool, ops: seq<EdgeUpdate>)
    requires r.Transposed()
    ensures ApplyOps(r, directed, ops).Transposed() <==> StaysTransposed(r, directed, ops)
  {
    var after := ApplyOps(r, directed, ops);
    forall u: nat, v: nat
      ensures after.RightAt(u, v) <==> FallsBack(r, directed, ops, u, v) ==>
        ((u, v) in r.compactIn <==> (u, v) in r.compactOut)
    {
      if u == v {
        LoopsUntouched(r, directed, ops, v);
      } else {
        ArcAfterBatch(r, directed, ops, u, v);
      }
    }
    if StaysTransposed(r, directed, ops) {
      forall u: nat, v: nat
        ensures (u, v) in after.inArcs <==> (u, v) in after.arcs
      {
        assert after.RightAt(u, v);
      }
      SamePairs(after.inArcs, after.arcs);
    }
    if after.Transposed() {
      forall u: nat, v: nat | FallsBack(r, directed, ops, u, v)
        ensures (u, v) in r.compactIn <==> (u, v) in r.compactOut
      {
        assert after.RightAt(u, v);
      }
    }
  }

  lemma {:induction false} LoopsUntouched(r: Rows, directed: bool, ops: seq<EdgeUpdate>, v: nat)
    ensures (v, v) in ApplyOps(r, directed, ops).arcs <==> (v, v) in r.arcs
    ensures (v, v) in ApplyOps(r, directed, ops).inArcs <==> (v, v) in r.inArcs
  {
    if ops != [] {
      LoopsUntouched(r, directed, ops[..|ops| - 1], v);
    }
  }

  /** While both sides hold the same arcs compact, every batch keeps the in-rows right. */
  lemma AgreeingSidesStay(r: Rows, directed: bool, ops: seq<EdgeUpdate>)
    requires r.Transposed() && r.SidesAgree()
    ensures StaysTransposed(r, directed, ops)
    ensures ApplyOps(r, directed, ops).Transposed() && ApplyOps(r, directed, ops).SidesAgree()
  {
    TransposedAfterBatch(r, directed, ops);
    OutRowsRefine(Graph(directed, 0, r.arcs), r, ops);
  }
}
