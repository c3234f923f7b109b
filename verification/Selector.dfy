/** The adaptive choice between repairing and recomputing, as a state machine over all batch histories. */
module Selector {
  import opened Collections
  import opened Distances
  import opened DynamicGraphs
  import opened TwoSided
  import opened GraphStorage
  import opened IncrementalBfs
  import opened BfsStreams
  import Signals

  const AFFECTED_BUDGET := 0.05
  const PREFLIGHT_FULL_UPDATE := 0.05
  const EMA_ALPHA := 0.25
  const LEARNED_FULL_MARGIN := 1.25
  const FRESH_AGE := 4
  const TINY := 0.000000000001

  type Share = x: real | 0.0 <= x

  /** What one batch shows the selector; `executionUs` is the measured time of the chosen plan. */
  datatype Batch = Batch(updateFraction: Share, structuralChange: real, affectedFraction: Share, fallback: bool,
                         executionUs: real)

  datatype State = State(
    previousAffected: real,
    emaIncrementalUs: real,
    latestFullUs: real,
    lastUpdateFraction: Share,
    incrementalError: Option<real>,
    fullError: Option<real>,
    tailRatio: real,
    haveIncremental: bool,
    deferred: bool,
    confirmationDue: bool,
    incrementalAge: nat,
    fullAge: nat)

  datatype Reason = PreflightFull | DeferProbe | IncrementalProbe | TailConfirmation | RefreshIncremental |
                    TailGuardFull | ConfidentFull | FreshExpectedFull | Incremental

  datatype Decision = Decision(reason: Reason, predictedIncrementalUs: real, predictedFullUs: real)
  {
    predicate Full()
    {
      reason in {PreflightFull, DeferProbe, TailGuardFull, ConfidentFull, FreshExpectedFull}
    }

    predicate ObservedFull(b: Batch)
    {
      Full() || b.fallback
    }
  }

  /** How costs are predicted and compared. The run properties hold for every cost model; the one in use is L3. */
  datatype CostModel = CostModel(
    predict: (State, Batch) -> real,
    tailBeatsFull: (State, real) -> bool,
    confidentlyFull: (State, real) -> bool,
    tail: (Batch, real) -> real,
    relativeError: (real, real) -> real,
    estimate: (Batch, real) -> real)

  function Initial(initialFullUs: real): State
  {
    State(0.0, 0.0, initialFullUs, 0.0, None, None, 1.0, false, false, false, 0, 0)
  }

  function Clamp(x: real, low: real, high: real): real
  {
    if x < low then low else if x > high then high else x
  }

  function Least(x: real, y: real): real
  {
    if x < y then x else y
  }

  function Greatest(x: real, y: real): real
  {
    if x > y then x else y
  }

  // ---------- The cost model in use ----------

  /** How this batch compares in size with the last one repaired. */
  function SizeRatio(s: State, b: Batch): real
  {
    (b.updateFraction + TINY) / (s.lastUpdateFraction + TINY)
  }

  function SizeScale(sqrt: real -> real, s: State, b: Batch): real
  {
    Clamp(sqrt(SizeRatio(s, b)), 0.4, 3.0)
  }

  function PredictedIncremental(sqrt: real -> real, s: State, b: Batch): real
  {
    s.emaIncrementalUs * SizeScale(sqrt, s, b)
    * (1.0 + 4.0 * Clamp(s.previousAffected, 0.0, 1.0)) * (1.0 + b.structuralChange)
  }

  predicate TailBeatsFull(s: State, incrementalUs: real)
  {
    incrementalUs * s.tailRatio > s.latestFullUs
  }

  function ModelError(seen: Option<real>, high: real, otherwise: real): real
  {
    match seen
    case None => otherwise
    case Some(error) => Clamp(error, 0.08, high)
  }

  /** How far the two costs may be off: by the errors seen, and more with age. */
  function RepairMargin(s: State): real
  {
    Least(0.70, ModelError(s.incrementalError, 0.50, 0.40) + Least(0.25, 0.02 * s.incrementalAge as real))
  }

  function FullMargin(s: State): real
  {
    Least(0.60, ModelError(s.fullError, 0.40, 0.25) + Least(0.30, 0.015 * s.fullAge as real))
  }

  predicate ConfidentlyFull(s: State, incrementalUs: real)
  {
    incrementalUs * (1.0 - RepairMargin(s)) > s.latestFullUs * (1.0 + FullMargin(s))
  }

  function AffectedScale(b: Batch): real
  {
    1.0 + b.affectedFraction / AFFECTED_BUDGET
  }

  /** The excess of the measured over the predicted time, less what the affected vertices explain. */
  function NormalizedTail(b: Batch, predictedUs: real): (tail: real)
    ensures tail >= 1.0
  {
    if predictedUs > 0.0 then Greatest(1.0, b.executionUs / Greatest(1.0, predictedUs) / AffectedScale(b)) else 1.0
  }

  function RelativeError(measured: real, predicted: real): real
  {
    (if measured < predicted then predicted - measured else measured - predicted) / Greatest(1.0, predicted)
  }

  function Weight(b: Batch): real
  {
    EMA_ALPHA / Greatest(1.0, AffectedScale(b))
  }

  /** The next cost estimate, moved less the more vertices the batch affected. */
  function Blend(b: Batch, older: real): real
  {
    (1.0 - Weight(b)) * older + Weight(b) * b.executionUs
  }

  function L3(sqrt: real -> real): CostModel
  {
    CostModel((s, b) => PredictedIncremental(sqrt, s, b), (s, us) => TailBeatsFull(s, us),
              (s, us) => ConfidentlyFull(s, us), (b, us) => NormalizedTail(b, us),
              (measured, us) => RelativeError(measured, us), (b, older) => Blend(b, older))
  }

  /** A square root of nonnegative numbers. */
  ghost predicate SquareRoot(sqrt: real -> real)
  {
    forall x: real {:trigger sqrt(x)} | x >= 0.0 :: sqrt(x) >= 0.0 && sqrt(x) * sqrt(x) == x
  }

  lemma PositiveSquare(x: real)
    requires x > 0.0
    ensures x * x > 0.0
  {
  }

  lemma Squares(x: real, y: real)
    requires 0.0 <= x && 0.0 <= y
    ensures x <= y <==> x * x <= y * y
  {
    if x <= y {
      Products(x, y - x);
      Products(y, y - x);
    } else {
      Products(y, x - y);
      PositiveSquare(x - y);
      assert x * x == y * y + 2.0 * (y * (x - y)) + (x - y) * (x - y);
    }
  }

  /** The ratio of two sizes, each a little increased: a batch can be compared with an empty one. */
  lemma RatioMeaning(s: State, b: Batch)
    ensures SizeRatio(s, b) * (s.lastUpdateFraction + 0.000000000001) == b.updateFraction + 0.000000000001
    ensures SizeRatio(s, b) > 0.0
  {
    var x, y := b.updateFraction + TINY, s.lastUpdateFraction + TINY;
    assert x / y * y == x;
  }

  /** The size scale is the square root of the ratio of sizes, held between 0.4 and 3: a batch at most 0.16 times as
      large as the last one counts 0.4, one at least 9 times as large counts 3. */
  lemma ScaleMeaning(sqrt: real -> real, s: State, b: Batch)
    requires SquareRoot(sqrt)
    ensures SizeRatio(s, b) <= 0.16 ==> SizeScale(sqrt, s, b) == 0.4
    ensures SizeRatio(s, b) >= 9.0 ==> SizeScale(sqrt, s, b) == 3.0
    ensures 0.16 <= SizeRatio(s, b) <= 9.0 ==> SizeScale(sqrt, s, b) * SizeScale(sqrt, s, b) == SizeRatio(s, b)
  {
    RatioMeaning(s, b);
    var root := sqrt(SizeRatio(s, b));
    Squares(root, 0.4);
    Squares(0.4, root);
    Squares(root, 3.0);
    Squares(3.0, root);
  }

  // ---------- The decision ----------

  function LearnedReason(m: CostModel, s: State, incrementalUs: real): Reason
  {
    if s.confirmationDue then TailConfirmation
    else if s.incrementalAge >= FRESH_AGE then RefreshIncremental
    else if s.tailRatio >= LEARNED_FULL_MARGIN && m.tailBeatsFull(s, incrementalUs) then TailGuardFull
    else if m.confidentlyFull(s, incrementalUs) then ConfidentFull
    else if s.fullAge < FRESH_AGE && incrementalUs > s.latestFullUs * LEARNED_FULL_MARGIN then FreshExpectedFull
    else Incremental
  }

  function Decide(m: CostModel, s: State, b: Batch, simpleFraction: real): Decision
  {
    if b.updateFraction >= PREFLIGHT_FULL_UPDATE then Decision(PreflightFull, 0.0, 0.0)
    else if !s.haveIncremental then
      Decision(if s.deferred && b.updateFraction >= simpleFraction then DeferProbe else IncrementalProbe, 0.0, 0.0)
    else
      var incrementalUs := m.predict(s, b);
      Decision(LearnedReason(m, s, incrementalUs), incrementalUs, s.latestFullUs)
  }

  // ---------- What is learnt ----------

  function Decayed(s: State): real
  {
    1.0 + (s.tailRatio - 1.0) * (1.0 - EMA_ALPHA)
  }

  function Smoothed(seen: Option<real>, x: real): Option<real>
  {
    match seen
    case None => Some(x)
    case Some(ema) => Some((1.0 - EMA_ALPHA) * ema + EMA_ALPHA * x)
  }

  function Tail(m: CostModel, b: Batch, d: Decision): real
  {
    m.tail(b, d.predictedIncrementalUs)
  }

  /** A measured incremental batch whose tail is material and which does not itself confirm an earlier one. */
  predicate MaterialTail(m: CostModel, b: Batch, d: Decision)
  {
    !d.ObservedFull(b) && d.reason != TailConfirmation && Tail(m, b, d) >= LEARNED_FULL_MARGIN
  }

  /** A confirmation batch that was repaired incrementally to its end. */
  predicate Confirms(b: Batch, d: Decision)
  {
    !d.ObservedFull(b) && d.reason == TailConfirmation
  }

  function NextTailRatio(m: CostModel, s: State, b: Batch, d: Decision): real
  {
    if Confirms(b, d) || MaterialTail(m, b, d) then Greatest(Decayed(s), Tail(m, b, d)) else Decayed(s)
  }

  /** The state after a batch. */
  function Learn(m: CostModel, s: State, b: Batch, d: Decision): State
  {
    var full := d.ObservedFull(b);
    var predicted := d.predictedIncrementalUs > 0.0 && d.predictedFullUs > 0.0;
    State(
      if full then 0.0 else b.affectedFraction,
      if full then s.emaIncrementalUs else if s.haveIncremental then m.estimate(b, s.emaIncrementalUs)
        else b.executionUs,
      if full then b.executionUs else s.latestFullUs,
      if full then s.lastUpdateFraction else b.updateFraction,
      if predicted && !full then Smoothed(s.incrementalError, m.relativeError(b.executionUs, d.predictedIncrementalUs))
        else s.incrementalError,
      if predicted && full then Smoothed(s.fullError, m.relativeError(b.executionUs, d.predictedFullUs))
        else s.fullError,
      NextTailRatio(m, s, b, d),
      s.haveIncremental || !full,
      full && (s.deferred || (d.reason == PreflightFull && !s.haveIncremental)),
      if full then s.confirmationDue else MaterialTail(m, b, d) || (s.confirmationDue && !Confirms(b, d)),
      if full then s.incrementalAge + 1 else 0,
      if full then 0 else s.fullAge + 1)
  }

  // ---------- Runs ----------

  /** A run: the batches it meets and where it starts. */
  datatype Run = Run(model: CostModel, initialFullUs: real, simpleFraction: real, batches: seq<Batch>)
  {
    function StateAt(i: nat): State
      requires i <= |batches|
      decreases i, 0
    {
      if i == 0 then Initial(initialFullUs) else Learn(model, StateAt(i - 1), batches[i - 1], Choice(i - 1))
    }

    function Choice(i: nat): Decision
      requires i < |batches|
      decreases i, 1
    {
      Decide(model, StateAt(i), batches[i], simpleFraction)
    }

    /** The normalised tail of a batch. */
    function TailAt(i: nat): real
      requires i < |batches|
    {
      Tail(model, batches[i], Choice(i))
    }

    predicate Material(i: nat)
      requires i < |batches|
    {
      MaterialTail(model, batches[i], Choice(i))
    }

    predicate Confirmed(i: nat)
      requires i < |batches|
    {
      Confirms(batches[i], Choice(i))
    }
  }

  /** A confirmation that is due stays due until an incremental batch completes it. */
  lemma {:induction false} DueUntilConfirmed(r: Run, i: nat, j: nat)
    requires i < j <= |r.batches| && r.Material(i)
    requires forall k: nat | i < k < j :: !r.Confirmed(k)
    ensures r.StateAt(j).confirmationDue
    decreases j
  {
    if j > i + 1 {
      DueUntilConfirmed(r, i, j - 1);
      assert !r.Confirmed(j - 1);
    }
  }

  /** After a material tail event no learnt full decision, tail guard or other, is made before a confirmation batch
      has completed. */
  lemma NoLearnedFullBeforeConfirmation(r: Run, i: nat, j: nat) returns (k: nat)
    requires i < j < |r.batches| && r.Material(i)
    requires r.Choice(j).reason in {TailGuardFull, ConfidentFull, FreshExpectedFull}
    ensures i < k < j && r.Confirmed(k)
  {
    if forall k: nat | i < k < j :: !r.Confirmed(k) {
      DueUntilConfirmed(r, i, j);
      assert false;
    }
    k :| i < k < j && r.Confirmed(k);
  }

  /** The largest normalised tail of the incremental batches seen so far. */
  ghost function WorstTail(r: Run, i: nat): (worst: real)
    requires i <= |r.batches|
    ensures worst >= 1.0
  {
    if i == 0 then 1.0
    else if r.Choice(i - 1).ObservedFull(r.batches[i - 1]) then WorstTail(r, i - 1)
    else Greatest(WorstTail(r, i - 1), r.TailAt(i - 1))
  }

  /** The tail ratio stays between 1 and the worst tail seen. */
  lemma {:induction false} TailRatioBounded(r: Run, i: nat)
    requires i <= |r.batches|
    ensures 1.0 <= r.StateAt(i).tailRatio <= WorstTail(r, i)
    decreases i
  {
    if i > 0 {
      TailRatioBounded(r, i - 1);
    }
  }

  lemma {:induction false} WorstTailIsSeen(r: Run, i: nat) returns (k: nat)
    requires i <= |r.batches| && WorstTail(r, i) >= LEARNED_FULL_MARGIN
    ensures k < i && !r.Choice(k).ObservedFull(r.batches[k]) && r.TailAt(k) >= LEARNED_FULL_MARGIN
    decreases i
  {
    if WorstTail(r, i - 1) >= LEARNED_FULL_MARGIN {
      k := WorstTailIsSeen(r, i - 1);
    } else {
      k := i - 1;
    }
  }

  /** Every full decision made on tail grounds has a completed confirmation behind it. */
  lemma TailGuardIsConfirmed(r: Run, j: nat) returns (k: nat)
    requires j < |r.batches| && r.Choice(j).reason == TailGuardFull
    ensures k < j && r.Confirmed(k)
  {
    TailRatioBounded(r, j);
    k := WorstTailIsSeen(r, j);
    if !r.Confirmed(k) {
      k := NoLearnedFullBeforeConfirmation(r, k, j);
    }
  }

  /** Once an incremental cost is known it stays known, and the age of the estimate counts the full batches since. */
  lemma {:induction false} AgeGrows(r: Run, i: nat, n: nat)
    requires i + n <= |r.batches| && r.StateAt(i).haveIncremental
    requires forall k: nat | i <= k < i + n :: r.Choice(k).Full()
    ensures r.StateAt(i + n).haveIncremental && r.StateAt(i + n).incrementalAge == r.StateAt(i).incrementalAge + n
    decreases n
  {
    if n > 0 {
      AgeGrows(r, i, n - 1);
      assert r.Choice(i + n - 1).Full();
    }
  }

  /** Once an incremental cost is known, any FRESH_AGE + 1 batches below the preflight size include one that is
      not sent to a full recompute, whatever the measured times. */
  lemma FullRunsAreShort(r: Run, i: nat) returns (k: nat)
    requires i + FRESH_AGE < |r.batches| && r.StateAt(i).haveIncremental
    requires forall j | i <= j <= i + FRESH_AGE :: r.batches[j].updateFraction < PREFLIGHT_FULL_UPDATE
    ensures i <= k <= i + FRESH_AGE && !r.Choice(k).Full()
  {
    if forall j: nat | i <= j < i + FRESH_AGE :: r.Choice(j).Full() {
      AgeGrows(r, i, FRESH_AGE);
      k := i + FRESH_AGE;
    } else {
      k :| i <= k < i + FRESH_AGE && !r.Choice(k).Full();
    }
  }

  // ---------- The cost estimate ----------

  /** Estimates lie between the older estimate and the new measurement. */
  ghost predicate Averaging(m: CostModel)
  {
    forall b: Batch, older: real {:trigger m.estimate(b, older)} ::
      Least(older, b.executionUs) <= m.estimate(b, older) <= Greatest(older, b.executionUs)
  }

  lemma Products(x: real, y: real)
    requires x >= 0.0 && y >= 0.0
    ensures x * y >= 0.0
  {
  }

  lemma Between(weight: real, x: real, y: real)
    requires 0.0 <= weight <= 1.0
    ensures Least(x, y) <= (1.0 - weight) * x + weight * y <= Greatest(x, y)
  {
    if x <= y {
      Products(weight, y - x);
      Products(1.0 - weight, y - x);
      assert (1.0 - weight) * x + weight * y == x + weight * (y - x) == y - (1.0 - weight) * (y - x);
    } else {
      Products(weight, x - y);
      Products(1.0 - weight, x - y);
      assert (1.0 - weight) * x + weight * y == x - weight * (x - y) == y + (1.0 - weight) * (x - y);
    }
  }

  lemma WeightRange(b: Batch)
    ensures 0.0 <= Weight(b) <= 1.0
  {
    var scale := Greatest(1.0, AffectedScale(b));
    assert EMA_ALPHA / scale * scale == EMA_ALPHA;
  }

  lemma L3IsAveraging(sqrt: real -> real)
    ensures Averaging(L3(sqrt))
  {
    forall b: Batch, older: real
      ensures Least(older, b.executionUs) <= Blend(b, older) <= Greatest(older, b.executionUs)
    {
      WeightRange(b);
      Between(Weight(b), older, b.executionUs);
    }
  }

  lemma EstimateStep(m: CostModel, s: State, b: Batch, d: Decision, low: real, high: real)
    requires Averaging(m) && (s.haveIncremental ==> low <= s.emaIncrementalUs <= high)
    requires !d.ObservedFull(b) ==> low <= b.executionUs <= high
    ensures Learn(m, s, b, d).haveIncremental ==> low <= Learn(m, s, b, d).emaIncrementalUs <= high
  {
  }

  /** The incremental times among the first i batches lie between low and high. */
  ghost predicate MeasuredWithin(r: Run, i: nat, low: real, high: real)
    requires i <= |r.batches|
  {
    i == 0 || (MeasuredWithin(r, i - 1, low, high) &&
               (!r.Choice(i - 1).ObservedFull(r.batches[i - 1]) ==> low <= r.batches[i - 1].executionUs <= high))
  }

  /** The incremental cost estimate never leaves the range of the incremental times measured. */
  lemma {:induction false} EstimateWithinMeasurements(r: Run, i: nat, low: real, high: real)
    requires i <= |r.batches| && Averaging(r.model) && MeasuredWithin(r, i, low, high)
    ensures r.StateAt(i).haveIncremental ==> low <= r.StateAt(i).emaIncrementalUs <= high
    decreases i
  {
    if i > 0 {
      EstimateWithinMeasurements(r, i - 1, low, high);
      EstimateStep(r.model, r.StateAt(i - 1), r.batches[i - 1], r.Choice(i - 1), low, high);
    }
  }

  // ---------- The loop over batches ----------

  /** Update the estimates after a batch, in the order the loop does. */
  method Observe(m: CostModel, s0: State, b: Batch, d: Decision) returns (s: State)
    ensures s == Learn(m, s0, b, d)
  {
    s := s0;
    if d.reason == PreflightFull && !s.haveIncremental {
      s := s.(deferred := true);
    }
    var observedFull := d.ObservedFull(b);
    s := s.(incrementalAge := s.incrementalAge + 1, fullAge := s.fullAge + 1);
    var decayedTail := Decayed(s0);
    if d.predictedIncrementalUs > 0.0 && d.predictedFullUs > 0.0 {
      if observedFull {
        s := s.(fullError := Smoothed(s.fullError, m.relativeError(b.executionUs, d.predictedFullUs)));
      } else {
        s := s.(incrementalError := Smoothed(s.incrementalError,
                                             m.relativeError(b.executionUs, d.predictedIncrementalUs)));
      }
    }
    if observedFull {
      s := s.(latestFullUs := b.executionUs, fullAge := 0, previousAffected := 0.0, tailRatio := decayedTail);
    } else {
      var tail := m.tail(b, d.predictedIncrementalUs);
      if d.reason == TailConfirmation {
        s := s.(confirmationDue := false, tailRatio := Greatest(decayedTail, tail));
      } else if tail >= LEARNED_FULL_MARGIN {
        s := s.(tailRatio := Greatest(decayedTail, tail), confirmationDue := true);
      } else {
        s := s.(tailRatio := decayedTail);
      }
      s := s.(emaIncrementalUs := if s.haveIncremental then m.estimate(b, s.emaIncrementalUs) else b.executionUs);
      s := s.(haveIncremental := true, deferred := false, incrementalAge := 0, lastUpdateFraction := b.updateFraction,
              previousAffected := b.affectedFraction);
    }
  }

  /** What a run has done so far depends only on the batches it has met. */
  lemma {:induction false} PrefixDecides(r: Run, longer: Run, i: nat)
    requires i <= |r.batches| && r.batches <= longer.batches
    requires longer == Run(r.model, r.initialFullUs, r.simpleFraction, longer.batches)
    ensures r.StateAt(i) == longer.StateAt(i)
    ensures i < |r.batches| ==> r.Choice(i) == longer.Choice(i)
    decreases i
  {
    if i > 0 {
      PrefixDecides(r, longer, i - 1);
    }
  }

  lemma SameDistances(arcs: set<Arc>, s: nat, left: seq<nat>, right: seq<nat>)
    requires Exact(arcs, s, left)
    ensures left == right <==> |left| == |right| && Exact(arcs, s, right)
  {
    if |left| == |right| && Exact(arcs, s, right) {
      forall v: nat | v < |left|
        ensures left[v] == right[v]
      {
        assert left[v] == Dist(arcs, s, v) && right[v] == Dist(arcs, s, v);
      }
    }
  }

  /** What a batch looks like to the selector before a plan is chosen. */
  method Inspect(bfs: IncrementalBfs, ops: seq<EdgeUpdate>) returns (updateFraction: Share, structuralChange: real)
    requires bfs.Sane()
    ensures Signals.IsFraction(updateFraction, |ops|, Max(1, |bfs.graph.arcs|))
    ensures Signals.IsStructuralShare(structuralChange, ops, bfs.dist)
  {
    var signals := Signals.Measure(ops, bfs.dist);
    var edges := bfs.graph.EdgeCountDirected();
    Signals.FractionMeaning(|ops|, Max(1, edges));
    return Signals.Fraction(|ops|, Max(1, edges)), signals.structuralChangeFraction;
  }

  /** Predictions do not look at the outcome of the batch. */
  ghost predicate Foresighted(m: CostModel)
  {
    forall s: State, b: Batch, fallback: bool, affected: Share
      {:trigger m.predict(s, b.(fallback := fallback, affectedFraction := affected))} ::
      m.predict(s, b.(fallback := fallback, affectedFraction := affected)) == m.predict(s, b)
  }

  lemma L3IsForesighted(sqrt: real -> real)
    ensures Foresighted(L3(sqrt))
  {
    var m := L3(sqrt);
    forall s: State, b: Batch, fallback: bool, affected: Share
      ensures m.predict(s, b.(fallback := fallback, affectedFraction := affected)) == m.predict(s, b)
    {
      var after := b.(fallback := fallback, affectedFraction := affected);
      assert m.predict(s, after) == PredictedIncremental(sqrt, s, after)
        && m.predict(s, b) == PredictedIncremental(sqrt, s, b);
    }
  }

  /** The decision is made from what is known before the batch is carried out. */
  lemma DecisionIgnoresOutcome(m: CostModel, s: State, known: Batch, fallback: bool, affected: Share,
                               simpleFraction: real)
    requires Foresighted(m)
    ensures Decide(m, s, known.(fallback := fallback, affectedFraction := affected), simpleFraction) ==
      Decide(m, s, known, simpleFraction)
  {
    var b := known.(fallback := fallback, affectedFraction := affected);
    assert m.predict(s, b) == m.predict(s, known);
  }

  /** Compare the labels with a fresh search. */
  method Agrees(bfs: IncrementalBfs) returns (agrees: bool)
    requires bfs.Sane()
    ensures agrees <==> |bfs.dist| == bfs.graph.vertexCount && Exact(bfs.graph.arcs, bfs.source, bfs.dist)
  {
    var check, _ := FullBfs(bfs.graph, bfs.source);
    SameDistances(bfs.graph.arcs, bfs.source, check, bfs.dist);
    agrees := check == bfs.dist;
  }

  /** What is known of a batch before it is carried out: its size, the share that can move a distance, and the time that
      it will take. */
  ghost predicate Foreseen(m: Moment, ops: seq<EdgeUpdate>, time: real, b: Batch)
  {
    && b.executionUs == time && Signals.IsFraction(b.updateFraction, |ops|, Max(1, |m.graph.arcs|))
    && Signals.IsStructuralShare(b.structuralChange, ops, m.dist)
  }

  /** What the outcome of a plan shows: nothing of a recompute that was chosen; of a repair, whether it fell back, and
      otherwise the share of vertices that it affected. */
  ghost predicate Outcome(m: Moment, ops: seq<EdgeUpdate>, s: nat, fraction: real, vertices: nat, b: Batch, full: bool)
  {
    if full then !b.fallback && b.affectedFraction == 0.0
    else exists affected: nat {:trigger Reported(m, ops, s, fraction, b.fallback, affected)} ::
      && Reported(m, ops, s, fraction, b.fallback, affected)
      && Signals.IsFraction(b.affectedFraction, if b.fallback then 0 else affected, Max(1, vertices))
  }

  /** Inspect a batch and decide on its plan. */
  method Plan(bfs: IncrementalBfs, s0: State, ops: seq<EdgeUpdate>, m: CostModel, time: real, simpleFraction: real)
    returns (known: Batch, d: Decision)
    requires bfs.Sane()
    ensures Foreseen(MomentOf(bfs), ops, time, known) && known.executionUs == time
    ensures d == Decide(m, s0, known, simpleFraction)
  {
    var updateFraction, structuralChange := Inspect(bfs, ops);
    known := Batch(updateFraction, structuralChange, 0.0, false, time);
    d := Decide(m, s0, known, simpleFraction);
  }

  /** Observe the outcome of a batch. */
  method Conclude(s0: State, known: Batch, d: Decision, fallback: bool, affectedVertices: nat, vertices: nat,
                  m: CostModel, simpleFraction: real, ghost before: Moment, ghost ops: seq<EdgeUpdate>,
                  ghost source: nat, ghost fraction: real)
    returns (b: Batch, s: State)
    requires Foresighted(m) && d == Decide(m, s0, known, simpleFraction)
    requires Foreseen(before, ops, known.executionUs, known)
    requires if d.Full() then !fallback else Reported(before, ops, source, fraction, fallback, affectedVertices)
    ensures b == known.(fallback := fallback, affectedFraction := b.affectedFraction)
    ensures Foreseen(before, ops, known.executionUs, b)
    ensures Outcome(before, ops, source, fraction, vertices, b, d.Full())
    ensures d == Decide(m, s0, b, simpleFraction) && s == Learn(m, s0, b, d)
  {
    var affected := if d.Full() || fallback then 0.0 else Signals.Fraction(affectedVertices, Max(1, vertices));
    Signals.FractionMeaning(affectedVertices, Max(1, vertices));
    b := known.(fallback := fallback, affectedFraction := affected);
    DecisionIgnoresOutcome(m, s0, known, fallback, affected, simpleFraction);
    s := Observe(m, s0, b, d);
  }

  /** The driver's stream so far: where it started, whether the labels were exact over rows that fit, and whether the
      overlay was small; and that the labels then agreed with every search. */
  datatype Course = Course(graph: Graph, start: Rows, ready: bool, calm: bool)

  ghost function CourseOf(bfs: IncrementalBfs, stream: seq<seq<EdgeUpdate>>): Course
    reads bfs, bfs.graph, bfs.seenFinalUpdates, bfs.finalDeletionKeys
  {
    Course(bfs.graph.Value(), bfs.graph.Sides(), bfs.Ready() && bfs.source < bfs.graph.vertexCount,
           Calm(bfs.graph, Total(stream)))
  }

  ghost predicate OnCourse(c: Course, bfs: IncrementalBfs, stream: seq<seq<EdgeUpdate>>, i: nat, states: seq<Rows>,
                           exact: bool)
    requires i <= |stream|
    reads bfs, bfs.graph, bfs.seenFinalUpdates, bfs.finalDeletionKeys
  {
    && bfs.Sane() && c.graph.vertexCount <= bfs.graph.vertexCount
    && History(bfs.graph, c.graph, c.start, stream, i, states)
    && (c.ready && AlwaysSuffices(states, c.graph, bfs.source, stream[..i]) ==>
        exact && bfs.Ready() && bfs.source < bfs.graph.vertexCount)
    && (c.calm ==> CalmSoFar(bfs.graph, c.graph, bfs.source, stream, i, states))
  }

  lemma StartCourse(bfs: IncrementalBfs, stream: seq<seq<EdgeUpdate>>)
    requires bfs.Sane()
    ensures OnCourse(CourseOf(bfs, stream), bfs, stream, 0, [], true)
  {
    assert stream[..0] == [];
  }

  lemma EndCourse(c: Course, bfs: IncrementalBfs, stream: seq<seq<EdgeUpdate>>, states: seq<Rows>, exact: bool)
    requires OnCourse(c, bfs, stream, |stream|, states, exact)
    ensures bfs.Sane() && bfs.graph.directed == c.graph.directed && bfs.graph.Value() == ApplyBatches(c.graph, stream)
    ensures Recorded(states, c.graph, stream) && (stream != [] ==> states[0] == c.start)
    ensures c.ready && AlwaysSuffices(states, c.graph, bfs.source, stream) ==> exact && bfs.Ready()
    ensures c.calm ==> AlwaysSuffices(states, c.graph, bfs.source, stream)
  {
    assert stream[..|stream|] == stream;
  }

  /** Carry out a plan and compare the labels with a fresh search. */
  method Proceed(bfs: IncrementalBfs, ghost c: Course, stream: seq<seq<EdgeUpdate>>, i: nat, full: bool,
                 ghost states0: seq<Rows>, exact0: bool)
    returns (fallback: bool, exact: bool, ghost states: seq<Rows>)
    requires i < |stream| && InRange(stream[i]) && 0.0 <= bfs.deletionFallbackFraction
    requires OnCourse(c, bfs, stream, i, states0, exact0)
    modifies bfs, bfs.graph, bfs.seenFinalUpdates, bfs.finalDeletionKeys
    ensures OnCourse(c, bfs, stream, i + 1, states, exact)
    ensures exact <==> exact0 && |bfs.dist| == bfs.graph.vertexCount && Exact(bfs.graph.arcs, bfs.source, bfs.dist)
    ensures states == states0 + [old(bfs.graph.Sides())]
    ensures if full then !fallback
            else Reported(old(MomentOf(bfs)), stream[i], bfs.source, bfs.deletionFallbackFraction, fallback,
                          bfs.lastAffectedVertices)
  {
    fallback, states := Advance(bfs, c.graph, c.start, stream, i, full, states0);
    var agrees := Agrees(bfs);
    exact := exact0 && agrees;
  }

  /** One batch of a stream: inspect, decide, carry out, observe, and compare the labels with a fresh search. */
  method ProcessBatch(bfs: IncrementalBfs, s0: State, stream: seq<seq<EdgeUpdate>>, i: nat, m: CostModel, time: real,
                      vertices: nat, simpleFraction: real, exact0: bool, ghost c: Course, ghost states0: seq<Rows>)
    returns (b: Batch, d: Decision, s: State, exact: bool, ghost states: seq<Rows>)
    requires Foresighted(m) && i < |stream| && InRange(stream[i]) && 0.0 <= bfs.deletionFallbackFraction
    requires OnCourse(c, bfs, stream, i, states0, exact0)
    modifies bfs, bfs.graph, bfs.seenFinalUpdates, bfs.finalDeletionKeys
    ensures OnCourse(c, bfs, stream, i + 1, states, exact)
    ensures exact <==> exact0 && |bfs.dist| == bfs.graph.vertexCount && Exact(bfs.graph.arcs, bfs.source, bfs.dist)
    ensures states == states0 + [old(bfs.graph.Sides())]
    ensures Foreseen(old(MomentOf(bfs)), stream[i], time, b)
    ensures Outcome(old(MomentOf(bfs)), stream[i], bfs.source, bfs.deletionFallbackFraction, vertices, b, d.Full())
    ensures d == Decide(m, s0, b, simpleFraction) && s == Learn(m, s0, b, d)
  {
    var known, fallback;
    ghost var before := MomentOf(bfs);
    known, d := Plan(bfs, s0, stream[i], m, time, simpleFraction);
    fallback, exact, states := Proceed(bfs, c, stream, i, d.Full(), states0, exact0);
    b, s := Conclude(s0, known, d, fallback, bfs.lastAffectedVertices, vertices, m, simpleFraction, before, stream[i],
                     bfs.source, bfs.deletionFallbackFraction);
  }

  ghost predicate Chose(r: Run, decisions: seq<Decision>, k: nat)
    requires k < |decisions| == |r.batches|
  {
    decisions[k] == r.Choice(k)
  }

  /** Every decision is the state machine's, and this is where it ends. */
  ghost predicate Follows(r: Run, decisions: seq<Decision>, s: State)
  {
    && |decisions| == |r.batches| && s == r.StateAt(|r.batches|)
    && forall k: nat {:trigger Chose(r, decisions, k)} | k < |decisions| :: Chose(r, decisions, k)
  }

  lemma OneMoreBatch(r: Run, b: Batch, decisions: seq<Decision>, d: Decision, s: State)
    requires Follows(r, decisions, s) && d == Decide(r.model, s, b, r.simpleFraction)
    ensures Follows(r.(batches := r.batches + [b]), decisions + [d], Learn(r.model, s, b, d))
  {
    var longer := r.(batches := r.batches + [b]);
    PrefixDecides(r, longer, |r.batches|);
    forall k: nat | k < |decisions| + 1
      ensures Chose(longer, decisions + [d], k)
    {
      if k < |decisions| {
        PrefixDecides(r, longer, k);
        assert Chose(r, decisions, k);
      }
    }
  }

  /** How many of the first n batches were recomputed, by choice or by falling back, and how many fell back. */
  function Recomputed(r: Run, n: nat): nat
    requires n <= |r.batches|
  {
    if n == 0 then 0 else Recomputed(r, n - 1) + if r.Choice(n - 1).ObservedFull(r.batches[n - 1]) then 1 else 0
  }

  function FellBack(r: Run, n: nat): nat
    requires n <= |r.batches|
  {
    if n == 0 then 0 else FellBack(r, n - 1) + if !r.Choice(n - 1).Full() && r.batches[n - 1].fallback then 1 else 0
  }

  lemma {:induction false} CountsOfPrefix(r: Run, longer: Run, n: nat)
    requires n <= |r.batches| && r.batches <= longer.batches
    requires longer == Run(r.model, r.initialFullUs, r.simpleFraction, longer.batches)
    ensures Recomputed(longer, n) == Recomputed(r, n) && FellBack(longer, n) == FellBack(r, n)
  {
    if n > 0 {
      CountsOfPrefix(r, longer, n - 1);
      PrefixDecides(r, longer, n - 1);
    }
  }

  /** What the driver has recorded of a run: the decisions, the state they end in, and the two counters. */
  ghost predicate Tracks(r: Run, decisions: seq<Decision>, s: State, fullBatches: nat, fallbackBatches: nat)
  {
    Follows(r, decisions, s) && fullBatches == Recomputed(r, |r.batches|) && fallbackBatches == FellBack(r, |r.batches|)
  }

  lemma TrackNext(r: Run, b: Batch, decisions: seq<Decision>, d: Decision, s: State, fullBatches: nat,
                  fallbackBatches: nat)
    requires Tracks(r, decisions, s, fullBatches, fallbackBatches) && d == Decide(r.model, s, b, r.simpleFraction)
    ensures Tracks(r.(batches := r.batches + [b]), decisions + [d], Learn(r.model, s, b, d),
                   fullBatches + (if d.ObservedFull(b) then 1 else 0),
                   fallbackBatches + if !d.Full() && b.fallback then 1 else 0)
  {
    var longer := r.(batches := r.batches + [b]);
    OneMoreBatch(r, b, decisions, d, s);
    CountsOfPrefix(r, longer, |r.batches|);
    assert Chose(longer, decisions + [d], |r.batches|);
  }

  /** Record the outcome of a batch. */
  method Record(ghost r0: Run, b: Batch, decisions0: seq<Decision>, d: Decision, ghost s: State, ghost next: State,
                full0: nat, fallbacks0: nat)
    returns (ghost r: Run, decisions: seq<Decision>, full: nat, fallbacks: nat)
    requires Tracks(r0, decisions0, s, full0, fallbacks0) && d == Decide(r0.model, s, b, r0.simpleFraction)
    requires next == Learn(r0.model, s, b, d)
    ensures r == r0.(batches := r0.batches + [b]) && decisions == decisions0 + [d]
    ensures Tracks(r, decisions, next, full, fallbacks)
  {
    TrackNext(r0, b, decisions0, d, s, full0, fallbacks0);
    r, decisions := r0.(batches := r0.batches + [b]), decisions0 + [d];
    full := full0 + if d.ObservedFull(b) then 1 else 0;
    fallbacks := fallbacks0 + if !d.Full() && b.fallback then 1 else 0;
  }

  /** What the stream met at every batch, and what was seen of it. */
  ghost predicate AsSeen(m: Moment, ops: seq<EdgeUpdate>, time: real, vertices: nat, s: nat, fraction: real, b: Batch,
                         d: Decision)
  {
    Foreseen(m, ops, time, b) && Outcome(m, ops, s, fraction, vertices, b, d.Full())
  }

  ghost predicate Met(m: Moment, c: Course, s: nat, stream: seq<seq<EdgeUpdate>>, states: seq<Rows>, k: nat)
    requires k < |states| && k <= |stream|
  {
    && m.graph == ApplyBatches(c.graph, stream[..k]) && m.sides == states[k]
    && (c.ready && AlwaysSuffices(states[..k], c.graph, s, stream[..k]) ==> m.ready)
  }

  /** The batches of the run are those of the stream, seen at the moments that they met. */
  ghost predicate Seen(moments: seq<Moment>, c: Course, s: nat, fraction: real, vertices: nat,
                       stream: seq<seq<EdgeUpdate>>, times: seq<real>, states: seq<Rows>, r: Run,
                       decisions: seq<Decision>)
  {
    && |moments| == |states| == |r.batches| == |decisions| <= |stream| == |times|
    && (forall k: nat {:trigger Met(moments[k], c, s, stream, states, k)} | k < |moments| ::
         && Met(moments[k], c, s, stream, states, k)
         && AsSeen(moments[k], stream[k], times[k], vertices, s, fraction, r.batches[k], decisions[k]))
  }

  ghost predicate Agreed(m: Moment, s: nat)
  {
    |m.dist| == m.graph.vertexCount && Exact(m.graph.arcs, s, m.dist)
  }

  /** The labels agreed with a fresh search after every batch so far. */
  ghost predicate AlwaysAgreed(moments: seq<Moment>, s: nat, now: Moment)
  {
    (forall k | 0 < k < |moments| :: Agreed(moments[k], s)) && (moments != [] ==> Agreed(now, s))
  }

  lemma AgreedNext(moments: seq<Moment>, s: nat, m: Moment, now: Moment)
    ensures AlwaysAgreed(moments + [m], s, now) <==> AlwaysAgreed(moments, s, m) && Agreed(now, s)
  {
    var after := moments + [m];
    if AlwaysAgreed(after, s, now) {
      assert forall k | 0 < k < |moments| :: after[k] == moments[k];
      assert moments != [] ==> after[|moments|] == m;
    }
  }

  lemma MeetsNow(c: Course, bfs: IncrementalBfs, stream: seq<seq<EdgeUpdate>>, i: nat, states: seq<Rows>, exact: bool)
    requires i < |stream| && |states| == i && OnCourse(c, bfs, stream, i, states, exact)
    ensures Met(MomentOf(bfs), c, bfs.source, stream, states + [bfs.graph.Sides()], i)
  {
    assert (states + [bfs.graph.Sides()])[..i] == states;
  }

  lemma SeenNext(moments: seq<Moment>, c: Course, s: nat, fraction: real, vertices: nat, stream: seq<seq<EdgeUpdate>>,
                 times: seq<real>, states0: seq<Rows>, r: Run, decisions: seq<Decision>, m: Moment, b: Batch,
                 d: Decision, states: seq<Rows>)
    requires Seen(moments, c, s, fraction, vertices, stream, times, states0, r, decisions) && |moments| < |stream|
    requires states == states0 + [m.sides] && Met(m, c, s, stream, states, |moments|)
    requires AsSeen(m, stream[|moments|], times[|moments|], vertices, s, fraction, b, d)
    ensures Seen(moments + [m], c, s, fraction, vertices, stream, times, states, r.(batches := r.batches + [b]),
                 decisions + [d])
  {
    var after := moments + [m];
    forall k: nat | k < |after|
      ensures Met(after[k], c, s, stream, states, k)
      ensures AsSeen(after[k], stream[k], times[k], vertices, s, fraction, (r.batches + [b])[k], (decisions + [d])[k])
    {
      if k < |moments| {
        assert Met(moments[k], c, s, stream, states0, k);
        assert states[..k] == states0[..k];
      }
    }
  }

  /** One turn of the loop: decide, apply, check, and record. */
  method NextBatch(bfs: IncrementalBfs, ghost c: Course, stream: seq<seq<EdgeUpdate>>, i: nat, m: CostModel,
                   time: real, vertices: nat, simpleFraction: real, exact0: bool, ghost states0: seq<Rows>,
                   ghost r0: Run, decisions0: seq<Decision>, state0: State, full0: nat, fallbacks0: nat,
                   ghost moments0: seq<Moment>, ghost times: seq<real>)
    returns (ghost r: Run, decisions: seq<Decision>, state: State, full: nat, fallbacks: nat, exact: bool,
             ghost states: seq<Rows>, ghost moments: seq<Moment>)
    requires |times| == |stream| && |decisions0| == i < |stream| && time == times[i]
    requires Seen(moments0, c, bfs.source, bfs.deletionFallbackFraction, vertices, stream, times, states0, r0,
                  decisions0)
    requires Foresighted(m) && 0.0 <= bfs.deletionFallbackFraction && i < |stream| && InRange(stream[i])
    requires OnCourse(c, bfs, stream, i, states0, exact0)
    requires Tracks(r0, decisions0, state0, full0, fallbacks0)
    requires r0.model == m && r0.simpleFraction == simpleFraction
    modifies bfs, bfs.graph, bfs.seenFinalUpdates, bfs.finalDeletionKeys
    ensures OnCourse(c, bfs, stream, i + 1, states, exact)
    ensures r == r0.(batches := r.batches) && |decisions| == |decisions0| + 1
    ensures Tracks(r, decisions, state, full, fallbacks)
    ensures Seen(moments, c, bfs.source, bfs.deletionFallbackFraction, vertices, stream, times, states, r, decisions)
    ensures moments == moments0 + [old(MomentOf(bfs))] && (exact <==> exact0 && Agreed(MomentOf(bfs), bfs.source))
  {
    var b, d;
    ghost var moment := MomentOf(bfs);
    MeetsNow(c, bfs, stream, i, states0, exact0);
    b, d, state, exact, states := ProcessBatch(bfs, state0, stream, i, m, time, vertices, simpleFraction, exact0, c,
                                               states0);
    r, decisions, full, fallbacks := Record(r0, b, decisions0, d, state0, state, full0, fallbacks0);
    moments := moments0 + [moment];
    SeenNext(moments0, c, bfs.source, bfs.deletionFallbackFraction, vertices, stream, times, states0, r0, decisions0,
             moment, b, d, states);
  }

  /** The loop over the batches. */
  method RunBatches(bfs: IncrementalBfs, ghost c: Course, stream: seq<seq<EdgeUpdate>>, m: CostModel, times: seq<real>,
                    initialFullUs: real, simpleFraction: real)
    returns (ghost r: Run, decisions: seq<Decision>, ghost s: State, exact: bool, fullBatches: nat,
             fallbackBatches: nat, ghost states: seq<Rows>, ghost moments: seq<Moment>)
    requires Foresighted(m) && 0.0 <= bfs.deletionFallbackFraction
    requires |stream| == |times| && forall ops | ops in stream :: InRange(ops)
    requires OnCourse(c, bfs, stream, 0, [], true)
    modifies bfs, bfs.graph, bfs.seenFinalUpdates, bfs.finalDeletionKeys
    ensures OnCourse(c, bfs, stream, |stream|, states, exact)
    ensures r == Run(m, initialFullUs, simpleFraction, r.batches) && |decisions| == |stream|
    ensures Tracks(r, decisions, s, fullBatches, fallbackBatches)
    ensures Seen(moments, c, bfs.source, bfs.deletionFallbackFraction, old(bfs.graph.vertexCount), stream, times,
                 states, r, decisions)
    ensures exact <==> AlwaysAgreed(moments, bfs.source, MomentOf(bfs))
  {
    var state := Initial(initialFullUs);
    var vertices := bfs.graph.vertexCount;
    decisions, exact, fullBatches, fallbackBatches, states, moments := [], true, 0, 0, [], [];
    r := Run(m, initialFullUs, simpleFraction, []);
    var i := 0;
    while i < |stream|
      invariant 0 <= i == |decisions| <= |stream| && OnCourse(c, bfs, stream, i, states, exact)
      invariant r == Run(m, initialFullUs, simpleFraction, r.batches)
      invariant Tracks(r, decisions, state, fullBatches, fallbackBatches)
      invariant Seen(moments, c, bfs.source, bfs.deletionFallbackFraction, vertices, stream, times, states, r,
                     decisions)
      invariant exact <==> AlwaysAgreed(moments, bfs.source, MomentOf(bfs))
    {
      assert stream[i] in stream;
      ghost var moments0, moment := moments, MomentOf(bfs);
      r, decisions, state, fullBatches, fallbackBatches, exact, states, moments :=
        NextBatch(bfs, c, stream, i, m, times[i], vertices, simpleFraction, exact, states,
                  r, decisions, state, fullBatches, fallbackBatches, moments, times);
      AgreedNext(moments0, bfs.source, moment, MomentOf(bfs));
      i := i + 1;
    }
    s := state;
  }

  /** The adaptive driver over a whole stream: whatever times are measured, every decision is the state
      machine's. The maintained distances agree with a fresh search after every batch if the in-rows that the batches
      are repaired with are right, as they are on aligned sides with a small overlay. */
  method RunAdaptive(bfs: IncrementalBfs, stream: seq<seq<EdgeUpdate>>, m: CostModel, times: seq<real>,
                     initialFullUs: real, simpleFraction: real)
    returns (ghost r: Run, decisions: seq<Decision>, exact: bool, fullBatches: nat, fallbackBatches: nat,
             ghost states: seq<Rows>, ghost moments: seq<Moment>)
    requires Foresighted(m) && bfs.Sane() && 0.0 <= bfs.deletionFallbackFraction
    requires |stream| == |times| && forall ops | ops in stream :: InRange(ops)
    modifies bfs, bfs.graph, bfs.seenFinalUpdates, bfs.finalDeletionKeys
    ensures bfs.Sane() && bfs.graph.Value() == ApplyBatches(old(bfs.graph.Value()), stream)
    ensures Recorded(states, old(bfs.graph.Value()), stream) && (stream != [] ==> states[0] == old(bfs.graph.Sides()))
    ensures old(bfs.Ready()) && bfs.source < old(bfs.graph.vertexCount) ==>
      AlwaysSuffices(states, old(bfs.graph.Value()), bfs.source, stream) ==> exact && bfs.Ready()
    ensures old(Calm(bfs.graph, Total(stream))) ==>
      AlwaysSuffices(states, old(bfs.graph.Value()), bfs.source, stream)
    ensures r == Run(m, initialFullUs, simpleFraction, r.batches) && |decisions| == |r.batches| == |stream|
    ensures forall i: nat | i < |decisions| :: decisions[i] == r.Choice(i)
    ensures Seen(moments, old(CourseOf(bfs, stream)), bfs.source, bfs.deletionFallbackFraction,
                 old(bfs.graph.vertexCount), stream, times, states, r, decisions)
    ensures exact <==> AlwaysAgreed(moments, bfs.source, MomentOf(bfs))
    ensures fullBatches == Recomputed(r, |stream|) && fallbackBatches == FellBack(r, |stream|)
  {
    ghost var c := CourseOf(bfs, stream);
    StartCourse(bfs, stream);
    ghost var s;
    r, decisions, s, exact, fullBatches, fallbackBatches, states, moments :=
      RunBatches(bfs, c, stream, m, times, initialFullUs, simpleFraction);
    EndCourse(c, bfs, stream, states, exact);
    forall i: nat | i < |decisions|
      ensures decisions[i] == r.Choice(i)
    {
      assert Chose(r, decisions, i);
    }
  }
}
