/** What the cost model makes of its measurements, and what the decisions of a run say about the costs they compare. */
module SelectorCosts {
  import opened Collections
  import opened Selector

  // ---------- What the state remembers ----------

  ghost predicate WasFull(r: Run, k: nat)
    requires k < |r.batches|
  {
    r.Choice(k).ObservedFull(r.batches[k])
  }

  /** The cost of a recompute is the time of the latest one, and its age counts the repairs since. */
  lemma {:induction false} LatestFull(r: Run, k: nat, i: nat)
    requires k < i <= |r.batches| && WasFull(r, k) && forall j: nat | k < j < i :: !WasFull(r, j)
    ensures r.StateAt(i).latestFullUs == r.batches[k].executionUs && r.StateAt(i).fullAge == i - k - 1
    decreases i
  {
    if i > k + 1 {
      LatestFull(r, k, i - 1);
      assert !WasFull(r, i - 1);
    }
  }

  /** Before any recompute of the stream, it is the time of the one that started it. */
  lemma {:induction false} NoFullYet(r: Run, i: nat)
    requires i <= |r.batches| && forall j: nat | j < i :: !WasFull(r, j)
    ensures r.StateAt(i).latestFullUs == r.initialFullUs && r.StateAt(i).fullAge == i
    decreases i
  {
    if i > 0 {
      NoFullYet(r, i - 1);
      assert !WasFull(r, i - 1);
    }
  }

  /** A repair is compared in size with the latest one, which counts as having affected nothing once a recompute has
      come in between. */
  lemma {:induction false} LatestRepair(r: Run, k: nat, i: nat)
    requires k < i <= |r.batches| && !WasFull(r, k) && forall j: nat | k < j < i :: WasFull(r, j)
    ensures var s := r.StateAt(i);
      && s.haveIncremental && s.lastUpdateFraction == r.batches[k].updateFraction && s.incrementalAge == i - k - 1
      && s.previousAffected == if i == k + 1 then r.batches[k].affectedFraction else 0.0
    decreases i
  {
    if i > k + 1 {
      LatestRepair(r, k, i - 1);
      assert WasFull(r, i - 1);
    }
  }

  /** Before any repair nothing is known of one. */
  lemma {:induction false} NoRepairYet(r: Run, i: nat)
    requires i <= |r.batches| && forall j: nat | j < i :: WasFull(r, j)
    ensures !r.StateAt(i).haveIncremental && r.StateAt(i).previousAffected == 0.0
    decreases i
  {
    if i > 0 {
      NoRepairYet(r, i - 1);
      assert WasFull(r, i - 1);
    }
  }

  /** Until a repair has been measured, probing is put off exactly when some batch has been too large. */
  lemma {:induction false} DeferredByLargeBatch(r: Run, i: nat)
    requires i <= |r.batches| && forall j: nat | j < i :: WasFull(r, j)
    ensures r.StateAt(i).deferred <==> exists k: nat :: k < i && TooLarge(r, k)
    decreases i
  {
    if i > 0 {
      DeferredByLargeBatch(r, i - 1);
      NoRepairYet(r, i - 1);
      assert WasFull(r, i - 1);
      if r.StateAt(i).deferred && !TooLarge(r, i - 1) {
        var k: nat :| k < i - 1 && TooLarge(r, k);
      }
    }
  }

  ghost predicate TooLarge(r: Run, k: nat)
    requires k < |r.batches|
  {
    r.batches[k].updateFraction >= 0.05
  }

  /** Batches of a twentieth of the edges and more are recomputed without further ado; below that, the first repairs are
      probes, put off while the share is not below the simple one and some batch has been too large. */
  lemma BeforeAnyRepair(r: Run, i: nat)
    requires i < |r.batches| && forall j: nat | j < i :: WasFull(r, j)
    ensures r.Choice(i).reason ==
      if TooLarge(r, i) then PreflightFull
      else if r.batches[i].updateFraction >= r.simpleFraction && (exists k: nat :: k < i && TooLarge(r, k))
        then DeferProbe
      else IncrementalProbe
  {
    NoRepairYet(r, i);
    DeferredByLargeBatch(r, i);
  }

  /** A confirmation is due only for a material tail that no confirmation has followed. */
  lemma {:induction false} DueForATail(r: Run, i: nat) returns (k: nat)
    requires i <= |r.batches| && r.StateAt(i).confirmationDue
    ensures k < i && r.Material(k) && forall j: nat | k < j < i :: !r.Confirmed(j)
    decreases i
  {
    if r.Material(i - 1) {
      k := i - 1;
    } else {
      k := DueForATail(r, i - 1);
    }
  }

  /** Without a material tail or a confirmation, what the tail ratio has above 1 shrinks by a quarter every batch. */
  lemma {:induction false} TailDecays(r: Run, i: nat, n: nat)
    requires i + n <= |r.batches| && forall j: nat | i <= j < i + n :: !r.Material(j) && !r.Confirmed(j)
    ensures Shrunk(r.StateAt(i).tailRatio, n, r.StateAt(i + n).tailRatio)
    decreases n
  {
    if n > 0 {
      TailDecays(r, i, n - 1);
      assert !r.Material(i + n - 1) && !r.Confirmed(i + n - 1);
      TailOnce(r, i + n - 1);
      ShrunkMore(r.StateAt(i).tailRatio, n - 1, r.StateAt(i + n - 1).tailRatio);
    }
  }

  lemma TailOnce(r: Run, i: nat)
    requires i < |r.batches| && !r.Material(i) && !r.Confirmed(i)
    ensures r.StateAt(i + 1).tailRatio == 1.0 + (r.StateAt(i).tailRatio - 1.0) * 0.75
  {
  }

  ghost predicate Shrunk(tail0: real, n: nat, tail: real)
  {
    tail - 1.0 == (tail0 - 1.0) * Power(0.75, n)
  }

  lemma ShrunkMore(tail0: real, n: nat, tail: real)
    requires Shrunk(tail0, n, tail)
    ensures Shrunk(tail0, n + 1, 1.0 + (tail - 1.0) * 0.75)
  {
    assert (tail0 - 1.0) * (0.75 * Power(0.75, n)) == 0.75 * ((tail0 - 1.0) * Power(0.75, n));
  }

  /** A material tail is one of a quarter over the expected time and more, of a repair that does not confirm another;
      it or a confirmation raises the tail ratio to the tail, if that is not below the decayed ratio. */
  lemma TailIsKept(r: Run, i: nat)
    requires i < |r.batches|
    ensures r.Material(i) <==> !WasFull(r, i) && r.Choice(i).reason != TailConfirmation && r.TailAt(i) >= 1.25
    ensures r.Confirmed(i) <==> !WasFull(r, i) && r.Choice(i).reason == TailConfirmation
    ensures r.Material(i) || r.Confirmed(i) ==>
      var decayed, tail := 1.0 + (r.StateAt(i).tailRatio - 1.0) * 0.75, r.TailAt(i);
      r.StateAt(i + 1).tailRatio == if decayed > tail then decayed else tail
  {
  }

  /** A repair moves the cost estimate, the first one sets it, and a recompute leaves it. */
  lemma EstimateIsLearnt(r: Run, i: nat)
    requires i < |r.batches|
    ensures r.StateAt(i + 1).emaIncrementalUs ==
      if WasFull(r, i) then r.StateAt(i).emaIncrementalUs
      else if r.StateAt(i).haveIncremental then r.model.estimate(r.batches[i], r.StateAt(i).emaIncrementalUs)
      else r.batches[i].executionUs
  {
  }

  /** An error estimate starts at the first error and then moves by a quarter of the difference. */
  ghost predicate MovesByQuarter(before: Option<real>, error: real, after: Option<real>)
  {
    after.Some? && after.value == if before.None? then error else before.value + (error - before.value) / 4.0
  }

  /** A batch whose costs were predicted moves the error of its own kind and leaves the other. */
  lemma ErrorsAreLearnt(r: Run, i: nat)
    requires i < |r.batches|
    ensures var s, next, d, us := r.StateAt(i), r.StateAt(i + 1), r.Choice(i), r.batches[i].executionUs;
      if d.predictedIncrementalUs > 0.0 && d.predictedFullUs > 0.0 then
        if WasFull(r, i) then
          next.incrementalError == s.incrementalError
          && MovesByQuarter(s.fullError, r.model.relativeError(us, d.predictedFullUs), next.fullError)
        else
          next.fullError == s.fullError
          && MovesByQuarter(s.incrementalError, r.model.relativeError(us, d.predictedIncrementalUs),
                            next.incrementalError)
      else next.incrementalError == s.incrementalError && next.fullError == s.fullError
  {
  }

  /** The two errors of a run: a repair is measured against the predicted repair, a recompute against the predicted
      recompute. */
  ghost predicate ErrorsWithin(r: Run, i: nat, full: bool, low: real, high: real)
    requires i <= |r.batches|
  {
    forall k: nat | k < i && WasFull(r, k) == full ::
      var d := r.Choice(k);
      low <= r.model.relativeError(r.batches[k].executionUs,
                                   if full then d.predictedFullUs else d.predictedIncrementalUs) <= high
  }

  /** Each error estimate stays within the range of the errors of its kind. */
  lemma {:induction false} ErrorEstimateWithin(r: Run, i: nat, full: bool, low: real, high: real)
    requires i <= |r.batches| && ErrorsWithin(r, i, full, low, high)
    ensures var seen := if full then r.StateAt(i).fullError else r.StateAt(i).incrementalError;
      seen.Some? ==> low <= seen.value <= high
    decreases i
  {
    if i > 0 {
      ErrorEstimateWithin(r, i - 1, full, low, high);
      var s := r.StateAt(i - 1);
      var seen := if full then s.fullError else s.incrementalError;
      if seen.Some? && WasFull(r, i - 1) == full {
        var d := r.Choice(i - 1);
        var error := r.model.relativeError(r.batches[i - 1].executionUs,
                                           if full then d.predictedFullUs else d.predictedIncrementalUs);
        Between(0.25, seen.value, error);
      }
    }
  }

  // ---------- The prediction ----------

  lemma PositiveProduct(x: real, y: real)
    requires x > 0.0 && y > 0.0
    ensures x * y > 0.0
  {
  }

  lemma PredictionIsPositive(sqrt: real -> real, s: State, b: Batch)
    requires s.emaIncrementalUs > 0.0 && b.structuralChange >= 0.0
    ensures PredictedIncremental(sqrt, s, b) > 0.0
  {
    var scaled := s.emaIncrementalUs * SizeScale(sqrt, s, b);
    var spread := 1.0 + 4.0 * Clamp(s.previousAffected, 0.0, 1.0);
    PositiveProduct(s.emaIncrementalUs, SizeScale(sqrt, s, b));
    PositiveProduct(scaled, spread);
    PositiveProduct(scaled * spread, 1.0 + b.structuralChange);
  }

  lemma SameSize(sqrt: real -> real, s: State, b: Batch)
    requires SquareRoot(sqrt) && b.updateFraction == s.lastUpdateFraction
    ensures SizeScale(sqrt, s, b) == 1.0
  {
    assert SizeRatio(s, b) == 1.0;
    Squares(sqrt(1.0), 1.0);
    Squares(1.0, sqrt(1.0));
  }

  /** A batch of the size of the last repair is predicted to cost the estimate when nothing was affected and nothing
      structural changes, five times as much when everything was affected, and twice as much when every operation is
      structural. */
  lemma PredictionMeaning(sqrt: real -> real, s: State, b: Batch)
    requires SquareRoot(sqrt) && b.updateFraction == s.lastUpdateFraction
    ensures s.previousAffected == 0.0 && b.structuralChange == 0.0 ==>
      PredictedIncremental(sqrt, s, b) == s.emaIncrementalUs
    ensures s.previousAffected >= 1.0 && b.structuralChange == 0.0 ==>
      PredictedIncremental(sqrt, s, b) == 5.0 * s.emaIncrementalUs
    ensures s.previousAffected == 0.0 && b.structuralChange == 1.0 ==>
      PredictedIncremental(sqrt, s, b) == 2.0 * s.emaIncrementalUs
  {
    SameSize(sqrt, s, b);
  }

  /** Of two batches that differ in size only, the costs are in proportion to their scales. */
  lemma PredictionScales(sqrt: real -> real, s: State, b: Batch, other: Share)
    ensures PredictedIncremental(sqrt, s, b) * SizeScale(sqrt, s, b.(updateFraction := other)) ==
      PredictedIncremental(sqrt, s, b.(updateFraction := other)) * SizeScale(sqrt, s, b)
  {
    var spread, change := 1.0 + 4.0 * Clamp(s.previousAffected, 0.0, 1.0), 1.0 + b.structuralChange;
    Swapped(s.emaIncrementalUs, SizeScale(sqrt, s, b), spread, change,
            SizeScale(sqrt, s, b.(updateFraction := other)));
  }

  lemma Swapped(a: real, x: real, b: real, c: real, y: real)
    ensures a * x * b * c * y == a * y * b * c * x
  {
    assert a * x * b * c * y == a * (x * y) * b * c;
    assert a * y * b * c * x == a * (y * x) * b * c;
  }

  // ---------- What is learnt from a measurement ----------

  /** A measured repair moves the estimate towards it by a quarter of the difference when nothing was affected, and by
      less in proportion as more vertices were: by an eighth when they are a twentieth of all. */
  lemma EstimateMoves(b: Batch, older: real)
    ensures (Blend(b, older) - older) * (4.0 * (1.0 + 20.0 * b.affectedFraction)) == b.executionUs - older
  {
    AffectedScaleMeaning(b);
    var scale := AffectedScale(b);
    assert Weight(b) * scale == 0.25;
    assert Blend(b, older) - older == Weight(b) * (b.executionUs - older);
    ThriceRegrouped(Weight(b), b.executionUs - older, scale);
  }

  lemma ThriceRegrouped(x: real, y: real, z: real)
    ensures x * y * (4.0 * z) == 4.0 * (x * z) * y
  {
  }

  lemma AffectedScaleMeaning(b: Batch)
    ensures AffectedScale(b) == 1.0 + 20.0 * b.affectedFraction >= 1.0
  {
  }

  lemma QuotientMeaning(x: real, y: real)
    requires y > 0.0
    ensures x / y * y == x && (x / y > 1.0 <==> x > y)
  {
    var q := x / y;
    if q > 1.0 {
      PositiveProduct(q - 1.0, y);
    } else {
      Products(1.0 - q, y);
    }
  }

  /** For a prediction of at least a microsecond, the tail is what is left of the measured time over the predicted one
      after the affected vertices are allowed for, and 1 when nothing is. */
  lemma TailMeaning(b: Batch, predictedUs: real)
    requires predictedUs >= 1.0
    ensures var allowed := predictedUs * (1.0 + 20.0 * b.affectedFraction);
      if b.executionUs > allowed then NormalizedTail(b, predictedUs) * allowed == b.executionUs
      else NormalizedTail(b, predictedUs) == 1.0
  {
    var scale := AffectedScale(b);
    AffectedScaleMeaning(b);
    var raw := b.executionUs / predictedUs;
    QuotientMeaning(b.executionUs, predictedUs);
    QuotientMeaning(raw, scale);
    Scaled(b.executionUs, raw, predictedUs, scale);
  }

  lemma Scaled(x: real, raw: real, predicted: real, scale: real)
    requires predicted > 0.0 && raw * predicted == x
    ensures x > predicted * scale <==> raw > scale
    ensures scale > 0.0 ==> raw / scale * (predicted * scale) == x
  {
    SameOrder(raw, scale, predicted);
    if scale > 0.0 {
      Unscaled(raw / scale, raw, predicted, scale);
    }
  }

  lemma SameOrder(x: real, y: real, z: real)
    requires z > 0.0
    ensures x * z > z * y <==> x > y
  {
    assert (x - y) * z == x * z - z * y;
    if x > y {
      PositiveProduct(x - y, z);
    } else {
      assert (y - x) * z == z * y - x * z;
      Products(y - x, z);
    }
  }

  lemma Unscaled(q: real, raw: real, predicted: real, scale: real)
    requires q * scale == raw
    ensures q * (predicted * scale) == raw * predicted
  {
    assert q * (predicted * scale) == q * scale * predicted;
  }

  /** For a prediction of at least a microsecond, the relative error is what it is usually taken to be. */
  lemma RelativeErrorMeaning(measured: real, predicted: real)
    requires predicted >= 1.0
    ensures var error := RelativeError(measured, predicted);
      error >= 0.0 && (measured == predicted * (1.0 + error) || measured == predicted * (1.0 - error))
  {
    var gap := if measured < predicted then predicted - measured else measured - predicted;
    QuotientMeaning(gap, predicted);
    var error := gap / predicted;
    if error < 0.0 {
      PositiveProduct(-error, predicted);
    }
    assert predicted * (1.0 + error) == predicted + error * predicted;
    assert predicted * (1.0 - error) == predicted - error * predicted;
  }

  // ---------- What a decision says of the costs ----------

  /** A run of the cost model in use, on times that are positive. */
  ghost predicate Timed(r: Run, sqrt: real -> real)
  {
    && r.model == L3(sqrt) && SquareRoot(sqrt) && r.initialFullUs > 0.0
    && forall b | b in r.batches :: b.executionUs > 0.0 && b.structuralChange >= 0.0
  }

  lemma {:induction false} CostsArePositive(r: Run, sqrt: real -> real, i: nat)
    requires Timed(r, sqrt) && i <= |r.batches|
    ensures r.StateAt(i).latestFullUs > 0.0
    ensures r.StateAt(i).haveIncremental ==> r.StateAt(i).emaIncrementalUs > 0.0
    decreases i
  {
    if i > 0 {
      CostsArePositive(r, sqrt, i - 1);
      assert r.batches[i - 1] in r.batches;
      L3IsAveraging(sqrt);
      var b, older := r.batches[i - 1], r.StateAt(i - 1).emaIncrementalUs;
      assert Least(older, b.executionUs) <= r.model.estimate(b, older);
    }
  }

  /** The batch is decided by comparing costs: it is not too large, and a repair has been measured. */
  ghost predicate Compared(r: Run, j: nat)
    requires j < |r.batches|
  {
    r.batches[j].updateFraction < PREFLIGHT_FULL_UPDATE && r.StateAt(j).haveIncremental
  }

  lemma ComparedCosts(r: Run, sqrt: real -> real, j: nat)
    requires Timed(r, sqrt) && j < |r.batches| && Compared(r, j)
    ensures r.Choice(j).predictedIncrementalUs == PredictedIncremental(sqrt, r.StateAt(j), r.batches[j]) > 0.0
    ensures r.Choice(j).predictedFullUs == r.StateAt(j).latestFullUs > 0.0
    ensures r.Choice(j).reason == LearnedReason(r.model, r.StateAt(j), r.Choice(j).predictedIncrementalUs)
  {
    CostsArePositive(r, sqrt, j);
    assert r.batches[j] in r.batches;
    PredictionIsPositive(sqrt, r.StateAt(j), r.batches[j]);
    assert r.model.predict(r.StateAt(j), r.batches[j]) == PredictedIncremental(sqrt, r.StateAt(j), r.batches[j]);
  }

  /** The two margins of a confident decision. */
  lemma MarginRange(s: State)
    ensures 0.0 <= RepairMargin(s) <= 0.70 && 0.0 <= FullMargin(s) <= 0.60
    ensures s.incrementalAge < FRESH_AGE ==> RepairMargin(s) <= 0.56
    ensures ModelError(s.incrementalError, 0.50, 0.40) <= RepairMargin(s)
    ensures ModelError(s.fullError, 0.40, 0.25) <= FullMargin(s)
  {
  }

  lemma ConfidentBounds(s: State, incrementalUs: real)
    requires incrementalUs > 0.0 && s.latestFullUs > 0.0
    ensures ConfidentlyFull(s, incrementalUs) ==> incrementalUs > s.latestFullUs
    ensures s.incrementalAge < FRESH_AGE && 11.0 * incrementalUs > 40.0 * s.latestFullUs ==>
      ConfidentlyFull(s, incrementalUs)
  {
    MarginRange(s);
    Margins(incrementalUs, RepairMargin(s), s.latestFullUs, FullMargin(s));
  }

  lemma Margins(x: real, less: real, y: real, more: real)
    requires x > 0.0 && y > 0.0 && less >= 0.0 && more >= 0.0
    ensures x * (1.0 - less) > y * (1.0 + more) ==> x > y
    ensures less <= 0.56 && more <= 0.60 && 11.0 * x > 40.0 * y ==> x * (1.0 - less) > y * (1.0 + more)
  {
    Spread(x, less);
    Spread(y, more);
    if less <= 0.56 && more <= 0.60 {
      Products(x, 0.56 - less);
      Products(y, 0.60 - more);
    }
  }

  lemma Spread(x: real, share: real)
    requires x > 0.0 && share >= 0.0
    ensures x * (1.0 - share) <= x <= x * (1.0 + share)
  {
    Products(x, share);
  }

  lemma ComparisonsInUse(sqrt: real -> real, s: State, incrementalUs: real)
    ensures L3(sqrt).tailBeatsFull(s, incrementalUs) == TailBeatsFull(s, incrementalUs)
    ensures L3(sqrt).confidentlyFull(s, incrementalUs) == ConfidentlyFull(s, incrementalUs)
  {
  }

  /** What the reason for a recompute says of the costs. */
  ghost predicate FullIsCheaper(d: Decision, tailRatio: real)
  {
    && (d.reason in {ConfidentFull, FreshExpectedFull} ==> d.predictedIncrementalUs > d.predictedFullUs)
    && (d.reason == TailGuardFull ==> d.predictedIncrementalUs * tailRatio > d.predictedFullUs)
  }

  /** What the reason of a comparison says. */
  lemma ReasonMeans(m: CostModel, s: State, incrementalUs: real)
    requires m.tailBeatsFull(s, incrementalUs) == TailBeatsFull(s, incrementalUs)
    requires m.confidentlyFull(s, incrementalUs) == ConfidentlyFull(s, incrementalUs)
    requires incrementalUs > 0.0 && s.latestFullUs > 0.0
    ensures FullIsCheaper(Decision(LearnedReason(m, s, incrementalUs), incrementalUs, s.latestFullUs), s.tailRatio)
  {
    ConfidentBounds(s, incrementalUs);
  }

  /** A recompute that is chosen because it is expected to cost less does cost less by the prediction; one chosen on
      tail grounds costs less than the predicted repair with the tail that has been seen. */
  lemma LearnedFullIsCheaper(r: Run, sqrt: real -> real, j: nat)
    requires Timed(r, sqrt) && j < |r.batches|
    ensures FullIsCheaper(r.Choice(j), r.StateAt(j).tailRatio)
  {
    if Compared(r, j) {
      ComparedCosts(r, sqrt, j);
      ComparisonsInUse(sqrt, r.StateAt(j), r.Choice(j).predictedIncrementalUs);
      ReasonMeans(r.model, r.StateAt(j), r.Choice(j).predictedIncrementalUs);
    }
  }

  ghost predicate RepairIsCheaper(d: Decision, tailRatio: real)
  {
    d.predictedIncrementalUs * tailRatio <= d.predictedFullUs
  }

  lemma NeverBoth(d: Decision, tailRatio: real)
    requires d.predictedIncrementalUs >= 0.0 && tailRatio >= 1.0
    requires FullIsCheaper(d, tailRatio) && RepairIsCheaper(d, tailRatio)
    ensures d.reason !in {ConfidentFull, FreshExpectedFull, TailGuardFull}
  {
    Products(d.predictedIncrementalUs, tailRatio - 1.0);
  }

  /** A batch whose repair is predicted to cost no more than a recompute, with the tail that has been seen, is not sent
      to one. */
  lemma CheapRepairIsChosen(r: Run, sqrt: real -> real, j: nat)
    requires Timed(r, sqrt) && j < |r.batches| && Compared(r, j)
    requires RepairIsCheaper(r.Choice(j), r.StateAt(j).tailRatio)
    ensures !r.Choice(j).Full()
  {
    ComparedCosts(r, sqrt, j);
    LearnedFullIsCheaper(r, sqrt, j);
    TailRatioBounded(r, j);
    NeverBoth(r.Choice(j), r.StateAt(j).tailRatio);
  }

  /** With no confirmation due and a fresh estimate, a batch whose repair is predicted to cost more than 40/11 of a
      recompute is sent to one; so is one predicted to cost more than 5/4 of it while the cost of a recompute is fresh
      as well. */
  lemma DearRepairIsAvoided(r: Run, sqrt: real -> real, j: nat)
    requires Timed(r, sqrt) && j < |r.batches| && Compared(r, j)
    requires !r.StateAt(j).confirmationDue && r.StateAt(j).incrementalAge < 4
    requires var d := r.Choice(j);
      || 11.0 * d.predictedIncrementalUs > 40.0 * d.predictedFullUs
      || (r.StateAt(j).fullAge < 4 && 4.0 * d.predictedIncrementalUs > 5.0 * d.predictedFullUs)
    ensures r.Choice(j).Full()
  {
    ComparedCosts(r, sqrt, j);
    ConfidentBounds(r.StateAt(j), r.Choice(j).predictedIncrementalUs);
    ComparisonsInUse(sqrt, r.StateAt(j), r.Choice(j).predictedIncrementalUs);
  }

  /** A confident decision allows for the errors seen: whatever the two plans would really cost, within the relative
      errors that the model has come to expect, the repair would cost more. */
  lemma ConfidentMeansDearer(s: State, incrementalUs: real, repairUs: real, fullUs: real)
    requires incrementalUs > 0.0 && s.latestFullUs > 0.0 && ConfidentlyFull(s, incrementalUs)
    requires repairUs >= incrementalUs * (1.0 - ModelError(s.incrementalError, 0.50, 0.40))
    requires fullUs <= s.latestFullUs * (1.0 + ModelError(s.fullError, 0.40, 0.25))
    ensures repairUs > fullUs
  {
    MarginRange(s);
    WithinMargins(incrementalUs, ModelError(s.incrementalError, 0.50, 0.40), RepairMargin(s), repairUs,
                  s.latestFullUs, ModelError(s.fullError, 0.40, 0.25), FullMargin(s), fullUs);
  }

  lemma WithinMargins(x: real, xError: real, xMargin: real, x': real, y: real, yError: real, yMargin: real, y': real)
    requires x >= 0.0 && xError <= xMargin && y >= 0.0 && yError <= yMargin
    requires x * (1.0 - xMargin) > y * (1.0 + yMargin) && x' >= x * (1.0 - xError) && y' <= y * (1.0 + yError)
    ensures x' > y'
  {
    Products(x, xMargin - xError);
    Products(y, yMargin - yError);
  }

  /** The errors a model expects are those seen, between 8 and 50 percent for a repair and 8 and 40 for a recompute. */
  lemma ExpectedErrors(error: real)
    ensures 0.08 <= error <= 0.50 ==> ModelError(Some(error), 0.50, 0.40) == error
    ensures 0.08 <= error <= 0.40 ==> ModelError(Some(error), 0.40, 0.25) == error
    ensures ModelError(None, 0.50, 0.40) == 0.40 && ModelError(None, 0.40, 0.25) == 0.25
  {
  }
}
