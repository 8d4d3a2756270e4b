/** The candidates of a search, segment by segment: every sample in range is one of them, and nothing else is. */
module CandidateLaws {
  import opened Arithmetic
  import opened PumpQuote
  import opened PumpBoundary
  import opened NormalizedNumbers
  import opened DlmmCurve
  import opened CurveShape
  import opened Interior
  import opened Candidates
  import opened Search
  import opened SelectionLaws

  // --- the samples of one segment ---

  /** A positive amount in the range of the search. */
  predicate InRange(a: u64, min: u64, largest: u64) {
    0 < a && min <= a <= largest
  }

  /** An interior candidate in range, or one of its two neighbours. */
  predicate NearInterior(candidate: Option<u64>, a: u64, min: u64, largest: u64) {
    candidate.Some? && min <= candidate.value <= largest && candidate.value - 1 <= a <= candidate.value + 1
  }

  /** The sampled input at the end of the nearest earlier segment that could be sampled at both ends. */
  function CarriedEnd(pool: PumpPool, segments: seq<Segment>, k: nat): Option<u64>
    requires k <= |segments|
  {
    if k == 0 then None
    else
      var before := CarriedEnd(pool, segments, k - 1);
      var start := if segments[k - 1].inputStart == 0 then Some(1)
                   else if before.Some? then before
                   else InputAtOrBelowTargetOut(pool, segments[k - 1].inputStart);
      var end := InputAtOrBelowTargetOut(pool, segments[k - 1].inputEnd);
      if start.Some? && end.Some? then end else before
  }

  /** Where the Pump input of a segment starts: at one, at the carried end, or at its own sample. */
  function StartOf(pool: PumpPool, segments: seq<Segment>, k: nat): Option<u64>
    requires k < |segments|
  {
    if segments[k].inputStart == 0 then Some(1)
    else if CarriedEnd(pool, segments, k).Some? then CarriedEnd(pool, segments, k)
    else InputAtOrBelowTargetOut(pool, segments[k].inputStart)
  }

  /** Forwards, a segment with both ends sampled contributes its end and its interior neighbourhood. */
  predicate ForwardSample(pool: PumpPool, segments: seq<Segment>, k: nat, a: u64, min: u64, largest: u64)
    requires k < |segments| && segments[k].Ordered()
  {
    var start, end := StartOf(pool, segments, k), InputAtOrBelowTargetOut(pool, segments[k].inputEnd);
    && start.Some? && end.Some? && InRange(a, min, largest)
    && ((a == end.value && start.value <= largest)
        || NearInterior(ForwardInterior(pool, segments[k], start.value, end.value, true), a, min, largest))
  }

  /** In reverse, a segment contributes its end and its interior neighbourhood. */
  predicate ReverseSample(pool: PumpPool, segments: seq<Segment>, k: nat, a: u64, min: u64, largest: u64)
    requires k < |segments| && segments[k].Ordered()
  {
    && InRange(a, min, largest)
    && (a == segments[k].inputEnd || NearInterior(ReverseInterior(pool, segments[k], true), a, min, largest))
  }

  predicate Sample(forwards: bool, pool: PumpPool, segments: seq<Segment>, k: nat, a: u64, min: u64, largest: u64)
    requires k < |segments| && segments[k].Ordered()
  {
    if forwards then ForwardSample(pool, segments, k, a, min, largest)
    else ReverseSample(pool, segments, k, a, min, largest)
  }

  // --- interior candidates lie inside their segments ---

  lemma ForwardInteriorIsInside(pool: PumpPool, segment: Segment, start: u64, end: u64)
    requires segment.Ordered() && ForwardInterior(pool, segment, start, end, true).Some?
    ensures start < ForwardInterior(pool, segment, start, end, true).value < end
  {
    hide ForwardRatio, SqrtFloor, DefinitelyExcludes;
  }

  lemma ReverseInteriorIsInside(pool: PumpPool, segment: Segment)
    requires segment.Ordered() && ReverseInterior(pool, segment, true).Some?
    ensures segment.inputStart <= ReverseInterior(pool, segment, true).value <= segment.inputEnd
  {
    hide ReverseRatio, SqrtFloor, DefinitelyExcludes, DivDown;
    var ratio := ReverseRatio(pool, segment).value;
    ReverseRatioInRange(pool, segment);
    var delta := SqrtFloor(ratio).value - pool.baseReserve - segment.outputStart;
    PartOfSegment(delta, segment.OutputCapacity(), segment.InputCapacity());
  }

  lemma PartOfSegment(delta: nat, outputs: nat, inputs: nat)
    requires 0 < delta < outputs
    ensures 0 <= DivDown(delta * inputs, outputs) <= inputs
  {
    hide DivDown;
    MulMono(delta, outputs, inputs);
    DivDownIff(delta * inputs, outputs, inputs + 1);
    DivDownIff(delta * inputs, outputs, 0);
    if inputs > 0 {
      MulMono(delta, outputs - 1, inputs);
    }
    assert outputs * (inputs + 1) == outputs * inputs + outputs;
  }

  // --- one step of the gathering ---

  lemma NeighborhoodAmounts(amounts: seq<u64>, c: u64, min: u64, largest: u64, a: u64)
    ensures a in NeighborhoodPushed(amounts, c, min, largest)
       <==> a in amounts || (InRange(a, min, largest) && c - 1 <= a <= c + 1)
  {
  }

  lemma ReverseStepAmounts(g: Gathered, pool: PumpPool, segments: seq<Segment>, k: nat, min: u64, largest: u64, a: u64)
    requires k < |segments| && segments[k].Ordered()
    ensures a in ReverseStep(g, pool, segments[k], min, largest).amounts
       <==> a in g.amounts || ReverseSample(pool, segments, k, a, min, largest)
  {
    hide ReverseInterior, NeighborhoodPushed;
    var candidate := ReverseInterior(pool, segments[k], true);
    if candidate.Some? {
      ReverseInteriorIsInside(pool, segments[k]);
      NeighborhoodAmounts(WithBoundary(g, segments[k].inputEnd, min, largest).amounts, candidate.value, min, largest,
                          a);
    }
  }

  lemma ForwardStepAmounts(g: Gathered, pool: PumpPool, segments: seq<Segment>, k: nat, min: u64, largest: u64, a: u64)
    requires k < |segments| && segments[k].Ordered() && g.previousEnd == CarriedEnd(pool, segments, k)
    ensures a in ForwardStep(g, pool, segments[k], min, largest).amounts
       <==> a in g.amounts || ForwardSample(pool, segments, k, a, min, largest)
    ensures ForwardStep(g, pool, segments[k], min, largest).previousEnd == CarriedEnd(pool, segments, k + 1)
  {
    hide ForwardInterior, NeighborhoodPushed, InputAtOrBelowTargetOut;
    var start, end := StartOf(pool, segments, k), InputAtOrBelowTargetOut(pool, segments[k].inputEnd);
    if start.Some? && end.Some? {
      var candidate := ForwardInterior(pool, segments[k], start.value, end.value, true);
      var h := WithBoundary(g.(previousEnd := end), end.value, min, largest);
      if candidate.Some? {
        ForwardInteriorIsInside(pool, segments[k], start.value, end.value);
        NeighborhoodAmounts(h.amounts, candidate.value, min, largest, a);
      }
    }
  }

  lemma StepAmounts(g: Gathered, forwards: bool, pool: PumpPool, segments: seq<Segment>, k: nat, min: u64, largest: u64,
                    a: u64)
    requires k < |segments| && segments[k].Ordered()
    requires forwards ==> g.previousEnd == CarriedEnd(pool, segments, k)
    ensures var h := if forwards then ForwardStep(g, pool, segments[k], min, largest)
                     else ReverseStep(g, pool, segments[k], min, largest);
            && (a in h.amounts <==> a in g.amounts || Sample(forwards, pool, segments, k, a, min, largest))
            && (forwards ==> h.previousEnd == CarriedEnd(pool, segments, k + 1))
  {
    hide ForwardStep, ReverseStep, ForwardSample, ReverseSample, CarriedEnd;
    if forwards {
      ForwardStepAmounts(g, pool, segments, k, min, largest, a);
    } else {
      ReverseStepAmounts(g, pool, segments, k, min, largest, a);
    }
  }

  lemma {:induction false} GatherAmounts(g: Gathered, forwards: bool, pool: PumpPool, segments: seq<Segment>, k: nat,
                                         min: u64, largest: u64, a: u64)
    requires AllOrdered(segments) && k <= |segments|
    requires forwards ==> g.previousEnd == CarriedEnd(pool, segments, k)
    ensures a in Gather(g, forwards, pool, segments[k..], min, largest).amounts
       <==> a in g.amounts || exists i :: k <= i < |segments| && Sample(forwards, pool, segments, i, a, min, largest)
    decreases |segments| - k
  {
    hide ForwardStep, ReverseStep, Sample, CarriedEnd;
    if k < |segments| {
      assert segments[k..][0] == segments[k] && segments[k..][1..] == segments[k + 1..];
      var h := if forwards then ForwardStep(g, pool, segments[k], min, largest)
               else ReverseStep(g, pool, segments[k], min, largest);
      StepAmounts(g, forwards, pool, segments, k, min, largest, a);
      GatherAmounts(h, forwards, pool, segments, k + 1, min, largest, a);
    }
  }

  // --- the candidates of a search ---

  /** A positive amount is a candidate exactly when it is an end of the range or a sample of some segment. */
  lemma CandidatesAreSamples(forwards: bool, pool: PumpPool, curve: CurveData, min: u64, max: u64, a: u64)
    requires AllOrdered(curve.segments)
    ensures a in CandidatesOf(forwards, pool, curve, min, max).amounts
       <==> (var largest := Largest(forwards, pool, curve.segments, max);
             || (a > 0 && (a == min || a == largest))
             || exists k :: 0 <= k < |curve.segments| && Sample(forwards, pool, curve.segments, k, a, min, largest))
  {
    hide Largest, Sample, Gather;
    var segments := curve.segments;
    var largest := Largest(forwards, pool, segments, max);
    assert segments[0..] == segments;
    GatherAmounts(Ends(min, largest), forwards, pool, segments, 0, min, largest, a);
  }

  /** A search's best is not beaten at either end of the range or at any sample of any segment. */
  lemma SearchBeatsSamples(forwards: bool, pool: PumpPool, curve: CurveData, min: u64, max: u64, minProfit: u64, a: u64,
                           quote: CurveQuote)
    requires AllOrdered(curve.segments)
    requires var largest := Largest(forwards, pool, curve.segments, max);
             && InRange(a, min, largest)
             && (a == min || a == largest
                 || exists k :: 0 <= k < |curve.segments| && Sample(forwards, pool, curve.segments, k, a, min, largest))
    requires EvaluatorOf(forwards, pool, curve.segments)(a) == Ok(quote) && quote.amountOut >= a + minProfit
    ensures var best := SearchOf(forwards, pool, curve, min, max, minProfit).best;
            && best.Some?
            && AtLeastAsGood(best.value, DirectionChoice(a, quote.amountOut, quote.amountOut - a, quote.used))
  {
    hide Largest, Sample, CandidatesOf, SummaryOf, EvaluatorOf, IsBest;
    var largest := Largest(forwards, pool, curve.segments, max);
    var evaluate := EvaluatorOf(forwards, pool, curve.segments);
    var amounts := CandidatesOf(forwards, pool, curve, min, max).amounts;
    CandidatesAreSamples(forwards, pool, curve, min, max, a);
    EvaluationFindsBest(evaluate, amounts, min, largest, minProfit);
    BestIsExplicit(SummaryOf(evaluate, amounts, min, largest, minProfit).best, evaluate, amounts, min, largest,
                   minProfit,
                   a, quote);
  }

  /** No amount twice. */
  predicate Distinct(amounts: seq<u64>) {
    forall i, j :: 0 <= i < j < |amounts| ==> amounts[i] != amounts[j]
  }

  lemma PushedIsDistinct(amounts: seq<u64>, a: u64)
    requires Distinct(amounts)
    ensures Distinct(Pushed(amounts, a))
  {
  }

  lemma NeighborhoodIsDistinct(amounts: seq<u64>, a: u64, min: u64, max: u64)
    requires Distinct(amounts)
    ensures Distinct(NeighborhoodPushed(amounts, a, min, max))
  {
    hide Distinct, Pushed;
    var below: u64 := if a == 0 then 0 else a - 1;
    var above: u64 := if a == U64_MAX then U64_MAX else a + 1;
    PushedIsDistinct(amounts, below);
    var one := PushedWithin(amounts, below, min, max);
    PushedIsDistinct(one, a);
    PushedIsDistinct(PushedWithin(one, a, min, max), above);
  }

  lemma {:induction false} GatherIsDistinct(g: Gathered, forwards: bool, pool: PumpPool, segments: seq<Segment>,
                                            min: u64,
                                            largest: u64)
    requires AllOrdered(segments) && Distinct(g.amounts)
    ensures Distinct(Gather(g, forwards, pool, segments, min, largest).amounts)
    decreases |segments|
  {
    hide Distinct, ForwardStep, ReverseStep;
    if |segments| > 0 {
      StepIsDistinct(g, pool, segments[0], min, largest);
      var h := if forwards then ForwardStep(g, pool, segments[0], min, largest)
               else ReverseStep(g, pool, segments[0], min, largest);
      GatherIsDistinct(h, forwards, pool, segments[1..], min, largest);
    }
  }

  lemma StepIsDistinct(g: Gathered, pool: PumpPool, segment: Segment, min: u64, largest: u64)
    requires segment.Ordered() && Distinct(g.amounts)
    ensures Distinct(ForwardStep(g, pool, segment, min, largest).amounts)
    ensures Distinct(ReverseStep(g, pool, segment, min, largest).amounts)
  {
    hide Distinct, Pushed, NeighborhoodPushed, ForwardInterior, ReverseInterior, SampledStart, InputAtOrBelowTargetOut;
    forall a: u64 ensures Distinct(Pushed(g.amounts, a)) {
      PushedIsDistinct(g.amounts, a);
    }
    forall b: seq<u64>, c: u64 | Distinct(b) ensures Distinct(NeighborhoodPushed(b, c, min, largest)) {
      NeighborhoodIsDistinct(b, c, min, largest);
    }
  }

  /** No candidate is evaluated twice. */
  lemma CandidatesAreDistinct(forwards: bool, pool: PumpPool, curve: CurveData, min: u64, max: u64)
    requires AllOrdered(curve.segments)
    ensures Distinct(CandidatesOf(forwards, pool, curve, min, max).amounts)
  {
    hide Largest, Gather, Pushed;
    var largest := Largest(forwards, pool, curve.segments, max);
    PushedIsDistinct([], min);
    PushedIsDistinct(Pushed([], min), largest);
    GatherIsDistinct(Ends(min, largest), forwards, pool, curve.segments, min, largest);
  }

  // --- the sampled ends of a contiguous curve ---

  /** A larger target is sampled at a larger input. */
  lemma SampleMono(pool: PumpPool, t1: u64, t2: u64)
    requires t1 <= t2 && InputAtOrBelowTargetOut(pool, t1).Some? && InputAtOrBelowTargetOut(pool, t2).Some?
    ensures 0 < InputAtOrBelowTargetOut(pool, t1).value <= InputAtOrBelowTargetOut(pool, t2).value
  {
    hide BuyAmountOut, DivUp, DivDown, BoundaryEstimate, BoundaryCurveInput;
    BoundaryEstimateValue(pool, t1);
    BoundaryEstimateValue(pool, t2);
    BoundaryInputMono(pool, t1, t2);
    var b1, b2, d := BoundaryCurveInput(pool, t1), BoundaryCurveInput(pool, t2), FEE_DENOMINATOR + pool.fees.Total();
    MulMono(b1, b2, d);
    DivMono(b1 * d, b2 * d, FEE_DENOMINATOR);
  }

  lemma BoundaryInputMono(pool: PumpPool, t1: u64, t2: u64)
    requires t1 <= t2 < pool.baseReserve
    ensures BoundaryCurveInput(pool, t1) <= BoundaryCurveInput(pool, t2)
  {
    hide DivUp;
    var r, b2 := pool.EffectiveReserve(), BoundaryCurveInput(pool, t2);
    DivUpIff(t1 * r, pool.baseReserve - t1, b2);
    DivUpIff(t2 * r, pool.baseReserve - t2, b2);
    DivUpBounds(t2 * r, pool.baseReserve - t2);
    MulMono(t1, t2, r);
    MulMono(pool.baseReserve - t2, pool.baseReserve - t1, b2);
  }

  /** A carried end is the sample of an earlier segment's end. */
  lemma {:induction false} CarriedIsEarlier(pool: PumpPool, segments: seq<Segment>, k: nat) returns (j: nat)
    requires k <= |segments| && CarriedEnd(pool, segments, k).Some?
    ensures j < k && InputAtOrBelowTargetOut(pool, segments[j].inputEnd) == CarriedEnd(pool, segments, k)
    decreases k
  {
    hide InputAtOrBelowTargetOut;
    if CarriedEnd(pool, segments, k) == InputAtOrBelowTargetOut(pool, segments[k - 1].inputEnd) {
      j := k - 1;
    } else {
      j := CarriedIsEarlier(pool, segments, k - 1);
    }
  }

  /** On a contiguous curve a segment's sampled start is at most its sampled end, so no sampled end in range is passed
      over. */
  lemma SampledEndsAreCandidates(pool: PumpPool, curve: CurveData, min: u64, max: u64, k: nat)
    requires Contiguous(curve.segments, 0, 0) && AllOrdered(curve.segments) && k < |curve.segments|
    requires StartOf(pool, curve.segments, k).Some? && InputAtOrBelowTargetOut(pool, curve.segments[k].inputEnd).Some?
    ensures var end := InputAtOrBelowTargetOut(pool, curve.segments[k].inputEnd).value;
            && StartOf(pool, curve.segments, k).value <= end
            && (min <= end <= Largest(true, pool, curve.segments, max) ==>
                  end in CandidatesOf(true, pool, curve, min, max).amounts)
  {
    hide InputAtOrBelowTargetOut, Contiguous, CarriedEnd, ForwardInterior, Largest, Gather;
    var segments := curve.segments;
    ContiguousInOrder(segments, 0, 0);
    var end := InputAtOrBelowTargetOut(pool, segments[k].inputEnd).value;
    SampleMono(pool, segments[k].inputEnd, segments[k].inputEnd);
    if segments[k].inputStart > 0 {
      if CarriedEnd(pool, segments, k).Some? {
        var j := CarriedIsEarlier(pool, segments, k);
        SampleMono(pool, segments[j].inputEnd, segments[k].inputEnd);
      } else {
        SampleMono(pool, segments[k].inputStart, segments[k].inputEnd);
      }
    }
    if min <= end <= Largest(true, pool, segments, max) {
      assert Sample(true, pool, segments, k, end, min, Largest(true, pool, segments, max));
      CandidatesAreSamples(true, pool, curve, min, max, end);
    }
  }

  // --- the two statistics ---

  predicate EndInRange(forwards: bool, pool: PumpPool, segments: seq<Segment>, k: nat, min: u64, largest: u64)
    requires k < |segments|
  {
    if forwards then
      var start, end := StartOf(pool, segments, k), InputAtOrBelowTargetOut(pool, segments[k].inputEnd);
      start.Some? && end.Some? && start.value <= largest && min <= end.value <= largest
    else segments[k].inputStart <= largest && min <= segments[k].inputEnd <= largest
  }

  predicate InteriorInRange(forwards: bool, pool: PumpPool, segments: seq<Segment>, k: nat, min: u64, largest: u64)
    requires k < |segments| && segments[k].Ordered()
  {
    var candidate :=
      if forwards then
        var start, end := StartOf(pool, segments, k), InputAtOrBelowTargetOut(pool, segments[k].inputEnd);
        if start.Some? && end.Some? then ForwardInterior(pool, segments[k], start.value, end.value, true) else None
      else ReverseInterior(pool, segments[k], true);
    candidate.Some? && min <= candidate.value <= largest
  }

  function CountEnds(forwards: bool, pool: PumpPool, segments: seq<Segment>, k: nat, min: u64, largest: u64): nat
    requires k <= |segments|
    decreases |segments| - k
  {
    if k == |segments| then 0
    else (if EndInRange(forwards, pool, segments, k, min, largest) then 1 else 0)
         + CountEnds(forwards, pool, segments, k + 1, min, largest)
  }

  function CountInteriors(forwards: bool, pool: PumpPool, segments: seq<Segment>, k: nat, min: u64, largest: u64): nat
    requires k <= |segments| && AllOrdered(segments)
    decreases |segments| - k
  {
    if k == |segments| then 0
    else (if InteriorInRange(forwards, pool, segments, k, min, largest) then 1 else 0)
         + CountInteriors(forwards, pool, segments, k + 1, min, largest)
  }

  lemma StepCounts(g: Gathered, forwards: bool, pool: PumpPool, segments: seq<Segment>, k: nat, min: u64, largest: u64)
    requires k < |segments| && segments[k].Ordered() && g.boundary < U8_MAX && g.interior < U8_MAX
    requires forwards ==> g.previousEnd == CarriedEnd(pool, segments, k)
    ensures var h := if forwards then ForwardStep(g, pool, segments[k], min, largest)
                     else ReverseStep(g, pool, segments[k], min, largest);
            && h.boundary == g.boundary + (if EndInRange(forwards, pool, segments, k, min, largest) then 1 else 0)
            && h.interior == g.interior + (if InteriorInRange(forwards, pool, segments, k, min, largest) then 1 else 0)
  {
    hide ForwardInterior, ReverseInterior, NeighborhoodPushed, InputAtOrBelowTargetOut, CarriedEnd;
    if forwards {
      var start, end := StartOf(pool, segments, k), InputAtOrBelowTargetOut(pool, segments[k].inputEnd);
      if start.Some? && end.Some? && ForwardInterior(pool, segments[k], start.value, end.value, true).Some? {
        ForwardInteriorIsInside(pool, segments[k], start.value, end.value);
      }
    } else if ReverseInterior(pool, segments[k], true).Some? {
      ReverseInteriorIsInside(pool, segments[k]);
    }
  }

  lemma {:induction false} GatherCounts(g: Gathered, forwards: bool, pool: PumpPool, segments: seq<Segment>, k: nat,
                                        min: u64, largest: u64)
    requires AllOrdered(segments) && k <= |segments|
    requires g.boundary + (|segments| - k) <= U8_MAX && g.interior + (|segments| - k) <= U8_MAX
    requires forwards ==> g.previousEnd == CarriedEnd(pool, segments, k)
    ensures var end := Gather(g, forwards, pool, segments[k..], min, largest);
            && end.boundary == g.boundary + CountEnds(forwards, pool, segments, k, min, largest)
            && end.interior == g.interior + CountInteriors(forwards, pool, segments, k, min, largest)
    decreases |segments| - k
  {
    hide ForwardStep, ReverseStep, CarriedEnd, EndInRange, InteriorInRange, Sample;
    if k < |segments| {
      assert segments[k..][0] == segments[k] && segments[k..][1..] == segments[k + 1..];
      var h := if forwards then ForwardStep(g, pool, segments[k], min, largest)
               else ReverseStep(g, pool, segments[k], min, largest);
      StepCounts(g, forwards, pool, segments, k, min, largest);
      StepAmounts(g, forwards, pool, segments, k, min, largest, 0);
      GatherCounts(h, forwards, pool, segments, k + 1, min, largest);
    }
  }

  /** The reported numbers of boundary and interior candidates are the numbers of segments that contribute one. */
  lemma CandidatesAreCounted(forwards: bool, pool: PumpPool, curve: CurveData, min: u64, max: u64)
    requires AllOrdered(curve.segments) && |curve.segments| <= U8_MAX
    ensures var largest := Largest(forwards, pool, curve.segments, max);
            var g := CandidatesOf(forwards, pool, curve, min, max);
            && g.boundary == CountEnds(forwards, pool, curve.segments, 0, min, largest)
            && g.interior == CountInteriors(forwards, pool, curve.segments, 0, min, largest)
  {
    hide Largest, Gather;
    var largest := Largest(forwards, pool, curve.segments, max);
    assert curve.segments[0..] == curve.segments;
    GatherCounts(Ends(min, largest), forwards, pool, curve.segments, 0, min, largest);
  }
}
