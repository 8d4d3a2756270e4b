/** The two directional searches over a built curve. */
module Search {
  import opened Arithmetic
  import opened PumpQuote
  import opened PumpBoundary
  import opened BinWalk
  import opened DlmmCurve
  import opened CurveShape
  import opened Interior
  import opened Candidates

  // --- exact composed quotes ---

  function EvaluateForward(pool: PumpPool, segments: seq<Segment>, amountIn: u64): Result<CurveQuote, QuoteError> {
    var buy :- BuyExactQuoteIn(amountIn, pool);
    QuoteAt(segments, buy.amountOut)
  }

  function EvaluateReverse(pool: PumpPool, segments: seq<Segment>, amountIn: u64): Result<CurveQuote, QuoteError> {
    var dlmm :- QuoteAt(segments, amountIn);
    var sell :- SellBaseIn(dlmm.amountOut, pool);
    Ok(CurveQuote(sell.amountOut, dlmm.used))
  }

  function ForwardEvaluator(pool: PumpPool, segments: seq<Segment>): Evaluator {
    (amountIn: u64) => EvaluateForward(pool, segments, amountIn)
  }

  function ReverseEvaluator(pool: PumpPool, segments: seq<Segment>): Evaluator {
    (amountIn: u64) => EvaluateReverse(pool, segments, amountIn)
  }

  // --- coverage ---

  function LargestForward(pool: PumpPool, segments: seq<Segment>, max: u64): u64 {
    if EvaluateForward(pool, segments, max).Ok? then max
    else if LargestCompleteInput(segments) == 0 || max == 0 then 0
    else CoverageSearch(pool, LargestCompleteInput(segments), 0, max)
  }

  method LargestForwardCompleteAmount(pool: PumpPool, segments: seq<Segment>, max: u64) returns (r: u64)
    ensures r == LargestForward(pool, segments, max)
  {
    hide EvaluateForward, Fits, CoverageSearch;
    if EvaluateForward(pool, segments, max).Ok? {
      return max;
    }
    var capacity := LargestCompleteInput(segments);
    if capacity == 0 || max == 0 {
      return 0;
    }
    var lower: u64, upper: u64 := 0, max;
    while lower < upper
      invariant 0 <= lower <= upper <= max
      invariant CoverageSearch(pool, capacity, lower, upper) == CoverageSearch(pool, capacity, 0, max)
    {
      CoverageSearchStep(pool, capacity, lower, upper);
      var midpoint: u64 := lower + (upper - lower + 1) / 2;
      if Fits(pool, capacity, midpoint) {
        lower := midpoint;
      } else {
        upper := midpoint - 1;
      }
    }
    return lower;
  }

  function LargestReverse(segments: seq<Segment>, max: u64): u64 {
    Min(max, LargestCompleteInput(segments))
  }

  // --- candidate generation ---

  /** What the segment loop has gathered: the candidates, two statistics, and the sampled input of the previous
      segment's end. */
  datatype Gathered = Gathered(amounts: seq<u64>, boundary: u8, interior: u8, previousEnd: Option<u64>)

  function Increment(n: u8): u8 {
    if n == U8_MAX then U8_MAX else n + 1
  }

  function WithBoundary(g: Gathered, amount: u64, min: u64, largest: u64): Gathered {
    if min <= amount <= largest then g.(amounts := Pushed(g.amounts, amount), boundary := Increment(g.boundary)) else g
  }

  function WithInterior(g: Gathered, candidate: Option<u64>, min: u64, largest: u64): Gathered {
    if candidate.Some? && min <= candidate.value <= largest then
      g.(amounts := NeighborhoodPushed(g.amounts, candidate.value, min, largest), interior := Increment(g.interior))
    else g
  }

  function SampledStart(pool: PumpPool, segment: Segment, previousEnd: Option<u64>): Option<u64> {
    if segment.inputStart == 0 then Some(1)
    else if previousEnd.Some? then previousEnd
    else InputAtOrBelowTargetOut(pool, segment.inputStart)
  }

  function ForwardStep(g: Gathered, pool: PumpPool, segment: Segment, min: u64, largest: u64): Gathered
    requires segment.Ordered()
  {
    var start := SampledStart(pool, segment, g.previousEnd);
    var end := InputAtOrBelowTargetOut(pool, segment.inputEnd);
    if start.None? || end.None? then g
    else
      var h := g.(previousEnd := end);
      if end.value < min || start.value > largest then h
      else
        WithInterior(WithBoundary(h, end.value, min, largest),
                     ForwardInterior(pool, segment, start.value, end.value, true), min, largest)
  }

  function ReverseStep(g: Gathered, pool: PumpPool, segment: Segment, min: u64, largest: u64): Gathered
    requires segment.Ordered()
  {
    if segment.inputEnd < min || segment.inputStart > largest then g
    else WithInterior(WithBoundary(g, segment.inputEnd, min, largest), ReverseInterior(pool, segment, true), min,
                      largest)
  }

  predicate AllOrdered(segments: seq<Segment>) {
    forall i :: 0 <= i < |segments| ==> segments[i].Ordered()
  }

  function Gather(g: Gathered, forwards: bool, pool: PumpPool, segments: seq<Segment>, min: u64, largest: u64): Gathered
    requires AllOrdered(segments)
    decreases |segments|
  {
    if |segments| == 0 then g
    else
      var h := if forwards then ForwardStep(g, pool, segments[0], min, largest)
          else ReverseStep(g, pool, segments[0], min, largest);
      Gather(h, forwards, pool, segments[1..], min, largest)
  }

  /** The two ends of the range, before any segment is looked at. */
  function Ends(min: u64, largest: u64): Gathered {
    Gathered(Pushed(Pushed([], min), largest), 0, 0, None)
  }

  function Incomplete(curve: CurveData, largest: u64): DirectionSearch {
    DirectionSearch(None, false, false, 0, largest, 0, 0, curve.visited, curve.stop)
  }

  function EvaluatorOf(forwards: bool, pool: PumpPool, segments: seq<Segment>): Evaluator {
    if forwards then ForwardEvaluator(pool, segments) else ReverseEvaluator(pool, segments)
  }

  function Largest(forwards: bool, pool: PumpPool, segments: seq<Segment>, max: u64): u64 {
    if forwards then LargestForward(pool, segments, max) else LargestReverse(segments, max)
  }

  /** The candidates that a search of either direction evaluates. */
  function CandidatesOf(forwards: bool, pool: PumpPool, curve: CurveData, min: u64, max: u64): Gathered
    requires AllOrdered(curve.segments)
  {
    var largest := Largest(forwards, pool, curve.segments, max);
    Gather(Ends(min, largest), forwards, pool, curve.segments, min, largest)
  }

  /** The search of either direction. */
  function SearchOf(forwards: bool, pool: PumpPool, curve: CurveData, min: u64, max: u64,
                    minProfit: u64): DirectionSearch
    requires AllOrdered(curve.segments)
  {
    var largest := Largest(forwards, pool, curve.segments, max);
    if largest < min then Incomplete(curve, largest)
    else
      var g := CandidatesOf(forwards, pool, curve, min, max);
      var s := SummaryOf(EvaluatorOf(forwards, pool, curve.segments), g.amounts, min, largest, minProfit);
      DirectionSearch(s.best, s.completeSeen, s.minimumComplete, s.minimumOut, largest, g.boundary, g.interior,
                      curve.visited, curve.stop)
  }

  // --- the loops, with the bounded buffer ---

  lemma PushedGrowsByOne(amounts: seq<u64>, amount: u64)
    ensures |Pushed(amounts, amount)| <= |amounts| + 1
  {
  }

  /** The forward candidates; two ends and at most four amounts a segment never fill the buffer. */
  method CollectForward(pool: PumpPool, segments: seq<Segment>, min: u64, largest: u64)
    returns (candidates: CandidateAmounts, boundary: u8, interior: u8)
    requires |segments| <= MAX_VISITED && AllOrdered(segments)
    ensures candidates.Valid()
    ensures var g := Gather(Ends(min, largest), true, pool, segments, min, largest);
            candidates.Amounts() == g.amounts && boundary == g.boundary && interior == g.interior
  {
    hide InputAtOrBelowTargetOut, ForwardInterior, Pushed, NeighborhoodPushed, Increment, SampledStart;
    candidates := new CandidateAmounts();
    PushedGrowsByOne([], min);
    PushedGrowsByOne(Pushed([], min), largest);
    candidates.PushUnique(min);
    candidates.PushUnique(largest);
    boundary, interior := 0, 0;
    var previousEnd: Option<u64> := None;
    var k := 0;
    assert segments[0..] == segments;
    while k < |segments|
      invariant 0 <= k <= |segments|
      invariant candidates.Valid() && fresh(candidates) && fresh(candidates.values) && candidates.len <= 2 + 4 * k
      invariant Gather(Gathered(candidates.Amounts(), boundary, interior, previousEnd), true, pool, segments[k..], min,
                       largest)
             == Gather(Ends(min, largest), true, pool, segments, min, largest)
    {
      var segment := segments[k];
      assert segments[k..][1..] == segments[k + 1..];
      k := k + 1;
      var start := SampledStart(pool, segment, previousEnd);
      var end := InputAtOrBelowTargetOut(pool, segment.inputEnd);
      if start.None? || end.None? {
        continue;
      }
      previousEnd := end;
      if end.value < min || start.value > largest {
        continue;
      }
      if min <= end.value <= largest {
        PushedGrowsByOne(candidates.Amounts(), end.value);
        candidates.PushUnique(end.value);
        boundary := Increment(boundary);
      }
      var inside := ForwardInterior(pool, segment, start.value, end.value, true);
      if inside.Some? && min <= inside.value <= largest {
        candidates.PushNeighborhood(inside.value, min, largest);
        interior := Increment(interior);
      }
    }
  }

  /** The reverse candidates, in the same bounded buffer. */
  method CollectReverse(pool: PumpPool, segments: seq<Segment>, min: u64, largest: u64)
    returns (candidates: CandidateAmounts, boundary: u8, interior: u8)
    requires |segments| <= MAX_VISITED && AllOrdered(segments)
    ensures candidates.Valid()
    ensures var g := Gather(Ends(min, largest), false, pool, segments, min, largest);
            candidates.Amounts() == g.amounts && boundary == g.boundary && interior == g.interior
  {
    hide ReverseInterior, Pushed, NeighborhoodPushed, Increment;
    candidates := new CandidateAmounts();
    PushedGrowsByOne([], min);
    PushedGrowsByOne(Pushed([], min), largest);
    candidates.PushUnique(min);
    candidates.PushUnique(largest);
    boundary, interior := 0, 0;
    var k := 0;
    assert segments[0..] == segments;
    while k < |segments|
      invariant 0 <= k <= |segments|
      invariant candidates.Valid() && fresh(candidates) && fresh(candidates.values) && candidates.len <= 2 + 4 * k
      invariant Gather(Gathered(candidates.Amounts(), boundary, interior, None), false, pool, segments[k..], min,
                       largest)
             == Gather(Ends(min, largest), false, pool, segments, min, largest)
    {
      var segment := segments[k];
      assert segments[k..][1..] == segments[k + 1..];
      k := k + 1;
      if segment.inputEnd < min || segment.inputStart > largest {
        continue;
      }
      if min <= segment.inputEnd <= largest {
        PushedGrowsByOne(candidates.Amounts(), segment.inputEnd);
        candidates.PushUnique(segment.inputEnd);
        boundary := Increment(boundary);
      }
      var inside := ReverseInterior(pool, segment, true);
      if inside.Some? && min <= inside.value <= largest {
        candidates.PushNeighborhood(inside.value, min, largest);
        interior := Increment(interior);
      }
    }
  }

  method SearchForward(pool: PumpPool, curve: DlmmCurve, min: u64, max: u64,
                       minProfit: u64) returns (r: DirectionSearch)
    requires curve.Valid() && AllOrdered(curve.Segments())
    ensures r == SearchOf(true, pool, curve.Data(), min, max, minProfit)
  {
    hide LargestForward, SummaryOf, EvaluateForward, Gather;
    var segments := curve.Segments();
    var largest := LargestForwardCompleteAmount(pool, segments, max);
    if largest < min {
      return Incomplete(curve.Data(), largest);
    }
    var candidates, boundary, interior := CollectForward(pool, segments, min, largest);
    r := EvaluateCandidates(candidates.Amounts(), min, minProfit, largest, curve.visitedBins, boundary, interior,
                            curve.stopReason,
                            ForwardEvaluator(pool, segments));
  }

  method SearchReverse(pool: PumpPool, curve: DlmmCurve, min: u64, max: u64,
                       minProfit: u64) returns (r: DirectionSearch)
    requires curve.Valid() && AllOrdered(curve.Segments())
    ensures r == SearchOf(false, pool, curve.Data(), min, max, minProfit)
  {
    hide SummaryOf, EvaluateReverse, Gather;
    var segments := curve.Segments();
    var largest: u64 := Min(max, LargestCompleteInput(segments));
    if largest < min {
      return Incomplete(curve.Data(), largest);
    }
    var candidates, boundary, interior := CollectReverse(pool, segments, min, largest);
    r := EvaluateCandidates(candidates.Amounts(), min, minProfit, largest, curve.visitedBins, boundary, interior,
                            curve.stopReason,
                            ReverseEvaluator(pool, segments));
  }
}
