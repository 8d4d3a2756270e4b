/** Why a curve stops, how far it reaches, and what a search reports of it. */
module CurveLaws {
  import opened Arithmetic
  import opened PumpQuote
  import opened PumpBoundary
  import opened BinWalk
  import opened DlmmCurve
  import opened CurveBuild
  import opened CurveShape
  import opened CurveRefinement
  import opened BinCapacity
  import opened Candidates
  import opened Search
  import opened Selection
  import opened SelectionProperties
  import opened WalkLaws
  import opened CandidateLaws

  // --- the reason to stop ---

  /** What a stop reason says of the rest of a pass that may make a number of visits from an id. */
  predicate Honest(scan: Scan, curve: CurveData, inputLimit: u64, visits: nat, binId: i32) {
    var covered, n := LargestCompleteInput(curve.segments), |curve.segments|;
    && n <= curve.visited <= visits
    && (curve.stop == InputLimitReached <==> n > 0 && covered >= inputLimit)
    && (forall i :: 0 <= i < n - 1 ==> curve.segments[i].inputEnd < inputLimit)
    && (curve.stop == VisitedBinLimitReached ==> curve.visited == visits)
    && (curve.stop == MissingBinArray ==>
          curve.visited > 0
          && VisitBin(scan, Moved(binId, scan.view.swapForY, curve.visited - 1), []).MissingArray?)
    && curve.stop != NoUsableLiquidity
  }

  lemma {:induction false} MovedAhead(binId: i32, swapForY: bool, moves: nat)
    ensures Moved(binId, swapForY, moves + 1) == Moved(NextBin(binId, swapForY), swapForY, moves)
  {
    hide NextBin;
    if moves > 0 {
      MovedAhead(binId, swapForY, moves - 1);
    } else {
      assert Moved(binId, swapForY, 1) == NextBin(Moved(binId, swapForY, 0), swapForY);
    }
  }

  lemma MissingIgnoresUsed(scan: Scan, binId: i32, used: seq<i64>)
    requires VisitBin(scan, binId, used).MissingArray?
    ensures VisitBin(scan, binId, []).MissingArray?
  {
    hide Initialized, FindArray;
  }

  /** One more visit in front of an honest rest. */
  lemma HonestVisit(scan: Scan, rest: CurveData, inputLimit: u64, visits: nat, binId: i32)
    requires Honest(scan, rest, inputLimit, visits, NextBin(binId, scan.view.swapForY))
    ensures Honest(scan, rest.(visited := rest.visited + 1), inputLimit, visits + 1, binId)
  {
    hide VisitBin, Moved, NextBin;
    if rest.stop == MissingBinArray {
      MovedAhead(binId, scan.view.swapForY, rest.visited - 1);
    }
  }

  lemma HonestSegment(scan: Scan, segment: Segment, rest: CurveData, inputLimit: u64, visits: nat, binId: i32)
    requires Honest(scan, rest, inputLimit, visits, NextBin(binId, scan.view.swapForY)) && segment.inputEnd < inputLimit
    ensures Honest(scan, CurveData([segment] + rest.segments, rest.visited + 1, rest.stop), inputLimit, visits + 1,
                   binId)
  {
    hide VisitBin, Moved, NextBin;
    HonestVisit(scan, rest, inputLimit, visits, binId);
    var all := [segment] + rest.segments;
    forall i | 0 <= i < |all| - 1 ensures all[i].inputEnd < inputLimit {
      if i > 0 {
        assert all[i] == rest.segments[i - 1];
      }
    }
  }

  lemma {:induction false} PassIsHonest(scan: Scan, inputLimit: u64, visits: nat, binId: i32, totalIn: u64,
                                        totalOut: u64,
                                        used: seq<i64>)
    requires BuildFrom(scan, inputLimit, visits, binId, totalIn, totalOut, used).Ok?
    ensures Honest(scan, BuildFrom(scan, inputLimit, visits, binId, totalIn, totalOut, used).value, inputLimit, visits,
                   binId)
    decreases visits
  {
    hide VisitBin, Capacity, NextBin, AddedSegment, Honest;
    if visits == 0 {
      NothingIsHonest(scan, inputLimit, binId);
    } else {
      FirstVisit(scan, inputLimit, visits, binId, totalIn, totalOut, used);
      BuildStep(scan, inputLimit, visits, binId, totalIn, totalOut, used);
      hide BuildFrom;
      var next := NextBin(binId, scan.view.swapForY);
      var visit := VisitBin(scan, binId, used);
      if visit.Skipped? {
        PassIsHonest(scan, inputLimit, visits - 1, next, totalIn, totalOut, used);
        HonestVisit(scan, BuildFrom(scan, inputLimit, visits - 1, next, totalIn, totalOut, used).value, inputLimit,
                    visits - 1, binId);
      } else if visit.Found? {
        if Capacity(visit.bin, scan.view.swapForY, scan.feeOnInput, visit.fees).Err? {
          PassIsHonest(scan, inputLimit, visits - 1, next, totalIn, totalOut, visit.used);
          HonestVisit(scan, BuildFrom(scan, inputLimit, visits - 1, next, totalIn, totalOut, visit.used).value,
                      inputLimit,
                      visits - 1, binId);
        } else {
          var segment := AddedSegment(scan, binId, used, totalIn, totalOut).value;
          if segment.inputEnd < inputLimit {
            PassIsHonest(scan, inputLimit, visits - 1, next, segment.inputEnd, segment.outputEnd, visit.used);
            HonestSegment(scan, segment, BuildFrom(scan, inputLimit, visits - 1, next, segment.inputEnd,
                                                   segment.outputEnd,
                                                   visit.used).value, inputLimit, visits - 1, binId);
          } else {
            LastSegmentIsHonest(scan, segment, inputLimit, visits, binId);
          }
        }
      }
    }
  }

  lemma NothingIsHonest(scan: Scan, inputLimit: u64, binId: i32)
    ensures Honest(scan, CurveData([], 0, VisitedBinLimitReached), inputLimit, 0, binId)
  {
  }

  lemma LastSegmentIsHonest(scan: Scan, segment: Segment, inputLimit: u64, visits: nat, binId: i32)
    requires visits > 0 && segment.inputEnd >= inputLimit
    ensures Honest(scan, CurveData([segment], 1, InputLimitReached), inputLimit, visits, binId)
  {
  }

  /** A pass that ends at its first visit, without a bin. */
  lemma FirstVisit(scan: Scan, inputLimit: u64, visits: nat, binId: i32, totalIn: u64, totalOut: u64, used: seq<i64>)
    requires visits > 0 && BuildFrom(scan, inputLimit, visits, binId, totalIn, totalOut, used).Ok?
    ensures VisitBin(scan, binId, used).MissingArray? || VisitBin(scan, binId, used).ArrayLimit? ==>
              Honest(scan, BuildFrom(scan, inputLimit, visits, binId, totalIn, totalOut, used).value, inputLimit,
                     visits, binId)
  {
    hide VisitBin, NextBin;
    if VisitBin(scan, binId, used).MissingArray? {
      MissingIgnoresUsed(scan, binId, used);
      assert Moved(binId, scan.view.swapForY, 0) == binId;
    }
  }

  /** A built curve says truthfully why it stopped: at its limit exactly when it covers it, with nothing before the last
      segment covering it; after sixteen visits, with or without liquidity; or at a known array that is not supplied. */
  lemma StopReasonIsHonest(view: View, inputLimit: u64)
    requires Build(view, inputLimit).Ok? && Prepare(view).Ok?
    ensures var curve := Build(view, inputLimit).value;
            var n := |curve.segments|;
            && n <= curve.visited <= 16
            && (curve.stop == InputLimitReached <==> n > 0 && LargestCompleteInput(curve.segments) >= inputLimit)
            && (forall i :: 0 <= i < n - 1 ==> curve.segments[i].inputEnd < inputLimit)
            && (curve.stop == VisitedBinLimitReached ==> curve.visited == 16 && n > 0)
            && (curve.stop == NoUsableLiquidity ==> curve.visited == 16 && n == 0)
            && (curve.stop == MissingBinArray ==>
                  curve.visited > 0
                  && VisitBin(Prepare(view).value, Moved(view.pair.activeId, view.swapForY, curve.visited - 1),
                              []).MissingArray?)
  {
    hide BuildFrom, VisitBin, Moved;
    PassIsHonest(Prepare(view).value, inputLimit, MAX_VISITED, view.pair.activeId, 0, 0, []);
  }

  // --- how far a direction's curve reaches ---

  /** A direction's curve for an amount stops at its limit exactly when it covers what the amount feeds into it, or
      every
      input where Pump quotes nothing, and nothing before its last segment does. */
  lemma CurveFitsItsNeed(forwards: bool, pool: PumpPool, view: View, amount: u64)
    requires Build(view, InputLimit(forwards, pool, amount)).Ok? && Prepare(view).Ok?
    ensures var curve := Build(view, InputLimit(forwards, pool, amount)).value;
            var bought := BuyAmountOut(pool, amount);
            var need := if !forwards then amount else if bought.Some? then bought.value else U64_MAX;
            && (curve.stop == InputLimitReached <==>
                  |curve.segments| > 0 && need <= LargestCompleteInput(curve.segments))
            && (forall i :: 0 <= i < |curve.segments| - 1 ==> curve.segments[i].inputEnd < need)
  {
    hide Build, VisitBin, Moved, BuyAmountOut;
    StopReasonIsHonest(view, InputLimit(forwards, pool, amount));
  }

  /** In reverse the largest complete amount is the largest one in range that the curve covers. */
  lemma LargestReverseLaw(pool: PumpPool, segments: seq<Segment>, max: u64, a: u64)
    ensures a <= Largest(false, pool, segments, max) <==> a <= max && a <= LargestCompleteInput(segments)
  {
  }

  /** Forwards it is the maximum when that quotes, and otherwise an input whose Pump output fits the curve, or zero,
      with a
      next one that does not. */
  lemma LargestForwardLaw(pool: PumpPool, segments: seq<Segment>, max: u64)
    ensures var largest, capacity := Largest(true, pool, segments, max), LargestCompleteInput(segments);
            && largest <= max
            && (EvaluateForward(pool, segments, max).Ok? ==> largest == max)
            && (EvaluateForward(pool, segments, max).Err? && (capacity == 0 || max == 0) ==> largest == 0)
            && (EvaluateForward(pool, segments, max).Err? && capacity > 0 && max > 0 ==>
                  && (largest == 0 || (BuyAmountOut(pool, largest).Some?
                                       && BuyAmountOut(pool, largest).value <= capacity))
                  && (largest < max ==>
                        BuyAmountOut(pool, largest + 1).None? || BuyAmountOut(pool, largest + 1).value > capacity))
  {
    hide EvaluateForward, CoverageSearch, BuyAmountOut;
    if LargestCompleteInput(segments) > 0 && max > 0 {
      CoverageSearchBrackets(pool, LargestCompleteInput(segments), 0, max);
    }
  }

  // --- what a search reports ---

  /** A search reports its coverage, the visits and stop of its curve, and the numbers of segments that gave a
      candidate. */
  lemma SearchReports(forwards: bool, pool: PumpPool, curve: CurveData, min: u64, max: u64, minProfit: u64)
    requires AllOrdered(curve.segments) && |curve.segments| <= U8_MAX
    ensures var search := SearchOf(forwards, pool, curve, min, max, minProfit);
            var largest := Largest(forwards, pool, curve.segments, max);
            && search.largestCompleteAmount == largest
            && search.visited == curve.visited && search.stop == curve.stop
            && search.boundaryCandidates
               == (if largest < min then 0 else CountEnds(forwards, pool, curve.segments, 0, min, largest))
            && search.interiorCandidates
               == (if largest < min then 0 else CountInteriors(forwards, pool, curve.segments, 0, min, largest))
  {
    hide Largest, CandidatesOf, SummaryOf, EvaluatorOf, CountEnds, CountInteriors;
    CandidatesAreCounted(forwards, pool, curve, min, max);
  }

  /** Outside its coverage a curve says why it cannot answer: no amount at all, or more than it covers. */
  lemma CurveRefuses(segments: seq<Segment>, a: u64)
    requires Ascending(segments)
    ensures a == 0 ==> QuoteAt(segments, a) == Err(InvalidInput)
    ensures a > LargestCompleteInput(segments) ==> QuoteAt(segments, a) == Err(InsufficientLiquidity)
  {
    if |segments| > 0 && a > LargestCompleteInput(segments) {
      var k := FirstCovering(segments, a);
      assert segments[|segments| - 1].inputEnd < a;
    }
  }

  /** A search has seen a complete quote exactly when some candidate in range quotes. */
  lemma SearchSeesQuotes(forwards: bool, pool: PumpPool, curve: CurveData, min: u64, max: u64, minProfit: u64)
    requires AllOrdered(curve.segments)
    ensures SearchOf(forwards, pool, curve, min, max, minProfit).completeSeen
       <==> exists a :: a in CandidatesOf(forwards, pool, curve, min, max).amounts
                        && min <= a <= Largest(forwards, pool, curve.segments, max)
                        && EvaluatorOf(forwards, pool, curve.segments)(a).Ok?
  {
    hide Largest, CandidatesOf, EvaluatorOf, SummaryFrom;
    var largest := Largest(forwards, pool, curve.segments, max);
    SummaryOfMinimum(NOTHING_SEEN, EvaluatorOf(forwards, pool, curve.segments),
                     CandidatesOf(forwards, pool, curve, min, max).amounts, min, largest, minProfit);
  }
}
