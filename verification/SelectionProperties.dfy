/** What a dynamic selection guarantees, what widening the range keeps, and how it relates to the fixed amount. */
module SelectionProperties {
  import opened Arithmetic
  import BinQuote
  import BinCapacity
  import opened PumpQuote
  import opened PumpBoundary
  import opened BinWalk
  import opened DlmmCurve
  import opened CurveBuild
  import opened CurveShape
  import opened CurveRefinement
  import opened Candidates
  import opened Interior
  import opened Search
  import opened Selection

  // --- end to end ---

  /** Everything a direction evaluated: on which curve, which amounts, and up to which amount. */
  datatype Scope = Scope(evaluate: Evaluator, amounts: seq<u64>, largest: u64)

  /** A probe evaluates the minimum only; a full search evaluates every gathered candidate. */
  function ScopeOf(forwards: bool, market: Market, min: u64, max: u64, expanded: bool): Result<Scope, ArbError> {
    var pool, view, top := market.pool, market.ViewOf(forwards), if expanded then max else min;
    var curve :- Build(view, InputLimit(forwards, pool, top));
    BuiltIsContiguous(view, InputLimit(forwards, pool, top));
    var largest := Largest(forwards, pool, curve.segments, top);
    Ok(Scope(EvaluatorOf(forwards, pool, curve.segments),
             if expanded then CandidatesOf(forwards, pool, curve, min, max).amounts else [min], largest))
  }

  predicate BestOfScope(best: Option<DirectionChoice>, scope: Scope, min: u64, minProfit: u64) {
    IsBest(best, scope.evaluate, scope.amounts, min, scope.largest, minProfit)
  }

  lemma LargestWithinMax(forwards: bool, pool: PumpPool, segments: seq<Segment>, max: u64)
    ensures Largest(forwards, pool, segments, max) <= max
  {
    hide EvaluateForward, CoverageSearch;
  }

  /** A probe's best is the best of its single amount. */
  lemma ProbeIsBest(curve: CurveData, evaluate: Evaluator, min: u64, minProfit: u64, largest: u64)
    requires minProfit > 0
    ensures IsBest(ProbeMinimum(curve, min, minProfit, largest, evaluate(min)).best, evaluate, [min], min, largest,
                   minProfit)
  {
  }

  /** Whatever a direction ends up with is the best of what it evaluated, within the range. */
  lemma FinalSearchIsBest(forwards: bool, market: Market, min: u64, max: u64, minProfit: u64, expand: bool,
                          probe: DirectionSearch)
    requires minProfit > 0 && min <= max
    requires !expand ==> Probe(forwards, market.pool, market.ViewOf(forwards), min, minProfit) == Ok(probe)
    requires FinalSearch(forwards, market, min, max, minProfit, expand, probe).Ok?
    ensures ScopeOf(forwards, market, min, max, expand).Ok?
    ensures ScopeOf(forwards, market, min, max, expand).value.largest <= max
    ensures BestOfScope(FinalSearch(forwards, market, min, max, minProfit, expand, probe).value.best,
                        ScopeOf(forwards, market, min, max, expand).value, min, minProfit)
  {
    hide Build, Largest, IsBest, EvaluatorOf, InputLimit, Contiguous, ProbeMinimum;
    var pool, view, top := market.pool, market.ViewOf(forwards), if expand then max else min;
    var limit := InputLimit(forwards, pool, top);
    var curve := Build(view, limit).value;
    BuiltIsContiguous(view, limit);
    var largest := Largest(forwards, pool, curve.segments, top);
    LargestWithinMax(forwards, pool, curve.segments, top);
    var evaluate := EvaluatorOf(forwards, pool, curve.segments);
    if expand {
      var amounts := CandidatesOf(forwards, pool, curve, min, max).amounts;
      EvaluationFindsBest(evaluate, amounts, min, largest, minProfit);
      EmptyRangeHasNoBest(evaluate, amounts, min, largest, minProfit);
    } else {
      ProbeIsBest(curve, evaluate, min, minProfit, largest);
    }
  }

  lemma EmptyRangeHasNoBest(evaluate: Evaluator, candidates: seq<u64>, min: u64, largest: u64, minProfit: u64)
    ensures largest < min ==> IsBest(None, evaluate, candidates, min, largest, minProfit)
  {
  }

  /** No amount of a scope offers a better choice than the given one; strictly worse ones are asked for when ties must
      lose. */
  predicate Dominates(choice: DirectionChoice, scope: Scope, min: u64, minProfit: u64, strictly: bool) {
    forall k :: 0 <= k < |scope.amounts| && min <= scope.amounts[k] <= scope.largest ==>
      var other := ChoiceAt(scope.evaluate, scope.amounts[k], minProfit);
      other.Some? ==> !BetterChoice(other.value, choice) && (strictly ==> BetterChoice(choice, other.value))
  }

  /** The exact quote behind a choice. */
  predicate ExactChoice(choice: DirectionChoice, scope: Scope, minProfit: u64) {
    && choice.amountIn in scope.amounts
    && scope.evaluate(choice.amountIn) == Ok(CurveQuote(choice.amountOut, choice.used))
    && choice.amountOut == choice.amountIn + choice.profit && choice.profit >= minProfit
  }

  lemma DecideFromBests(f: DirectionSearch, r: DirectionSearch, fs: Scope, rs: Scope, min: u64, minProfit: u64)
    requires BestOfScope(f.best, fs, min, minProfit) && BestOfScope(r.best, rs, min, minProfit) && Decide(f, r).Ok?
    ensures var (direction, choice) := Decide(f, r).value;
            var own := if direction == PumpToMeteora then fs else rs;
            && ExactChoice(choice, own, minProfit) && min <= choice.amountIn <= own.largest
            && Dominates(choice, fs, min, minProfit, direction == MeteoraToPump)
            && Dominates(choice, rs, min, minProfit, false)
  {
  }

  /** A selected choice lies in the range, is the exact composed quote with enough profit, and no evaluated candidate of
      either direction
      beats it by profit, then smaller input, then the forward direction. */
  lemma SelectionIsSound(market: Market, min: u64, max: u64, minProfit: u64, reverseReady: bool)
    requires min <= max && minProfit > 0 && SelectDynamic(market, min, max, minProfit, reverseReady).Ok?
    ensures var probeF := Probe(true, market.pool, market.ViewOf(true), min, minProfit).value;
            var probeR := ReverseProbe(market, min, minProfit, reverseReady).value;
            var (expandF, expandR) := DirectionsToExpand(probeF, probeR, min, max);
            var selection := SelectDynamic(market, min, max, minProfit, reverseReady).value;
            var forward := ScopeOf(true, market, min, max, expandF);
            var reverse := ScopeOf(false, market, min, max, expandR);
            && forward.Ok? && (reverseReady ==> reverse.Ok?)
            && (selection.direction == MeteoraToPump ==> reverseReady)
            && min <= selection.choice.amountIn <= max
            && ExactChoice(selection.choice, if selection.direction == PumpToMeteora then forward.value
                           else reverse.value, minProfit)
            && Dominates(selection.choice, forward.value, min, minProfit, selection.direction == MeteoraToPump)
            && (reverseReady ==> Dominates(selection.choice, reverse.value, min, minProfit, false))
  {
    hide Probe, FinalSearch, ScopeOf, BestOfScope, Dominates, ExactChoice, Decide;
    var probeF := Probe(true, market.pool, market.ViewOf(true), min, minProfit).value;
    var probeR := ReverseProbe(market, min, minProfit, reverseReady).value;
    var (expandF, expandR) := DirectionsToExpand(probeF, probeR, min, max);
    var forward := FinalSearch(true, market, min, max, minProfit, expandF, probeF).value;
    var reverse := FinalSearch(false, market, min, max, minProfit, expandR, probeR).value;
    FinalSearchIsBest(true, market, min, max, minProfit, expandF, probeF);
    var fs := ScopeOf(true, market, min, max, expandF).value;
    if reverseReady {
      FinalSearchIsBest(false, market, min, max, minProfit, expandR, probeR);
      DecideFromBests(forward, reverse, fs, ScopeOf(false, market, min, max, expandR).value, min, minProfit);
    } else {
      UnreadyReverse(market, min, max, minProfit, expandR, probeR);
      var nothing := Scope(fs.evaluate, [], 0);
      NothingIsBest(nothing, min, minProfit);
      UnreadyDecision(forward);
      DecideFromBests(forward, NOT_READY, fs, nothing, min, minProfit);
    }
  }

  lemma UnreadyReverse(market: Market, min: u64, max: u64, minProfit: u64, expand: bool, probe: DirectionSearch)
    requires probe == NOT_READY && !expand
    ensures FinalSearch(false, market, min, max, minProfit, expand, probe) == Ok(NOT_READY)
  {
  }

  lemma UnreadyDecision(forward: DirectionSearch)
    ensures Decide(forward, NOT_READY).Ok? ==> Decide(forward, NOT_READY).value.0 == PumpToMeteora
  {
  }

  lemma NothingIsBest(scope: Scope, min: u64, minProfit: u64)
    requires scope.amounts == []
    ensures BestOfScope(None, scope, min, minProfit)
  {
  }

  // --- refusals ---

  /** The minimum has an exact quote within the coverage. */
  predicate QuotesMinimum(scope: Scope, min: u64) {
    min <= scope.largest && scope.evaluate(min).Ok?
  }

  /** No amount of a scope offers the minimum profit. */
  predicate OffersNothing(scope: Scope, min: u64, minProfit: u64) {
    forall k :: 0 <= k < |scope.amounts| && min <= scope.amounts[k] <= scope.largest ==>
      ChoiceAt(scope.evaluate, scope.amounts[k], minProfit).None?
  }

  lemma BestIsMissingIffNothingOffered(best: Option<DirectionChoice>, scope: Scope, min: u64, minProfit: u64)
    requires BestOfScope(best, scope, min, minProfit)
    ensures best.None? <==> OffersNothing(scope, min, minProfit)
  {
    if best.Some? {
      var k :| 0 <= k < |scope.amounts| && scope.amounts[k] == best.value.amountIn;
    }
  }

  /** Whether a direction's minimum counts as quoted does not depend on whether it was probed or searched. */
  lemma FinalSearchKnowsMinimum(forwards: bool, market: Market, min: u64, max: u64, minProfit: u64, expand: bool,
                                probe: DirectionSearch)
    requires minProfit > 0 && 0 < min <= max
    requires !expand ==> Probe(forwards, market.pool, market.ViewOf(forwards), min, minProfit) == Ok(probe)
    requires FinalSearch(forwards, market, min, max, minProfit, expand, probe).Ok?
    ensures ScopeOf(forwards, market, min, max, expand).Ok?
    ensures FinalSearch(forwards, market, min, max, minProfit, expand, probe).value.minimumQuoteComplete
       <==> QuotesMinimum(ScopeOf(forwards, market, min, max, expand).value, min)
  {
    hide Build, Largest, EvaluatorOf, InputLimit, Contiguous, CandidatesOf, SummaryFrom;
    var pool, view, top := market.pool, market.ViewOf(forwards), if expand then max else min;
    var limit := InputLimit(forwards, pool, top);
    var curve := Build(view, limit).value;
    BuiltIsContiguous(view, limit);
    if expand {
      MinimumIsCandidate(forwards, pool, curve, min, max);
      SummaryOfMinimum(NOTHING_SEEN, EvaluatorOf(forwards, pool, curve.segments),
                       CandidatesOf(forwards, pool, curve, min, max).amounts,
                       min, Largest(forwards, pool, curve.segments, max), minProfit);
    }
  }

  /** When all curves build, a selection fails exactly when no evaluated amount of either direction offers the minimum
      profit; it reports
      a missing profit exactly when both directions quoted the minimum, and an incomplete quote otherwise. */
  lemma RefusalIsHonest(market: Market, min: u64, max: u64, minProfit: u64)
    requires 0 < min <= max && minProfit > 0
    requires Probe(true, market.pool, market.ViewOf(true), min, minProfit).Ok?
               && Probe(false, market.pool, market.ViewOf(false), min, minProfit).Ok?
    requires var probeF := Probe(true, market.pool, market.ViewOf(true), min, minProfit).value;
             var probeR := Probe(false, market.pool, market.ViewOf(false), min, minProfit).value;
             var (expandF, expandR) := DirectionsToExpand(probeF, probeR, min, max);
             && FinalSearch(true, market, min, max, minProfit, expandF, probeF).Ok?
             && FinalSearch(false, market, min, max, minProfit, expandR, probeR).Ok?
    ensures var probeF := Probe(true, market.pool, market.ViewOf(true), min, minProfit).value;
            var probeR := Probe(false, market.pool, market.ViewOf(false), min, minProfit).value;
            var (expandF, expandR) := DirectionsToExpand(probeF, probeR, min, max);
            var forward := ScopeOf(true, market, min, max, expandF);
            var reverse := ScopeOf(false, market, min, max, expandR);
            var result := SelectDynamic(market, min, max, minProfit, true);
            && forward.Ok? && reverse.Ok?
            && (result.Ok? <==> !(OffersNothing(forward.value, min, minProfit)
                                  && OffersNothing(reverse.value, min, minProfit)))
            && (result.Err? ==> result.error == if QuotesMinimum(forward.value, min)
                && QuotesMinimum(reverse.value, min)
                                                then NoProfitableDirection else BestDirectionQuoteIncomplete)
  {
    hide Probe, FinalSearch, ScopeOf, BestOfScope, OffersNothing, QuotesMinimum;
    var probeF := Probe(true, market.pool, market.ViewOf(true), min, minProfit).value;
    var probeR := Probe(false, market.pool, market.ViewOf(false), min, minProfit).value;
    var (expandF, expandR) := DirectionsToExpand(probeF, probeR, min, max);
    FinalSearchIsBest(true, market, min, max, minProfit, expandF, probeF);
    FinalSearchIsBest(false, market, min, max, minProfit, expandR, probeR);
    FinalSearchKnowsMinimum(true, market, min, max, minProfit, expandF, probeF);
    FinalSearchKnowsMinimum(false, market, min, max, minProfit, expandR, probeR);
    BestIsMissingIffNothingOffered(FinalSearch(true, market, min, max, minProfit, expandF, probeF).value.best,
                                   ScopeOf(true, market, min, max, expandF).value, min, minProfit);
    BestIsMissingIffNothingOffered(FinalSearch(false, market, min, max, minProfit, expandR, probeR).value.best,
                                   ScopeOf(false, market, min, max, expandR).value, min, minProfit);
  }

  /** A direction that is not ready was not quoted, so its absence is never reported as a missing profit. */
  lemma UnreadyIsNeverUnprofitable(market: Market, min: u64, max: u64, minProfit: u64)
    ensures SelectDynamic(market, min, max, minProfit, false) != Err(NoProfitableDirection)
  {
    hide Build, InputLimit, EvaluatorOf, Largest, SearchOf;
    BuildErrors(market.ViewOf(true), InputLimit(true, market.pool, min));
    BuildErrors(market.ViewOf(true), InputLimit(true, market.pool, max));
  }

  lemma BuildErrors(view: View, inputLimit: u64)
    ensures Build(view, inputLimit) != Err(NoProfitableDirection)
  {
    hide BuildFrom;
    if Prepare(view).Ok? {
      BuildFromErrors(Prepare(view).value, inputLimit, MAX_VISITED, view.pair.activeId, 0, 0, []);
    }
  }

  lemma BuildFromErrors(scan: Scan, inputLimit: u64, visits: nat, binId: i32, totalIn: u64, totalOut: u64,
                        used: seq<i64>)
    ensures BuildFrom(scan, inputLimit, visits, binId, totalIn, totalOut, used) != Err(NoProfitableDirection)
  {
    hide VisitBin, BinQuote.TotalFeeRate, BinCapacity.Capacity;
  }

  // --- curve evaluations are account-walk quotes ---

  lemma QuotedIsCovered(segments: seq<Segment>, a: u64)
    requires Ascending(segments)
    ensures QuoteAt(segments, a).Ok? ==> 1 <= a <= LargestCompleteInput(segments)
  {
    hide SegmentQuote;
    var k := FirstCovering(segments, a);
    assert k < |segments| - 1 ==> segments[k].inputEnd < segments[|segments| - 1].inputEnd;
  }

  /** Every evaluation that succeeds on a built curve is the route's quote through the account walk, whose arrays are a
      prefix. */
  lemma EvaluationIsRouteQuote(forwards: bool, pool: PumpPool, view: View, inputLimit: u64, a: u64)
    requires TameView(view, inputLimit) && Build(view, inputLimit).Ok?
    requires EvaluatorOf(forwards, pool, Build(view, inputLimit).value.segments)(a).Ok?
    ensures var quote := EvaluatorOf(forwards, pool, Build(view, inputLimit).value.segments)(a).value;
            var route := RouteQuote(forwards, pool, view, a);
            route.Some? && route.value.amountOut == quote.amountOut && route.value.used <= quote.used
  {
    hide Build, TameView, QuoteAt, Walk, BuyExactQuoteIn, SellBaseIn, Contiguous;
    var segments := Build(view, inputLimit).value.segments;
    BuiltIsContiguous(view, inputLimit);
    var curveInput := if forwards then BuyExactQuoteIn(a, pool).value.amountOut else a;
    QuotedIsCovered(segments, curveInput);
    CurveRefinesWalk(view, inputLimit, curveInput);
  }

  /** The bins that a direction's pass visits for an amount are tame. */
  predicate TameFor(forwards: bool, market: Market, amount: u64) {
    TameView(market.ViewOf(forwards), InputLimit(forwards, market.pool, amount))
  }

  /** The output that a dynamic selection reports is what the fixed-amount quote of the same amount and direction
      reports. */
  lemma SelectedOutputIsRouteOutput(market: Market, min: u64, max: u64, minProfit: u64, reverseReady: bool)
    requires min <= max && minProfit > 0 && SelectDynamic(market, min, max, minProfit, reverseReady).Ok?
    requires forall forwards, top :: top == min || top == max ==> TameFor(forwards, market, top)
    ensures var selection := SelectDynamic(market, min, max, minProfit, reverseReady).value;
            var forwards := selection.direction == PumpToMeteora;
            var route := RouteQuote(forwards, market.pool, market.ViewOf(forwards), selection.choice.amountIn);
            route.Some? && route.value.amountOut == selection.choice.amountOut
                && route.value.used <= selection.choice.used
  {
    hide TameView, RouteQuote, Probe, Dominates, FinalSearch, SelectionOf, DirectionsToExpand, Build, EvaluatorOf,
         InputLimit, CandidatesOf,
         Largest, Contiguous;
    SelectionIsSound(market, min, max, minProfit, reverseReady);
    var selection := SelectDynamic(market, min, max, minProfit, reverseReady).value;
    var forwards := selection.direction == PumpToMeteora;
    var probeF := Probe(true, market.pool, market.ViewOf(true), min, minProfit).value;
    var probeR := ReverseProbe(market, min, minProfit, reverseReady).value;
    var (expandF, expandR) := DirectionsToExpand(probeF, probeR, min, max);
    var top := if (if forwards then expandF else expandR) then max else min;
    assert TameFor(forwards, market, top);
    EvaluationIsRouteQuote(forwards, market.pool, market.ViewOf(forwards), InputLimit(forwards, market.pool, top),
                           selection.choice.amountIn);
  }

  // --- widening the range ---

  lemma GatherKeeps(g: Gathered, forwards: bool, pool: PumpPool, segments: seq<Segment>, min: u64, largest: u64, a: u64)
    requires AllOrdered(segments) && a in g.amounts
    ensures a in Gather(g, forwards, pool, segments, min, largest).amounts
    decreases |segments|
  {
    hide ForwardStep, ReverseStep;
    if |segments| > 0 {
      StepKeeps(g, pool, segments[0], min, largest, a);
      var h := if forwards then ForwardStep(g, pool, segments[0], min, largest)
          else ReverseStep(g, pool, segments[0], min, largest);
      GatherKeeps(h, forwards, pool, segments[1..], min, largest, a);
    }
  }

  lemma StepKeeps(g: Gathered, pool: PumpPool, segment: Segment, min: u64, largest: u64, a: u64)
    requires segment.Ordered() && a in g.amounts
    ensures a in ForwardStep(g, pool, segment, min, largest).amounts
    ensures a in ReverseStep(g, pool, segment, min, largest).amounts
  {
    hide ForwardInterior, ReverseInterior, SampledStart, InputAtOrBelowTargetOut;
  }

  /** The minimum is always among the candidates. */
  lemma MinimumIsCandidate(forwards: bool, pool: PumpPool, curve: CurveData, min: u64, max: u64)
    requires AllOrdered(curve.segments) && min > 0
    ensures min in CandidatesOf(forwards, pool, curve, min, max).amounts
  {
    hide Largest, Gather;
    var largest := Largest(forwards, pool, curve.segments, max);
    GatherKeeps(Ends(min, largest), forwards, pool, curve.segments, min, largest, min);
  }

  /** A full search whose evaluation of the minimum equals the probe's, and whose coverage reaches it, earns at least
      the probe's profit. */
  lemma SearchCoversProbe(forwards: bool, pool: PumpPool, curve: CurveData, min: u64, max: u64, minProfit: u64,
                          choice: DirectionChoice)
    requires AllOrdered(curve.segments) && min > 0 && Largest(forwards, pool, curve.segments, max) >= min
    requires ChoiceAt(EvaluatorOf(forwards, pool, curve.segments), min, minProfit) == Some(choice)
    ensures var best := SearchOf(forwards, pool, curve, min, max, minProfit).best;
            best.Some? && best.value.profit >= choice.profit
  {
    hide Largest, EvaluatorOf, ChoiceAt, CandidatesOf, SummaryOf;
    var largest := Largest(forwards, pool, curve.segments, max);
    var evaluate := EvaluatorOf(forwards, pool, curve.segments);
    var amounts := CandidatesOf(forwards, pool, curve, min, max).amounts;
    MinimumIsCandidate(forwards, pool, curve, min, max);
    EvaluationFindsBest(evaluate, amounts, min, largest, minProfit);
    var k :| 0 <= k < |amounts| && amounts[k] == min;
  }

  /** A profitable probe is the choice at the minimum on the probe's curve, whose coverage reaches the minimum. */
  lemma ProbeChoice(forwards: bool, pool: PumpPool, view: View, min: u64, minProfit: u64)
    requires minProfit > 0 && Probe(forwards, pool, view, min, minProfit).Ok?
    requires Probe(forwards, pool, view, min, minProfit).value.best.Some?
    ensures Build(view, InputLimit(forwards, pool, min)).Ok?
    ensures var segments := Build(view, InputLimit(forwards, pool, min)).value.segments;
            && ChoiceAt(EvaluatorOf(forwards, pool, segments), min, minProfit)
               == Probe(forwards, pool, view, min, minProfit).value.best
            && Largest(forwards, pool, segments, min) >= min
  {
    hide Build, Largest, EvaluatorOf, InputLimit;
  }

  /** Widening the maximum never loses a profitable minimum in reverse. */
  lemma WideningKeepsReverse(pool: PumpPool, view: View, min: u64, max: u64, minProfit: u64)
    requires 0 < min <= max && minProfit > 0
    requires Probe(false, pool, view, min, minProfit).Ok? && FullSearch(false, pool, view, min, max, minProfit).Ok?
    requires Probe(false, pool, view, min, minProfit).value.best.Some?
    ensures var best := FullSearch(false, pool, view, min, max, minProfit).value.best;
            best.Some? && best.value.profit >= Probe(false, pool, view, min, minProfit).value.best.value.profit
  {
    hide Build, QuoteAt, SellBaseIn, SearchOf, Probe, Contiguous, ChoiceAt;
    ProbeChoice(false, pool, view, min, minProfit);
    var choice := Probe(false, pool, view, min, minProfit).value.best.value;
    var low, high := Build(view, min).value, Build(view, max).value;
    BuiltIsContiguous(view, max);
    CutAnswersAlike(view, min, max, min);
    LowerLimitCuts(view, min, max);
    PrefixCoversLess(low.segments, high.segments);
    SameEvaluationSameChoice(EvaluatorOf(false, pool, low.segments), EvaluatorOf(false, pool, high.segments), min,
                             minProfit);
    SearchCoversProbe(false, pool, high, min, max, minProfit, choice);
  }

  lemma SameEvaluationSameChoice(e1: Evaluator, e2: Evaluator, a: u64, minProfit: u64)
    requires e1(a) == e2(a)
    ensures ChoiceAt(e1, a, minProfit) == ChoiceAt(e2, a, minProfit)
  {
  }

  lemma PrefixCoversLess(low: seq<Segment>, high: seq<Segment>)
    requires low <= high && Ascending(high)
    ensures LargestCompleteInput(low) <= LargestCompleteInput(high)
  {
    if 0 < |low| < |high| {
      assert high[|low| - 1].inputEnd < high[|high| - 1].inputEnd;
    }
  }

  /** Two curves of the same market answer alike on every amount both cover. */
  lemma CurvesAnswerAlike(view: View, limit1: u64, limit2: u64, a: u64)
    requires Build(view, limit1).Ok? && Build(view, limit2).Ok?
    requires a <= LargestCompleteInput(Build(view, limit1).value.segments)
               && a <= LargestCompleteInput(Build(view, limit2).value.segments)
    ensures QuoteAt(Build(view, limit1).value.segments, a) == QuoteAt(Build(view, limit2).value.segments, a)
  {
    hide Build, QuoteAt;
    var s1, s2 := Build(view, limit1).value.segments, Build(view, limit2).value.segments;
    if limit1 <= limit2 {
      LowerLimitCuts(view, limit1, limit2);
      PrefixQuotesAlike(s1, s2, a);
    } else {
      LowerLimitCuts(view, limit2, limit1);
      PrefixQuotesAlike(s2, s1, a);
    }
  }

  /** The capacity holds the output of one more unit of curve input than an amount buys. */
  predicate LeavesRoom(pool: PumpPool, amount: u64, capacity: u64) {
    PoolUsable(pool) && EffectiveQuote(amount, pool.fees) >= 0
        && CurveOutput(EffectiveQuote(amount, pool.fees), pool) <= capacity
  }

  /** Forwards, a profitable minimum of at least sixteen survives when the full curve leaves room for one more unit of
      curve input. */
  lemma WideningKeepsForward(pool: PumpPool, view: View, min: u64, max: u64, minProfit: u64)
    requires 16 <= min <= max && minProfit > 0 && pool.fees.EachAtMostWhole()
    requires Probe(true, pool, view, min, minProfit).Ok? && FullSearch(true, pool, view, min, max, minProfit).Ok?
    requires Probe(true, pool, view, min, minProfit).value.best.Some?
    requires LeavesRoom(pool, min, LargestCompleteInput(Build(view, InputLimit(true, pool, max)).value.segments))
    ensures var best := FullSearch(true, pool, view, min, max, minProfit).value.best;
            best.Some? && best.value.profit >= Probe(true, pool, view, min, minProfit).value.best.value.profit
  {
    hide Build, QuoteAt, SearchOf, Probe, Contiguous, ChoiceAt, LeavesRoom, InputLimit, Largest, EvaluatorOf;
    ProbeChoice(true, pool, view, min, minProfit);
    var choice := Probe(true, pool, view, min, minProfit).value.best.value;
    var limit1, limit2 := InputLimit(true, pool, min), InputLimit(true, pool, max);
    var low, high := Build(view, limit1).value, Build(view, limit2).value;
    BuiltIsContiguous(view, limit2);
    ForwardMinimumAnswersAlike(pool, view, min, limit1, limit2, minProfit);
    ForwardCoverageKeeps(pool, high.segments, min, max);
    SameEvaluationSameChoice(EvaluatorOf(true, pool, low.segments), EvaluatorOf(true, pool, high.segments), min,
                             minProfit);
    SearchCoversProbe(true, pool, high, min, max, minProfit, choice);
  }

  lemma ForwardMinimumAnswersAlike(pool: PumpPool, view: View, min: u64, limit1: u64, limit2: u64, minProfit: u64)
    requires Build(view, limit1).Ok? && Build(view, limit2).Ok?
    requires ChoiceAt(EvaluatorOf(true, pool, Build(view, limit1).value.segments), min, minProfit).Some?
    requires LeavesRoom(pool, min, LargestCompleteInput(Build(view, limit2).value.segments))
    ensures EvaluatorOf(true, pool, Build(view, limit1).value.segments)(min)
              == EvaluatorOf(true, pool, Build(view, limit2).value.segments)(min)
    ensures 0 < LargestCompleteInput(Build(view, limit2).value.segments)
  {
    hide Build, QuoteAt, CurveOutput, EffectiveQuote, BuyExactQuoteIn, Contiguous;
    BuiltIsContiguous(view, limit1);
    BuyOutcome(min, pool);
    var bought := BuyExactQuoteIn(min, pool).value.amountOut;
    QuotedIsCovered(Build(view, limit1).value.segments, bought);
    CurveOutputMono(EffectiveQuote(min, pool.fees) - 1, EffectiveQuote(min, pool.fees), pool);
    CurvesAnswerAlike(view, limit1, limit2, bought);
  }

  lemma ForwardCoverageKeeps(pool: PumpPool, segments: seq<Segment>, min: u64, max: u64)
    requires 16 <= min <= max && pool.fees.EachAtMostWhole() && LeavesRoom(pool, min, LargestCompleteInput(segments))
    requires 0 < LargestCompleteInput(segments)
    ensures Largest(true, pool, segments, max) >= min
  {
    hide CurveOutput, EffectiveQuote, EvaluateForward, CoverageSearch;
    BuyQuotesFromEight(pool, min);
    CoverageSearchKeeps(pool, LargestCompleteInput(segments), 0, max, min);
  }

  // --- fixed and dynamic amounts agree ---

  /** A route is offered by a fixed amount when its output covers the amount and the minimum profit. */
  predicate Offers(quote: Option<WalkQuote>, a: u64, minProfit: u64) {
    quote.Some? && quote.value.amountOut >= a + minProfit
  }

  /** The probe's best is the fixed amount's route: it exists exactly when the route is offered, with the same
      output. */
  predicate SameOffer(best: Option<DirectionChoice>, quote: Option<WalkQuote>, a: u64, minProfit: u64) {
    && (best.Some? <==> Offers(quote, a, minProfit))
    && (best.Some? ==> best.value.amountIn == a && best.value.amountOut == quote.value.amountOut
                       && best.value.profit == quote.value.amountOut - a && quote.value.used <= best.value.used)
  }

  /** The curve input of a route, when the first leg quotes. */
  function CurveInputOf(forwards: bool, pool: PumpPool, a: u64): Option<u64> {
    if forwards then BuyAmountOut(pool, a) else Some(a)
  }

  /** A built curve answers its own input limit, and the walk agrees, unless the limit lies exactly one unit past the
      coverage. */
  lemma LimitIsAnsweredAlike(view: View, a: u64)
    requires TameView(view, a) && Build(view, a).Ok? && a > 0
    requires a != LargestCompleteInput(Build(view, a).value.segments) + 1
    ensures QuoteAt(Build(view, a).value.segments, a).Ok? <==> Walk(view, a).Ok?
    ensures Walk(view, a).Ok? ==> Agrees(Walk(view, a), QuoteAt(Build(view, a).value.segments, a))
    ensures QuoteAt(Build(view, a).value.segments, a).Ok? ==> a <= LargestCompleteInput(Build(view, a).value.segments)
  {
    hide TameBins, NoFreeDust, QuoteAt, Walk, Contiguous, BuildFrom;
    var curve := Build(view, a).value;
    BuiltIsContiguous(view, a);
    QuotedIsCovered(curve.segments, a);
    if a <= LargestCompleteInput(curve.segments) {
      CurveRefinesWalk(view, a, a);
    } else {
      if curve.stop == InputLimitReached {
        LimitIsCovered(Prepare(view).value, a, MAX_VISITED, view.pair.activeId, 0, 0, []);
      }
      NothingBeyondCoverage(view, a, a);
    }
  }

  lemma ReverseProbeAgrees(pool: PumpPool, view: View, a: u64, minProfit: u64)
    requires TameView(view, a) && a > 0 && minProfit > 0 && Build(view, a).Ok?
    requires a != LargestCompleteInput(Build(view, a).value.segments) + 1
    ensures Probe(false, pool, view, a, minProfit).Ok?
    ensures SameOffer(Probe(false, pool, view, a, minProfit).value.best, RouteQuote(false, pool, view, a), a, minProfit)
  {
    hide TameView, QuoteAt, Walk, Build, SellBaseIn;
    LimitIsAnsweredAlike(view, a);
  }

  lemma ForwardProbeAgrees(pool: PumpPool, view: View, a: u64, minProfit: u64)
    requires TameView(view, InputLimit(true, pool, a)) && a > 0 && minProfit > 0
               && Build(view, InputLimit(true, pool, a)).Ok?
    requires var bought := BuyAmountOut(pool, a);
             bought.Some? ==> bought.value != LargestCompleteInput(Build(view, bought.value).value.segments) + 1
    ensures Probe(true, pool, view, a, minProfit).Ok?
    ensures SameOffer(Probe(true, pool, view, a, minProfit).value.best, RouteQuote(true, pool, view, a), a, minProfit)
  {
    hide TameView, QuoteAt, Walk, Build, BuyExactQuoteIn, CoverageSearch, Fits;
    var bought := BuyAmountOut(pool, a);
    if bought.Some? {
      if bought.value == 0 {
        NothingIsQuoted(view, Build(view, 0).value.segments);
      } else {
        LimitIsAnsweredAlike(view, bought.value);
      }
    }
  }

  /** An amount of zero is no quote on the curve and a worthless one in the walk. */
  lemma NothingIsQuoted(view: View, segments: seq<Segment>)
    ensures QuoteAt(segments, 0).Err?
    ensures Walk(view, 0).Ok? ==> Walk(view, 0).value.amountOut == 0
  {
    hide VisitBin;
  }

  /** A direction whose curve builds and is not cut one unit short of the curve input. */
  predicate Regular(forwards: bool, market: Market, a: u64) {
    var view := market.ViewOf(forwards);
    var curve := Build(view, InputLimit(forwards, market.pool, a));
    && TameView(view, InputLimit(forwards, market.pool, a))
    && curve.Ok?
    && var curveInput := CurveInputOf(forwards, market.pool, a);
       curveInput.Some? ==> curveInput.value != LargestCompleteInput(curve.value.segments) + 1
  }

  /** With one amount for both ends of the range, dynamic selection succeeds exactly when the fixed one does,
      in the same direction with the same output, and its arrays start with the fixed ones. */
  lemma FixedDynamicParity(market: Market, a: u64, minProfit: u64, reverseReady: bool)
    requires a > 0 && minProfit > 0 && Regular(true, market, a) && (reverseReady ==> Regular(false, market, a))
    ensures var dynamic, fixed := SelectDynamic(market, a, a, minProfit, reverseReady),
            SelectFixed(market, a, minProfit, reverseReady);
            && (dynamic.Ok? <==> fixed.Ok?)
            && (dynamic.Ok? ==>
                  && dynamic.value.direction == fixed.value.0
                  && dynamic.value.choice.amountIn == a
                  && dynamic.value.choice.amountOut == fixed.value.1.amountOut
                  && fixed.value.1.used <= dynamic.value.choice.used)
  {
    hide Probe, RouteQuote, Build, TameView, BuyAmountOut;
    ForwardProbeAgrees(market.pool, market.ViewOf(true), a, minProfit);
    if reverseReady {
      ReverseProbeAgrees(market.pool, market.ViewOf(false), a, minProfit);
    }
    var forward := Probe(true, market.pool, market.ViewOf(true), a, minProfit).value;
    var reverse := ReverseProbe(market, a, minProfit, reverseReady).value;
    SameDecision(forward, reverse, RouteQuote(true, market.pool, market.ViewOf(true), a),
                 if reverseReady then RouteQuote(false, market.pool, market.ViewOf(false), a) else None, a, minProfit);
  }

  lemma SameDecision(forward: DirectionSearch, reverse: DirectionSearch, f: Option<WalkQuote>, r: Option<WalkQuote>,
                     a: u64, minProfit: u64)
    requires SameOffer(forward.best, f, a, minProfit) && SameOffer(reverse.best, r, a, minProfit)
    ensures var decision := Decide(forward, reverse);
            && (decision.Ok? <==>
                  a + minProfit <= U64_MAX && ChooseDirection(OutputOf(f), OutputOf(r), a + minProfit).Ok?)
            && (decision.Ok? ==>
                  && decision.value.0 == ChooseDirection(OutputOf(f), OutputOf(r), a + minProfit).value
                  && var quote := (if decision.value.0 == PumpToMeteora then f else r);
                     && quote.Some? && decision.value.1.amountIn == a
                        && decision.value.1.amountOut == quote.value.amountOut
                     && quote.value.used <= decision.value.1.used)
  {
  }
}
