/** The gate in front of the full search: what it decides, and a market in which it shuts out a profit. */
module ExpansionGate {
  import opened Arithmetic
  import opened PumpQuote
  import opened PumpBoundary
  import opened BinQuote
  import opened BinCapacity
  import opened LbPair
  import opened BinWalk
  import opened DlmmCurve
  import opened CurveBuild
  import opened CurveRefinement
  import opened RefinementLimits
  import opened Candidates
  import opened Search
  import opened Selection
  import opened SelectionProperties

  // --- what the gate decides ---

  /** The gate does not depend on the minimum profit: it opens exactly when a profit of one unit would be offered. */
  lemma OpensIsOneUnit(forwards: bool, pool: PumpPool, view: View, min: u64, minProfit: u64)
    requires Probe(forwards, pool, view, min, minProfit).Ok?
    ensures Probe(forwards, pool, view, min, 1).Ok?
    ensures Opens(Probe(forwards, pool, view, min, minProfit).value, min)
       <==> Probe(forwards, pool, view, min, 1).value.best.Some?
  {
    hide Build, InputLimit, Largest, EvaluatorOf;
  }

  /** Over tame bins, a direction is expanded exactly when the fixed-amount route of the minimum pays more than the
      minimum. */
  lemma OpensIffRoutePays(forwards: bool, market: Market, min: u64, minProfit: u64)
    requires min > 0 && Regular(forwards, market, min)
    ensures Probe(forwards, market.pool, market.ViewOf(forwards), min, minProfit).Ok?
    ensures Opens(Probe(forwards, market.pool, market.ViewOf(forwards), min, minProfit).value, min)
       <==> (var route := RouteQuote(forwards, market.pool, market.ViewOf(forwards), min);
             route.Some? && route.value.amountOut > min)
  {
    hide Build, TameView, RouteQuote, BuyAmountOut, Probe, Opens;
    var view := market.ViewOf(forwards);
    if forwards {
      ForwardProbeAgrees(market.pool, view, min, 1);
    } else {
      ReverseProbeAgrees(market.pool, view, min, 1);
    }
    ProbeSucceeds(forwards, market.pool, view, min, minProfit);
    OpensIsOneUnit(forwards, market.pool, view, min, minProfit);
  }

  lemma ProbeSucceeds(forwards: bool, pool: PumpPool, view: View, min: u64, minProfit: u64)
    requires Probe(forwards, pool, view, min, 1).Ok?
    ensures Probe(forwards, pool, view, min, minProfit).Ok?
  {
    hide Build, InputLimit, Largest, EvaluatorOf;
  }

  /** Forwards the gate stays shut in every market whose pool pays nothing for the minimum. */
  lemma WorthlessMinimumStaysShut(pool: PumpPool, view: View, min: u64, minProfit: u64)
    requires Probe(true, pool, view, min, minProfit).Ok?
    requires BuyAmountOut(pool, min) == None || BuyAmountOut(pool, min) == Some(0)
    ensures !Opens(Probe(true, pool, view, min, minProfit).value, min)
  {
    hide Build, InputLimit, Largest, BuyExactQuoteIn;
  }

  // --- a profit behind a shut gate ---

  const POOL: PumpPool := PumpPool(1_200_000_000, 1_000_000_000, 0, PumpFees(20, 5, 5))

  /** The pool sells the target token at a fifth below the pair's price, which the pair pays for up to a thousand
      units. */
  function GatedMarket(): Market {
    var view := MarketOf(THOUSAND, NO_BIN, OUTPUT_FEES, 10);
    Market(POOL, view.pair, view.arrays, None, true, 0)
  }

  const SEGMENT: Segment := Segment(0, 1_000, 0, 999, TWO_64, 20_000, true, false, [0])

  lemma GatedCurve(inputLimit: u64)
    requires inputLimit <= 1_000
    ensures Build(GatedMarket().ViewOf(true), inputLimit) == Ok(CurveData([SEGMENT], 1, InputLimitReached))
  {
    hide VisitBin, Capacity, TotalFeeRate, BuildFrom;
    var view := GatedMarket().ViewOf(true);
    assert view == MarketOf(THOUSAND, NO_BIN, OUTPUT_FEES, 10);
    var scan := Scan(view, false, true);
    TwoBins(THOUSAND, NO_BIN, OUTPUT_FEES, 10);
    ThousandUnderOutputFee();
    PassAdds(scan, inputLimit, 16, 1, 0, 0, [], QuoteResult(1_000, 999, 1), 20_000);
  }

  /** Ten lamports buy seven units, and eight hundred buy 953. */
  lemma GatedBuys()
    ensures BuyAmountOut(POOL, 10) == Some(7) && BuyAmountOut(POOL, 800) == Some(953)
  {
    GatedEffectiveQuotes();
    GatedCurveOutputs();
    hide EffectiveQuote, CurveOutput, BuyAmountOut;
    AmountOutIsCurveOutput(POOL, 10);
    AmountOutIsCurveOutput(POOL, 800);
  }

  lemma GatedEffectiveQuotes()
    ensures EffectiveQuote(10, POOL.fees) == 7 && EffectiveQuote(800, POOL.fees) == 796
  {
    assert Estimate(10, POOL.fees) == 9 && Estimate(800, POOL.fees) == 797;
    hide Estimate;
    assert TotalWithFees(9, POOL.fees) == 12 && TotalWithFees(797, POOL.fees) == 801;
  }

  lemma GatedCurveOutputs()
    ensures CurveOutput(6, POOL) == 7 && CurveOutput(795, POOL) == 953
  {
  }

  lemma GatedQuotes()
    ensures QuoteAt([SEGMENT], 7) == Ok(CurveQuote(6, [0])) && QuoteAt([SEGMENT], 953) == Ok(CurveQuote(952, [0]))
  {
    GatedConversions();
    hide ExcludedFee, AmountOutForIn;
  }

  lemma GatedConversions()
    ensures AmountOutForIn(7, TWO_64, true) == Ok(7) && AmountOutForIn(953, TWO_64, true) == Ok(953)
    ensures ExcludedFee(7, 20_000) == Ok((6, 1)) && ExcludedFee(953, 20_000) == Ok((952, 1))
  {
  }

  lemma GatedEvaluations()
    ensures EvaluateForward(POOL, [SEGMENT], 10) == Ok(CurveQuote(6, [0]))
    ensures EvaluateForward(POOL, [SEGMENT], 800) == Ok(CurveQuote(952, [0]))
  {
    hide QuoteAt, BuyExactQuoteIn;
    GatedBuys();
    GatedQuotes();
  }

  /** The minimum of ten has a complete quote without a positive spread, so nothing is selected; eight hundred would
      have earned 152. */
  lemma GateShutsOutProfit()
    ensures var market := GatedMarket();
            var probe := Probe(true, POOL, market.ViewOf(true), 10, 1);
            var full := FullSearch(true, POOL, market.ViewOf(true), 10, 800, 1);
            && probe.Ok? && probe.value.minimumQuoteComplete && probe.value.minimumAmountOut == 6
            && SelectDynamic(market, 10, 800, 1, false) == Err(BestDirectionQuoteIncomplete)
            && full.Ok? && full.value.best.Some? && full.value.best.value.profit >= 152
  {
    hide Build, EvaluateForward, BuyAmountOut, SearchOf;
    var view := GatedMarket().ViewOf(true);
    GatedBuys();
    GatedEvaluations();
    GatedCurve(7);
    GatedCurve(953);
    BuiltIsContiguous(view, 953);
    FullSearchEarns(CurveData([SEGMENT], 1, InputLimitReached));
  }

  lemma FullSearchEarns(curve: CurveData)
    requires curve.segments == [SEGMENT] && AllOrdered(curve.segments)
    ensures SearchOf(true, POOL, curve, 10, 800, 1).best.Some?
              && SearchOf(true, POOL, curve, 10, 800, 1).best.value.profit >= 152
  {
    hide EvaluateForward, SummaryOf, CandidatesOf;
    GatedEvaluations();
    var amounts := CandidatesOf(true, POOL, curve, 10, 800).amounts;
    LargestIsCandidate(true, POOL, curve, 10, 800);
    EvaluationFindsBest(ForwardEvaluator(POOL, curve.segments), amounts, 10, 800, 1);
    var k :| 0 <= k < |amounts| && amounts[k] == 800;
  }

  /** The largest completely quoted amount is always among the candidates. */
  lemma LargestIsCandidate(forwards: bool, pool: PumpPool, curve: CurveData, min: u64, max: u64)
    requires AllOrdered(curve.segments) && Largest(forwards, pool, curve.segments, max) > 0
    ensures Largest(forwards, pool, curve.segments, max) in CandidatesOf(forwards, pool, curve, min, max).amounts
  {
    hide Largest, Gather;
    var largest := Largest(forwards, pool, curve.segments, max);
    GatherKeeps(Ends(min, largest), forwards, pool, curve.segments, min, largest, largest);
  }
}
