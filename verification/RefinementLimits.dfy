/** Markets on which curve and walk disagree: one for each condition of the refinement. */
module RefinementLimits {
  import opened Arithmetic
  import opened Powers
  import opened Bytes
  import opened BinQuote
  import opened BinList
  import opened BinCapacity
  import opened Addressing
  import opened LbPair
  import opened BinWalk
  import opened DlmmCurve
  import opened CurveBuild
  import opened CurveShape
  import opened CurveRefinement

  const ONE_ARRAY: DefaultBitmap := seq(16, i => if i == 8 then 1 else 0)

  /** A pair whose only array is the one of index 0, with a walk from bin 1 down to bin 0; the volatility reference is
      at bin 0. */
  function MarketOf(upper: Bin, lower: Bin, fixed: StaticParameters, binStep: u16): View {
    var bins := seq(70, i => if i == 1 then upper else if i == 0 then lower else NO_BIN);
    View(Pair(fixed, VariableParameters(0, 0, 0, 0), 1, binStep, ONE_ARRAY, true), [BinArrayData(0, bins)], None, true,
         0)
  }

  /** The walk's two bins, whose fees depend on their distance from bin 0. */
  lemma TwoBins(upper: Bin, lower: Bin, fixed: StaticParameters, binStep: u16)
    requires fixed.functionType == 2 && fixed.collectFeeMode <= 1 && fixed.filterPeriod > 0
    ensures var view := MarketOf(upper, lower, fixed, binStep);
            var scan := Scan(view, fixed.collectFeeMode == 0, true);
            && Prepare(view) == Ok(scan)
            && VisitBin(scan, 1, []) == Found([0], upper,
                                              FeeParametersOf(view.pair, Min(10_000, fixed.maxVolatilityAccumulator)))
            && VisitBin(scan, 0, [0]) == Found([0], lower, FeeParametersOf(view.pair, 0))
  {
    var view := MarketOf(upper, lower, fixed, binStep);
    assert Initialized(view, 0) == Ok(true) by {
      assert ONE_ARRAY[8] == 1 && Pow2(0) == 1;
    }
    assert FindArray(view.arrays, 0) == Some(view.arrays[0]);
  }

  /** The pass adds one bin's capacity. */
  lemma PassAdds(scan: Scan, inputLimit: u64, visits: nat, binId: i32, totalIn: u64, totalOut: u64, used: seq<i64>,
                 capacity: QuoteResult, rate: u64)
    requires visits > 0 && VisitBin(scan, binId, used).Found?
    requires var visit := VisitBin(scan, binId, used);
             TotalFeeRate(visit.fees) == Ok(rate) && Capacity(visit.bin, scan.view.swapForY, scan.feeOnInput,
                                                              visit.fees) == Ok(capacity)
    requires totalIn + capacity.amountIn <= U64_MAX && totalOut + capacity.amountOut <= U64_MAX
    ensures var visit := VisitBin(scan, binId, used);
            var segment := Segment(totalIn, totalIn + capacity.amountIn, totalOut, totalOut + capacity.amountOut,
                                   visit.bin.priceQ64, rate,
                                   scan.view.swapForY, scan.feeOnInput, visit.used);
            BuildFrom(scan, inputLimit, visits, binId, totalIn, totalOut, used)
            == if segment.inputEnd >= inputLimit then Ok(CurveData([segment], 1, InputLimitReached))
               else WithSegment(segment, BuildFrom(scan, inputLimit, visits - 1, NextBin(binId, scan.view.swapForY),
                                                   segment.inputEnd, segment.outputEnd, visit.used))
  {
    hide VisitBin, Capacity, TotalFeeRate;
  }

  // --- a bin of one unit under an output fee ---

  const OUTPUT_FEES: StaticParameters := StaticParameters(200, 1, 0, 0, 0, 0, 0, 2, 1)
  const ONE_UNIT: Bin := Bin(TWO_64, 0, 1, 0, 0, false)
  const THOUSAND: Bin := Bin(TWO_64, 0, 1_000, 0, 0, false)

  /** The curve quotes more than the walk when a bin holds exactly one output unit under an output fee. */
  lemma OneUnitBinBreaksRefinement()
    ensures var view := MarketOf(ONE_UNIT, THOUSAND, OUTPUT_FEES, 10);
            && Build(view, 5).Ok? && 5 <= LargestCompleteInput(Build(view, 5).value.segments)
            && QuoteAt(Build(view, 5).value.segments, 5) == Ok(CurveQuote(4, [0]))
            && Walk(view, 5) == Ok(WalkQuote(3, [0]))
  {
    hide VisitBin, Capacity, TotalFeeRate, PartialQuote, OutputWithinCapacity, BuildFrom, WalkFrom;
    var view := MarketOf(ONE_UNIT, THOUSAND, OUTPUT_FEES, 10);
    var scan := Scan(view, false, true);
    TwoBins(ONE_UNIT, THOUSAND, OUTPUT_FEES, 10);
    OneUnitBinIsLost();
    ThousandUnderOutputFee();
    WalkTakes(scan, 16, 1, 5, 0, [], QuoteResult(1, 0, 1));
    WalkTakes(scan, 15, 0, 4, 0, [0], QuoteResult(4, 3, 1));
    WalkEnds(scan, 14, NextBin(0, true), 3, [0]);
    PassSkips(scan, 5, 16, 1, 0, 0, []);
    PassAdds(scan, 5, 15, 0, 0, 0, [0], QuoteResult(1_000, 999, 1), 20_000);
  }

  lemma PassSkips(scan: Scan, inputLimit: u64, visits: nat, binId: i32, totalIn: u64, totalOut: u64, used: seq<i64>)
    requires visits > 0 && VisitBin(scan, binId, used).Found?
    requires var visit := VisitBin(scan, binId, used);
             TotalFeeRate(visit.fees).Ok? && Capacity(visit.bin, scan.view.swapForY, scan.feeOnInput, visit.fees)
                 == Err(InsufficientLiquidity)
    ensures BuildFrom(scan, inputLimit, visits, binId, totalIn, totalOut, used)
         == OneMoreVisit(BuildFrom(scan, inputLimit, visits - 1, NextBin(binId, scan.view.swapForY), totalIn, totalOut,
                                   VisitBin(scan, binId, used).used))
  {
    hide VisitBin, Capacity, TotalFeeRate;
  }

  lemma ThousandUnderOutputFee()
    ensures var fees := FeeParameters(10, 200, 0, 0, 0);
            && TotalFeeRate(fees) == Ok(20_000)
            && PartialQuote(4, THOUSAND, true, false, fees) == Ok(QuoteResult(4, 3, 1))
            && Capacity(THOUSAND, true, false, fees) == Ok(QuoteResult(1_000, 999, 1))
            && OutputWithinCapacity(5, 1_000, 999, TWO_64, true, false, 20_000) == Ok(4)
  {
    var fees := FeeParameters(10, 200, 0, 0, 0);
    ThousandRate();
    ThousandConversions();
    hide TotalFeeRate, ExcludedFee, AmountInForOut, AmountOutForIn, SideLiquidity, FillBin, PartialQuote;
    ThousandFills();
    PartialQuoteIsFill(4, THOUSAND, true, false, fees);
    PartialQuoteIsFill(U64_MAX, THOUSAND, true, false, fees);
  }

  lemma ThousandRate()
    ensures TotalFeeRate(FeeParameters(10, 200, 0, 0, 0)) == Ok(20_000)
  {
    assert Pow10(0) == 1;
  }

  lemma ThousandConversions()
    ensures AmountInForOut(1_000, TWO_64, true) == Ok(1_000)
    ensures AmountOutForIn(4, TWO_64, true) == Ok(4) && AmountOutForIn(5, TWO_64, true) == Ok(5)
    ensures ExcludedFee(4, 20_000) == Ok((3, 1)) && ExcludedFee(5, 20_000) == Ok((4, 1))
              && ExcludedFee(1_000, 20_000) == Ok((999, 1))
    ensures SideLiquidity(THOUSAND, true) == Ok(1_000)
  {
  }

  lemma ThousandFills()
    requires AmountInForOut(1_000, TWO_64, true) == Ok(1_000) && AmountOutForIn(4, TWO_64, true) == Ok(4)
    requires ExcludedFee(4, 20_000) == Ok((3, 1)) && ExcludedFee(1_000, 20_000) == Ok((999, 1))
               && SideLiquidity(THOUSAND, true) == Ok(1_000)
    ensures FillBin(4, THOUSAND, true, false, 20_000) == Ok(Fill(4, 3, 1))
    ensures FillBin(U64_MAX, THOUSAND, true, false, 20_000) == Ok(Fill(1_000, 999, 1))
  {
    hide ExcludedFee, AmountInForOut, AmountOutForIn, SideLiquidity;
  }

  // --- a base fee of zero ---

  const VARIABLE_FEES: StaticParameters := StaticParameters(0, 1, 0, 0, 1_000, 10_000, 0, 2, 0)
  const CHARGED: Bin := Bin(TWO_64, 0, 99_999, 0, 0, false)

  /** Without a base fee, the curve sells the dust unit that the walk has lost in the bin before. */
  lemma ZeroBaseFeeBreaksRefinement()
    ensures var view := MarketOf(CHARGED, THOUSAND, VARIABLE_FEES, 100);
            && Build(view, 100_001).Ok? && 100_001 <= LargestCompleteInput(Build(view, 100_001).value.segments)
            && QuoteAt(Build(view, 100_001).value.segments, 100_001) == Ok(CurveQuote(100_000, [0]))
            && Walk(view, 100_001) == Ok(WalkQuote(99_999, [0]))
  {
    hide VisitBin, Capacity, TotalFeeRate, PartialQuote, OutputWithinCapacity, BuildFrom, WalkFrom;
    var view := MarketOf(CHARGED, THOUSAND, VARIABLE_FEES, 100);
    var scan := Scan(view, true, true);
    TwoBins(CHARGED, THOUSAND, VARIABLE_FEES, 100);
    ChargedBin();
    FreeThousand();
    WalkTakes(scan, 16, 1, 100_001, 0, [], QuoteResult(100_001, 99_999, 2));
    WalkEnds(scan, 15, NextBin(1, true), 99_999, [0]);
    PassAdds(scan, 100_001, 16, 1, 0, 0, [], QuoteResult(100_000, 99_999, 1), 10_000);
    PassAdds(scan, 100_001, 15, 0, 100_000, 99_999, [0], QuoteResult(1_000, 1_000, 0), 0);
  }

  lemma ChargedBin()
    ensures var fees := FeeParameters(100, 0, 0, 1_000, 10_000);
            && TotalFeeRate(fees) == Ok(10_000)
            && PartialQuote(100_001, CHARGED, true, true, fees) == Ok(QuoteResult(100_001, 99_999, 2))
            && Capacity(CHARGED, true, true, fees) == Ok(QuoteResult(100_000, 99_999, 1))
  {
    var fees := FeeParameters(100, 0, 0, 1_000, 10_000);
    ChargedRate();
    ChargedConversions();
    hide TotalFeeRate, ExcludedFee, IncludedFee, AmountInForOut, AmountOutForIn, SideLiquidity, FillBin, PartialQuote;
    ChargedFills();
    PartialQuoteIsFill(100_001, CHARGED, true, true, fees);
    PartialQuoteIsFill(U64_MAX, CHARGED, true, true, fees);
  }

  lemma ChargedRate()
    ensures TotalFeeRate(FeeParameters(100, 0, 0, 1_000, 10_000)) == Ok(10_000)
  {
    assert Pow10(0) == 1;
  }

  lemma ChargedConversions()
    ensures AmountInForOut(99_999, TWO_64, true) == Ok(99_999) && IncludedFee(99_999, 10_000) == Ok((100_000, 1))
    ensures ExcludedFee(100_001, 10_000) == Ok((99_999, 2)) && SideLiquidity(CHARGED, true) == Ok(99_999)
    ensures ExcludedFee(U64_MAX, 10_000).Ok? && ExcludedFee(U64_MAX, 10_000).value.0 > 99_999
  {
  }

  lemma ChargedFills()
    requires AmountInForOut(99_999, TWO_64, true) == Ok(99_999) && IncludedFee(99_999, 10_000) == Ok((100_000, 1))
    requires ExcludedFee(100_001, 10_000) == Ok((99_999, 2)) && SideLiquidity(CHARGED, true) == Ok(99_999)
    requires ExcludedFee(U64_MAX, 10_000).Ok? && ExcludedFee(U64_MAX, 10_000).value.0 > 99_999
    ensures FillBin(100_001, CHARGED, true, true, 10_000) == Ok(Fill(100_001, 99_999, 2))
    ensures FillBin(U64_MAX, CHARGED, true, true, 10_000) == Ok(Fill(100_000, 99_999, 1))
  {
    hide ExcludedFee, IncludedFee, AmountInForOut, AmountOutForIn, SideLiquidity;
  }

  lemma FreeThousand()
    ensures var fees := FeeParameters(100, 0, 0, 1_000, 0);
            && TotalFeeRate(fees) == Ok(0)
            && Capacity(THOUSAND, true, true, fees) == Ok(QuoteResult(1_000, 1_000, 0))
            && OutputWithinCapacity(1, 1_000, 1_000, TWO_64, true, true, 0) == Ok(1)
  {
    var fees := FeeParameters(100, 0, 0, 1_000, 0);
    FreeRate();
    FreeConversions();
    hide TotalFeeRate, ExcludedFee, IncludedFee, AmountInForOut, AmountOutForIn, SideLiquidity, FillBin, PartialQuote;
    FreeFill();
    PartialQuoteIsFill(U64_MAX, THOUSAND, true, true, fees);
  }

  lemma FreeRate()
    ensures TotalFeeRate(FeeParameters(100, 0, 0, 1_000, 0)) == Ok(0)
  {
    assert Pow10(0) == 1;
  }

  lemma FreeConversions()
    ensures AmountInForOut(1_000, TWO_64, true) == Ok(1_000) && AmountOutForIn(1, TWO_64, true) == Ok(1)
    ensures ExcludedFee(1, 0) == Ok((1, 0)) && ExcludedFee(U64_MAX, 0) == Ok((U64_MAX, 0))
    ensures IncludedFee(1_000, 0) == Ok((1_000, 0)) && SideLiquidity(THOUSAND, true) == Ok(1_000)
  {
  }

  lemma FreeFill()
    requires AmountInForOut(1_000, TWO_64, true) == Ok(1_000) && IncludedFee(1_000, 0) == Ok((1_000, 0))
    requires ExcludedFee(U64_MAX, 0) == Ok((U64_MAX, 0)) && SideLiquidity(THOUSAND, true) == Ok(1_000)
    ensures FillBin(U64_MAX, THOUSAND, true, true, 0) == Ok(Fill(1_000, 1_000, 0))
  {
    hide ExcludedFee, IncludedFee, AmountInForOut, AmountOutForIn, SideLiquidity;
  }

  // --- a capacity of the largest input ---

  const WIDE_FIXED: StaticParameters := StaticParameters(26_785, 1, 0, 0, 0, 0, 0, 2, 0)

  /** The curve quotes more than the walk, and more than for the next unit, when a bin takes the largest input. */
  lemma FullCapacityBreaksRefinement()
    ensures var view := MarketOf(WIDE_BIN, NO_BIN, WIDE_FIXED, 5);
            && Build(view, U64_MAX).Ok? && LargestCompleteInput(Build(view, U64_MAX).value.segments) == U64_MAX
            && QuoteAt(Build(view, U64_MAX).value.segments, U64_MAX - 1) == Ok(CurveQuote(18432724054486427221, [0]))
            && QuoteAt(Build(view, U64_MAX).value.segments, U64_MAX) == Ok(CurveQuote(18432724054486427220, [0]))
            && Walk(view, U64_MAX - 1) == Ok(WalkQuote(18432724054486427220, [0]))
  {
    hide VisitBin, Capacity, TotalFeeRate, PartialQuote, OutputWithinCapacity, BuildFrom, WalkFrom;
    var view := MarketOf(WIDE_BIN, NO_BIN, WIDE_FIXED, 5);
    var scan := Scan(view, true, true);
    TwoBins(WIDE_BIN, NO_BIN, WIDE_FIXED, 5);
    CompactionFailsAtTheLargestInput();
    WideBinQuote();
    QuotedAtCapacity(U64_MAX, 18432724054486427220, WIDE_BIN.priceQ64, true, true, 1339250);
    var quote := PartialQuote(U64_MAX - 1, WIDE_BIN, true, true, WIDE_FEES).value;
    WalkTakes(scan, 16, 1, U64_MAX - 1, 0, [], quote);
    WalkEnds(scan, 15, NextBin(1, true), quote.amountOut, [0]);
    PassAdds(scan, U64_MAX, 16, 1, 0, 0, [], Capacity(WIDE_BIN, true, true, WIDE_FEES).value, 1339250);
  }

  lemma QuotedAtCapacity(capacityIn: u64, capacityOut: u64, price: u128, swapForY: bool, feeOnInput: bool, rate: u128)
    requires 0 < capacityIn && 0 < capacityOut
    ensures OutputWithinCapacity(capacityIn, capacityIn, capacityOut, price, swapForY, feeOnInput, rate)
              == Ok(capacityOut)
  {
  }

  lemma WideBinQuote()
    ensures TotalFeeRate(WIDE_FEES) == Ok(1339250)
    ensures PartialQuote(U64_MAX - 1, WIDE_BIN, true, true, WIDE_FEES).Ok?
    ensures PartialQuote(U64_MAX - 1, WIDE_BIN, true, true, WIDE_FEES).value.amountIn == U64_MAX - 1
  {
    hide TotalFeeRate, FillBin, PartialQuote;
    WideBinFacts();
    WideBinFills();
    PartialQuoteIsFill(U64_MAX - 1, WIDE_BIN, true, true, WIDE_FEES);
  }
}
