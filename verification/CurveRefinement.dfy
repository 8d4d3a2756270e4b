/** The curve answers what the account walk would: the refinement, its limits, and the monotone lookup. */
module CurveRefinement {
  import opened Arithmetic
  import opened BinQuote
  import opened BinList
  import opened BinCapacity
  import opened BinWalk
  import opened DlmmCurve
  import opened CurveBuild
  import opened CurveShape

  // --- quoting one segment ---

  /** A measured segment quotes every amount inside it as its side does. */
  lemma SegmentQuoteIs(segment: Segment, side: Side, bin: Bin, a: u64)
    requires Exact(segment, side) && HasSide(bin, side) && side.CapacityIn() < U64_MAX
    requires segment.inputStart < a <= segment.inputEnd
    ensures var fill := FillBin(a - segment.inputStart, bin, side.swapForY, side.feeOnInput, side.rate);
            && fill.Ok? && fill.value.used == a - segment.inputStart
            && segment.outputStart + fill.value.output <= segment.outputEnd
            && SegmentQuote(segment, a) == Ok(CurveQuote(segment.outputStart + fill.value.output, segment.used))
  {
    hide FillBin, Net, Gross, OutFor, InFor, OutputWithinCapacity, HasSide;
    var x := a - segment.inputStart;
    CompactionIsExact(bin, side, x);
    if x < side.CapacityIn() {
      InsideOutputMono(side, x, x);
    }
  }

  /** One unit into a measured segment with a positive input fee buys nothing. */
  lemma DustBuysNothing(segment: Segment)
    requires Measured(segment) && segment.feeOnInput && segment.feeRate > 0
    requires segment.inputStart < segment.inputEnd && segment.outputStart < segment.outputEnd
    ensures segment.inputStart + 2 <= segment.inputEnd
    ensures SegmentQuote(segment, segment.inputStart + 1) == Ok(CurveQuote(segment.outputStart, segment.used))
  {
    hide Net, Gross, InFor, OutFor, ExcludedFee, AmountOutForIn;
    var side :| Exact(segment, side);
    WholeSideIsBought(side);
    NetOfOne(side.rate);
    ExcludedFeeIsNet(1, side.rate);
    OutForZero(side.price, side.swapForY);
    AmountOutIsOutFor(0, side.price, side.swapForY);
  }

  // --- the lookup ---

  lemma LookupSkipsEarlier(segment: Segment, rest: seq<Segment>, a: u64)
    requires segment.inputEnd < a
    ensures QuoteAt([segment] + rest, a) == QuoteAt(rest, a)
    ensures FirstCovering([segment] + rest, a) == FirstCovering(rest, a) + 1
  {
    assert ([segment] + rest)[1..] == rest;
  }

  lemma LookupFindsFirst(segment: Segment, rest: seq<Segment>, a: u64)
    requires 0 < a <= segment.inputEnd
    ensures QuoteAt([segment] + rest, a) == SegmentQuote(segment, a)
  {
    hide SegmentQuote;
  }

  // --- refinement ---

  /** The walk's result is the curve's, with the walk's arrays a prefix of the curve's. */
  predicate Agrees(walk: Result<WalkQuote, ArbError>, quote: Result<CurveQuote, QuoteError>) {
    walk.Ok? && quote.Ok? && walk.value.amountOut == quote.value.amountOut && walk.value.used <= quote.value.used
  }

  /** One step of the walk over a bin, when the fill is known. */
  lemma WalkStep(scan: Scan, visits: nat, binId: i32, remaining: u64, amountOut: u64, used: seq<i64>, fill: Fill)
    requires visits > 0 && remaining > 0
    requires VisitBin(scan, binId, used).Found? && TotalFeeRate(scan.FeesAt(binId)).Ok?
    requires FillBin(remaining, VisitBin(scan, binId, used).bin, scan.view.swapForY, scan.feeOnInput,
                     TotalFeeRate(scan.FeesAt(binId)).value) == Ok(fill)
    requires fill.used <= remaining && amountOut + fill.output <= U64_MAX
    ensures WalkFrom(scan, visits, binId, remaining, amountOut, used)
         == WalkFrom(scan, visits - 1, NextBin(binId, scan.view.swapForY), remaining - fill.used,
                     amountOut + fill.output,
                     VisitBin(scan, binId, used).used)
  {
    hide VisitBin, FillBin, TotalFeeRate, PartialQuote, NextBin;
    VisitIgnoresUsed(scan, binId, used);
    PartialQuoteIsFill(remaining, VisitBin(scan, binId, used).bin, scan.view.swapForY, scan.feeOnInput,
                       scan.FeesAt(binId));
  }

  /** The walk takes one bin's partial quote. */
  lemma WalkTakes(scan: Scan, visits: nat, binId: i32, remaining: u64, amountOut: u64, used: seq<i64>,
                  quote: QuoteResult)
    requires visits > 0 && remaining > 0 && VisitBin(scan, binId, used).Found?
    requires PartialQuote(remaining, VisitBin(scan, binId, used).bin, scan.view.swapForY, scan.feeOnInput,
                          VisitBin(scan, binId, used).fees) == Ok(quote)
    requires quote.amountIn <= remaining && amountOut + quote.amountOut <= U64_MAX
    ensures WalkFrom(scan, visits, binId, remaining, amountOut, used)
         == WalkFrom(scan, visits - 1, NextBin(binId, scan.view.swapForY), remaining - quote.amountIn,
                     amountOut + quote.amountOut,
                     VisitBin(scan, binId, used).used)
  {
    hide VisitBin, PartialQuote;
  }

  /** A bin that the pass leaves out consumes nothing in the walk. */
  lemma SkippedBinFillsNothing(scan: Scan, binId: i32, used: seq<i64>, remaining: u64)
    requires TameBin(scan, binId) && VisitBin(scan, binId, used).Found?
    requires Capacity(VisitBin(scan, binId, used).bin, scan.view.swapForY, scan.feeOnInput,
                      VisitBin(scan, binId, used).fees)
          == Err(InsufficientLiquidity)
    ensures TotalFeeRate(scan.FeesAt(binId)).Ok?
    ensures FillBin(remaining, VisitBin(scan, binId, used).bin, scan.view.swapForY, scan.feeOnInput,
                    TotalFeeRate(scan.FeesAt(binId)).value) == Ok(Fill(0, 0, 0))
  {
    hide VisitBin, FillBin, TotalFeeRate, PartialQuote, SideLiquidity, Drains, FoldFills;
    VisitIgnoresUsed(scan, binId, used);
    var visit := VisitBin(scan, binId, used);
    MissingLiquidityIsQuoted(visit.bin, scan.view.swapForY, scan.feeOnInput, visit.fees);
    SkipsLiquidityIff(visit.bin, scan.view.swapForY, scan.feeOnInput, visit.fees);
    EmptySideFillsNothing(remaining, visit.bin, scan.view.swapForY, scan.feeOnInput, TotalFeeRate(visit.fees).value);
  }

  /** The walk passes such a bin with its input and output unchanged. */
  lemma WalkPasses(scan: Scan, visits: nat, binId: i32, remaining: u64, amountOut: u64, used: seq<i64>)
    requires visits > 0 && remaining > 0 && TameBin(scan, binId) && VisitBin(scan, binId, used).Found?
    requires Capacity(VisitBin(scan, binId, used).bin, scan.view.swapForY, scan.feeOnInput,
                      VisitBin(scan, binId, used).fees)
          == Err(InsufficientLiquidity)
    ensures WalkFrom(scan, visits, binId, remaining, amountOut, used)
         == WalkFrom(scan, visits - 1, NextBin(binId, scan.view.swapForY), remaining, amountOut,
                     VisitBin(scan, binId, used).used)
  {
    hide VisitBin, Capacity, NextBin, TameBin, FillBin, TotalFeeRate, WalkFrom;
    VisitIgnoresUsed(scan, binId, used);
    SkippedBinFillsNothing(scan, binId, used, remaining);
    WalkStep(scan, visits, binId, remaining, amountOut, used, Fill(0, 0, 0));
  }

  /** A missing liquidity report comes from a quote that succeeded. */
  lemma MissingLiquidityIsQuoted(bin: Bin, swapForY: bool, feeOnInput: bool, fees: FeeParameters)
    requires Capacity(bin, swapForY, feeOnInput, fees) == Err(InsufficientLiquidity)
    ensures PartialQuote(U64_MAX, bin, swapForY, feeOnInput, fees).Ok?
  {
    hide FillBin, TotalFeeRate;
    if PartialQuote(U64_MAX, bin, swapForY, feeOnInput, fees).Err? {
      RateErrors(fees);
      if TotalFeeRate(fees).Ok? {
        PartialQuoteIsFill(U64_MAX, bin, swapForY, feeOnInput, fees);
        FillErrors(U64_MAX, bin, swapForY, feeOnInput, TotalFeeRate(fees).value);
      }
      assert false;
    }
  }

  lemma RateErrors(fees: FeeParameters)
    ensures TotalFeeRate(fees) != Err(InsufficientLiquidity)
  {
  }

  lemma EmptySideFillsNothing(remaining: u64, bin: Bin, swapForY: bool, feeOnInput: bool, rate: FeeRate)
    requires SideLiquidity(bin, swapForY) == Ok(0)
    ensures FillBin(remaining, bin, swapForY, feeOnInput, rate) == Ok(Fill(0, 0, 0))
  {
    hide SideLiquidity, ExcludedFee, IncludedFee;
    ExcludedFeeIsNet(remaining, rate);
  }

  /** One step of the walk over a bin that the pass turned into a segment. */
  lemma WalkOverSegment(scan: Scan, visits: nat, binId: i32, totalIn: u64, totalOut: u64, used: seq<i64>,
                        a: u64) returns (fill: Fill)
    requires visits > 0 && totalIn < a
    requires VisitBin(scan, binId, used).Found? && AddedSegment(scan, binId, used, totalIn, totalOut).Ok?
    requires AddedSegment(scan, binId, used, totalIn, totalOut).value.inputEnd - totalIn < U64_MAX
    ensures var segment := AddedSegment(scan, binId, used, totalIn, totalOut).value;
            && fill.used <= a - totalIn && totalIn < segment.inputEnd && totalOut + fill.output <= segment.outputEnd
            && WalkFrom(scan, visits, binId, a - totalIn, totalOut, used)
               == WalkFrom(scan, visits - 1, NextBin(binId, scan.view.swapForY), a - totalIn - fill.used,
                           totalOut + fill.output,
                           VisitBin(scan, binId, used).used)
            && (a <= segment.inputEnd ==>
                  fill.used == a - totalIn && SegmentQuote(segment, a)
                      == Ok(CurveQuote(totalOut + fill.output, segment.used)))
            && (a > segment.inputEnd ==>
                  && totalOut + fill.output == segment.outputEnd
                  && (fill.used == segment.inputEnd - totalIn
                      || (a == segment.inputEnd + 1 && scan.feeOnInput && segment.feeRate > 0
                          && fill.used == a - totalIn)))
  {
    hide VisitBin, Capacity, TotalFeeRate, NextBin, FillBin, WalkFrom, HasSide, Net, Gross, SegmentQuote;
    var side := SegmentIsMeasured(scan, binId, used, totalIn, totalOut);
    var segment := AddedSegment(scan, binId, used, totalIn, totalOut).value;
    var bin := VisitBin(scan, binId, used).bin;
    SideIsPositive(bin, side);
    if a <= segment.inputEnd {
      SegmentQuoteIs(segment, side, bin, a);
    } else {
      FillBeyondCapacity(bin, side, a - totalIn);
    }
    fill := FillBin(a - totalIn, bin, side.swapForY, side.feeOnInput, side.rate).value;
    WalkStep(scan, visits, binId, a - totalIn, totalOut, used, fill);
  }

  lemma SideIsPositive(bin: Bin, side: Side)
    requires HasSide(bin, side)
    ensures side.CapacityIn() > 0
  {
    WholeSideIsBought(side);
  }

  lemma WalkSkips(scan: Scan, visits: nat, binId: i32, remaining: u64, amountOut: u64, used: seq<i64>)
    requires visits > 0 && VisitBin(scan, binId, used).Skipped?
    ensures WalkFrom(scan, visits, binId, remaining, amountOut, used)
         == WalkFrom(scan, visits - 1, NextBin(binId, scan.view.swapForY), remaining, amountOut, used)
  {
    hide VisitBin, NextBin;
  }

  lemma WalkEnds(scan: Scan, visits: nat, binId: i32, amountOut: u64, used: seq<i64>)
    ensures WalkFrom(scan, visits, binId, 0, amountOut, used) == Ok(WalkQuote(amountOut, used))
  {
  }

  /** The rest of the curve quotes one unit past the totals at nothing, and knows the arrays used so far. */
  lemma DustAfterTotals(scan: Scan, inputLimit: u64, visits: nat, binId: i32, totalIn: u64, totalOut: u64,
                        used: seq<i64>)
    requires scan.feeOnInput && totalIn > 0
    requires BuildFrom(scan, inputLimit, visits, binId, totalIn, totalOut, used).Ok?
    requires var segments := BuildFrom(scan, inputLimit, visits, binId, totalIn, totalOut, used).value.segments;
             totalIn < LargestCompleteInput(segments) && segments[0].feeRate > 0
    ensures Agrees(Ok(WalkQuote(totalOut, used)),
                   QuoteAt(BuildFrom(scan, inputLimit, visits, binId, totalIn, totalOut, used).value.segments,
                           totalIn + 1))
  {
    hide BuildFrom, SegmentQuote, Measured;
    var segments := BuildFrom(scan, inputLimit, visits, binId, totalIn, totalOut, used).value.segments;
    BuildIsContiguous(scan, inputLimit, visits, binId, totalIn, totalOut, used);
    BuildIsRecorded(scan, inputLimit, visits, binId, totalIn, totalOut, used);
    BuildKeepsFees(scan, inputLimit, visits, binId, totalIn, totalOut, used);
    DustBuysNothing(segments[0]);
    assert segments == [segments[0]] + segments[1..];
    LookupFindsFirst(segments[0], segments[1..], totalIn + 1);
  }

  /** The refinement at a bin that takes every input. */
  lemma FullSegmentAgrees(scan: Scan, visits: nat, binId: i32, totalOut: u64, used: seq<i64>, a: u64, segment: Segment,
                          rest: seq<Segment>)
    requires visits > 0 && TameBin(scan, binId) && 0 < a
    requires VisitBin(scan, binId, used).Found? && AddedSegment(scan, binId, used, 0, totalOut) == Ok(segment)
    requires segment.inputEnd == U64_MAX
    ensures Agrees(WalkFrom(scan, visits, binId, a, totalOut, used), QuoteAt([segment] + rest, a))
  {
    hide VisitBin, NextBin, Capacity, TotalFeeRate, PartialQuote, QuoteAt, OutputWithinCapacity, WalkFrom, SideOf,
         HasSide, RoundsPastTheSide;
    VisitIgnoresUsed(scan, binId, used);
    var visit := VisitBin(scan, binId, used);
    var side := FullSide(visit.bin, scan.view.swapForY, scan.feeOnInput, visit.fees);
    HasSideFacts(visit.bin, side);
    TameFullBin(visit.bin, scan.view.swapForY, scan.feeOnInput, visit.fees, side);
    FullBinIsExact(visit.bin, side, visit.fees, a);
    var quote := PartialQuote(a, visit.bin, scan.view.swapForY, scan.feeOnInput, visit.fees).value;
    WalkTakes(scan, visits, binId, a, totalOut, used, quote);
    WalkEnds(scan, visits - 1, NextBin(binId, scan.view.swapForY), totalOut + quote.amountOut, visit.used);
    LookupFindsFirst(segment, rest, a);
  }

  lemma TameFullBin(bin: Bin, swapForY: bool, feeOnInput: bool, fees: FeeParameters, side: Side)
    requires Capacity(bin, swapForY, feeOnInput, fees).Ok?
    requires Capacity(bin, swapForY, feeOnInput, fees).value.amountIn == U64_MAX
    requires Drains(bin, swapForY, feeOnInput, fees) || ExactWhenFull(bin, swapForY, feeOnInput, fees)
    requires TotalFeeRate(fees) == Ok(side.rate) && SideOf(bin, swapForY, feeOnInput, side.rate) == Some(side)
    requires side.Valid()
    ensures !RoundsPastTheSide(side, U64_MAX, U64_MAX - 1)
  {
    hide SideOf, PartialQuote, TotalFeeRate, RoundsPastTheSide;
  }

  /** The refinement at a bin with a segment, given the refinement of the rest of the curve at the same amount. */
  lemma RefinesOverSegment(scan: Scan, inputLimit: u64, visits: nat, binId: i32, totalIn: u64, totalOut: u64,
                           used: seq<i64>, a: u64,
                           segment: Segment, rest: CurveData)
    requires visits > 0 && TameBin(scan, binId) && NoFreeDust([segment] + rest.segments)
    requires VisitBin(scan, binId, used).Found? && AddedSegment(scan, binId, used, totalIn, totalOut) == Ok(segment)
    requires segment.used == VisitBin(scan, binId, used).used
    requires totalIn < a <= LargestCompleteInput([segment] + rest.segments)
    requires a > segment.inputEnd ==>
               && BuildFrom(scan, inputLimit, visits - 1, NextBin(binId, scan.view.swapForY), segment.inputEnd,
                            segment.outputEnd, segment.used) == Ok(rest)
               && Agrees(WalkFrom(scan, visits - 1, NextBin(binId, scan.view.swapForY), a - segment.inputEnd,
                                  segment.outputEnd, segment.used),
                         QuoteAt(rest.segments, a))
    ensures Agrees(WalkFrom(scan, visits, binId, a - totalIn, totalOut, used), QuoteAt([segment] + rest.segments, a))
  {
    hide VisitBin, NextBin, TameBin, QuoteAt, WalkFrom, BuildFrom, AddedSegment, SegmentQuote;
    if segment.inputEnd - totalIn == U64_MAX {
      FullSegmentAgrees(scan, visits, binId, totalOut, used, a, segment, rest.segments);
      return;
    }
    var next := NextBin(binId, scan.view.swapForY);
    var fill := WalkOverSegment(scan, visits, binId, totalIn, totalOut, used, a);
    if a <= segment.inputEnd {
      WalkEnds(scan, visits - 1, next, totalOut + fill.output, segment.used);
      LookupFindsFirst(segment, rest.segments, a);
    } else {
      LookupSkipsEarlier(segment, rest.segments, a);
      if fill.used != segment.inputEnd - totalIn {
        WalkEnds(scan, visits - 1, next, segment.outputEnd, segment.used);
        RestKeepsFees(scan, inputLimit, visits - 1, next, segment, rest);
        DustAfterTotals(scan, inputLimit, visits - 1, next, segment.inputEnd, segment.outputEnd, segment.used);
      }
    }
  }

  lemma RestKeepsFees(scan: Scan, inputLimit: u64, visits: nat, binId: i32, segment: Segment, rest: CurveData)
    requires NoFreeDust([segment] + rest.segments) && scan.feeOnInput && segment.feeRate > 0
    requires BuildFrom(scan, inputLimit, visits, binId, segment.inputEnd, segment.outputEnd, segment.used) == Ok(rest)
    ensures |rest.segments| > 0 ==> rest.segments[0].feeRate > 0
  {
    hide BuildFrom;
    BuildKeepsFees(scan, inputLimit, visits, binId, segment.inputEnd, segment.outputEnd, segment.used);
    if |rest.segments| > 0 {
      var all := [segment] + rest.segments;
      assert all[0] == segment && all[1] == rest.segments[0];
    }
  }

  lemma RestHasNoFreeDust(segment: Segment, rest: seq<Segment>)
    requires NoFreeDust([segment] + rest)
    ensures NoFreeDust(rest)
  {
    var all := [segment] + rest;
    assert forall i :: 0 <= i < |rest| ==> all[i + 1] == rest[i];
    forall i | 0 < i < |rest| && rest[i].feeOnInput && rest[i - 1].feeRate > 0 ensures rest[i].feeRate > 0 {
      assert all[i + 1] == rest[i] && all[i] == rest[i - 1];
    }
  }

  /** From any common state, every amount the rest of the curve covers is completed by the walk with the curve's
      output. */
  lemma {:induction false} CurveRefinesWalkFrom(scan: Scan, inputLimit: u64, visits: nat, binId: i32, totalIn: u64,
                                                totalOut: u64,
                                                used: seq<i64>, a: u64)
    requires BuildFrom(scan, inputLimit, visits, binId, totalIn, totalOut, used).Ok?
    requires NoFreeDust(BuildFrom(scan, inputLimit, visits, binId, totalIn, totalOut, used).value.segments)
    requires TameFrom(scan, BuildFrom(scan, inputLimit, visits, binId, totalIn, totalOut, used).value.visited, binId)
    requires totalIn < a <= LargestCompleteInput(BuildFrom(scan, inputLimit, visits, binId, totalIn, totalOut,
                                                           used).value.segments)
    ensures Agrees(WalkFrom(scan, visits, binId, a - totalIn, totalOut, used),
                   QuoteAt(BuildFrom(scan, inputLimit, visits, binId, totalIn, totalOut, used).value.segments, a))
    decreases visits
  {
    hide VisitBin, Capacity, NextBin, TameBin, TameFrom, QuoteAt, WalkFrom, NoFreeDust, AddedSegment, Agrees;
    assert visits > 0;
    BuildStep(scan, inputLimit, visits, binId, totalIn, totalOut, used);
    hide BuildFrom;
    TameStep(scan, BuildFrom(scan, inputLimit, visits, binId, totalIn, totalOut, used).value.visited, binId);
    var next := NextBin(binId, scan.view.swapForY);
    var visit := VisitBin(scan, binId, used);
    if visit.Skipped? {
      WalkSkips(scan, visits, binId, a - totalIn, totalOut, used);
      CurveRefinesWalkFrom(scan, inputLimit, visits - 1, next, totalIn, totalOut, used, a);
    } else if Capacity(visit.bin, scan.view.swapForY, scan.feeOnInput, visit.fees).Err? {
      WalkPasses(scan, visits, binId, a - totalIn, totalOut, used);
      CurveRefinesWalkFrom(scan, inputLimit, visits - 1, next, totalIn, totalOut, visit.used, a);
    } else {
      var segment := AddedSegment(scan, binId, used, totalIn, totalOut).value;
      if segment.inputEnd >= inputLimit {
        assert [segment] + [] == [segment];
        RefinesOverSegment(scan, inputLimit, visits, binId, totalIn, totalOut, used, a, segment,
                           CurveData([], 0, InputLimitReached));
      } else {
        var rest := BuildFrom(scan, inputLimit, visits - 1, next, segment.inputEnd, segment.outputEnd,
                              visit.used).value;
        if a > segment.inputEnd {
          RestHasNoFreeDust(segment, rest.segments);
          CurveRefinesWalkFrom(scan, inputLimit, visits - 1, next, segment.inputEnd, segment.outputEnd, visit.used, a);
        }
        RefinesOverSegment(scan, inputLimit, visits, binId, totalIn, totalOut, used, a, segment, rest);
      }
    }
  }

  /** The walk fails with input left when its visits run out or a bin cannot be reached. */
  lemma WalkFails(scan: Scan, visits: nat, binId: i32, remaining: u64, amountOut: u64, used: seq<i64>)
    requires remaining > 0
    ensures visits == 0 || !(VisitBin(scan, binId, used).Skipped? || VisitBin(scan, binId, used).Found?) ==>
            WalkFrom(scan, visits, binId, remaining, amountOut, used).Err?
  {
    hide VisitBin;
  }

  /** A walk that fails after a segment, with more than a unit of dust left, fails before it. */
  lemma FailsOverSegment(scan: Scan, visits: nat, binId: i32, totalIn: u64, totalOut: u64, used: seq<i64>, a: u64,
                         segment: Segment)
    requires visits > 0 && totalIn < a && segment.inputEnd + 1 < a
    requires VisitBin(scan, binId, used).Found? && AddedSegment(scan, binId, used, totalIn, totalOut) == Ok(segment)
    requires WalkFrom(scan, visits - 1, NextBin(binId, scan.view.swapForY), a - segment.inputEnd, segment.outputEnd,
                      VisitBin(scan, binId, used).used).Err?
    ensures WalkFrom(scan, visits, binId, a - totalIn, totalOut, used).Err?
  {
    hide VisitBin, NextBin, WalkFrom, AddedSegment, SegmentQuote;
    var fill := WalkOverSegment(scan, visits, binId, totalIn, totalOut, used, a);
  }

  /** When the pass was not stopped by its input limit, the walk fails for every amount beyond the coverage and one unit
      of dust. */
  lemma {:induction false} NothingBeyondCoverageFrom(scan: Scan, inputLimit: u64, visits: nat, binId: i32,
                                                     totalIn: u64, totalOut: u64,
                                                     used: seq<i64>, a: u64)
    requires BuildFrom(scan, inputLimit, visits, binId, totalIn, totalOut, used).Ok?
    requires TameFrom(scan, BuildFrom(scan, inputLimit, visits, binId, totalIn, totalOut, used).value.visited, binId)
    requires BuildFrom(scan, inputLimit, visits, binId, totalIn, totalOut, used).value.stop != InputLimitReached
    requires totalIn + 1 < a
    requires LargestCompleteInput(BuildFrom(scan, inputLimit, visits, binId, totalIn, totalOut, used).value.segments)
             + 1 < a
    ensures WalkFrom(scan, visits, binId, a - totalIn, totalOut, used).Err?
    decreases visits
  {
    hide VisitBin, Capacity, NextBin, TameBin, TameFrom, AddedSegment, WalkFrom;
    WalkFails(scan, visits, binId, a - totalIn, totalOut, used);
    if visits > 0 {
      BuildStep(scan, inputLimit, visits, binId, totalIn, totalOut, used);
      hide BuildFrom;
      var tame := BuildFrom(scan, inputLimit, visits, binId, totalIn, totalOut, used).value.visited;
      var next := NextBin(binId, scan.view.swapForY);
      var visit := VisitBin(scan, binId, used);
      if visit.Skipped? {
        TameStep(scan, tame, binId);
        WalkSkips(scan, visits, binId, a - totalIn, totalOut, used);
        NothingBeyondCoverageFrom(scan, inputLimit, visits - 1, next, totalIn, totalOut, used, a);
      } else if visit.Found? {
        TameStep(scan, tame, binId);
        if Capacity(visit.bin, scan.view.swapForY, scan.feeOnInput, visit.fees).Err? {
          WalkPasses(scan, visits, binId, a - totalIn, totalOut, used);
          NothingBeyondCoverageFrom(scan, inputLimit, visits - 1, next, totalIn, totalOut, visit.used, a);
        } else {
          var segment := AddedSegment(scan, binId, used, totalIn, totalOut).value;
          CoverageFromSegment(scan, inputLimit, visits, binId, totalIn, totalOut, used);
          NothingBeyondCoverageFrom(scan, inputLimit, visits - 1, next, segment.inputEnd, segment.outputEnd,
                                    visit.used, a);
          FailsOverSegment(scan, visits, binId, totalIn, totalOut, used, a, segment);
        }
      }
    }
  }

  /** A pass that goes on after a segment covers at least that segment, and as much as its rest. */
  lemma CoverageFromSegment(scan: Scan, inputLimit: u64, visits: nat, binId: i32, totalIn: u64, totalOut: u64,
                            used: seq<i64>)
    requires visits > 0 && BuildFrom(scan, inputLimit, visits, binId, totalIn, totalOut, used).Ok?
    requires BuildFrom(scan, inputLimit, visits, binId, totalIn, totalOut, used).value.stop != InputLimitReached
    requires VisitBin(scan, binId, used).Found?
    requires var visit := VisitBin(scan, binId, used); Capacity(visit.bin, scan.view.swapForY, scan.feeOnInput,
                                                                visit.fees).Ok?
    ensures AddedSegment(scan, binId, used, totalIn, totalOut).Ok?
    ensures var segment := AddedSegment(scan, binId, used, totalIn, totalOut).value;
            var rest := BuildFrom(scan, inputLimit, visits - 1, NextBin(binId, scan.view.swapForY), segment.inputEnd,
                                  segment.outputEnd, segment.used);
            && rest.Ok? && rest.value.stop == BuildFrom(scan, inputLimit, visits, binId, totalIn, totalOut,
                                                        used).value.stop
            && segment.used == VisitBin(scan, binId, used).used
            && segment.inputEnd <= LargestCompleteInput(BuildFrom(scan, inputLimit, visits, binId, totalIn, totalOut,
                                                                  used).value.segments)
            && LargestCompleteInput(rest.value.segments)
               <= LargestCompleteInput(BuildFrom(scan, inputLimit, visits, binId, totalIn, totalOut,
                                                 used).value.segments)
  {
    hide VisitBin, Capacity, NextBin, AddedSegment;
    BuildStep(scan, inputLimit, visits, binId, totalIn, totalOut, used);
    hide BuildFrom;
    var segment := AddedSegment(scan, binId, used, totalIn, totalOut).value;
    var next := NextBin(binId, scan.view.swapForY);
    BuildIsContiguous(scan, inputLimit, visits - 1, next, segment.inputEnd, segment.outputEnd, segment.used);
    var rest := BuildFrom(scan, inputLimit, visits - 1, next, segment.inputEnd, segment.outputEnd, segment.used).value;
    ContiguousInOrder(rest.segments, segment.inputEnd, segment.outputEnd);
  }

  // --- whole curves ---

  /** The bins that a pass visits are tame. */
  predicate TameBins(view: View, inputLimit: u64) {
    var scan, curve := Prepare(view), Build(view, inputLimit);
    scan.Ok? && curve.Ok? ==> TameFrom(scan.value, curve.value.visited, view.pair.activeId)
  }

  /** The market condition under which a curve and the walk agree: tame bins, and no dust that a later segment sells. */
  predicate TameView(view: View, inputLimit: u64) {
    var curve := Build(view, inputLimit);
    TameBins(view, inputLimit) && (curve.Ok? ==> NoFreeDust(curve.value.segments))
  }

  /** A positive base fee leaves no such dust, and neither does a pair whose fees are all zero. */
  lemma BaseFeeLeavesNoFreeDust(view: View, inputLimit: u64)
    requires Build(view, inputLimit).Ok?
    ensures var segments := Build(view, inputLimit).value.segments;
            && (Prepare(view).Ok? && PositiveBaseFee(Prepare(view).value) ==> NoFreeDust(segments))
            && ((forall i :: 0 <= i < |segments| ==> segments[i].feeRate == 0) ==> NoFreeDust(segments))
  {
    hide BuildFrom, PositiveBaseFee;
    BuildKeepsFees(Prepare(view).value, inputLimit, MAX_VISITED, view.pair.activeId, 0, 0, []);
  }

  /** Every amount that a built curve covers completes in the account walk, with the same output and a prefix of the
      curve's arrays. */
  lemma CurveRefinesWalk(view: View, inputLimit: u64, a: u64)
    requires TameView(view, inputLimit) && Build(view, inputLimit).Ok?
    requires 1 <= a <= LargestCompleteInput(Build(view, inputLimit).value.segments)
    ensures Agrees(Walk(view, a), QuoteAt(Build(view, inputLimit).value.segments, a))
  {
    hide TameFrom, BuildFrom, WalkFrom, QuoteAt, NoFreeDust;
    CurveRefinesWalkFrom(Prepare(view).value, inputLimit, MAX_VISITED, view.pair.activeId, 0, 0, [], a);
  }

  /** A curve that ran out before its input limit bounds what the walk can complete. */
  lemma NothingBeyondCoverage(view: View, inputLimit: u64, a: u64)
    requires TameBins(view, inputLimit) && Build(view, inputLimit).Ok?
               && Build(view, inputLimit).value.stop != InputLimitReached
    requires LargestCompleteInput(Build(view, inputLimit).value.segments) + 1 < a
    ensures Walk(view, a).Err?
  {
    hide TameFrom, BuildFrom, WalkFrom;
    NothingBeyondCoverageFrom(Prepare(view).value, inputLimit, MAX_VISITED, view.pair.activeId, 0, 0, [], a);
  }

  /** A curve stopped by its input limit covers the limit. */
  lemma {:induction false} LimitIsCovered(scan: Scan, inputLimit: u64, visits: nat, binId: i32, totalIn: u64,
                                          totalOut: u64, used: seq<i64>)
    requires BuildFrom(scan, inputLimit, visits, binId, totalIn, totalOut, used).Ok?
    requires BuildFrom(scan, inputLimit, visits, binId, totalIn, totalOut, used).value.stop == InputLimitReached
    ensures LargestCompleteInput(BuildFrom(scan, inputLimit, visits, binId, totalIn, totalOut,
                                           used).value.segments) >= inputLimit
    ensures |BuildFrom(scan, inputLimit, visits, binId, totalIn, totalOut, used).value.segments| > 0
    decreases visits
  {
    hide VisitBin, Capacity, NextBin, AddedSegment;
    if visits > 0 {
      BuildStep(scan, inputLimit, visits, binId, totalIn, totalOut, used);
      var next := NextBin(binId, scan.view.swapForY);
      hide BuildFrom;
      var visit := VisitBin(scan, binId, used);
      if visit.Skipped? {
        LimitIsCovered(scan, inputLimit, visits - 1, next, totalIn, totalOut, used);
      } else if visit.Found? {
        if Capacity(visit.bin, scan.view.swapForY, scan.feeOnInput, visit.fees).Err? {
          LimitIsCovered(scan, inputLimit, visits - 1, next, totalIn, totalOut, visit.used);
        } else {
          var segment := AddedSegment(scan, binId, used, totalIn, totalOut).value;
          if segment.inputEnd < inputLimit {
            LimitIsCovered(scan, inputLimit, visits - 1, next, segment.inputEnd, segment.outputEnd, visit.used);
          }
        }
      }
    }
  }

  // --- cutting a curve ---

  /** A curve with a lower limit is the whole curve with a higher one, or its prefix up to a segment that covers the
      lower limit. */
  predicate CutOf(low: CurveData, high: CurveData, lowLimit: u64) {
    low.segments <= high.segments && (low.segments == high.segments || LargestCompleteInput(low.segments) >= lowLimit)
  }

  lemma {:induction false} LowerLimitCutsFrom(scan: Scan, lowLimit: u64, highLimit: u64, visits: nat, binId: i32,
                                              totalIn: u64, totalOut: u64,
                                              used: seq<i64>)
    requires lowLimit <= highLimit
    requires BuildFrom(scan, highLimit, visits, binId, totalIn, totalOut, used).Ok?
    ensures BuildFrom(scan, lowLimit, visits, binId, totalIn, totalOut, used).Ok?
    ensures CutOf(BuildFrom(scan, lowLimit, visits, binId, totalIn, totalOut, used).value,
                  BuildFrom(scan, highLimit, visits, binId, totalIn, totalOut, used).value, lowLimit)
    decreases visits
  {
    hide VisitBin, Capacity, NextBin, TotalFeeRate;
    if visits > 0 {
      var next := NextBin(binId, scan.view.swapForY);
      var visit := VisitBin(scan, binId, used);
      if visit.Skipped? {
        LowerLimitCutsFrom(scan, lowLimit, highLimit, visits - 1, next, totalIn, totalOut, used);
      } else if visit.Found? {
        if Capacity(visit.bin, scan.view.swapForY, scan.feeOnInput, visit.fees).Err? {
          LowerLimitCutsFrom(scan, lowLimit, highLimit, visits - 1, next, totalIn, totalOut, visit.used);
        } else {
          var segment := AddedSegment(scan, binId, used, totalIn, totalOut).value;
          if segment.inputEnd < lowLimit {
            LowerLimitCutsFrom(scan, lowLimit, highLimit, visits - 1, next, segment.inputEnd, segment.outputEnd,
                               visit.used);
          }
        }
      }
    }
  }

  lemma LowerLimitCuts(view: View, lowLimit: u64, highLimit: u64)
    requires lowLimit <= highLimit && Build(view, highLimit).Ok?
    ensures Build(view, lowLimit).Ok?
    ensures CutOf(Build(view, lowLimit).value, Build(view, highLimit).value, lowLimit)
  {
    hide BuildFrom;
    LowerLimitCutsFrom(Prepare(view).value, lowLimit, highLimit, MAX_VISITED, view.pair.activeId, 0, 0, []);
  }

  lemma PrefixQuotesAlike(low: seq<Segment>, high: seq<Segment>, a: u64)
    requires low <= high && a <= LargestCompleteInput(low)
    ensures QuoteAt(low, a) == QuoteAt(high, a)
  {
    hide SegmentQuote;
    if |low| > 0 {
      var i, j := FirstCovering(low, a), FirstCovering(high, a);
      assert a <= low[|low| - 1].inputEnd;
      assert high[|low| - 1] == low[|low| - 1] && i < |low| && high[i] == low[i];
      assert j < |low| && low[j] == high[j];
    }
  }

  /** Cutting the curve at an input limit changes no answer up to that limit. */
  lemma CutAnswersAlike(view: View, lowLimit: u64, highLimit: u64, a: u64)
    requires lowLimit <= highLimit && Build(view, highLimit).Ok? && a <= lowLimit
    ensures Build(view, lowLimit).Ok?
    ensures QuoteAt(Build(view, lowLimit).value.segments, a) == QuoteAt(Build(view, highLimit).value.segments, a)
  {
    hide Build, QuoteAt;
    LowerLimitCuts(view, lowLimit, highLimit);
    var low, high := Build(view, lowLimit).value, Build(view, highLimit).value;
    if low.segments != high.segments {
      PrefixQuotesAlike(low.segments, high.segments, a);
    }
  }

  // --- a curve is a monotone function on its coverage ---

  /** The segment that contains an amount, and no other. */
  lemma UniqueSegment(segments: seq<Segment>, a: u64, k: nat)
    requires Contiguous(segments, 0, 0) && 0 < a <= LargestCompleteInput(segments)
    ensures FirstCovering(segments, a) < |segments|
    ensures k < |segments| ==>
            (segments[k].inputStart < a <= segments[k].inputEnd <==> k == FirstCovering(segments, a))
  {
    hide Contiguous;
    ContiguousStarts(segments);
    ContiguousInOrder(segments, 0, 0);
    var f := FirstCovering(segments, a);
    assert a <= segments[|segments| - 1].inputEnd;
    if f > 0 {
      assert segments[f - 1].inputEnd < a;
      ContiguousLink(segments, 0, 0, f);
    }
  }

  lemma ContiguousStarts(segments: seq<Segment>)
    requires Contiguous(segments, 0, 0)
    ensures |segments| > 0 ==> segments[0].inputStart == 0 && segments[0].outputStart == 0
  {
  }

  lemma {:induction false} ContiguousLink(segments: seq<Segment>, totalIn: u64, totalOut: u64, k: nat)
    requires Contiguous(segments, totalIn, totalOut) && 0 < k < |segments|
    ensures segments[k].inputStart == segments[k - 1].inputEnd && segments[k].outputStart == segments[k - 1].outputEnd
    decreases |segments|
  {
    if k > 1 {
      ContiguousLink(segments[1..], segments[0].inputEnd, segments[0].outputEnd, k - 1);
    }
  }

  /** Within one measured segment outputs are monotone and stay between the segment's output bounds. */
  lemma SegmentQuoteMono(segment: Segment, a: u64, b: u64)
    requires Measured(segment) && segment.inputStart < a <= b <= segment.inputEnd
    ensures SegmentQuote(segment, a).Ok? && SegmentQuote(segment, b).Ok?
    ensures segment.outputStart <= SegmentQuote(segment, a).value.amountOut <= SegmentQuote(segment, b).value.amountOut
            <= segment.outputEnd
  {
    hide Net, Gross, OutFor, InFor, OutputWithinCapacity;
    var side :| Exact(segment, side);
    var x, y := a - segment.inputStart, b - segment.inputStart;
    InsideIsExact(side, x);
    InsideIsExact(side, y);
    if y < side.CapacityIn() {
      InsideOutputMono(side, x, y);
    } else if x < side.CapacityIn() {
      InsideOutputMono(side, x, x);
    }
  }

  /** The compact data of a side determines its outputs. */
  lemma InsideIsExact(side: Side, x: u64)
    requires side.Valid() && side.price <= U128_MAX && 0 < x <= side.CapacityIn() <= U64_MAX
               && 0 < side.CapacityOut() <= U64_MAX
    ensures OutputWithinCapacity(x, side.CapacityIn(), side.CapacityOut(), side.price, side.swapForY, side.feeOnInput,
                                 side.rate)
         == Ok(if x == side.CapacityIn() then side.CapacityOut() else side.InsideOutput(x))
  {
    hide Net, Gross, OutFor, InFor, ExcludedFee, AmountOutForIn;
    if x < side.CapacityIn() {
      InsideOutputMono(side, x, x);
      if side.feeOnInput {
        ExcludedFeeIsNet(x, side.rate);
        AmountOutIsOutFor(Net(x, side.rate), side.price, side.swapForY);
      } else {
        InForIsLeast(x, side.maxOut, side.price, side.swapForY);
        AmountOutIsOutFor(x, side.price, side.swapForY);
        ExcludedFeeIsNet(OutFor(x, side.price, side.swapForY), side.rate);
      }
    }
  }

  /** The quote of a measured contiguous curve never falls as the amount grows. */
  lemma CurveQuoteMono(segments: seq<Segment>, a: u64, b: u64)
    requires Contiguous(segments, 0, 0) && 0 < a <= b <= LargestCompleteInput(segments)
    requires forall i :: 0 <= i < |segments| ==> Measured(segments[i])
    ensures QuoteAt(segments, a).Ok? && QuoteAt(segments, b).Ok?
    ensures QuoteAt(segments, a).value.amountOut <= QuoteAt(segments, b).value.amountOut
  {
    hide SegmentQuote, Measured, Contiguous;
    var i, j := FirstCovering(segments, a), FirstCovering(segments, b);
    UniqueSegment(segments, a, i);
    UniqueSegment(segments, b, j);
    ContiguousInOrder(segments, 0, 0);
    if i == j {
      SegmentQuoteMono(segments[i], a, b);
    } else {
      SegmentQuoteMono(segments[i], a, a);
      SegmentQuoteMono(segments[j], b, b);
    }
  }
}
