/** What every built curve looks like: contiguous, strictly increasing, exact in each bin, and insensitive to where it
    is cut. */
module CurveShape {
  import opened Arithmetic
  import opened BinQuote
  import opened BinList
  import opened BinCapacity
  import opened BinWalk
  import opened DlmmCurve
  import opened CurveBuild

  // --- measured bins ---

  /** The fill of an unlimited input consumes less than the largest input, so it has drained the bin. */
  predicate Drains(bin: Bin, swapForY: bool, feeOnInput: bool, fees: FeeParameters) {
    var quote := PartialQuote(U64_MAX, bin, swapForY, feeOnInput, fees);
    quote.Ok? ==> quote.value.amountIn < U64_MAX
  }

  /** A bin that takes the largest input, pays something for it, and is quoted exactly one unit below it. */
  predicate ExactWhenFull(bin: Bin, swapForY: bool, feeOnInput: bool, fees: FeeParameters) {
    && Capacity(bin, swapForY, feeOnInput, fees).Ok? && TotalFeeRate(fees).Ok?
    && var side := SideOf(bin, swapForY, feeOnInput, TotalFeeRate(fees).value);
       side.Some? && side.value.Valid() ==> !RoundsPastTheSide(side.value, U64_MAX, U64_MAX - 1)
  }

  /** A positive output fee takes the side's only unit. */
  predicate LosesOnlyUnit(bin: Bin, swapForY: bool, feeOnInput: bool, fees: FeeParameters) {
    !feeOnInput && TotalFeeRate(fees) != Ok(0) && SideLiquidity(bin, swapForY) == Ok(1)
  }

  /** A bin whose capacity quotes it exactly and which is not lost to an output fee. */
  predicate TameBin(scan: Scan, binId: i32) {
    var visit := VisitBin(scan, binId, []);
    visit.Found? ==>
      && (Drains(visit.bin, scan.view.swapForY, scan.feeOnInput, visit.fees)
          || ExactWhenFull(visit.bin, scan.view.swapForY, scan.feeOnInput, visit.fees))
      && !LosesOnlyUnit(visit.bin, scan.view.swapForY, scan.feeOnInput, visit.fees)
  }

  /** Every bin of the next visits is tame. */
  predicate TameFrom(scan: Scan, visits: nat, binId: i32) {
    visits == 0 || (TameBin(scan, binId) && TameFrom(scan, visits - 1, NextBin(binId, scan.view.swapForY)))
  }

  lemma TameStep(scan: Scan, visits: nat, binId: i32)
    requires visits > 0 && TameFrom(scan, visits, binId)
    ensures TameBin(scan, binId) && TameFrom(scan, visits - 1, NextBin(binId, scan.view.swapForY))
  {
  }

  lemma VisitIgnoresUsed(scan: Scan, binId: i32, used: seq<i64>)
    requires VisitBin(scan, binId, used).Found?
    ensures VisitBin(scan, binId, []).Found?
    ensures VisitBin(scan, binId, []).bin == VisitBin(scan, binId, used).bin
    ensures VisitBin(scan, binId, []).fees == VisitBin(scan, binId, used).fees == scan.FeesAt(binId)
    ensures used <= VisitBin(scan, binId, used).used
  {
    hide Initialized, FindArray;
  }

  lemma Pow10Positive(k: nat)
    ensures Pow10(k) >= 1
  {
  }

  /** A positive base fee makes every rate positive. */
  lemma PositiveRate(p: FeeParameters)
    requires p.baseFactor > 0 && p.binStep > 0 && TotalFeeRate(p).Ok?
    ensures TotalFeeRate(p).value > 0
  {
    hide VariableFee;
    Pow10Positive(p.baseFeePowerFactor);
    MulMono(1, p.baseFactor, p.binStep);
    MulMono(1, Pow10(p.baseFeePowerFactor), p.baseFactor * p.binStep * 10);
  }

  lemma FillErrors(remaining: u64, bin: Bin, swapForY: bool, feeOnInput: bool, rate: FeeRate)
    ensures FillBin(remaining, bin, swapForY, feeOnInput, rate) != Err(InsufficientLiquidity)
  {
    hide DivUp, DivDown;
  }

  /** A measured capacity is the capacity of the bin's side. */
  lemma CapacityHasSide(bin: Bin, swapForY: bool, feeOnInput: bool, fees: FeeParameters) returns (side: Side)
    requires Capacity(bin, swapForY, feeOnInput, fees).Ok?
    requires Drains(bin, swapForY, feeOnInput, fees)
    ensures HasSide(bin, side) && side.swapForY == swapForY && side.feeOnInput == feeOnInput
    ensures TotalFeeRate(fees) == Ok(side.rate)
    ensures Capacity(bin, swapForY, feeOnInput, fees).value.amountIn == side.CapacityIn() < U64_MAX
    ensures Capacity(bin, swapForY, feeOnInput, fees).value.amountOut == side.CapacityOut() > 0
  {
    hide FillBin, HasSide, SideOf, PartialQuote, Net, Gross;
    assert TotalFeeRate(fees).Ok? by {
      PartialNeedsRate(U64_MAX, bin, swapForY, feeOnInput, fees);
    }
    var rate := TotalFeeRate(fees).value;
    PartialQuoteIsFill(U64_MAX, bin, swapForY, feeOnInput, fees);
    FilledHasSide(U64_MAX, bin, swapForY, feeOnInput, rate);
    side := SideOf(bin, swapForY, feeOnInput, rate).value;
    SideOfHasSide(bin, swapForY, feeOnInput, rate);
    MeasuredBelowMax(bin, side);
  }

  lemma CapacityDrains(bin: Bin, swapForY: bool, feeOnInput: bool, fees: FeeParameters)
    requires Capacity(bin, swapForY, feeOnInput, fees).Ok?
               && Capacity(bin, swapForY, feeOnInput, fees).value.amountIn < U64_MAX
    ensures Drains(bin, swapForY, feeOnInput, fees)
  {
    hide PartialQuote;
  }

  lemma PartialNeedsRate(amountIn: u64, bin: Bin, swapForY: bool, feeOnInput: bool, fees: FeeParameters)
    requires PartialQuote(amountIn, bin, swapForY, feeOnInput, fees).Ok?
    ensures TotalFeeRate(fees).Ok?
  {
    hide FoldFills;
  }

  /** A fill that moves anything comes from a side. */
  lemma FilledHasSide(remaining: u64, bin: Bin, swapForY: bool, feeOnInput: bool, rate: FeeRate)
    requires FillBin(remaining, bin, swapForY, feeOnInput, rate).Ok?
    ensures SideLiquidity(bin, swapForY).Ok?
    ensures SideLiquidity(bin, swapForY) == Ok(0) ==>
              FillBin(remaining, bin, swapForY, feeOnInput, rate) == Ok(Fill(0, 0, 0))
    ensures SideLiquidity(bin, swapForY) != Ok(0) ==>
            && SideOf(bin, swapForY, feeOnInput, rate).Some?
            && SideOf(bin, swapForY, feeOnInput, rate).value.maxOut == SideLiquidity(bin, swapForY).value
            && SideOf(bin, swapForY, feeOnInput, rate).value.swapForY == swapForY
            && SideOf(bin, swapForY, feeOnInput, rate).value.feeOnInput == feeOnInput
            && SideOf(bin, swapForY, feeOnInput, rate).value.rate == rate
  {
    hide ExcludedFee, IncludedFee, AmountInForOut, AmountOutForIn, SideLiquidity;
  }

  lemma NetVanishesIff(maxOut: nat, rate: FeeRate)
    requires maxOut > 0
    ensures Net(maxOut, rate) == 0 <==> maxOut == 1 && rate > 0
  {
    NetOfOne(rate);
    NetMono(1, maxOut, rate);
    if maxOut >= 2 {
      if rate == 0 {
        NoFeeIsIdentity(maxOut);
      } else {
        NetMono(2, maxOut, rate);
      }
    }
  }

  /** The curve leaves out a drained bin that holds liquidity exactly when a positive output fee swallows its only
      unit. */
  lemma SkipsLiquidityIff(bin: Bin, swapForY: bool, feeOnInput: bool, fees: FeeParameters)
    requires PartialQuote(U64_MAX, bin, swapForY, feeOnInput, fees).Ok? && Drains(bin, swapForY, feeOnInput, fees)
    ensures TotalFeeRate(fees).Ok? && SideLiquidity(bin, swapForY).Ok?
    ensures Capacity(bin, swapForY, feeOnInput, fees) == Err(InsufficientLiquidity)
              && SideLiquidity(bin, swapForY) != Ok(0)
       <==> !feeOnInput && TotalFeeRate(fees).value > 0 && SideLiquidity(bin, swapForY) == Ok(1)
    ensures SideLiquidity(bin, swapForY) == Ok(0) ==>
              Capacity(bin, swapForY, feeOnInput, fees) == Err(InsufficientLiquidity)
  {
    hide FillBin, HasSide, SideOf, PartialQuote, Net, Gross, SideLiquidity;
    PartialNeedsRate(U64_MAX, bin, swapForY, feeOnInput, fees);
    var rate := TotalFeeRate(fees).value;
    PartialQuoteIsFill(U64_MAX, bin, swapForY, feeOnInput, fees);
    FilledHasSide(U64_MAX, bin, swapForY, feeOnInput, rate);
    if SideLiquidity(bin, swapForY) != Ok(0) {
      var side := SideOf(bin, swapForY, feeOnInput, rate).value;
      SideOfHasSide(bin, swapForY, feeOnInput, rate);
      MeasuredBelowMax(bin, side);
      PositiveSide(bin, side);
      NetVanishesIff(side.maxOut, rate);
    }
  }

  lemma PositiveSide(bin: Bin, side: Side)
    requires HasSide(bin, side)
    ensures side.maxOut > 0
  {
  }

  /** The concrete case: one unit under an output fee is skipped by the measure and consumed for nothing by the walk's
      fill. */
  lemma OneUnitBinIsLost()
    ensures var bin := Bin(TWO_64, 0, 1, 0, 0, false);
            var fees := FeeParameters(10, 200, 0, 0, 0);
            && Capacity(bin, true, false, fees) == Err(InsufficientLiquidity)
            && PartialQuote(5, bin, true, false, fees) == Ok(QuoteResult(1, 0, 1))
  {
    var bin := Bin(TWO_64, 0, 1, 0, 0, false);
    var fees := FeeParameters(10, 200, 0, 0, 0);
    assert TotalFeeRate(fees) == Ok(20_000) by {
      assert Pow10(0) == 1;
    }
    assert AmountInForOut(1, TWO_64, true) == Ok(1);
    assert ExcludedFee(1, 20_000) == Ok((0, 1));
    assert SideLiquidity(bin, true) == Ok(1);
    OneUnitFill(bin, 5);
    OneUnitFill(bin, U64_MAX);
    PartialQuoteIsFill(5, bin, true, false, fees);
    PartialQuoteIsFill(U64_MAX, bin, true, false, fees);
  }

  lemma OneUnitFill(bin: Bin, a: u64)
    requires bin == Bin(TWO_64, 0, 1, 0, 0, false) && a > 0
    requires AmountInForOut(1, TWO_64, true) == Ok(1) && ExcludedFee(1, 20_000) == Ok((0, 1))
               && SideLiquidity(bin, true) == Ok(1)
    ensures FillBin(a, bin, true, false, 20_000) == Ok(Fill(1, 0, 1))
  {
    hide ExcludedFee, IncludedFee, AmountInForOut, AmountOutForIn, SideLiquidity;
  }

  // --- the shape of a curve ---

  /** Segments follow each other without gaps, from given totals, and each adds input and output. */
  predicate Contiguous(segments: seq<Segment>, totalIn: u64, totalOut: u64) {
    |segments| == 0 ||
    (&& segments[0].inputStart == totalIn < segments[0].inputEnd
     && segments[0].outputStart == totalOut < segments[0].outputEnd
     && Contiguous(segments[1..], segments[0].inputEnd, segments[0].outputEnd))
  }

  /** A segment records exactly the capacity of a side. */
  predicate Exact(segment: Segment, side: Side) {
    && side.Valid() && side.price <= U128_MAX
    && segment.priceQ64 == side.price && segment.swapForY == side.swapForY
    && segment.feeOnInput == side.feeOnInput && segment.feeRate == side.rate
    && segment.inputEnd - segment.inputStart == side.CapacityIn()
    && segment.outputEnd - segment.outputStart == side.CapacityOut() > 0
  }

  /** A segment that records the capacity of some side. */
  ghost predicate Measured(segment: Segment) {
    exists side :: Exact(segment, side)
  }

  /** A segment that spans every input, under an input fee that leaves at most what the side can take. */
  predicate Saturated(segment: Segment, side: Side) {
    && segment.inputStart == 0 && segment.inputEnd == U64_MAX
    && side.Valid() && side.price <= U128_MAX && side.feeOnInput && Net(U64_MAX, side.rate) <= side.maxIn
    && segment.priceQ64 == side.price && segment.swapForY == side.swapForY
    && segment.feeOnInput == side.feeOnInput && segment.feeRate == side.rate
    && segment.outputEnd - segment.outputStart
       == (if Net(U64_MAX, side.rate) == side.maxIn then side.maxOut
           else OutFor(Net(U64_MAX, side.rate), side.price, side.swapForY)) > 0
  }

  /** What a built segment records: a side's capacity, or all that a side takes of every input. */
  ghost predicate Recorded(segment: Segment) {
    Measured(segment) || exists side :: Saturated(segment, side)
  }

  lemma {:induction false} ContiguousInOrder(segments: seq<Segment>, totalIn: u64, totalOut: u64)
    requires Contiguous(segments, totalIn, totalOut)
    ensures forall i :: 0 <= i < |segments| ==>
              && totalIn <= segments[i].inputStart < segments[i].inputEnd
              && totalOut <= segments[i].outputStart < segments[i].outputEnd
    ensures forall i, j :: 0 <= i < j < |segments| ==>
              segments[i].inputEnd <= segments[j].inputStart && segments[i].outputEnd <= segments[j].outputStart
    ensures Ascending(segments)
    decreases |segments|
  {
    if |segments| > 0 {
      var rest := segments[1..];
      ContiguousInOrder(rest, segments[0].inputEnd, segments[0].outputEnd);
      assert forall i :: 1 <= i < |segments| ==> segments[i] == rest[i - 1];
    }
  }

  /** Every curve the pass builds is contiguous, has at most one segment a visit, and carries used lists that extend the
      current one. */
  lemma {:induction false} BuildIsContiguous(scan: Scan, inputLimit: u64, visits: nat, binId: i32, totalIn: u64,
                                             totalOut: u64, used: seq<i64>)
    requires BuildFrom(scan, inputLimit, visits, binId, totalIn, totalOut, used).Ok?
    ensures var curve := BuildFrom(scan, inputLimit, visits, binId, totalIn, totalOut, used).value;
            && Contiguous(curve.segments, totalIn, totalOut)
            && |curve.segments| <= curve.visited <= visits
            && forall i :: 0 <= i < |curve.segments| ==> used <= curve.segments[i].used
    decreases visits
  {
    hide VisitBin, Capacity, TotalFeeRate, NextBin;
    if visits > 0 {
      var next := NextBin(binId, scan.view.swapForY);
      var visit := VisitBin(scan, binId, used);
      if visit.Skipped? {
        BuildIsContiguous(scan, inputLimit, visits - 1, next, totalIn, totalOut, used);
      } else if visit.Found? {
        VisitIgnoresUsed(scan, binId, used);
        var capacity := Capacity(visit.bin, scan.view.swapForY, scan.feeOnInput, visit.fees);
        if capacity.Ok? {
          CapacityIsPositive(visit.bin, scan.view.swapForY, scan.feeOnInput, visit.fees);
          var segment := SegmentOf(scan, totalIn, totalOut, visit.bin, TotalFeeRate(visit.fees).value, capacity.value,
                                   visit.used).value;
          if segment.inputEnd < inputLimit {
            BuildIsContiguous(scan, inputLimit, visits - 1, next, segment.inputEnd, segment.outputEnd, visit.used);
            var rest := BuildFrom(scan, inputLimit, visits - 1, next, segment.inputEnd, segment.outputEnd,
                                  visit.used).value;
            assert ([segment] + rest.segments)[1..] == rest.segments;
          } else {
            assert [segment][1..] == [];
          }
        } else {
          BuildIsContiguous(scan, inputLimit, visits - 1, next, totalIn, totalOut, visit.used);
        }
      }
    }
  }

  lemma CapacityIsPositive(bin: Bin, swapForY: bool, feeOnInput: bool, fees: FeeParameters)
    requires Capacity(bin, swapForY, feeOnInput, fees).Ok?
    ensures Capacity(bin, swapForY, feeOnInput, fees).value.amountIn > 0
    ensures Capacity(bin, swapForY, feeOnInput, fees).value.amountOut > 0
  {
    hide PartialQuote;
  }

  /** Every segment records the capacity of a side, or all that a side takes of every input. */
  lemma {:induction false} BuildIsRecorded(scan: Scan, inputLimit: u64, visits: nat, binId: i32, totalIn: u64,
                                           totalOut: u64, used: seq<i64>)
    requires BuildFrom(scan, inputLimit, visits, binId, totalIn, totalOut, used).Ok?
    ensures var curve := BuildFrom(scan, inputLimit, visits, binId, totalIn, totalOut, used).value;
            forall i :: 0 <= i < |curve.segments| ==> Recorded(curve.segments[i])
    decreases visits
  {
    hide VisitBin, Capacity, NextBin, Recorded, AddedSegment;
    if visits > 0 {
      BuildStep(scan, inputLimit, visits, binId, totalIn, totalOut, used);
      hide BuildFrom;
      var next := NextBin(binId, scan.view.swapForY);
      var visit := VisitBin(scan, binId, used);
      if visit.Skipped? {
        BuildIsRecorded(scan, inputLimit, visits - 1, next, totalIn, totalOut, used);
      } else if visit.Found? {
        if Capacity(visit.bin, scan.view.swapForY, scan.feeOnInput, visit.fees).Ok? {
          var segment := AddedSegment(scan, binId, used, totalIn, totalOut).value;
          AddedSegmentIsRecorded(scan, binId, used, totalIn, totalOut);
          if segment.inputEnd < inputLimit {
            BuildIsRecorded(scan, inputLimit, visits - 1, next, segment.inputEnd, segment.outputEnd, visit.used);
          }
        } else {
          BuildIsRecorded(scan, inputLimit, visits - 1, next, totalIn, totalOut, visit.used);
        }
      }
    }
  }

  lemma AddedSegmentIsRecorded(scan: Scan, binId: i32, used: seq<i64>, totalIn: u64, totalOut: u64)
    requires VisitBin(scan, binId, used).Found? && AddedSegment(scan, binId, used, totalIn, totalOut).Ok?
    ensures Recorded(AddedSegment(scan, binId, used, totalIn, totalOut).value)
  {
    hide VisitBin, Capacity, TotalFeeRate, Exact, Saturated;
    var segment := AddedSegment(scan, binId, used, totalIn, totalOut).value;
    if segment.inputEnd - totalIn < U64_MAX {
      var side := SegmentIsMeasured(scan, binId, used, totalIn, totalOut);
    } else {
      var visit := VisitBin(scan, binId, used);
      FullSegmentIsRecorded(segment, visit.bin, scan.view.swapForY, scan.feeOnInput, visit.fees);
    }
  }

  /** The side of a bin whose measure took the largest input. */
  lemma FullSide(bin: Bin, swapForY: bool, feeOnInput: bool, fees: FeeParameters) returns (side: Side)
    requires Capacity(bin, swapForY, feeOnInput, fees).Ok?
    requires Capacity(bin, swapForY, feeOnInput, fees).value.amountIn == U64_MAX
    ensures HasSide(bin, side) && side.swapForY == swapForY && side.feeOnInput == feeOnInput
    ensures side.price == bin.priceQ64 && TotalFeeRate(fees) == Ok(side.rate)
    ensures SideOf(bin, swapForY, feeOnInput, side.rate) == Some(side)
    ensures var fill := FillBin(U64_MAX, bin, swapForY, feeOnInput, side.rate);
            && fill.Ok? && fill.value.used == U64_MAX
            && fill.value.output == Capacity(bin, swapForY, feeOnInput, fees).value.amountOut > 0
  {
    hide FillBin, HasSide, SideOf, PartialQuote, TotalFeeRate;
    PartialNeedsRate(U64_MAX, bin, swapForY, feeOnInput, fees);
    var rate := TotalFeeRate(fees).value;
    PartialQuoteIsFill(U64_MAX, bin, swapForY, feeOnInput, fees);
    FilledHasSide(U64_MAX, bin, swapForY, feeOnInput, rate);
    side := SideOf(bin, swapForY, feeOnInput, rate).value;
    SideOfHasSide(bin, swapForY, feeOnInput, rate);
    HasSideFacts(bin, side);
  }

  lemma FullSegmentIsRecorded(segment: Segment, bin: Bin, swapForY: bool, feeOnInput: bool, fees: FeeParameters)
    requires segment.inputStart == 0 && segment.inputEnd == U64_MAX
    requires segment.priceQ64 == bin.priceQ64 && segment.swapForY == swapForY && segment.feeOnInput == feeOnInput
    requires Capacity(bin, swapForY, feeOnInput, fees).Ok? && TotalFeeRate(fees) == Ok(segment.feeRate)
    requires Capacity(bin, swapForY, feeOnInput, fees).value.amountIn == U64_MAX
    requires Capacity(bin, swapForY, feeOnInput, fees).value.amountOut == segment.outputEnd - segment.outputStart
    ensures Recorded(segment)
  {
    hide FillBin, Capacity, TotalFeeRate, SideOf, Net, Gross, OutFor, InFor, AmountInForOut, SideLiquidity;
    var side := FullSide(bin, swapForY, feeOnInput, fees);
    if feeOnInput {
      FillWithInputFee(bin, side, U64_MAX);
      FullBinTakesAll(bin, side, U64_MAX);
      assert Saturated(segment, side);
    } else {
      FillWithOutputFee(bin, side, U64_MAX);
      assert Exact(segment, side);
    }
  }

  /** The segment that a visit adds, when it adds one. */
  function AddedSegment(scan: Scan, binId: i32, used: seq<i64>, totalIn: u64, totalOut: u64): Result<Segment, ArbError>
    requires VisitBin(scan, binId, used).Found?
  {
    var visit := VisitBin(scan, binId, used);
    var rate :- TotalFeeRate(visit.fees).OrElse(BestDirectionQuoteIncomplete);
    var capacity :- Capacity(visit.bin, scan.view.swapForY, scan.feeOnInput,
                             visit.fees).OrElse(BestDirectionQuoteIncomplete);
    SegmentOf(scan, totalIn, totalOut, visit.bin, rate, capacity, visit.used)
  }

  /** How the pass continues over a bin it visits. */
  lemma BuildStep(scan: Scan, inputLimit: u64, visits: nat, binId: i32, totalIn: u64, totalOut: u64, used: seq<i64>)
    requires visits > 0 && BuildFrom(scan, inputLimit, visits, binId, totalIn, totalOut, used).Ok?
    ensures var curve := BuildFrom(scan, inputLimit, visits, binId, totalIn, totalOut, used);
            var next := NextBin(binId, scan.view.swapForY);
            match VisitBin(scan, binId, used)
            case Skipped => curve == OneMoreVisit(BuildFrom(scan, inputLimit, visits - 1, next, totalIn, totalOut,
                                                            used))
            case MissingArray => curve.value.segments == [] && curve.value.stop == MissingBinArray
            case ArrayLimit => curve.value.segments == [] && curve.value.stop == BinArrayLimitReached
            case Unreadable => false
            case Found(nowUsed, bin, fees) =>
              var capacity := Capacity(bin, scan.view.swapForY, scan.feeOnInput, fees);
              if capacity == Err(InsufficientLiquidity) then
                curve == OneMoreVisit(BuildFrom(scan, inputLimit, visits - 1, next, totalIn, totalOut, nowUsed))
              else
                && capacity.Ok?
                && AddedSegment(scan, binId, used, totalIn, totalOut).Ok?
                && var segment := AddedSegment(scan, binId, used, totalIn, totalOut).value;
                   segment.used == nowUsed &&
                   if segment.inputEnd >= inputLimit then curve == Ok(CurveData([segment], 1, InputLimitReached))
                   else curve == WithSegment(segment, BuildFrom(scan, inputLimit, visits - 1, next, segment.inputEnd,
                                                                segment.outputEnd, nowUsed))
  {
    hide VisitBin, Capacity, TotalFeeRate, NextBin;
  }

  /** A segment that does not span every input records the capacity of its bin's side. */
  lemma SegmentIsMeasured(scan: Scan, binId: i32, used: seq<i64>, totalIn: u64, totalOut: u64) returns (side: Side)
    requires VisitBin(scan, binId, used).Found? && AddedSegment(scan, binId, used, totalIn, totalOut).Ok?
    requires AddedSegment(scan, binId, used, totalIn, totalOut).value.inputEnd - totalIn < U64_MAX
    ensures Exact(AddedSegment(scan, binId, used, totalIn, totalOut).value, side)
    ensures HasSide(VisitBin(scan, binId, used).bin, side)
    ensures side.swapForY == scan.view.swapForY && side.feeOnInput == scan.feeOnInput
    ensures TotalFeeRate(scan.FeesAt(binId)) == Ok(side.rate) && side.CapacityIn() < U64_MAX
  {
    hide VisitBin, Capacity, TotalFeeRate, Drains, HasSide, Net, Gross;
    VisitIgnoresUsed(scan, binId, used);
    var visit := VisitBin(scan, binId, used);
    CapacityDrains(visit.bin, scan.view.swapForY, scan.feeOnInput, visit.fees);
    side := CapacityHasSide(visit.bin, scan.view.swapForY, scan.feeOnInput, visit.fees);
    HasSideFacts(visit.bin, side);
  }

  lemma HasSideFacts(bin: Bin, side: Side)
    requires HasSide(bin, side)
    ensures side.Valid() && side.price == bin.priceQ64
  {
  }

  // --- dust ---

  /** A unit of dust left by a positive input fee never meets a segment that would sell it. */
  predicate NoFreeDust(segments: seq<Segment>) {
    forall i :: 0 < i < |segments| && segments[i].feeOnInput && segments[i - 1].feeRate > 0 ==> segments[i].feeRate > 0
  }

  /** The base fee is positive, unless fees are taken from the output. */
  predicate PositiveBaseFee(scan: Scan) {
    scan.feeOnInput ==> scan.view.pair.fixed.baseFactor > 0 && scan.view.pair.binStep > 0
  }

  /** Every segment carries the fee mode of the pass, and with a positive base fee a positive rate under an input
      fee. */
  lemma {:induction false} BuildKeepsFees(scan: Scan, inputLimit: u64, visits: nat, binId: i32, totalIn: u64,
                                          totalOut: u64, used: seq<i64>)
    requires BuildFrom(scan, inputLimit, visits, binId, totalIn, totalOut, used).Ok?
    ensures var segments := BuildFrom(scan, inputLimit, visits, binId, totalIn, totalOut, used).value.segments;
            forall i :: 0 <= i < |segments| ==>
              && segments[i].feeOnInput == scan.feeOnInput
              && (PositiveBaseFee(scan) && scan.feeOnInput ==> segments[i].feeRate > 0)
    decreases visits
  {
    hide VisitBin, Capacity, NextBin, AddedSegment;
    if visits > 0 {
      BuildStep(scan, inputLimit, visits, binId, totalIn, totalOut, used);
      hide BuildFrom;
      var next := NextBin(binId, scan.view.swapForY);
      var visit := VisitBin(scan, binId, used);
      if visit.Skipped? {
        BuildKeepsFees(scan, inputLimit, visits - 1, next, totalIn, totalOut, used);
      } else if visit.Found? {
        if Capacity(visit.bin, scan.view.swapForY, scan.feeOnInput, visit.fees).Ok? {
          var segment := AddedSegment(scan, binId, used, totalIn, totalOut).value;
          AddedSegmentFees(scan, binId, used, totalIn, totalOut);
          if segment.inputEnd < inputLimit {
            BuildKeepsFees(scan, inputLimit, visits - 1, next, segment.inputEnd, segment.outputEnd, visit.used);
          }
        } else {
          BuildKeepsFees(scan, inputLimit, visits - 1, next, totalIn, totalOut, visit.used);
        }
      }
    }
  }

  lemma AddedSegmentFees(scan: Scan, binId: i32, used: seq<i64>, totalIn: u64, totalOut: u64)
    requires VisitBin(scan, binId, used).Found? && AddedSegment(scan, binId, used, totalIn, totalOut).Ok?
    ensures var segment := AddedSegment(scan, binId, used, totalIn, totalOut).value;
            && segment.feeOnInput == scan.feeOnInput
            && (PositiveBaseFee(scan) && scan.feeOnInput ==> segment.feeRate > 0)
  {
    hide VisitBin, Capacity, TotalFeeRate;
    VisitIgnoresUsed(scan, binId, used);
    if PositiveBaseFee(scan) && scan.feeOnInput {
      PositiveRate(scan.FeesAt(binId));
    }
  }

  /** Every segment's used arrays are at most two, repeat-free and in the direction of the swap. */
  lemma {:induction false} BuildUsesArraysInOrder(scan: Scan, inputLimit: u64, visits: nat, binId: i32, totalIn: u64,
                                                  totalOut: u64, used: seq<i64>)
    requires UsedInOrder(used, binId, scan.view.swapForY)
    requires BuildFrom(scan, inputLimit, visits, binId, totalIn, totalOut, used).Ok?
    ensures forall i :: 0 <= i < |BuildFrom(scan, inputLimit, visits, binId, totalIn, totalOut,
                                            used).value.segments| ==>
              var all := BuildFrom(scan, inputLimit, visits, binId, totalIn, totalOut, used).value.segments[i].used;
              |all| <= MAX_ARRAYS && (|all| == 2 ==> if scan.view.swapForY then all[0] > all[1] else all[0] < all[1])
    decreases visits
  {
    hide VisitBin, Capacity, NextBin, UsedInOrder, AddedSegment;
    if visits > 0 {
      BuildStep(scan, inputLimit, visits, binId, totalIn, totalOut, used);
      hide BuildFrom;
      var next := NextBin(binId, scan.view.swapForY);
      var visit := VisitBin(scan, binId, used);
      NextKeepsOrder(used, binId, scan.view.swapForY);
      if visit.Skipped? {
        BuildUsesArraysInOrder(scan, inputLimit, visits - 1, next, totalIn, totalOut, used);
      } else if visit.Found? {
        VisitKeepsOrder(scan, binId, used);
        if Capacity(visit.bin, scan.view.swapForY, scan.feeOnInput, visit.fees).Ok? {
          var segment := AddedSegment(scan, binId, used, totalIn, totalOut).value;
          if segment.inputEnd < inputLimit {
            BuildUsesArraysInOrder(scan, inputLimit, visits - 1, next, segment.inputEnd, segment.outputEnd, visit.used);
          }
        } else {
          BuildUsesArraysInOrder(scan, inputLimit, visits - 1, next, totalIn, totalOut, visit.used);
        }
      }
    }
  }

  lemma VisitKeepsOrder(scan: Scan, binId: i32, used: seq<i64>)
    requires UsedInOrder(used, binId, scan.view.swapForY) && VisitBin(scan, binId, used).Found?
    ensures var all := VisitBin(scan, binId, used).used;
            && UsedInOrder(all, NextBin(binId, scan.view.swapForY), scan.view.swapForY)
            && |all| <= MAX_ARRAYS && (|all| == 2 ==> if scan.view.swapForY then all[0] > all[1] else all[0] < all[1])
  {
    hide UsedInOrder, NextBin, Initialized, FindArray;
    var visit := VisitBin(scan, binId, used);
    UseKeepsOrder(used, binId, scan.view.swapForY);
    OrderedUse(visit.used, binId, scan.view.swapForY);
    NextKeepsOrder(visit.used, binId, scan.view.swapForY);
  }
}
