/** Building the curve from one bounded pass over the bins. */
module CurveBuild {
  import opened Arithmetic
  import opened BinQuote
  import opened BinList
  import opened BinCapacity
  import opened Addressing
  import opened LbPair
  import opened BinWalk
  import opened DlmmCurve

  /** The segment that a measured bin adds after the totals so far. */
  function SegmentOf(scan: Scan, totalIn: u64, totalOut: u64, bin: Bin, rate: u64, capacity: QuoteResult,
                     used: seq<i64>): Result<Segment, ArbError>
  {
    var inputEnd :- Fit64(totalIn + capacity.amountIn).OrElse(ArithmeticOverflow);
    var outputEnd :- Fit64(totalOut + capacity.amountOut).OrElse(ArithmeticOverflow);
    Ok(Segment(totalIn, inputEnd, totalOut, outputEnd, bin.priceQ64, rate, scan.view.swapForY, scan.feeOnInput, used))
  }

  /** The rest of the pass with a number of visits left: the segments still to come, the bins still visited and the
      reason to stop. */
  function BuildFrom(scan: Scan, inputLimit: u64, visits: nat, binId: i32, totalIn: u64, totalOut: u64,
                     used: seq<i64>): Result<CurveData, ArbError>
  {
    if visits == 0 then Ok(CurveData([], 0, VisitedBinLimitReached))
    else
      var next := NextBin(binId, scan.view.swapForY);
      match VisitBin(scan, binId, used)
      case Skipped => OneMoreVisit(BuildFrom(scan, inputLimit, visits - 1, next, totalIn, totalOut, used))
      case MissingArray => Ok(CurveData([], 1, MissingBinArray))
      case ArrayLimit => Ok(CurveData([], 1, BinArrayLimitReached))
      case Unreadable => Err(BestDirectionQuoteIncomplete)
      case Found(nowUsed, bin, fees) =>
        var rate :- TotalFeeRate(fees).OrElse(BestDirectionQuoteIncomplete);
        match Capacity(bin, scan.view.swapForY, scan.feeOnInput, fees)
        case Ok(capacity) =>
          var segment :- SegmentOf(scan, totalIn, totalOut, bin, rate, capacity, nowUsed);
          if segment.inputEnd >= inputLimit then Ok(CurveData([segment], 1, InputLimitReached))
          else
            WithSegment(segment, BuildFrom(scan, inputLimit, visits - 1, next, segment.inputEnd, segment.outputEnd,
                                           nowUsed))
        case Err(InsufficientLiquidity) =>
          OneMoreVisit(BuildFrom(scan, inputLimit, visits - 1, next, totalIn, totalOut, nowUsed))
        case Err(_) => Err(BestDirectionQuoteIncomplete)
  }

  function OneMoreVisit(rest: Result<CurveData, ArbError>): Result<CurveData, ArbError> {
    var curve :- rest;
    Ok(curve.(visited := curve.visited + 1))
  }

  function WithSegment(segment: Segment, rest: Result<CurveData, ArbError>): Result<CurveData, ArbError> {
    var curve :- rest;
    Ok(CurveData([segment] + curve.segments, curve.visited + 1, curve.stop))
  }

  /** A pass that ends without any segment and without a harder reason found no usable liquidity. */
  function Finish(curve: CurveData): CurveData {
    if |curve.segments| == 0 && curve.stop == VisitedBinLimitReached then curve.(stop := NoUsableLiquidity) else curve
  }

  function Build(view: View, inputLimit: u64): Result<CurveData, ArbError> {
    var scan :- Prepare(view);
    var curve :- BuildFrom(scan, inputLimit, MAX_VISITED, view.pair.activeId, 0, 0, []);
    Ok(Finish(curve))
  }

  /** What the loop has gathered followed by what is still to come. */
  predicate Continues(whole: Result<CurveData, ArbError>, segments: seq<Segment>, visited: nat,
                      rest: Result<CurveData, ArbError>)
  {
    match rest
    case Err(e) => whole == Err(e)
    case Ok(curve) => whole == Ok(CurveData(segments + curve.segments, visited + curve.visited, curve.stop))
  }

  lemma ContinuesVisit(whole: Result<CurveData, ArbError>, segments: seq<Segment>, visited: nat,
                       rest: Result<CurveData, ArbError>)
    requires Continues(whole, segments, visited, OneMoreVisit(rest))
    ensures Continues(whole, segments, visited + 1, rest)
  {
  }

  lemma ContinuesSegment(whole: Result<CurveData, ArbError>, segments: seq<Segment>, visited: nat, segment: Segment,
                         rest: Result<CurveData, ArbError>)
    requires Continues(whole, segments, visited, WithSegment(segment, rest))
    ensures Continues(whole, segments + [segment], visited + 1, rest)
  {
    if rest.Ok? {
      assert segments + ([segment] + rest.value.segments) == segments + [segment] + rest.value.segments;
    }
  }

  lemma ContinuesDone(whole: Result<CurveData, ArbError>, segments: seq<Segment>, visited: nat,
                      rest: Result<CurveData, ArbError>)
    requires Continues(whole, segments, visited, rest)
    ensures rest.Err? ==> whole == rest
    ensures rest.Ok? && |rest.value.segments| == 0 ==>
              whole == Ok(CurveData(segments, visited + rest.value.visited, rest.value.stop))
    ensures rest.Ok? ==> whole == Ok(CurveData(segments + rest.value.segments, visited + rest.value.visited,
                                               rest.value.stop))
  {
    assert segments + [] == segments;
  }

  method BuildCurve(curve: DlmmCurve, view: View, inputLimit: u64) returns (r: Result<(), ArbError>)
    requires curve.Valid()
    modifies curve, curve.segments
    ensures curve.Valid()
    ensures r.Ok? ==> Build(view, inputLimit) == Ok(curve.Data())
    ensures r.Err? ==> Build(view, inputLimit) == Err(r.error)
  {
    hide BuildFrom, FeeOnInput, SupportsLimitOrders, Referenced;
    curve.Clear();
    var variable := new VolatilityState(view.pair.variable);
    variable.UpdateReference(view.pair.activeId, view.pair.fixed, view.timestamp);
    var feeOnInput :- FeeOnInput(view.pair, view.swapForY).OrElse(BestDirectionQuoteIncomplete);
    var withOrders :- SupportsLimitOrders(view.pair).OrElse(BestDirectionQuoteIncomplete);
    var _ :- Traverse(curve, Scan(view, feeOnInput, withOrders), variable, inputLimit);
    if curve.len == 0 && curve.stopReason == VisitedBinLimitReached {
      curve.stopReason := NoUsableLiquidity;
    }
    return Ok(());
  }

  /** The bounded pass over the bins, pushing one segment for each bin that holds usable liquidity. */
  method Traverse(curve: DlmmCurve, scan: Scan, variable: VolatilityState,
                  inputLimit: u64) returns (r: Result<(), ArbError>)
    requires curve.Valid() && curve.len == 0 && Tracks(variable, scan)
    modifies curve, curve.segments, variable
    ensures curve.Valid()
    ensures var whole := BuildFrom(scan, inputLimit, MAX_VISITED, scan.view.pair.activeId, 0, 0, []);
            if r.Ok? then whole == Ok(curve.Data()) else whole == Err(r.error)
  {
    hide Capacity, TotalFeeRate, VisitBin, NextBin, OneMoreVisit, WithSegment, SegmentOf, Continues;
    var activeId: i32, totalIn: u64, totalOut: u64 := scan.view.pair.activeId, 0, 0;
    var used: seq<i64> := [];
    var visitedBins := 0;
    var stopReason := VisitedBinLimitReached;
    ghost var whole := BuildFrom(scan, inputLimit, MAX_VISITED, activeId, 0, 0, []);
    ghost var rest, collected := whole, [];
    ContinuesStart(whole);
    while visitedBins < MAX_VISITED
      invariant curve.Valid() && Tracks(variable, scan)
      invariant curve.len <= visitedBins <= MAX_VISITED
      invariant stopReason == VisitedBinLimitReached
      invariant curve.Segments() == collected
      invariant rest == BuildFrom(scan, inputLimit, MAX_VISITED - visitedBins, activeId, totalIn, totalOut, used)
      invariant Continues(whole, collected, visitedBins, rest)
    {
      ContinuesDone(whole, collected, visitedBins, rest);
      var next := NextBin(activeId, scan.view.swapForY);
      ghost var visits := MAX_VISITED - visitedBins - 1;
      visitedBins := visitedBins + 1;
      var visit := Inspect(scan, activeId, used, variable);
      if visit.Skipped? {
        rest := BuildFrom(scan, inputLimit, visits, next, totalIn, totalOut, used);
        ContinuesVisit(whole, collected, visitedBins - 1, rest);
        activeId := next;
        continue;
      }
      if visit.Unreadable? {
        return Err(BestDirectionQuoteIncomplete);
      }
      if !visit.Found? {
        stopReason := if visit.MissingArray? then MissingBinArray else BinArrayLimitReached;
        break;
      }
      used := visit.used;
      var feeRate :- TotalFeeRate(visit.fees).OrElse(BestDirectionQuoteIncomplete);
      var capacity := Capacity(visit.bin, scan.view.swapForY, scan.feeOnInput, visit.fees);
      if capacity.Ok? {
        var segment :- SegmentOf(scan, totalIn, totalOut, visit.bin, feeRate, capacity.value, used);
        var pushed := curve.Push(segment);
        assert pushed.Ok?;  // no more segments than visited bins, so the buffer is never full
        totalIn, totalOut := segment.inputEnd, segment.outputEnd;
        ghost var before := collected;
        collected := collected + [segment];
        if totalIn >= inputLimit {
          stopReason := InputLimitReached;
          break;
        }
        rest := BuildFrom(scan, inputLimit, visits, next, totalIn, totalOut, used);
        ContinuesSegment(whole, before, visitedBins - 1, segment, rest);
      } else if capacity.error == InsufficientLiquidity {
        rest := BuildFrom(scan, inputLimit, visits, next, totalIn, totalOut, used);
        ContinuesVisit(whole, collected, visitedBins - 1, rest);
      } else {
        return Err(BestDirectionQuoteIncomplete);
      }
      activeId := next;
    }
    if stopReason == VisitedBinLimitReached {
      ContinuesDone(whole, collected, visitedBins, rest);
    }
    curve.visitedBins := visitedBins;
    curve.stopReason := stopReason;
    return Ok(());
  }

  lemma ContinuesStart(whole: Result<CurveData, ArbError>)
    ensures Continues(whole, [], 0, whole)
  {
    if whole.Ok? {
      assert [] + whole.value.segments == whole.value.segments;
    }
  }
}
