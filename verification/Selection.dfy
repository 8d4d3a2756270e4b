/** Probing the minimum, expanding the promising directions, and deciding between them. */
module Selection {
  import opened Arithmetic
  import opened PumpQuote
  import opened PumpBoundary
  import opened LbPair
  import opened BinWalk
  import opened DlmmCurve
  import opened CurveBuild
  import opened CurveShape
  import opened CurveRefinement
  import opened Candidates
  import opened Search

  /** The accounts of both protocols, as parsed: the pool, the pair with its supplied arrays, and which side the target
      token is. */
  datatype Market = Market(pool: PumpPool, pair: Pair, arrays: seq<BinArray>, extension: Option<seq<u8>>,
                           targetIsX: bool, timestamp: i64) {
    /** The forward route sells the target token to the pair; the reverse route buys it there. */
    function ViewOf(forwards: bool): View {
      View(pair, arrays, extension, targetIsX == forwards, timestamp)
    }
  }

  datatype Direction = PumpToMeteora | MeteoraToPump

  datatype DynamicSelection = DynamicSelection(direction: Direction, choice: DirectionChoice,
                                               largestCompleteAmount: u64,
                                               boundaryCandidates: u8, interiorCandidates: u8, visited: nat)

  // --- one direction ---

  /** How much curve input an amount can reach: the Pump output forwards, the amount itself in reverse. */
  function InputLimit(forwards: bool, pool: PumpPool, amount: u64): u64 {
    if !forwards then amount
    else
      match BuyAmountOut(pool, amount)
      case Some(output) => output
      case None => U64_MAX
  }

  function ProbeMinimum(curve: CurveData, min: u64, minProfit: u64, largest: u64,
                        quote: Result<CurveQuote, QuoteError>): DirectionSearch
  {
    if largest < min || quote.Err? then Incomplete(curve, largest)
    else
      var out := quote.value.amountOut;
      var profit: u64 := if out < min then 0 else out - min;
      var best := if profit >= minProfit then Some(DirectionChoice(min, out, profit, quote.value.used)) else None;
      DirectionSearch(best, true, true, out, largest, 0, 0, curve.visited, curve.stop)
  }

  function Probe(forwards: bool, pool: PumpPool, view: View, min: u64,
                 minProfit: u64): Result<DirectionSearch, ArbError>
  {
    var curve :- Build(view, InputLimit(forwards, pool, min));
    Ok(ProbeMinimum(curve, min, minProfit, Largest(forwards, pool, curve.segments, min),
                    EvaluatorOf(forwards, pool, curve.segments)(min)))
  }

  lemma BuiltIsContiguous(view: View, inputLimit: u64)
    requires Build(view, inputLimit).Ok?
    ensures Contiguous(Build(view, inputLimit).value.segments, 0, 0)
    ensures AllOrdered(Build(view, inputLimit).value.segments) && Ascending(Build(view, inputLimit).value.segments)
    ensures |Build(view, inputLimit).value.segments| <= MAX_VISITED
  {
    hide BuildFrom, Contiguous;
    BuildIsContiguous(Prepare(view).value, inputLimit, MAX_VISITED, view.pair.activeId, 0, 0, []);
    ContiguousInOrder(Build(view, inputLimit).value.segments, 0, 0);
  }

  function FullSearch(forwards: bool, pool: PumpPool, view: View, min: u64, max: u64,
                      minProfit: u64): Result<DirectionSearch, ArbError>
  {
    var limit := InputLimit(forwards, pool, max);
    var curve :- Build(view, limit);
    BuiltIsContiguous(view, limit);
    Ok(SearchOf(forwards, pool, curve, min, max, minProfit))
  }

  // --- the decision ---

  /** A complete quote of the minimum with a positive spread. */
  predicate Opens(probe: DirectionSearch, min: u64) {
    probe.minimumQuoteComplete && probe.minimumAmountOut > min
  }

  function DirectionsToExpand(forward: DirectionSearch, reverse: DirectionSearch, min: u64, max: u64): (bool, bool) {
    if max == min then (false, false) else (Opens(forward, min), Opens(reverse, min))
  }

  function Decide(forward: DirectionSearch, reverse: DirectionSearch): Result<(Direction, DirectionChoice), ArbError> {
    match (forward.best, reverse.best)
    case (Some(f), Some(r)) => if BetterChoice(r, f) then Ok((MeteoraToPump, r)) else Ok((PumpToMeteora, f))
    case (Some(f), None) => Ok((PumpToMeteora, f))
    case (None, Some(r)) => Ok((MeteoraToPump, r))
    case (None, None) =>
      if forward.minimumQuoteComplete && reverse.minimumQuoteComplete then Err(NoProfitableDirection)
      else Err(BestDirectionQuoteIncomplete)
  }

  /** The reverse direction when the cashback account is not ready. */
  const NOT_READY: DirectionSearch := DirectionSearch(None, false, false, 0, 0, 0, 0, 0, NoUsableLiquidity)

  function ReverseProbe(market: Market, min: u64, minProfit: u64, reverseReady: bool): Result<DirectionSearch, ArbError>
  {
    if reverseReady then Probe(false, market.pool, market.ViewOf(false), min, minProfit) else Ok(NOT_READY)
  }

  /** The search that a direction ends up with: the full one when it is expanded, the probe otherwise. */
  function FinalSearch(forwards: bool, market: Market, min: u64, max: u64, minProfit: u64, expand: bool,
                       probe: DirectionSearch): Result<DirectionSearch, ArbError>
  {
    if expand then FullSearch(forwards, market.pool, market.ViewOf(forwards), min, max, minProfit) else Ok(probe)
  }

  function SelectionOf(forward: DirectionSearch, reverse: DirectionSearch): Result<DynamicSelection, ArbError> {
    var (direction, choice) :- Decide(forward, reverse);
    var stats := if direction == PumpToMeteora then forward else reverse;
    Ok(DynamicSelection(direction, choice, stats.largestCompleteAmount, stats.boundaryCandidates,
                        stats.interiorCandidates, stats.visited))
  }

  function SelectDynamic(market: Market, min: u64, max: u64, minProfit: u64,
                         reverseReady: bool): Result<DynamicSelection, ArbError>
  {
    var forwardProbe :- Probe(true, market.pool, market.ViewOf(true), min, minProfit);
    var reverseProbe :- ReverseProbe(market, min, minProfit, reverseReady);
    var (expandForward, expandReverse) := DirectionsToExpand(forwardProbe, reverseProbe, min, max);
    var forward :- FinalSearch(true, market, min, max, minProfit, expandForward, forwardProbe);
    var reverse :- FinalSearch(false, market, min, max, minProfit, expandReverse, reverseProbe);
    SelectionOf(forward, reverse)
  }

  method ProbeDirection(forwards: bool, pool: PumpPool, view: View, min: u64,
                        minProfit: u64) returns (r: Result<DirectionSearch, ArbError>)
    ensures r == Probe(forwards, pool, view, min, minProfit)
  {
    hide Build, Largest, EvaluatorOf, BuyAmountOut;
    var curve := new DlmmCurve();
    var inputLimit := InputLimit(forwards, pool, min);
    var built := BuildCurve(curve, view, inputLimit);
    if built.Err? {
      return Err(built.error);
    }
    var segments := curve.Segments();
    var largest := Largest(forwards, pool, segments, min);
    return Ok(ProbeMinimum(curve.Data(), min, minProfit, largest, EvaluatorOf(forwards, pool, segments)(min)));
  }

  method SearchDirection(forwards: bool, pool: PumpPool, view: View, min: u64, max: u64,
                         minProfit: u64) returns (r: Result<DirectionSearch, ArbError>)
    ensures r == FullSearch(forwards, pool, view, min, max, minProfit)
  {
    hide Build, SearchOf, BuyAmountOut, Contiguous;
    var curve := new DlmmCurve();
    var inputLimit := InputLimit(forwards, pool, max);
    var built := BuildCurve(curve, view, inputLimit);
    if built.Err? {
      return Err(built.error);
    }
    BuiltIsContiguous(view, inputLimit);
    var search: DirectionSearch;
    if forwards {
      search := SearchForward(pool, curve, min, max, minProfit);
    } else {
      search := SearchReverse(pool, curve, min, max, minProfit);
    }
    return Ok(search);
  }

  method SelectDynamicAmount(market: Market, min: u64, max: u64, minProfit: u64,
                             reverseReady: bool) returns (r: Result<DynamicSelection, ArbError>)
    ensures r == SelectDynamic(market, min, max, minProfit, reverseReady)
  {
    hide Probe, FullSearch, DirectionsToExpand, SelectionOf;
    var forward :- ProbeDirection(true, market.pool, market.ViewOf(true), min, minProfit);
    var reverse := NOT_READY;
    if reverseReady {
      reverse :- ProbeDirection(false, market.pool, market.ViewOf(false), min, minProfit);
    }
    var (expandForward, expandReverse) := DirectionsToExpand(forward, reverse, min, max);
    if expandForward {
      forward :- SearchDirection(true, market.pool, market.ViewOf(true), min, max, minProfit);
    }
    if expandReverse {
      reverse :- SearchDirection(false, market.pool, market.ViewOf(false), min, max, minProfit);
    }
    return SelectionOf(forward, reverse);
  }

  // --- the fixed-amount selection ---

  function ChooseDirection(forwardOut: Option<u64>, reverseOut: Option<u64>,
                           requiredOut: u64): Result<Direction, ArbError>
  {
    if forwardOut.None? && reverseOut.None? then Err(BestDirectionQuoteIncomplete)
    else
      var forward := if forwardOut.Some? && forwardOut.value >= requiredOut then forwardOut else None;
      var reverse := if reverseOut.Some? && reverseOut.value >= requiredOut then reverseOut else None;
      match (forward, reverse)
      case (None, None) => Err(NoProfitableDirection)
      case (Some(f), Some(r)) => Ok(if r > f then MeteoraToPump else PumpToMeteora)
      case (Some(_), None) => Ok(PumpToMeteora)
      case (None, Some(_)) => Ok(MeteoraToPump)
  }

  /** A whole route quoted through the account walk: its output, and the arrays of the walk. */
  function RouteQuote(forwards: bool, pool: PumpPool, view: View, amountIn: u64): Option<WalkQuote> {
    if forwards then
      var bought :- BuyAmountOut(pool, amountIn);
      Walk(view, bought).ToOption()
    else
      var dlmm :- Walk(view, amountIn).ToOption();
      var sale :- SellBaseIn(dlmm.amountOut, pool).ToOption();
      Some(WalkQuote(sale.amountOut, dlmm.used))
  }

  function OutputOf(quote: Option<WalkQuote>): Option<u64> {
    if quote.Some? then Some(quote.value.amountOut) else None
  }

  /** The selected route of the fixed-amount instruction, with its output and arrays. */
  function SelectFixed(market: Market, amountIn: u64, minProfit: u64, reverseReady: bool)
    : Result<(Direction, WalkQuote), ArbError>
  {
    var forward := RouteQuote(true, market.pool, market.ViewOf(true), amountIn);
    var reverse := if reverseReady then RouteQuote(false, market.pool, market.ViewOf(false), amountIn) else None;
    if amountIn + minProfit > U64_MAX then Err(ArithmeticOverflow)
    else
      var direction :- ChooseDirection(OutputOf(forward), OutputOf(reverse), amountIn + minProfit);
      Ok((direction, if direction == PumpToMeteora then forward.value else reverse.value))
  }
}
