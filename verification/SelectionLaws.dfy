/** Which search each direction ends up with, told from the probes and from the routes of the minimum. */
module SelectionLaws {
  import opened Arithmetic
  import opened PumpQuote
  import opened PumpBoundary
  import opened BinWalk
  import opened DlmmCurve
  import opened CurveBuild
  import opened CurveRefinement
  import opened Candidates
  import opened Search
  import opened Selection
  import opened SelectionProperties
  import opened ExpansionGate

  /** One choice is at least as good as another: more profit, or the same profit for no more input. */
  predicate AtLeastAsGood(choice: DirectionChoice, other: DirectionChoice) {
    choice.profit > other.profit || (choice.profit == other.profit && choice.amountIn <= other.amountIn)
  }

  /** A best choice, told without the order of the evaluation loop. */
  lemma BestIsExplicit(best: Option<DirectionChoice>, evaluate: Evaluator, candidates: seq<u64>, min: u64, largest: u64,
                       minProfit: u64, a: u64, quote: CurveQuote)
    requires IsBest(best, evaluate, candidates, min, largest, minProfit)
    requires a in candidates && min <= a <= largest && evaluate(a) == Ok(quote) && quote.amountOut >= a + minProfit
    ensures best.Some? && best.value.amountIn in candidates && min <= best.value.amountIn <= largest
    ensures AtLeastAsGood(best.value, DirectionChoice(a, quote.amountOut, quote.amountOut - a, quote.used))
  {
    var k :| 0 <= k < |candidates| && candidates[k] == a;
  }

  /** Whether a direction takes part in a selection. */
  predicate Ready(forwards: bool, reverseReady: bool) {
    forwards || reverseReady
  }

  function DirectionOf(forwards: bool): Direction {
    if forwards then PumpToMeteora else MeteoraToPump
  }

  /** A search is where a direction's choice comes from, with its statistics, and no better than the selected one; a tie
      goes forward. */
  predicate Decided(selection: DynamicSelection, forwards: bool, search: DirectionSearch) {
    && (selection.direction == DirectionOf(forwards) ==>
          && search.best == Some(selection.choice)
          && selection.largestCompleteAmount == search.largestCompleteAmount && selection.visited == search.visited
          && selection.boundaryCandidates == search.boundaryCandidates
          && selection.interiorCandidates == search.interiorCandidates)
    && (search.best.Some? ==> AtLeastAsGood(selection.choice, search.best.value))
    && (search.best.Some? && forwards && selection.direction == MeteoraToPump ==>
          !AtLeastAsGood(search.best.value, selection.choice))
  }

  /** A direction whose minimum pays is searched over the whole range, any other keeps its probe, and the selection is
      the
      better of the two results. */
  lemma SelectionWidens(market: Market, min: u64, max: u64, minProfit: u64, reverseReady: bool, forwards: bool)
    requires min <= max && SelectDynamic(market, min, max, minProfit, reverseReady).Ok? && Ready(forwards, reverseReady)
    ensures var selection := SelectDynamic(market, min, max, minProfit, reverseReady).value;
            var probe := Probe(forwards, market.pool, market.ViewOf(forwards), min, minProfit);
            var full := FullSearch(forwards, market.pool, market.ViewOf(forwards), min, max, minProfit);
            && probe.Ok?
            && (if min < max && probe.value.minimumQuoteComplete && probe.value.minimumAmountOut > min
                then full.Ok? && Decided(selection, forwards, full.value)
                else Decided(selection, forwards, probe.value))
  {
    hide Probe, FullSearch;
  }

  /** A selection fails only when neither of those results has a choice. */
  lemma FailureMeansNothingFound(market: Market, min: u64, max: u64, minProfit: u64, reverseReady: bool, forwards: bool)
    requires min <= max && SelectDynamic(market, min, max, minProfit, reverseReady).Err?
               && Ready(forwards, reverseReady)
    requires Probe(true, market.pool, market.ViewOf(true), min, minProfit).Ok?
    requires reverseReady ==> Probe(false, market.pool, market.ViewOf(false), min, minProfit).Ok?
    requires FullSearch(true, market.pool, market.ViewOf(true), min, max, minProfit).Ok?
    requires reverseReady ==> FullSearch(false, market.pool, market.ViewOf(false), min, max, minProfit).Ok?
    ensures var probe := Probe(forwards, market.pool, market.ViewOf(forwards), min, minProfit).value;
            var full := FullSearch(forwards, market.pool, market.ViewOf(forwards), min, max, minProfit).value;
            if min < max && probe.minimumQuoteComplete && probe.minimumAmountOut > min then full.best.None?
            else probe.best.None?
  {
    hide Probe, FullSearch;
  }

  /** Over tame bins, a direction takes part with its full search exactly when the fixed route of the minimum pays more
      than the minimum, and with its probe otherwise. */
  lemma SelectionFollowsRoutes(market: Market, min: u64, max: u64, minProfit: u64, reverseReady: bool, forwards: bool)
    requires 0 < min < max && Regular(forwards, market, min)
    requires SelectDynamic(market, min, max, minProfit, reverseReady).Ok? && Ready(forwards, reverseReady)
    ensures var selection := SelectDynamic(market, min, max, minProfit, reverseReady).value;
            var probe := Probe(forwards, market.pool, market.ViewOf(forwards), min, minProfit);
            var full := FullSearch(forwards, market.pool, market.ViewOf(forwards), min, max, minProfit);
            var route := RouteQuote(forwards, market.pool, market.ViewOf(forwards), min);
            && probe.Ok?
            && (route.Some? && route.value.amountOut > min ==> full.Ok? && Decided(selection, forwards, full.value))
            && (!(route.Some? && route.value.amountOut > min) ==> Decided(selection, forwards, probe.value))
  {
    hide Probe, FullSearch, RouteQuote, Regular, SelectDynamic, Decided;
    SelectionWidens(market, min, max, minProfit, reverseReady, forwards);
    OpensIffRoutePays(forwards, market, min, minProfit);
  }

  /** A widened direction earns at least what its search finds at any amount it evaluates. */
  lemma SelectionBeatsEvaluations(market: Market, min: u64, max: u64, minProfit: u64, reverseReady: bool,
                                  forwards: bool,
                                  a: u64, quote: CurveQuote)
    requires min < max && SelectDynamic(market, min, max, minProfit, reverseReady).Ok? && Ready(forwards, reverseReady)
    requires var probe := Probe(forwards, market.pool, market.ViewOf(forwards), min, minProfit);
             probe.Ok? && probe.value.minimumQuoteComplete && probe.value.minimumAmountOut > min
    requires var scope := ScopeOf(forwards, market, min, max, true);
             && scope.Ok? && a in scope.value.amounts && min <= a <= scope.value.largest
             && scope.value.evaluate(a) == Ok(quote) && quote.amountOut >= a + minProfit && minProfit > 0
    ensures AtLeastAsGood(SelectDynamic(market, min, max, minProfit, reverseReady).value.choice,
                          DirectionChoice(a, quote.amountOut, quote.amountOut - a, quote.used))
  {
    hide Probe, FullSearch, SelectDynamic, ScopeOf, IsBest;
    SelectionWidens(market, min, max, minProfit, reverseReady, forwards);
    var probe := Probe(forwards, market.pool, market.ViewOf(forwards), min, minProfit).value;
    var best := FullSearch(forwards, market.pool, market.ViewOf(forwards), min, max, minProfit).value.best;
    FinalSearchIsBest(forwards, market, min, max, minProfit, true, probe);
    var scope := ScopeOf(forwards, market, min, max, true).value;
    BestIsExplicit(best, scope.evaluate, scope.amounts, min, scope.largest, minProfit, a, quote);
  }

  // --- the fixed amount ---

  /** A fixed-amount selection fails as overflow when amount and minimum profit do not add up to a u64, as incomplete
      when
      neither route quotes, and otherwise because neither pays both. */
  lemma FixedFailures(market: Market, a: u64, minProfit: u64, reverseReady: bool)
    ensures var forward := RouteQuote(true, market.pool, market.ViewOf(true), a);
            var reverse := if reverseReady then RouteQuote(false, market.pool, market.ViewOf(false), a) else None;
            var fixed := SelectFixed(market, a, minProfit, reverseReady);
            && (fixed.Ok? <==>
                  a + minProfit <= U64_MAX
                  && ((forward.Some? && forward.value.amountOut >= a + minProfit)
                      || (reverse.Some? && reverse.value.amountOut >= a + minProfit)))
            && (fixed.Err? ==>
                  fixed.error == if a + minProfit > U64_MAX then ArithmeticOverflow
                                 else if forward.None? && reverse.None? then BestDirectionQuoteIncomplete
                                 else NoProfitableDirection)
  {
    hide RouteQuote;
  }

  /** A successful one takes the route with the larger output, forwards on a tie, with that route's output and
      arrays. */
  lemma FixedTakesTheLarger(market: Market, a: u64, minProfit: u64, reverseReady: bool)
    requires SelectFixed(market, a, minProfit, reverseReady).Ok?
    ensures var forward := RouteQuote(true, market.pool, market.ViewOf(true), a);
            var reverse := if reverseReady then RouteQuote(false, market.pool, market.ViewOf(false), a) else None;
            var (direction, quote) := SelectFixed(market, a, minProfit, reverseReady).value;
            && quote.amountOut >= a + minProfit
            && (direction == PumpToMeteora ==>
                  forward == Some(quote) && (reverse.Some? ==> reverse.value.amountOut <= quote.amountOut))
            && (direction == MeteoraToPump ==>
                  reverse == Some(quote) && (forward.Some? ==> forward.value.amountOut < quote.amountOut))
  {
    hide RouteQuote;
  }
}
