/** Markets whose prices leave no profit: there no route of any amount pays more than it costs, and a shut gate loses
    nothing. */
module PriceBound {
  import opened Arithmetic
  import opened PumpQuote
  import opened PumpBoundary
  import opened BinQuote
  import opened BinList
  import opened BinCapacity
  import opened BinWalk
  import opened DlmmCurve
  import opened CurveBuild
  import opened CurveShape
  import opened CurveRefinement
  import opened Candidates
  import opened Search
  import opened Selection
  import opened SelectionProperties

  // --- rates of exchange ---

  /** Two exchanges at p1 / q1 and p2 / q2, one after the other. */
  lemma Chain(given: nat, mid: nat, got: nat, p1: nat, q1: nat, p2: nat, q2: nat)
    requires mid * q1 <= given * p1 && got * q2 <= mid * p2
    ensures got * (q1 * q2) <= given * (p1 * p2)
  {
    MulMono(got * q2, mid * p2, q1);
    MulMono(mid * q1, given * p1, p2);
    Regroup(got, q2, q1);
    Regroup(mid, p2, q1);
    Regroup(mid, q1, p2);
    Regroup(given, p1, p2);
  }

  lemma Regroup(a: nat, b: nat, c: nat)
    ensures a * b * c == a * (b * c) == a * (c * b)
  {
  }

  /** A rate of at most num / den gives at most that rate. */
  lemma WithinRate(given: nat, got: nat, p: nat, q: nat, num: nat, den: nat)
    requires q > 0 && got * q <= given * p && p * den <= num * q
    ensures got * den <= given * num
  {
    MulMono(got * q, given * p, den);
    MulMono(p * den, num * q, given);
    Regroup(got, q, den);
    Regroup(got, den, q);
    Regroup(given, p, den);
    Regroup(given, num, q);
    MulCancelLe(got * den, given * num, q);
  }

  // --- the walk ---

  /** A bin's price as a fraction of output per input. */
  function PriceOf(price: nat, swapForY: bool): (nat, nat) {
    if swapForY then (price, TWO_64) else (TWO_64, price)
  }

  /** After its fee, a bin pays at most num / den for each unit of input. */
  predicate PaysAtMost(price: nat, rate: FeeRate, swapForY: bool, num: nat, den: nat) {
    var (p, q) := PriceOf(price, swapForY);
    (FEE_PRECISION - rate) * p * den <= num * (FEE_PRECISION * q)
  }

  /** Every bin of the next visits pays at most num / den. */
  predicate BinsPayAtMost(scan: Scan, visits: nat, binId: i32, num: nat, den: nat) {
    visits == 0 ||
    var visit := VisitBin(scan, binId, []);
    && (visit.Found? && TotalFeeRate(visit.fees).Ok? ==>
          PaysAtMost(visit.bin.priceQ64, TotalFeeRate(visit.fees).value, scan.view.swapForY, num, den))
    && BinsPayAtMost(scan, visits - 1, NextBin(binId, scan.view.swapForY), num, den)
  }

  /** A fill pays at most its bin's price after the fee, whichever side the fee is taken from. */
  lemma FillIsBounded(remaining: u64, bin: Bin, swapForY: bool, feeOnInput: bool, rate: FeeRate)
    requires FillBin(remaining, bin, swapForY, feeOnInput, rate).Ok?
    ensures var fill := FillBin(remaining, bin, swapForY, feeOnInput, rate).value;
            var (p, q) := PriceOf(bin.priceQ64, swapForY);
            fill.output * (FEE_PRECISION * q) <= fill.used * ((FEE_PRECISION - rate) * p)
  {
    hide FillBin;
    var fill := FillBin(remaining, bin, swapForY, feeOnInput, rate).value;
    var (p, q) := PriceOf(bin.priceQ64, swapForY);
    FillRespectsPrice(remaining, bin, swapForY, feeOnInput, rate);
    FillPaysFee(remaining, bin, swapForY, feeOnInput, rate);
    if feeOnInput {
      Chain(fill.used, NetInput(fill, true), fill.output, FEE_PRECISION - rate, FEE_PRECISION, p, q);
    } else {
      Chain(fill.used, RawOutput(fill, false), fill.output, p, q, FEE_PRECISION - rate, FEE_PRECISION);
    }
  }

  /** A partial quote pays at most the bound for what it consumes. */
  lemma PartialIsBounded(remaining: u64, bin: Bin, swapForY: bool, feeOnInput: bool, fees: FeeParameters, num: nat,
                         den: nat)
    requires remaining > 0 && PartialQuote(remaining, bin, swapForY, feeOnInput, fees).Ok?
    requires TotalFeeRate(fees).Ok? ==> PaysAtMost(bin.priceQ64, TotalFeeRate(fees).value, swapForY, num, den)
    ensures var quote := PartialQuote(remaining, bin, swapForY, feeOnInput, fees).value;
            quote.amountIn <= remaining && quote.amountOut * den <= quote.amountIn * num
  {
    hide FillBin, TotalFeeRate, PartialQuote;
    PartialNeedsRate(remaining, bin, swapForY, feeOnInput, fees);
    var rate := TotalFeeRate(fees).value;
    PartialQuoteIsFill(remaining, bin, swapForY, feeOnInput, fees);
    FillWithinRemaining(remaining, bin, swapForY, feeOnInput, rate);
    FillIsBounded(remaining, bin, swapForY, feeOnInput, rate);
    var fill := FillBin(remaining, bin, swapForY, feeOnInput, rate).value;
    BinWithinRate(fill.used, fill.output, bin.priceQ64, rate, swapForY, num, den);
  }

  lemma BinWithinRate(used: nat, output: nat, price: nat, rate: FeeRate, swapForY: bool, num: nat, den: nat)
    requires PaysAtMost(price, rate, swapForY, num, den)
    requires var (p, q) := PriceOf(price, swapForY);
             output * (FEE_PRECISION * q) <= used * ((FEE_PRECISION - rate) * p)
    ensures output * den <= used * num
  {
    var (p, q) := PriceOf(price, swapForY);
    if q == 0 {
      ZeroDenominator((FEE_PRECISION - rate) * p, den, num * (FEE_PRECISION * q));
    } else {
      WithinRate(used, output, (FEE_PRECISION - rate) * p, FEE_PRECISION * q, num, den);
    }
  }

  lemma ZeroDenominator(positive: nat, den: nat, bound: nat)
    requires positive > 0 && bound == 0 && positive * den <= bound
    ensures den == 0
  {
  }

  /** The walk pays at most the bound for its whole input. */
  lemma {:induction false} WalkIsBounded(scan: Scan, visits: nat, binId: i32, remaining: u64, amountOut: u64,
                                         used: seq<i64>,
                                         num: nat, den: nat)
    requires BinsPayAtMost(scan, visits, binId, num, den)
    requires WalkFrom(scan, visits, binId, remaining, amountOut, used).Ok?
    ensures WalkFrom(scan, visits, binId, remaining, amountOut, used).value.amountOut * den
            <= amountOut * den + remaining * num
    decreases visits
  {
    hide VisitBin, PartialQuote, NextBin, PaysAtMost, TotalFeeRate;
    if remaining > 0 && visits > 0 {
      var next := NextBin(binId, scan.view.swapForY);
      var visit := VisitBin(scan, binId, used);
      if visit.Skipped? {
        WalkIsBounded(scan, visits - 1, next, remaining, amountOut, used, num, den);
      } else if visit.Found? {
        VisitIgnoresUsed(scan, binId, used);
        var quote := PartialQuote(remaining, visit.bin, scan.view.swapForY, scan.feeOnInput, visit.fees).value;
        PartialIsBounded(remaining, visit.bin, scan.view.swapForY, scan.feeOnInput, visit.fees, num, den);
        WalkIsBounded(scan, visits - 1, next, remaining - quote.amountIn, amountOut + quote.amountOut, visit.used, num,
                      den);
        SplitBounds(quote.amountIn, remaining, num, quote.amountOut, amountOut, den);
      }
    }
  }

  lemma SplitBounds(taken: nat, remaining: nat, num: nat, paid: nat, before: nat, den: nat)
    requires taken <= remaining
    ensures (remaining - taken) * num == remaining * num - taken * num
    ensures (before + paid) * den == before * den + paid * den
  {
  }

  // --- the pool ---

  /** A buy pays at most the pool's spot price after its fees for the whole input. */
  lemma BuyIsBounded(pool: PumpPool, amountIn: u64)
    requires BuyAmountOut(pool, amountIn).Some?
    ensures BuyAmountOut(pool, amountIn).value * ((FEE_DENOMINATOR + pool.fees.Total()) * pool.EffectiveReserve())
            <= amountIn * (FEE_DENOMINATOR * pool.baseReserve)
  {
    hide EffectiveQuote, CurveOutput, BuyAmountOut;
    AmountOutIsCurveOutput(pool, amountIn);
    var f := EffectiveQuote(amountIn, pool.fees);
    EffectiveWithinFees(amountIn, pool.fees);
    CurveOutputIsBounded(f - 1, pool);
    MulMono(f - 1, f, pool.baseReserve);
    Chain(amountIn, f, BuyAmountOut(pool, amountIn).value, FEE_DENOMINATOR, FEE_DENOMINATOR + pool.fees.Total(),
          pool.baseReserve, pool.EffectiveReserve());
  }

  lemma EffectiveWithinFees(q: nat, fees: PumpFees)
    ensures EffectiveQuote(q, fees) * (FEE_DENOMINATOR + fees.Total()) <= q * FEE_DENOMINATOR
  {
    hide TotalWithFees, Estimate;
    EstimateBounds(q, fees);
    MulMono(EffectiveQuote(q, fees), Estimate(q, fees), FEE_DENOMINATOR + fees.Total());
  }

  lemma CurveOutputIsBounded(curveInput: nat, pool: PumpPool)
    requires PoolUsable(pool)
    ensures CurveOutput(curveInput, pool) * pool.EffectiveReserve() <= curveInput * pool.baseReserve
  {
    hide DivDown;
    var n, d := pool.baseReserve * curveInput, pool.EffectiveReserve() + curveInput;
    DivDownBounds(n, d);
    MulMono(pool.EffectiveReserve(), d, CurveOutput(curveInput, pool));
  }

  /** What a sale keeps of each whole after its fees. */
  function Kept(fees: PumpFees): nat {
    if fees.Total() < FEE_DENOMINATOR then FEE_DENOMINATOR - fees.Total() else 0
  }

  /** A sale pays at most the pool's spot price after its fees, too. */
  lemma SaleIsBounded(pool: PumpPool, baseIn: u64)
    requires SellBaseIn(baseIn, pool).Ok?
    ensures SellBaseIn(baseIn, pool).value.amountOut * (pool.baseReserve * FEE_DENOMINATOR)
            <= baseIn * (pool.EffectiveReserve() * Kept(pool.fees))
  {
    hide RawSale, NetOfFees, SellBaseIn, LpFee, Kept;
    SellOutcome(baseIn, pool);
    var raw := RawSale(baseIn, pool);
    NetWithinFees(raw, pool.fees);
    RawSaleIsBounded(baseIn, pool);
    Chain(baseIn, raw, SellBaseIn(baseIn, pool).value.amountOut, pool.EffectiveReserve(), pool.baseReserve,
          Kept(pool.fees), FEE_DENOMINATOR);
  }

  lemma NetWithinFees(raw: nat, fees: PumpFees)
    ensures NetOfFees(raw, fees) * FEE_DENOMINATOR <= raw * Kept(fees)
  {
    hide NetOfFees;
    NetOfFeesBounds(raw, fees);
    MulMono(FEE_DENOMINATOR - fees.Total(), Kept(fees), raw);
  }

  lemma RawSaleIsBounded(baseIn: nat, pool: PumpPool)
    requires pool.baseReserve > 0
    ensures RawSale(baseIn, pool) * pool.baseReserve <= baseIn * pool.EffectiveReserve()
  {
    hide DivDown;
    var n, d := pool.EffectiveReserve() * baseIn, pool.baseReserve + baseIn;
    DivDownBounds(n, d);
    MulMono(pool.baseReserve, d, RawSale(baseIn, pool));
  }

  // --- whole routes ---

  /** After all fees, the pool's spot price times the best price of the pair's reachable bins, in the direction of the
      route, is at most one. */
  predicate NoPriceProfit(forwards: bool, pool: PumpPool, view: View, num: nat, den: nat) {
    var reserve := pool.EffectiveReserve();
    && den > 0
    && (Prepare(view).Ok? ==> BinsPayAtMost(Prepare(view).value, MAX_VISITED, view.pair.activeId, num, den))
    && if forwards then FEE_DENOMINATOR * pool.baseReserve * num
       <= (FEE_DENOMINATOR + pool.fees.Total()) * reserve * den
       else reserve * Kept(pool.fees) * num <= pool.baseReserve * FEE_DENOMINATOR * den
  }

  lemma WholeWalkIsBounded(view: View, amountIn: u64, num: nat, den: nat)
    requires Prepare(view).Ok? ==> BinsPayAtMost(Prepare(view).value, MAX_VISITED, view.pair.activeId, num, den)
    requires Walk(view, amountIn).Ok?
    ensures Walk(view, amountIn).value.amountOut * den <= amountIn * num
  {
    hide BinsPayAtMost, WalkFrom;
    WalkIsBounded(Prepare(view).value, MAX_VISITED, view.pair.activeId, amountIn, 0, [], num, den);
  }

  /** Two exchanges whose rates multiply to at most one return at most what they are given. */
  lemma TwoExchanges(given: nat, mid: nat, got: nat, p1: nat, q1: nat, p2: nat, q2: nat)
    requires mid * q1 <= given * p1 && got * q2 <= mid * p2 && p1 * p2 <= q1 * q2 && q1 * q2 > 0
    ensures got <= given
  {
    Chain(given, mid, got, p1, q1, p2, q2);
    WithinRate(given, got, p1 * p2, q1 * q2, 1, 1);
  }

  /** In such a market no amount is worth sending round the route. */
  lemma NoRoutePays(forwards: bool, pool: PumpPool, view: View, amountIn: u64, num: nat, den: nat)
    requires NoPriceProfit(forwards, pool, view, num, den) && RouteQuote(forwards, pool, view, amountIn).Some?
    ensures RouteQuote(forwards, pool, view, amountIn).value.amountOut <= amountIn
  {
    hide Walk, BuyAmountOut, SellBaseIn, BinsPayAtMost, Kept;
    var out := RouteQuote(forwards, pool, view, amountIn).value.amountOut;
    if forwards {
      var bought := BuyAmountOut(pool, amountIn).value;
      BuyIsBounded(pool, amountIn);
      BuyNeedsPool(pool, amountIn);
      WholeWalkIsBounded(view, bought, num, den);
      PositiveProducts(FEE_DENOMINATOR + pool.fees.Total(), pool.EffectiveReserve(), den);
      TwoExchanges(amountIn, bought, out, FEE_DENOMINATOR * pool.baseReserve,
                   (FEE_DENOMINATOR + pool.fees.Total()) * pool.EffectiveReserve(), num, den);
    } else {
      var swapped := Walk(view, amountIn).value.amountOut;
      var p, q := pool.EffectiveReserve() * Kept(pool.fees), pool.baseReserve * FEE_DENOMINATOR;
      WholeWalkIsBounded(view, amountIn, num, den);
      SaleIsBounded(pool, swapped);
      SaleNeedsPool(pool, swapped);
      PositiveProducts(pool.baseReserve, FEE_DENOMINATOR, den);
      Regroup(1, num, p);
      Regroup(1, den, q);
      TwoExchanges(amountIn, swapped, out, num, den, p, q);
    }
  }

  lemma PositiveProducts(a: nat, b: nat, c: nat)
    requires a > 0 && b > 0 && c > 0
    ensures a * b > 0 && a * b * c > 0 && c * (a * b) > 0
  {
  }

  lemma BuyNeedsPool(pool: PumpPool, amountIn: u64)
    requires BuyAmountOut(pool, amountIn).Some?
    ensures PoolUsable(pool)
  {
    AmountOutIsCurveOutput(pool, amountIn);
  }

  lemma SaleNeedsPool(pool: PumpPool, baseIn: u64)
    requires SellBaseIn(baseIn, pool).Ok?
    ensures PoolUsable(pool)
  {
  }

  /** There, over tame bins, the full search of a direction finds nothing in any range, so a shut gate loses nothing. */
  lemma NothingToFind(forwards: bool, pool: PumpPool, view: View, min: u64, max: u64, minProfit: u64, num: nat,
                      den: nat)
    requires minProfit > 0 && NoPriceProfit(forwards, pool, view, num, den)
    requires FullSearch(forwards, pool, view, min, max, minProfit).Ok?
               && TameView(view, InputLimit(forwards, pool, max))
    ensures FullSearch(forwards, pool, view, min, max, minProfit).value.best.None?
  {
    hide NoPriceProfit, TameView, Build, InputLimit, EvaluatorOf, RouteQuote, Largest, CandidatesOf, SummaryFrom,
         Contiguous;
    var limit := InputLimit(forwards, pool, max);
    var curve := Build(view, limit).value;
    BuiltIsContiguous(view, limit);
    var largest := Largest(forwards, pool, curve.segments, max);
    if largest >= min {
      var evaluate := EvaluatorOf(forwards, pool, curve.segments);
      var amounts := CandidatesOf(forwards, pool, curve, min, max).amounts;
      EvaluationFindsBest(evaluate, amounts, min, largest, minProfit);
      var best := SummaryOf(evaluate, amounts, min, largest, minProfit).best;
      if best.Some? {
        EvaluationIsRouteQuote(forwards, pool, view, limit, best.value.amountIn);
        NoRoutePays(forwards, pool, view, best.value.amountIn, num, den);
      }
    }
  }
}
