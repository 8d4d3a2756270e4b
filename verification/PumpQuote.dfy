/** Pump constant-product quotes with three separately rounded-up fees. */
module PumpQuote {
  import opened Arithmetic

  const FEE_DENOMINATOR: int := 10_000

  datatype PumpFees = PumpFees(lp: u16, protocol: u16, creator: u16) {
    /** The sum of the three rates, in basis points. */
    function Total(): nat {
      lp + protocol + creator
    }

    /** No single fee takes more than the whole amount. */
    predicate EachAtMostWhole() {
      lp <= FEE_DENOMINATOR && protocol <= FEE_DENOMINATOR && creator <= FEE_DENOMINATOR
    }
  }

  datatype PumpPool = PumpPool(baseReserve: u64, quoteReserve: u64, virtualReserve: u64, fees: PumpFees) {
    function EffectiveReserve(): nat {
      quoteReserve + virtualReserve
    }
  }

  /** One fee in checked 128-bit arithmetic, rounded up. */
  function FeeFor(amount: u128, bps: u16): Result<u128, QuoteError> {
    var product :- Fit128(amount * bps);
    CeilDiv(product, FEE_DENOMINATOR)
  }

  /** The post-fee quote of a buy: an estimate, corrected once for the rounding of the fees. */
  function CorrectedQuote(quoteIn: u64, fees: PumpFees): Result<u128, QuoteError> {
    var scaled :- Fit128(quoteIn * FEE_DENOMINATOR);
    var estimate: u128 := DivDown(scaled, FEE_DENOMINATOR + fees.Total());
    var lpFee :- FeeFor(estimate, fees.lp);
    var protocolFee :- FeeFor(estimate, fees.protocol);
    var creatorFee :- FeeFor(estimate, fees.creator);
    var totalWithFees :- Fit128(estimate + lpFee + protocolFee + creatorFee);
    if totalWithFees > quoteIn then Fit128(estimate - (totalWithFees - quoteIn)) else Ok(estimate)
  }

  /** The constant-product output in checked arithmetic. */
  function BuyOutput(curveInput: u128, pool: PumpPool): Result<u64, QuoteError>
    requires pool.quoteReserve > 0
  {
    var reserve :- Fit128(pool.EffectiveReserve());
    var numerator :- Fit128(pool.baseReserve * curveInput);
    var denominator :- Fit128(reserve + curveInput);
    Fit64(DivDown(numerator, denominator))
  }

  function BuyExactQuoteIn(quoteIn: u64, pool: PumpPool): Result<QuoteResult, QuoteError> {
    if quoteIn == 0 || pool.baseReserve == 0 || pool.quoteReserve == 0 then Err(InvalidInput)
    else
      var effectiveQuote :- CorrectedQuote(quoteIn, pool.fees);
      BuyWithEffective(quoteIn, effectiveQuote, pool)
  }

  /** One unit of the effective quote is withheld before the constant-product curve is applied. */
  function BuyWithEffective(quoteIn: u64, effectiveQuote: u128, pool: PumpPool): Result<QuoteResult, QuoteError>
    requires pool.quoteReserve > 0
  {
    if effectiveQuote == 0 then Err(InvalidInput)
    else
      var amountOut :- BuyOutput(effectiveQuote - 1, pool);
      var fee :- Fit64(quoteIn - effectiveQuote);
      Ok(QuoteResult(quoteIn, amountOut, fee))
  }

  /** The lp fee and the sum of the three fees on a gross quote. */
  function SaleFees(rawQuote: u128, fees: PumpFees): Result<(u128, u128), QuoteError> {
    var lpFee :- FeeFor(rawQuote, fees.lp);
    var protocolFee :- FeeFor(rawQuote, fees.protocol);
    var creatorFee :- FeeFor(rawQuote, fees.creator);
    var fee :- Fit128(lpFee + protocolFee + creatorFee);
    Ok((lpFee, fee))
  }

  function SellBaseIn(baseIn: u64, pool: PumpPool): Result<QuoteResult, QuoteError> {
    if baseIn == 0 || pool.baseReserve == 0 || pool.quoteReserve == 0 then Err(InvalidInput)
    else
      var reserve :- Fit128(pool.EffectiveReserve());
      var numerator :- Fit128(reserve * baseIn);
      var denominator :- Fit128(pool.baseReserve + baseIn);
      var rawQuote: u128 := DivDown(numerator, denominator);
      var (lpFee, fee) :- SaleFees(rawQuote, pool.fees);
      var amountOut :- Fit128(rawQuote - fee);
      var afterLpFee :- Fit128(rawQuote - lpFee);
      if pool.quoteReserve < afterLpFee then Err(InsufficientLiquidity)
      else
        var out64 :- Fit64(amountOut);
        var fee64 :- Fit64(fee);
        Ok(QuoteResult(baseIn, out64, fee64))
  }

  // --- the quantities the properties speak about, on unbounded numbers ---

  /** total(e): an effective quote together with its three rounded-up fees. */
  function TotalWithFees(e: nat, fees: PumpFees): nat {
    e + DivUp(e * fees.lp, FEE_DENOMINATOR) + DivUp(e * fees.protocol, FEE_DENOMINATOR)
      + DivUp(e * fees.creator, FEE_DENOMINATOR)
  }

  /** The first estimate, which ignores that each fee is rounded up. */
  function Estimate(q: nat, fees: PumpFees): nat {
    DivDown(q * FEE_DENOMINATOR, FEE_DENOMINATOR + fees.Total())
  }

  /** F(q): the estimate less the amount by which its total overshoots q; negative when the correction fails. */
  function EffectiveQuote(q: nat, fees: PumpFees): int {
    var e := Estimate(q, fees);
    var total := TotalWithFees(e, fees);
    if total > q then e - (total - q) else e
  }

  /** M(q), searched downwards from a bound: the largest effective quote whose total is within q. */
  function LargestAffordableUpTo(bound: nat, q: nat, fees: PumpFees): (m: nat)
    ensures m <= bound && TotalWithFees(m, fees) <= q
    ensures forall e: nat :: m < e <= bound ==> TotalWithFees(e, fees) > q
  {
    if bound == 0 || TotalWithFees(bound, fees) <= q then bound
    else LargestAffordableUpTo(bound - 1, q, fees)
  }

  function LargestAffordable(q: nat, fees: PumpFees): nat {
    LargestAffordableUpTo(q, q, fees)
  }

  /** The constant-product output for a post-fee curve input. */
  function CurveOutput(curveInput: nat, pool: PumpPool): nat
    requires pool.quoteReserve > 0
  {
    DivDown(pool.baseReserve * curveInput, pool.EffectiveReserve() + curveInput)
  }

  predicate PoolUsable(pool: PumpPool) {
    pool.baseReserve > 0 && pool.quoteReserve > 0
  }

  // --- bounds on totals and estimates ---

  lemma TotalBounds(e: nat, fees: PumpFees)
    ensures e * (FEE_DENOMINATOR + fees.Total()) <= FEE_DENOMINATOR * TotalWithFees(e, fees)
    ensures FEE_DENOMINATOR * TotalWithFees(e, fees) <= e * (FEE_DENOMINATOR + fees.Total()) + 3 * (FEE_DENOMINATOR - 1)
    ensures e <= TotalWithFees(e, fees)
  {
    assert e * (FEE_DENOMINATOR + fees.Total())
        == e * FEE_DENOMINATOR + e * fees.lp + e * fees.protocol + e * fees.creator;
  }

  lemma FeeMono(a: nat, b: nat, bps: nat)
    requires a <= b
    ensures DivUp(a * bps, FEE_DENOMINATOR) <= DivUp(b * bps, FEE_DENOMINATOR)
  {
    MulMono(a, b, bps);
    DivUpMono(a * bps, b * bps, FEE_DENOMINATOR);
  }

  /** Raising the effective quote raises its total by at least as much. */
  lemma TotalSteep(a: nat, b: nat, fees: PumpFees)
    requires a <= b
    ensures TotalWithFees(a, fees) + (b - a) <= TotalWithFees(b, fees)
  {
    hide DivUp;
    FeeMono(a, b, fees.lp);
    FeeMono(a, b, fees.protocol);
    FeeMono(a, b, fees.creator);
  }

  lemma FeeStep(e: nat, bps: nat)
    requires bps <= FEE_DENOMINATOR
    ensures DivUp((e + 1) * bps, FEE_DENOMINATOR) <= DivUp(e * bps, FEE_DENOMINATOR) + 1
  {
    assert (e + 1) * bps == e * bps + bps;
  }

  /** With no fee above the whole amount, one more effective unit costs at most four. */
  lemma TotalStep(e: nat, fees: PumpFees)
    requires fees.EachAtMostWhole()
    ensures TotalWithFees(e + 1, fees) <= TotalWithFees(e, fees) + 4
  {
    FeeStep(e, fees.lp);
    FeeStep(e, fees.protocol);
    FeeStep(e, fees.creator);
  }

  lemma EstimateBounds(q: nat, fees: PumpFees)
    ensures Estimate(q, fees) * (FEE_DENOMINATOR + fees.Total()) <= q * FEE_DENOMINATOR
    ensures q * FEE_DENOMINATOR < (Estimate(q, fees) + 1) * (FEE_DENOMINATOR + fees.Total())
    ensures Estimate(q, fees) <= q
  {
    var d, e := FEE_DENOMINATOR + fees.Total(), Estimate(q, fees);
    DivDownBounds(q * FEE_DENOMINATOR, d);
    DivDownIff(q * FEE_DENOMINATOR, d, q + 1);
    hide Estimate;
    MulMono(FEE_DENOMINATOR, d, q + 1);
    assert (e + 1) * d == d * e + d;
  }

  /** The estimate overshoots by at most two lamports. */
  lemma OvershootAtMostTwo(q: nat, fees: PumpFees)
    ensures TotalWithFees(Estimate(q, fees), fees) <= q + 2
  {
    EstimateBounds(q, fees);
    TotalBounds(Estimate(q, fees), fees);
  }

  /** Anything affordable is within the estimate. */
  lemma AffordableWithinEstimate(e: nat, q: nat, fees: PumpFees)
    requires TotalWithFees(e, fees) <= q
    ensures e <= Estimate(q, fees)
  {
    var d := FEE_DENOMINATOR + fees.Total();
    TotalBounds(e, fees);
    DivDownIff(q * FEE_DENOMINATOR, d, e);
  }

  lemma LargestAffordableIsLargest(e: nat, q: nat, fees: PumpFees)
    ensures TotalWithFees(LargestAffordable(q, fees), fees) <= q
    ensures e <= LargestAffordable(q, fees) <==> TotalWithFees(e, fees) <= q
  {
    var m := LargestAffordable(q, fees);
    if e <= m {
      TotalSteep(e, m, fees);
    }
    TotalBounds(e, fees);
  }

  // --- buying ---

  /** The corrected effective quote is never more than one below M(q), and when it is not negative it is affordable. */
  lemma BuyAffordableNearOptimal(q: nat, fees: PumpFees)
    ensures LargestAffordable(q, fees) <= EffectiveQuote(q, fees) + 1
    ensures EffectiveQuote(q, fees) >= 0 ==>
            && TotalWithFees(EffectiveQuote(q, fees), fees) <= q
            && EffectiveQuote(q, fees) <= LargestAffordable(q, fees)
  {
    var e := Estimate(q, fees);
    var f := EffectiveQuote(q, fees);
    var m := LargestAffordable(q, fees);
    OvershootAtMostTwo(q, fees);
    AffordableWithinEstimate(m, q, fees);
    LargestAffordableIsLargest(e, q, fees);
    if f >= 0 {
      TotalSteep(f, e, fees);
      LargestAffordableIsLargest(f, q, fees);
    }
  }

  lemma LargestAffordableMono(q1: nat, q2: nat, fees: PumpFees)
    requires q1 <= q2
    ensures LargestAffordable(q1, fees) <= LargestAffordable(q2, fees)
  {
    LargestAffordableIsLargest(0, q1, fees);
    LargestAffordableIsLargest(LargestAffordable(q1, fees), q2, fees);
  }

  /** Spending more loses at most one effective unit. */
  lemma BuyAlmostMonotone(q1: nat, q2: nat, fees: PumpFees)
    requires q1 <= q2 && EffectiveQuote(q1, fees) >= 0
    ensures EffectiveQuote(q1, fees) <= EffectiveQuote(q2, fees) + 1
  {
    BuyAffordableNearOptimal(q1, fees);
    BuyAffordableNearOptimal(q2, fees);
    LargestAffordableMono(q1, q2, fees);
  }

  /** How far the estimate's total exceeds the input, which is what the code corrects. */
  function Overshoot(q: nat, fees: PumpFees): int {
    TotalWithFees(Estimate(q, fees), fees) - q
  }

  /** The corrected quote is the largest affordable one exactly unless an overshoot of two leaves one unit that was
      affordable. */
  lemma BuyOptimalIff(q: nat, fees: PumpFees)
    requires EffectiveQuote(q, fees) >= 0
    ensures EffectiveQuote(q, fees) == LargestAffordable(q, fees)
       <==> !(Overshoot(q, fees) == 2 && TotalWithFees(Estimate(q, fees) - 1, fees) <= q)
  {
    hide TotalWithFees, Estimate, LargestAffordable;
    var e := Estimate(q, fees);
    OvershootAtMostTwo(q, fees);
    BuyAffordableNearOptimal(q, fees);
    LargestAffordableIsLargest(e, q, fees);
    AffordableWithinEstimate(LargestAffordable(q, fees), q, fees);
    if e > 0 {
      LargestAffordableIsLargest(e - 1, q, fees);
      TotalSteep(e - 1, e, fees);
    }
  }

  /** The estimate overshoots by two, although one unit less is affordable with an input to spare. */
  predicate LosesUnit(q: nat, fees: PumpFees) {
    Overshoot(q, fees) == 2 && TotalWithFees(Estimate(q, fees) - 1, fees) < q
  }

  /** Some smaller input has a larger effective quote exactly when the correction loses a unit. */
  lemma BuyDropsIff(q: nat, fees: PumpFees)
    requires EffectiveQuote(q, fees) >= 0
    ensures (exists q1: nat :: q1 <= q && EffectiveQuote(q1, fees) > EffectiveQuote(q, fees)) <==> LosesUnit(q, fees)
  {
    hide Estimate, LargestAffordable, EffectiveQuote, LosesUnit;
    if LosesUnit(q, fees) {
      OneUnitLessBuysMore(q, fees);
    }
    forall q1: nat | q1 <= q && EffectiveQuote(q1, fees) > EffectiveQuote(q, fees)
      ensures LosesUnit(q, fees)
    {
      BetterInputIsTheLargest(q1, q, fees);
    }
  }

  lemma OneUnitLessBuysMore(q: nat, fees: PumpFees)
    requires EffectiveQuote(q, fees) >= 0 && LosesUnit(q, fees)
    ensures q > 0 && EffectiveQuote(q - 1, fees) > EffectiveQuote(q, fees)
  {
    hide TotalWithFees, Estimate, LargestAffordable;
    var e := Estimate(q, fees);
    AffordableWithinEstimate(e - 1, q - 1, fees);
    OvershootAtMostTwo(q - 1, fees);
    if Estimate(q - 1, fees) > e - 1 {
      TotalSteep(e, Estimate(q - 1, fees), fees);
    }
  }

  lemma BetterInputIsTheLargest(q1: nat, q: nat, fees: PumpFees)
    requires q1 <= q && EffectiveQuote(q1, fees) > EffectiveQuote(q, fees) >= 0
    ensures LosesUnit(q, fees) && TotalWithFees(Estimate(q, fees) - 1, fees) <= q1
  {
    hide TotalWithFees, Estimate, LargestAffordable, EffectiveQuote;
    BuyAffordableNearOptimal(q1, fees);
    BuyAffordableNearOptimal(q, fees);
    LargestAffordableMono(q1, q, fees);
    BuyOptimalIff(q, fees);
    LargestAffordableIsLargest(0, q1, fees);
    OvershootByTwo(q, fees);
  }

  lemma OvershootByTwo(q: nat, fees: PumpFees)
    ensures Overshoot(q, fees) == 2 ==> EffectiveQuote(q, fees) == Estimate(q, fees) - 2
  {
    hide TotalWithFees, Estimate;
  }

  /** No smaller input buys more than an input whose estimate overshoots by at most one. */
  lemma MonotoneUpToSmallOvershoot(q1: nat, q2: nat, fees: PumpFees)
    requires q1 <= q2 && EffectiveQuote(q1, fees) >= 0 && EffectiveQuote(q2, fees) >= 0 && Overshoot(q2, fees) <= 1
    ensures EffectiveQuote(q1, fees) <= EffectiveQuote(q2, fees)
  {
    hide EffectiveQuote, TotalWithFees, Estimate, LargestAffordable;
    BuyOptimalIff(q2, fees);
    BuyAffordableNearOptimal(q1, fees);
    LargestAffordableMono(q1, q2, fees);
  }

  /** With at most two fees the overshoot is at most one, so a buy is exactly optimal and monotone for every input. */
  lemma TwoFeesAreMonotone(q1: nat, q2: nat, fees: PumpFees)
    requires q1 <= q2 && (fees.lp == 0 || fees.protocol == 0 || fees.creator == 0)
    requires EffectiveQuote(q1, fees) >= 0 && EffectiveQuote(q2, fees) >= 0
    ensures EffectiveQuote(q1, fees) <= EffectiveQuote(q2, fees)
  {
    hide EffectiveQuote;
    var e := Estimate(q2, fees);
    EstimateBounds(q2, fees);
    assert e * (FEE_DENOMINATOR + fees.Total())
        == e * FEE_DENOMINATOR + e * fees.lp + e * fees.protocol + e * fees.creator;
    TwoFeesTotal(e, fees);
    MonotoneUpToSmallOvershoot(q1, q2, fees);
  }

  lemma TwoFeesTotal(e: nat, fees: PumpFees)
    requires fees.lp == 0 || fees.protocol == 0 || fees.creator == 0
    ensures FEE_DENOMINATOR * TotalWithFees(e, fees)
         <= e * FEE_DENOMINATOR + e * fees.lp + e * fees.protocol + e * fees.creator + 2 * (FEE_DENOMINATOR - 1)
  {
  }

  lemma FeeForIsExact(amount: u64, bps: u16)
    ensures FeeFor(amount, bps) == Ok(DivUp(amount * bps, FEE_DENOMINATOR))
  {
    MulBounds(amount, bps, U64_MAX, U16_MAX);
  }

  /** A constant-product output never reaches the reserve it is taken from. */
  lemma CurveOutputBelowReserve(curveInput: nat, pool: PumpPool)
    requires PoolUsable(pool)
    ensures CurveOutput(curveInput, pool) < pool.baseReserve
  {
    var n, d := pool.baseReserve * curveInput, pool.EffectiveReserve() + curveInput;
    assert pool.baseReserve * d == pool.baseReserve * pool.EffectiveReserve() + n;
    MulMono(1, pool.EffectiveReserve(), pool.baseReserve);
    DivDownIff(n, d, pool.baseReserve);
  }

  lemma CurveOutputMono(c1: nat, c2: nat, pool: PumpPool)
    requires PoolUsable(pool) && c1 <= c2
    ensures CurveOutput(c1, pool) <= CurveOutput(c2, pool)
  {
    var t := CurveOutput(c1, pool);
    CurveOutputBelowReserve(c1, pool);
    CurveOutputReaches(c1, t, pool);
    MulMono(c1, c2, pool.baseReserve - t);
    CurveOutputReaches(c2, t, pool);
  }

  /** An output reaches t exactly when the curve input covers t's share of the reserve. */
  lemma CurveOutputReaches(curveInput: nat, t: nat, pool: PumpPool)
    requires PoolUsable(pool) && t < pool.baseReserve
    ensures t <= CurveOutput(curveInput, pool) <==>
            t * pool.EffectiveReserve() <= curveInput * (pool.baseReserve - t)
  {
    var r := pool.EffectiveReserve();
    DivDownIff(pool.baseReserve * curveInput, r + curveInput, t);
    assert (r + curveInput) * t == t * r + curveInput * t;
    assert curveInput * (pool.baseReserve - t) == pool.baseReserve * curveInput - curveInput * t;
  }

  lemma CorrectedQuoteOutcome(quoteIn: u64, fees: PumpFees)
    ensures CorrectedQuote(quoteIn, fees) == Fit128(EffectiveQuote(quoteIn, fees))
    ensures EffectiveQuote(quoteIn, fees) <= quoteIn
  {
    EstimateBounds(quoteIn, fees);
    var e := Estimate(quoteIn, fees);
    FeeForIsExact(e, fees.lp);
    FeeForIsExact(e, fees.protocol);
    FeeForIsExact(e, fees.creator);
    OvershootAtMostTwo(quoteIn, fees);
  }

  lemma BuyOutputOutcome(curveInput: u64, pool: PumpPool)
    requires PoolUsable(pool)
    ensures BuyOutput(curveInput, pool) == Ok(CurveOutput(curveInput, pool))
  {
    MulBounds(pool.baseReserve, curveInput, U64_MAX, U64_MAX);
    CurveOutputBelowReserve(curveInput, pool);
  }

  /** A quote is the exact result of buying with a positive effective quote. */
  predicate IsBuyOf(r: QuoteResult, quoteIn: u64, f: nat, pool: PumpPool)
    requires PoolUsable(pool) && f > 0
  {
    r.amountIn == quoteIn && r.amountOut == CurveOutput(f - 1, pool) && r.fee == quoteIn - f
  }

  lemma BuyWithEffectiveOutcome(quoteIn: u64, f: nat, pool: PumpPool)
    requires PoolUsable(pool) && f <= quoteIn
    ensures f == 0 ==> BuyWithEffective(quoteIn, f, pool) == Err(InvalidInput)
    ensures f > 0 ==>
              && BuyWithEffective(quoteIn, f, pool).Ok?
              && IsBuyOf(BuyWithEffective(quoteIn, f, pool).value, quoteIn, f, pool)
  {
    if f >= 1 {
      BuyOutputOutcome(f - 1, pool);
    }
  }

  /** No checked operation of a Pump buy overflows; it fails exactly when the corrected effective quote is not
      positive. */
  lemma BuyOutcome(quoteIn: u64, pool: PumpPool)
    ensures BuyExactQuoteIn(quoteIn, pool).Ok? <==>
            quoteIn > 0 && PoolUsable(pool) && EffectiveQuote(quoteIn, pool.fees) >= 1
    ensures BuyExactQuoteIn(quoteIn, pool).Ok? ==>
            IsBuyOf(BuyExactQuoteIn(quoteIn, pool).value, quoteIn, EffectiveQuote(quoteIn, pool.fees), pool)
  {
    CorrectedQuoteOutcome(quoteIn, pool.fees);
    var f := EffectiveQuote(quoteIn, pool.fees);
    if f >= 0 && PoolUsable(pool) {
      BuyWithEffectiveOutcome(quoteIn, f, pool);
    }
  }

  /** Two fixed-fee inputs, one lamport apart, whose outputs move the wrong way. */
  lemma BuyIsNotMonotone()
    ensures var pool := PumpPool(1_000_000_000_000, 1_000, 0, PumpFees(20, 5, 5));
            && BuyExactQuoteIn(2_007, pool).Ok? && BuyExactQuoteIn(2_008, pool).Ok?
            && BuyExactQuoteIn(2_007, pool).value.amountOut > BuyExactQuoteIn(2_008, pool).value.amountOut
  {
    var pool := PumpPool(1_000_000_000_000, 1_000, 0, PumpFees(20, 5, 5));
    NonMonotoneQuotes();
    hide EffectiveQuote;
    BuyOutcome(2_007, pool);
    BuyOutcome(2_008, pool);
    hide BuyExactQuoteIn;
    assert CurveOutput(1_999, pool) > CurveOutput(1_998, pool);
  }

  lemma NonMonotoneQuotes()
    ensures EffectiveQuote(2_007, PumpFees(20, 5, 5)) == 2_000 && EffectiveQuote(2_008, PumpFees(20, 5, 5)) == 1_999
  {
  }

  // --- selling ---

  /** The gross quote of a sale, before fees. */
  function RawSale(baseIn: nat, pool: PumpPool): nat
    requires pool.baseReserve > 0
  {
    DivDown(pool.EffectiveReserve() * baseIn, pool.baseReserve + baseIn)
  }

  lemma RawSaleReaches(b: nat, t: nat, pool: PumpPool)
    requires pool.baseReserve > 0
    ensures t <= RawSale(b, pool) <==> t * pool.baseReserve <= b * (pool.EffectiveReserve() - t)
  {
    var r := pool.EffectiveReserve();
    DivDownIff(r * b, pool.baseReserve + b, t);
    assert (pool.baseReserve + b) * t == t * pool.baseReserve + b * t;
    assert b * (r - t) == r * b - b * t;
  }

  lemma RawSaleMono(b1: nat, b2: nat, pool: PumpPool)
    requires pool.baseReserve > 0 && b1 <= b2
    ensures RawSale(b1, pool) <= RawSale(b2, pool)
  {
    hide RawSale;
    var r, t := pool.EffectiveReserve(), RawSale(b1, pool);
    RawSaleReaches(b1, t, pool);
    RawSaleReaches(b1, r + 1, pool);
    MulMono(b1, b2, r - t);
    RawSaleReaches(b2, t, pool);
  }

  /** What a gross quote leaves after its three rounded-up fees. */
  function NetOfFees(raw: nat, fees: PumpFees): int {
    2 * raw - TotalWithFees(raw, fees)
  }

  /** The lp fee on a gross quote. */
  function LpFee(raw: nat, fees: PumpFees): nat {
    DivUp(raw * fees.lp, FEE_DENOMINATOR)
  }

  lemma SaleFeesOutcome(raw: u128, fees: PumpFees)
    requires raw < 2 * TWO_64
    ensures SaleFees(raw, fees) == Ok((LpFee(raw, fees), raw - NetOfFees(raw, fees)))
    ensures LpFee(raw, fees) <= raw - NetOfFees(raw, fees)
  {
    hide DivUp, FeeFor;
    SaleFeeIsExact(raw, fees.lp);
    SaleFeeIsExact(raw, fees.protocol);
    SaleFeeIsExact(raw, fees.creator);
  }

  lemma SaleFeeIsExact(raw: u128, bps: u16)
    requires raw < 2 * TWO_64
    ensures FeeFor(raw, bps) == Ok(DivUp(raw * bps, FEE_DENOMINATOR))
              && 0 <= DivUp(raw * bps, FEE_DENOMINATOR) <= 14 * TWO_64
  {
    MulBounds(raw, bps, 2 * TWO_64 - 1, U16_MAX);
  }

  /** What a sale needs: a product that fits, proceeds that the fees do not eat, and a reserve that can pay them with
      all but the lp fee. */
  predicate Sellable(baseIn: u64, pool: PumpPool) {
    && baseIn > 0 && PoolUsable(pool) && pool.EffectiveReserve() * baseIn <= U128_MAX
    && var raw := RawSale(baseIn, pool);
       && NetOfFees(raw, pool.fees) >= 0
       && raw - LpFee(raw, pool.fees) <= pool.quoteReserve
       && raw - NetOfFees(raw, pool.fees) <= U64_MAX
  }

  /** A sale succeeds exactly when it is sellable, and pays the constant-product quote less its fees. */
  lemma SellOutcome(baseIn: u64, pool: PumpPool)
    ensures SellBaseIn(baseIn, pool).Ok? <==> Sellable(baseIn, pool)
    ensures Sellable(baseIn, pool) ==>
              var raw := RawSale(baseIn, pool);
              SellBaseIn(baseIn, pool) == Ok(QuoteResult(baseIn, NetOfFees(raw, pool.fees),
                                                         raw - NetOfFees(raw, pool.fees)))
  {
    hide SaleFees, NetOfFees, LpFee, DivDown, DivUp;
    if baseIn > 0 && PoolUsable(pool) && pool.EffectiveReserve() * baseIn <= U128_MAX {
      RawSaleBelowReserve(baseIn, pool);
      SaleFeesOutcome(RawSale(baseIn, pool), pool.fees);
    }
  }

  lemma RawSaleBelowReserve(baseIn: nat, pool: PumpPool)
    requires pool.baseReserve > 0
    ensures 0 <= RawSale(baseIn, pool) <= pool.EffectiveReserve()
  {
    hide RawSale;
    RawSaleReaches(baseIn, pool.EffectiveReserve() + 1, pool);
  }

  lemma NetOfFeesBounds(raw: nat, fees: PumpFees)
    ensures FEE_DENOMINATOR * NetOfFees(raw, fees) <= raw * (FEE_DENOMINATOR - fees.Total())
    ensures raw * (FEE_DENOMINATOR - fees.Total()) <= FEE_DENOMINATOR * NetOfFees(raw, fees) + 3 * (FEE_DENOMINATOR - 1)
  {
    TotalBounds(raw, fees);
    assert raw * (FEE_DENOMINATOR - fees.Total()) == 2 * raw * FEE_DENOMINATOR - raw * (FEE_DENOMINATOR + fees.Total());
  }

  /** Selling more lowers the proceeds by at most two lamports. */
  lemma SellAlmostMonotone(b1: u64, b2: u64, pool: PumpPool)
    requires b1 <= b2 && pool.fees.Total() <= FEE_DENOMINATOR
    requires SellBaseIn(b1, pool).Ok? && SellBaseIn(b2, pool).Ok?
    ensures SellBaseIn(b1, pool).value.amountOut <= SellBaseIn(b2, pool).value.amountOut + 2
  {
    SellOutcome(b1, pool);
    SellOutcome(b2, pool);
    RawSaleMono(b1, b2, pool);
    var r1, r2 := RawSale(b1, pool), RawSale(b2, pool);
    NetOfFeesBounds(r1, pool.fees);
    NetOfFeesBounds(r2, pool.fees);
    MulMono(r1, r2, FEE_DENOMINATOR - pool.fees.Total());
  }

  /** The two lamports are reached: one more unit sold starts a new lamport of all three fees at once. */
  lemma SellDropIsReached()
    ensures var pool := PumpPool(1_000_000_000_000, 1_000_000_000_000, 0, PumpFees(20, 5, 5));
            && SellBaseIn(2_001, pool).Ok? && SellBaseIn(2_002, pool).Ok?
            && SellBaseIn(2_001, pool).value.amountOut == SellBaseIn(2_002, pool).value.amountOut + 2
  {
    SampleFees(2_000, 4, 1);
    SampleFees(2_001, 5, 2);
    hide SaleFees;
    var n := 1_000_000_000_000;
    assert DivDown(n * 2_001, n + 2_001) == 2_000;
    assert DivDown(n * 2_002, n + 2_002) == 2_001;
  }

  lemma SampleFees(raw: u64, lp: u64, other: u64)
    requires lp == DivUp(raw * 20, FEE_DENOMINATOR) && other == DivUp(raw * 5, FEE_DENOMINATOR)
    ensures SaleFees(raw, PumpFees(20, 5, 5)) == Ok((lp, lp + 2 * other))
  {
    hide FeeFor, DivUp;
    FeeForIsExact(raw, 20);
    FeeForIsExact(raw, 5);
  }
}
