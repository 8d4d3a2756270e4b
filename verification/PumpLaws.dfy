/** What a Pump trade does to the product of the reserves, told from the pool's fields and the reported quote. */
module PumpLaws {
  import opened Arithmetic
  import opened PumpQuote

  /** Both quote reserves count, the real one and the virtual one. */
  function QuoteSide(pool: PumpPool): nat {
    pool.quoteReserve + pool.virtualReserve
  }

  /** A quotient rounded down is the most that keeps the product: out of b and r, growing r by c releases the largest o
      with
      (b - o) (r + c) >= b r. */
  lemma ReleasedIsLargest(b: nat, r: nat, c: nat, o: nat)
    requires r + c > 0 && o == DivDown(b * c, r + c)
    ensures o <= b
    ensures (b - o) * (r + c) >= b * r && (b - o - 1) * (r + c) < b * r
  {
    hide DivDown;
    DivDownBounds(b * c, r + c);
    MulMono(c, r + c, b);
    DivDownIff(b * c, r + c, b + 1);
    Products(b, r, c, o);
  }

  lemma Products(b: int, r: int, c: int, o: int)
    ensures (b - o) * (r + c) == b * r + b * c - (r + c) * o
    ensures (b - o - 1) * (r + c) == b * r + b * c - (r + c) * o - (r + c)
    ensures (r + c) * (b + 1) == b * r + b * c + r + c
    ensures b * (r + c) == b * r + b * c
  {
  }

  /** A buy pays the most that keeps the product of the reserves, when they grow by the input less the fee less one. */
  lemma BuyKeepsProduct(quoteIn: u64, pool: PumpPool)
    requires BuyExactQuoteIn(quoteIn, pool).Ok?
    ensures var quote := BuyExactQuoteIn(quoteIn, pool).value;
            var curveInput := quoteIn - quote.fee - 1;
            var base, reserve := pool.baseReserve, QuoteSide(pool);
            && quote.amountIn == quoteIn && 0 <= curveInput && quote.amountOut < base
            && (base - quote.amountOut) * (reserve + curveInput) >= base * reserve
            && (base - quote.amountOut - 1) * (reserve + curveInput) < base * reserve
  {
    hide EffectiveQuote, BuyExactQuoteIn;
    BuyOutcome(quoteIn, pool);
    var curveInput := EffectiveQuote(quoteIn, pool.fees) - 1;
    CurveOutputBelowReserve(curveInput, pool);
    ReleasedIsLargest(pool.baseReserve, QuoteSide(pool), curveInput, CurveOutput(curveInput, pool));
  }

  /** The fee of a buy leaves an effective quote that is affordable with all three fees, and one more unit is the most
      that
      would be. */
  lemma BuyFeeIsTight(quoteIn: u64, pool: PumpPool)
    requires BuyExactQuoteIn(quoteIn, pool).Ok?
    ensures var kept := quoteIn - BuyExactQuoteIn(quoteIn, pool).value.fee;
            kept >= 1 && WithFees(kept, pool.fees) <= quoteIn < WithFees(kept + 2, pool.fees)
  {
    hide EffectiveQuote, BuyExactQuoteIn, TotalWithFees, LargestAffordable, WithFees;
    BuyOutcome(quoteIn, pool);
    var kept := EffectiveQuote(quoteIn, pool.fees);
    BuyAffordableNearOptimal(quoteIn, pool.fees);
    LargestAffordableIsLargest(kept + 2, quoteIn, pool.fees);
    WithFeesIsTotal(kept, pool.fees);
    WithFeesIsTotal(kept + 2, pool.fees);
  }

  /** An amount with its three fees, each rounded up on its own. */
  function WithFees(e: nat, fees: PumpFees): nat {
    e + (e * fees.lp + 9_999) / 10_000 + (e * fees.protocol + 9_999) / 10_000 + (e * fees.creator + 9_999) / 10_000
  }

  lemma WithFeesIsTotal(e: nat, fees: PumpFees)
    ensures WithFees(e, fees) == TotalWithFees(e, fees)
  {
  }

  /** A sale releases the most quote that keeps the product, and reports what its three fees leave of it. */
  lemma SaleKeepsProduct(baseIn: u64, pool: PumpPool)
    requires SellBaseIn(baseIn, pool).Ok?
    ensures var quote := SellBaseIn(baseIn, pool).value;
            var raw := quote.amountOut + quote.fee;
            var base, reserve := pool.baseReserve, QuoteSide(pool);
            && quote.amountIn == baseIn && raw <= reserve && quote.fee == WithFees(raw, pool.fees) - raw
            && (reserve - raw) * (base + baseIn) >= reserve * base
            && (reserve - raw - 1) * (base + baseIn) < reserve * base
  {
    hide SellBaseIn, NetOfFees, WithFees, LpFee;
    SellOutcome(baseIn, pool);
    var raw := RawSale(baseIn, pool);
    ReleasedIsLargest(QuoteSide(pool), pool.baseReserve, baseIn, raw);
    WithFeesIsTotal(raw, pool.fees);
    NetIsTheRest(raw, pool.fees);
  }

  lemma NetIsTheRest(raw: nat, fees: PumpFees)
    ensures raw - NetOfFees(raw, fees) == TotalWithFees(raw, fees) - raw
  {
  }

  /** Only the sum of the two quote reserves counts for a buy. */
  lemma OnlyTheSumCounts(quoteIn: u64, pool: PumpPool, other: PumpPool)
    requires pool.baseReserve == other.baseReserve && pool.fees == other.fees && QuoteSide(pool) == QuoteSide(other)
    requires pool.quoteReserve > 0 && other.quoteReserve > 0
    ensures BuyExactQuoteIn(quoteIn, pool) == BuyExactQuoteIn(quoteIn, other)
  {
    hide CorrectedQuote;
  }

  /** A buy fails as overflow when the correction exceeds the estimate, and otherwise as invalid input. */
  lemma BuyFailures(quoteIn: u64, pool: PumpPool)
    requires BuyExactQuoteIn(quoteIn, pool).Err?
    ensures var usable := quoteIn > 0 && pool.baseReserve > 0 && pool.quoteReserve > 0;
            BuyExactQuoteIn(quoteIn, pool).error
            == if usable && EffectiveQuote(quoteIn, pool.fees) < 0 then MathOverflow else InvalidInput
  {
    hide CorrectedQuote, EffectiveQuote, BuyWithEffective;
    CorrectedQuoteOutcome(quoteIn, pool.fees);
    var f := EffectiveQuote(quoteIn, pool.fees);
    if pool.baseReserve > 0 && pool.quoteReserve > 0 && f >= 0 {
      BuyWithEffectiveOutcome(quoteIn, f, pool);
    }
  }

  /** A sale fails as invalid without input or reserves, as short of liquidity when only the reserve cannot pay what the
      lp
      fee leaves, and otherwise as overflow. */
  lemma SaleFailures(baseIn: u64, pool: PumpPool)
    requires SellBaseIn(baseIn, pool).Err?
    ensures var raw := if pool.baseReserve > 0 then RawSale(baseIn, pool) else 0;
            SellBaseIn(baseIn, pool).error
            == if !(baseIn > 0 && pool.baseReserve > 0 && pool.quoteReserve > 0) then InvalidInput
               else if QuoteSide(pool) * baseIn <= U128_MAX && NetOfFees(raw, pool.fees) >= 0
                       && pool.quoteReserve < raw - LpFee(raw, pool.fees) then InsufficientLiquidity
               else MathOverflow
  {
    hide SaleFees, NetOfFees, LpFee, DivDown, DivUp;
    if baseIn > 0 && PoolUsable(pool) && pool.EffectiveReserve() * baseIn <= U128_MAX {
      RawSaleBelowReserve(baseIn, pool);
      SaleFeesOutcome(RawSale(baseIn, pool), pool.fees);
    }
  }
}
