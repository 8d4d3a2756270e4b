/** Meteora DLMM quoting inside one bin: fee rate, the two fee directions, the two price directions, one fill. */
module BinQuote {
  import opened Arithmetic

  const FEE_PRECISION: int := 1_000_000_000
  const MAX_FEE_RATE: int := 100_000_000
  const VARIABLE_FEE_SCALE: int := 100_000_000_000

  datatype FeeParameters = FeeParameters(
    binStep: u16,
    baseFactor: u16,
    baseFeePowerFactor: u8,
    variableFeeControl: u32,
    volatilityAccumulator: u32)

  datatype Bin = Bin(
    priceQ64: u128,
    amountX: u64,
    amountY: u64,
    openOrderAmount: u64,
    processedOrderRemainingAmount: u64,
    limitOrderAskSide: bool)

  /** What one bin takes from the input, pays out, and keeps as a fee. */
  datatype Fill = Fill(used: u64, output: u64, fee: u64)

  // --- fee rate ---

  function Pow10(k: nat): nat {
    if k == 0 then 1 else 10 * Pow10(k - 1)
  }

  function BaseFee(p: FeeParameters): Result<u128, QuoteError> {
    var power :- Fit128(Pow10(p.baseFeePowerFactor));
    var factor :- Fit128(p.baseFactor * p.binStep);
    var scaled :- Fit128(factor * 10);
    Fit128(scaled * power)
  }

  function VariableFee(p: FeeParameters): Result<u128, QuoteError> {
    if p.variableFeeControl == 0 then Ok(0)
    else
      var volatilityBin :- Fit128(p.volatilityAccumulator * p.binStep);
      var squared :- Fit128(volatilityBin * volatilityBin);
      var scaled :- Fit128(p.variableFeeControl * squared);
      var biased :- Fit128(scaled + (VARIABLE_FEE_SCALE - 1));
      Ok(DivDown(biased, VARIABLE_FEE_SCALE))
  }

  function TotalFeeRate(p: FeeParameters): (r: Result<u128, QuoteError>)
    ensures r.Ok? ==> r.value <= MAX_FEE_RATE
  {
    var baseFee :- BaseFee(p);
    var variableFee :- VariableFee(p);
    var total :- Fit128(baseFee + variableFee);
    Ok(Min(total, MAX_FEE_RATE))
  }

  // --- fees on an amount ---

  /** The amount left once a rounded-up fee is taken out of it, and that fee. */
  function ExcludedFee(amount: u64, rate: u128): Result<(u64, u64), QuoteError> {
    var product :- Fit128(amount * rate);
    var fee :- CeilDiv(product, FEE_PRECISION);
    var net :- Fit128(amount - fee);
    var net64 :- Fit64(net);
    var fee64 :- Fit64(fee);
    Ok((net64, fee64))
  }

  /** The gross amount that leaves a given net amount, and the fee inside it. */
  function IncludedFee(amount: u64, rate: u128): Result<(u64, u64), QuoteError> {
    if rate > FEE_PRECISION then Err(InvalidInput)
    else
      var product :- Fit128(amount * FEE_PRECISION);
      var gross :- CeilDiv(product, FEE_PRECISION - rate);
      var gross64 :- Fit64(gross);
      var fee64 :- Fit64(gross - amount);
      Ok((gross64, fee64))
  }

  function AmountInForOut(amountOut: u64, priceQ64: u128, swapForY: bool): Result<u64, QuoteError> {
    if priceQ64 == 0 then Err(InvalidInput)
    else
      var value :- if swapForY then CeilDiv(amountOut * TWO_64, priceQ64)
                   else
                     var product :- Fit128(amountOut * priceQ64);
                     CeilDiv(product, TWO_64);
      Fit64(value)
  }

  function AmountOutForIn(amountIn: u64, priceQ64: u128, swapForY: bool): Result<u64, QuoteError> {
    if priceQ64 == 0 then Err(InvalidInput)
    else
      var value :- if swapForY then
                     var product :- Fit128(amountIn * priceQ64);
                     Ok(DivDown(product, TWO_64))
                   else Ok(DivDown(amountIn * TWO_64, priceQ64));
      Fit64(value)
  }

  // --- one bin ---

  /** The output side's liquidity: the market maker's amount and the limit orders resting on that side. */
  function SideLiquidity(bin: Bin, swapForY: bool): Result<u64, QuoteError> {
    var marketMaker := if swapForY then bin.amountY else bin.amountX;
    var orders :- if swapForY != bin.limitOrderAskSide
                  then Fit64(bin.openOrderAmount + bin.processedOrderRemainingAmount)
                  else Ok(0);
    Fit64(marketMaker + orders)
  }

  /** What a swap can take out of a bin: the output token's amount, and the orders when they rest on that token's
      side. */
  function Resting(bin: Bin, swapForY: bool): nat {
    match (swapForY, bin.limitOrderAskSide)
    case (true, false) => bin.amountY + bin.openOrderAmount + bin.processedOrderRemainingAmount
    case (true, true) => bin.amountY
    case (false, true) => bin.amountX + bin.openOrderAmount + bin.processedOrderRemainingAmount
    case (false, false) => bin.amountX
  }

  /** The liquidity of a side is what rests there, whenever that is representable. */
  lemma LiquidityIsResting(bin: Bin, swapForY: bool)
    ensures SideLiquidity(bin, swapForY).Ok? <==> Resting(bin, swapForY) <= U64_MAX
    ensures SideLiquidity(bin, swapForY).Ok? ==> SideLiquidity(bin, swapForY).value == Resting(bin, swapForY)
  {
  }

  /** One pass of the quoting loop; a bin without liquidity takes and pays nothing. */
  function FillBin(remaining: u64, bin: Bin, swapForY: bool, feeOnInput: bool, rate: u128): Result<Fill, QuoteError> {
    var (available, feeForFullInput) :- if feeOnInput then ExcludedFee(remaining, rate) else Ok((remaining, 0));
    var maxOut :- SideLiquidity(bin, swapForY);
    if maxOut == 0 then Ok(Fill(0, 0, 0))
    else
      var maxIn :- AmountInForOut(maxOut, bin.priceQ64, swapForY);
      var used: u64 := Min(available, maxIn);
      var rawOut :- if used == maxIn then Ok(maxOut) else AmountOutForIn(used, bin.priceQ64, swapForY);
      if feeOnInput then
        if used == available then Ok(Fill(remaining, rawOut, feeForFullInput))
        else
          var (gross, partialFee) :- IncludedFee(used, rate);
          Ok(Fill(gross, rawOut, partialFee))
      else
        var (output, outputFee) :- ExcludedFee(rawOut, rate);
        Ok(Fill(used, output, outputFee))
  }

  /** An input inside one previously measured bin, from the compact segment data alone. */
  function OutputWithinCapacity(amountIn: u64, capacityIn: u64, capacityOut: u64, priceQ64: u128,
                                swapForY: bool, feeOnInput: bool, rate: u128): Result<u64, QuoteError> {
    if amountIn == 0 || amountIn > capacityIn || capacityIn == 0 || capacityOut == 0 then Err(InvalidInput)
    else if amountIn == capacityIn then Ok(capacityOut)
    else if feeOnInput then
      var (netInput, _) :- ExcludedFee(amountIn, rate);
      AmountOutForIn(netInput, priceQ64, swapForY)
    else
      var rawOutput :- AmountOutForIn(amountIn, priceQ64, swapForY);
      var (output, _) :- ExcludedFee(rawOutput, rate);
      Ok(output)
  }

  // --- the same conversions on unbounded numbers ---

  type FeeRate = r: int | 0 <= r <= MAX_FEE_RATE

  function Net(amount: nat, rate: FeeRate): (n: nat)
    ensures n <= amount
  {
    MulMono(rate, FEE_PRECISION, amount);
    DivUpIff(amount * rate, FEE_PRECISION, amount);
    amount - DivUp(amount * rate, FEE_PRECISION)
  }

  function Gross(amount: nat, rate: FeeRate): nat {
    DivUp(amount * FEE_PRECISION, FEE_PRECISION - rate)
  }

  function InFor(amountOut: nat, price: nat, swapForY: bool): nat
    requires price > 0
  {
    if swapForY then DivUp(amountOut * TWO_64, price) else DivUp(amountOut * price, TWO_64)
  }

  function OutFor(amountIn: nat, price: nat, swapForY: bool): nat
    requires price > 0
  {
    if swapForY then DivDown(amountIn * price, TWO_64) else DivDown(amountIn * TWO_64, price)
  }

  // --- adjunctions ---

  lemma NetReaches(gross: nat, rate: FeeRate, a: nat)
    ensures a <= Net(gross, rate) <==> a * FEE_PRECISION <= gross * (FEE_PRECISION - rate)
  {
    DivUpIff(gross * rate, FEE_PRECISION, gross - a);
    assert gross * (FEE_PRECISION - rate) == gross * FEE_PRECISION - gross * rate;
  }

  /** The included amount is the least gross input whose net input reaches a. */
  lemma GrossIsLeast(gross: nat, rate: FeeRate, a: nat)
    ensures a <= Net(gross, rate) <==> Gross(a, rate) <= gross
  {
    NetReaches(gross, rate, a);
    DivUpIff(a * FEE_PRECISION, FEE_PRECISION - rate, gross);
  }

  /** Excluding the fee undoes including it. */
  lemma NetUndoesGross(a: nat, rate: FeeRate)
    ensures Net(Gross(a, rate), rate) == a <= Gross(a, rate)
  {
    var g := Gross(a, rate);
    GrossIsLeast(g, rate, a);
    DivUpBounds(a * FEE_PRECISION, FEE_PRECISION - rate);
    NetReaches(g, rate, a + 1);
  }

  /** Two units above the gross input for a, the net input is already past a: at most one unit is dust. */
  lemma AtMostOneDustUnit(a: nat, rate: FeeRate, gross: nat)
    requires Gross(a, rate) + 2 <= gross
    ensures a < Net(gross, rate)
  {
    var g, k := Gross(a, rate), FEE_PRECISION - rate;
    DivUpBounds(a * FEE_PRECISION, k);
    MulMono(g + 2, gross, k);
    assert (g + 2) * k == g * k + 2 * k;
    NetReaches(gross, rate, a + 1);
  }

  lemma NetMono(a: nat, b: nat, rate: FeeRate)
    requires a <= b
    ensures Net(a, rate) <= Net(b, rate)
  {
    GrossIsLeast(a, rate, Net(a, rate));
    GrossIsLeast(b, rate, Net(a, rate));
  }

  /** The input for an output is the least input whose output reaches it. */
  lemma InForIsLeast(amountIn: nat, amountOut: nat, price: nat, swapForY: bool)
    requires price > 0
    ensures amountOut <= OutFor(amountIn, price, swapForY) <==> InFor(amountOut, price, swapForY) <= amountIn
  {
    if swapForY {
      DivDownIff(amountIn * price, TWO_64, amountOut);
      DivUpIff(amountOut * TWO_64, price, amountIn);
    } else {
      DivDownIff(amountIn * TWO_64, price, amountOut);
      DivUpIff(amountOut * price, TWO_64, amountIn);
    }
  }

  lemma OutForMono(a: nat, b: nat, price: nat, swapForY: bool)
    requires price > 0 && a <= b
    ensures OutFor(a, price, swapForY) <= OutFor(b, price, swapForY)
  {
    InForIsLeast(a, OutFor(a, price, swapForY), price, swapForY);
    InForIsLeast(b, OutFor(a, price, swapForY), price, swapForY);
  }

  // --- the checked forms agree with the unbounded ones ---

  lemma ExcludedFeeIsNet(amount: u64, rate: FeeRate)
    ensures ExcludedFee(amount, rate) == Ok((Net(amount, rate), amount - Net(amount, rate)))
  {
    hide DivUp;
    MulBounds(amount, rate, U64_MAX, MAX_FEE_RATE);
  }

  lemma IncludedFeeIsGross(amount: u64, rate: FeeRate)
    requires Gross(amount, rate) <= U64_MAX
    ensures IncludedFee(amount, rate) == Ok((Gross(amount, rate), Gross(amount, rate) - amount))
  {
    NetUndoesGross(amount, rate);
  }

  lemma AmountInIsInFor(amountOut: u64, price: u128, swapForY: bool)
    requires AmountInForOut(amountOut, price, swapForY).Ok?
    ensures price > 0 && AmountInForOut(amountOut, price, swapForY).value == InFor(amountOut, price, swapForY)
  {
  }

  lemma AmountOutIsOutFor(amountIn: u64, price: u128, swapForY: bool)
    requires price > 0 && OutFor(amountIn, price, swapForY) <= U64_MAX
    ensures AmountOutForIn(amountIn, price, swapForY) == Ok(OutFor(amountIn, price, swapForY))
  {
    if swapForY {
      DivDownBounds(amountIn * price, TWO_64);
      assert 0 <= amountIn * price;
    }
  }
}
