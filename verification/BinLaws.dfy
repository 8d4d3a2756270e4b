/** What one bin pays out, told from its fields: which of its amounts a swap reaches, and that it reaches all of
    them. */
module BinLaws {
  import opened Arithmetic
  import opened BinQuote
  import opened BinList
  import opened BinCapacity

  /** An input whose net part reaches the price of everything that rests there pays out exactly that, and takes exactly
      its
      price; an input one unit lower leaves something behind. */
  lemma EnoughInputTakesAll(remaining: u64, bin: Bin, swapForY: bool, feeOnInput: bool, rate: FeeRate)
    requires 0 < Resting(bin, swapForY) <= U64_MAX && bin.priceQ64 > 0
    requires AmountInForOut(Resting(bin, swapForY), bin.priceQ64, swapForY).Ok?
    ensures var all, price := Resting(bin, swapForY), InFor(Resting(bin, swapForY), bin.priceQ64, swapForY);
            var fill := FillBin(remaining, bin, swapForY, feeOnInput, rate);
            var net := if feeOnInput then Net(remaining, rate) else remaining;
            && fill.Ok?
            && (net >= price ==> RawOutput(fill.value, feeOnInput) == all && NetInput(fill.value, feeOnInput) == price)
            && (net < price ==> RawOutput(fill.value, feeOnInput) < all && NetInput(fill.value, feeOnInput) == net)
  {
    hide Net, Gross, InFor, OutFor, FillBin, SideLiquidity, AmountInForOut;
    LiquidityIsResting(bin, swapForY);
    AmountInIsInFor(Resting(bin, swapForY), bin.priceQ64, swapForY);
    var side := Side(Resting(bin, swapForY), InFor(Resting(bin, swapForY), bin.priceQ64, swapForY), bin.priceQ64,
                     swapForY, feeOnInput, rate);
    if feeOnInput {
      FillWithInputFee(bin, side, remaining);
    } else {
      FillWithOutputFee(bin, side, remaining);
    }
  }

  /** The token that the swap puts in, and orders on its side, change nothing. */
  lemma OtherSideIsIgnored(remaining: u64, bin: Bin, other: Bin, swapForY: bool, feeOnInput: bool, rate: FeeRate)
    requires bin.priceQ64 == other.priceQ64
    requires if swapForY then bin.amountY == other.amountY else bin.amountX == other.amountX
    requires (bin.limitOrderAskSide == swapForY && other.limitOrderAskSide == swapForY)
             || (bin.openOrderAmount == other.openOrderAmount
                 && bin.processedOrderRemainingAmount == other.processedOrderRemainingAmount
                 && bin.limitOrderAskSide == other.limitOrderAskSide)
    ensures FillBin(remaining, bin, swapForY, feeOnInput, rate) == FillBin(remaining, other, swapForY, feeOnInput, rate)
  {
    hide ExcludedFee, IncludedFee, AmountInForOut, AmountOutForIn;
  }

  /** An empty side takes and pays nothing. */
  lemma NothingRestsNothingMoves(remaining: u64, bin: Bin, swapForY: bool, feeOnInput: bool, rate: FeeRate)
    requires Resting(bin, swapForY) == 0
    ensures FillBin(remaining, bin, swapForY, feeOnInput, rate) == Ok(Fill(0, 0, 0))
  {
    hide ExcludedFee, IncludedFee, AmountInForOut, AmountOutForIn;
    ExcludedFeeIsNet(remaining, rate);
  }

  // --- lists ---

  /** A quote over any list pays out at most what rests in it. */
  lemma ListPaysWhatRests(amountIn: u64, bins: seq<Bin>, swapForY: bool, feeOnInput: bool, p: FeeParameters, full: bool)
    requires QuoteList(amountIn, bins, swapForY, feeOnInput, p, full).Ok?
    ensures QuoteList(amountIn, bins, swapForY, feeOnInput, p, full).value.amountOut <= SumLiquidity(bins, swapForY)
  {
    hide TotalFeeRate, FoldFills;
    ListConserves(Totals(amountIn, 0, 0, 0), bins, swapForY, feeOnInput, TotalFeeRate(p).value);
  }

  /** A full quote is a partial quote that consumed its whole input, and fails where input is left. */
  lemma FullQuoteConsumesAll(amountIn: u64, bins: seq<Bin>, swapForY: bool, feeOnInput: bool, p: FeeParameters)
    ensures var partial := QuoteList(amountIn, bins, swapForY, feeOnInput, p, false);
            var full := QuoteList(amountIn, bins, swapForY, feeOnInput, p, true);
            && (partial.Err? ==> full == partial)
            && (partial.Ok? && partial.value.amountIn == amountIn ==> full == partial)
            && (partial.Ok? && partial.value.amountIn != amountIn ==> full == Err(InsufficientLiquidity))
  {
    hide TotalFeeRate, FoldFills;
    if amountIn > 0 && |bins| > 0 && TotalFeeRate(p).Ok? {
      var rate := TotalFeeRate(p).value;
      if FoldFills(Totals(amountIn, 0, 0, 0), bins, swapForY, feeOnInput, rate).Ok? {
        ListConserves(Totals(amountIn, 0, 0, 0), bins, swapForY, feeOnInput, rate);
      }
    }
  }

  // --- when the conversions fail ---

  /** The input for an output exists exactly for a positive price, when the product fits 128 bits with room for rounding
      up
      and the result fits 64. */
  lemma AmountInExistsIff(amountOut: u64, price: u128, swapForY: bool)
    ensures AmountInForOut(amountOut, price, swapForY).Ok?
       <==> (&& price > 0
             && (if swapForY then amountOut * TWO_64 + price - 1 <= U128_MAX
                 else amountOut * price + TWO_64 - 1 <= U128_MAX)
             && InFor(amountOut, price, swapForY) <= U64_MAX)
  {
    hide DivUp;
    if price > 0 {
      DivUpIff(amountOut * TWO_64, price, -1);
      DivUpIff(amountOut * price, TWO_64, -1);
      MulBounds(amountOut, price, U64_MAX, U128_MAX);
    }
  }

  /** The output for an input exists exactly for a positive price, when the product fits 128 bits and the result 64. */
  lemma AmountOutExistsIff(amountIn: u64, price: u128, swapForY: bool)
    ensures AmountOutForIn(amountIn, price, swapForY).Ok?
       <==> price > 0 && (swapForY ==> amountIn * price <= U128_MAX) && OutFor(amountIn, price, swapForY) <= U64_MAX
  {
    hide DivDown;
    if price > 0 {
      DivDownIff(amountIn * TWO_64, price, 0);
      MulBounds(amountIn, price, U64_MAX, U128_MAX);
      DivDownIff(amountIn * price, TWO_64, 0);
    }
  }

  /** The included amount exists exactly when it fits 64 bits. */
  lemma IncludedExistsIff(amount: u64, rate: FeeRate)
    ensures IncludedFee(amount, rate).Ok? <==> Gross(amount, rate) <= U64_MAX
  {
    hide DivUp;
    NetUndoesGross(amount, rate);
  }
}
