/** Exact-in quoting across a list of bins, and what it conserves. */
module BinList {
  import opened Arithmetic
  import opened BinQuote

  /** The four accumulators of the quoting loop. */
  datatype Totals = Totals(remaining: u64, totalIn: u64, totalOut: u64, totalFee: u64)

  function AddFill(t: Totals, fill: Fill): Result<Totals, QuoteError> {
    var remaining :- Fit64(t.remaining - fill.used);
    var totalIn :- Fit64(t.totalIn + fill.used);
    var totalOut :- Fit64(t.totalOut + fill.output);
    var totalFee :- Fit64(t.totalFee + fill.fee);
    Ok(Totals(remaining, totalIn, totalOut, totalFee))
  }

  /** The loop from a given state over the bins that are left. */
  function FoldFills(t: Totals, bins: seq<Bin>, swapForY: bool, feeOnInput: bool,
                     rate: u128): Result<Totals, QuoteError>
    decreases |bins|
  {
    if |bins| == 0 || t.remaining == 0 then Ok(t)
    else
      var fill :- FillBin(t.remaining, bins[0], swapForY, feeOnInput, rate);
      var next :- AddFill(t, fill);
      FoldFills(next, bins[1..], swapForY, feeOnInput, rate)
  }

  function QuoteList(amountIn: u64, bins: seq<Bin>, swapForY: bool, feeOnInput: bool, p: FeeParameters,
                     requireFullFill: bool): Result<QuoteResult, QuoteError> {
    if amountIn == 0 || |bins| == 0 then Err(InvalidInput)
    else
      var rate :- TotalFeeRate(p);
      var t :- FoldFills(Totals(amountIn, 0, 0, 0), bins, swapForY, feeOnInput, rate);
      if requireFullFill && t.remaining != 0 then Err(InsufficientLiquidity)
      else Ok(QuoteResult(t.totalIn, t.totalOut, t.totalFee))
  }

  method QuoteExactIn(amountIn: u64, bins: seq<Bin>, swapForY: bool, feeOnInput: bool, p: FeeParameters,
                      requireFullFill: bool) returns (r: Result<QuoteResult, QuoteError>)
    ensures r == QuoteList(amountIn, bins, swapForY, feeOnInput, p, requireFullFill)
  {
    hide FillBin, TotalFeeRate;
    if amountIn == 0 || |bins| == 0 {
      return Err(InvalidInput);
    }
    var rate :- TotalFeeRate(p);
    var remaining: u64, totalIn: u64, totalOut: u64, totalFee: u64 := amountIn, 0, 0, 0;
    var i := 0;
    while i < |bins|
      invariant 0 <= i <= |bins|
      invariant FoldFills(Totals(remaining, totalIn, totalOut, totalFee), bins[i..], swapForY, feeOnInput, rate)
             == FoldFills(Totals(amountIn, 0, 0, 0), bins, swapForY, feeOnInput, rate)
    {
      if remaining == 0 {
        break;
      }
      assert bins[i..][1..] == bins[i + 1..];
      var fill :- FillBin(remaining, bins[i], swapForY, feeOnInput, rate);
      remaining :- Fit64(remaining - fill.used);
      totalIn :- Fit64(totalIn + fill.used);
      totalOut :- Fit64(totalOut + fill.output);
      totalFee :- Fit64(totalFee + fill.fee);
      i := i + 1;
    }
    if requireFullFill && remaining != 0 {
      return Err(InsufficientLiquidity);
    }
    return Ok(QuoteResult(totalIn, totalOut, totalFee));
  }

  /** The partial quote of a single bin, which is how the walks and the capacity measure use the list quote. */
  function PartialQuote(amountIn: u64, bin: Bin, swapForY: bool, feeOnInput: bool,
                        p: FeeParameters): Result<QuoteResult, QuoteError>
  {
    QuoteList(amountIn, [bin], swapForY, feeOnInput, p, false)
  }

  // --- one fill ---

  /** A fill never consumes more than it is offered, so the loop's subtraction cannot underflow. */
  lemma FillWithinRemaining(remaining: u64, bin: Bin, swapForY: bool, feeOnInput: bool, rate: FeeRate)
    requires FillBin(remaining, bin, swapForY, feeOnInput, rate).Ok?
    ensures FillBin(remaining, bin, swapForY, feeOnInput, rate).value.used <= remaining
  {
    hide Net, Gross, ExcludedFee, IncludedFee, AmountInForOut, AmountOutForIn, SideLiquidity;
    ExcludedFeeIsNet(remaining, rate);
    if feeOnInput && SideLiquidity(bin, swapForY).value != 0 {
      var maxIn := AmountInForOut(SideLiquidity(bin, swapForY).value, bin.priceQ64, swapForY).value;
      if maxIn < Net(remaining, rate) {
        GrossIsLeast(remaining, rate, maxIn);
        IncludedFeeIsGross(maxIn, rate);
      }
    }
  }

  /** The part of a fill's input that buys at the bin's price. */
  function NetInput(fill: Fill, feeOnInput: bool): int {
    if feeOnInput then fill.used - fill.fee else fill.used
  }

  /** The output before an output fee is taken from it. */
  function RawOutput(fill: Fill, feeOnInput: bool): nat {
    if feeOnInput then fill.output else fill.output + fill.fee
  }

  /** Worth at the bin's price, in the direction of the swap. */
  predicate Worth(rawOut: nat, netIn: nat, price: nat, swapForY: bool) {
    if swapForY then rawOut * TWO_64 <= netIn * price else rawOut * price <= netIn * TWO_64
  }

  lemma BoughtAtPrice(rawOut: u64, netIn: u64, price: u128, swapForY: bool)
    requires AmountOutForIn(netIn, price, swapForY) == Ok(rawOut)
               || AmountInForOut(rawOut, price, swapForY) == Ok(netIn)
    ensures Worth(rawOut, netIn, price, swapForY)
  {
    hide DivUp, DivDown;
    if AmountInForOut(rawOut, price, swapForY) == Ok(netIn) {
      if swapForY {
        DivUpBounds(rawOut * TWO_64, price);
      } else {
        DivUpBounds(rawOut * price, TWO_64);
      }
    } else if swapForY {
      DivDownBounds(netIn * price, TWO_64);
    } else {
      DivDownBounds(netIn * TWO_64, price);
    }
  }

  /** In both directions, a fill's raw output is worth at most its net input at the bin's price, and its output is
      within the side's liquidity. */
  lemma FillRespectsPrice(remaining: u64, bin: Bin, swapForY: bool, feeOnInput: bool, rate: FeeRate)
    requires FillBin(remaining, bin, swapForY, feeOnInput, rate).Ok?
    ensures SideLiquidity(bin, swapForY).Ok?
    ensures var fill := FillBin(remaining, bin, swapForY, feeOnInput, rate).value;
            && NetInput(fill, feeOnInput) >= 0
            && Worth(RawOutput(fill, feeOnInput), NetInput(fill, feeOnInput), bin.priceQ64, swapForY)
            && RawOutput(fill, feeOnInput) <= SideLiquidity(bin, swapForY).value == Resting(bin, swapForY)
  {
    hide Net, Gross, ExcludedFee, IncludedFee, AmountInForOut, AmountOutForIn, SideLiquidity, Worth, FillBin;
    var maxOut := FillParts(remaining, bin, swapForY, feeOnInput, rate);
    LiquidityIsResting(bin, swapForY);
    if maxOut == 0 {
      ZeroWorth(bin.priceQ64, swapForY);
    } else {
      var fill := FillBin(remaining, bin, swapForY, feeOnInput, rate).value;
      BoughtAtPrice(RawOutput(fill, feeOnInput), NetInput(fill, feeOnInput), bin.priceQ64, swapForY);
    }
  }

  /** The fee side of a fill: what is left of its input, or of its raw output, after the rate. */
  lemma FillPaysFee(remaining: u64, bin: Bin, swapForY: bool, feeOnInput: bool, rate: FeeRate)
    requires FillBin(remaining, bin, swapForY, feeOnInput, rate).Ok?
    ensures var fill := FillBin(remaining, bin, swapForY, feeOnInput, rate).value;
            if feeOnInput then NetInput(fill, true) * FEE_PRECISION <= fill.used * (FEE_PRECISION - rate)
            else fill.output * FEE_PRECISION <= RawOutput(fill, false) * (FEE_PRECISION - rate)
  {
    var fill := FillBin(remaining, bin, swapForY, feeOnInput, rate).value;
    if feeOnInput {
      InputIsNet(remaining, bin, swapForY, rate);
      NetReaches(fill.used, rate, NetInput(fill, true));
    } else {
      OutputIsNet(remaining, bin, swapForY, rate);
      NetReaches(RawOutput(fill, false), rate, fill.output);
    }
  }

  lemma InputIsNet(remaining: u64, bin: Bin, swapForY: bool, rate: FeeRate)
    requires FillBin(remaining, bin, swapForY, true, rate).Ok?
    ensures var fill := FillBin(remaining, bin, swapForY, true, rate).value;
            0 <= NetInput(fill, true) <= Net(fill.used, rate)
  {
    hide Net, Gross, ExcludedFee, IncludedFee, AmountInForOut, AmountOutForIn, SideLiquidity;
    ExcludedFeeIsNet(remaining, rate);
    if SideLiquidity(bin, swapForY).value != 0 {
      var maxIn := AmountInForOut(SideLiquidity(bin, swapForY).value, bin.priceQ64, swapForY).value;
      if maxIn < Net(remaining, rate) {
        GrossIsLeast(remaining, rate, maxIn);
        IncludedFeeIsGross(maxIn, rate);
        NetUndoesGross(maxIn, rate);
      }
    }
  }

  lemma OutputIsNet(remaining: u64, bin: Bin, swapForY: bool, rate: FeeRate)
    requires FillBin(remaining, bin, swapForY, false, rate).Ok?
    ensures var fill := FillBin(remaining, bin, swapForY, false, rate).value;
            fill.output <= Net(RawOutput(fill, false), rate)
  {
    hide Net, ExcludedFee, AmountInForOut, AmountOutForIn, SideLiquidity;
    if SideLiquidity(bin, swapForY).value != 0 {
      var maxOut := SideLiquidity(bin, swapForY).value;
      var maxIn := AmountInForOut(maxOut, bin.priceQ64, swapForY).value;
      var raw := if Min(remaining, maxIn) == maxIn then maxOut
                 else AmountOutForIn(remaining, bin.priceQ64, swapForY).value;
      ExcludedFeeIsNet(raw, rate);
    }
  }

  lemma ZeroWorth(price: nat, swapForY: bool)
    ensures Worth(0, 0, price, swapForY)
  {
  }

  /** How a fill's raw output was bought with its net input. */
  lemma FillParts(remaining: u64, bin: Bin, swapForY: bool, feeOnInput: bool, rate: FeeRate) returns (maxOut: u64)
    requires FillBin(remaining, bin, swapForY, feeOnInput, rate).Ok?
    ensures SideLiquidity(bin, swapForY) == Ok(maxOut)
    ensures var fill := FillBin(remaining, bin, swapForY, feeOnInput, rate).value;
            && (maxOut == 0 ==> fill == Fill(0, 0, 0))
            && 0 <= NetInput(fill, feeOnInput) <= U64_MAX && RawOutput(fill, feeOnInput) <= U64_MAX
            && (maxOut > 0 ==>
                  || (RawOutput(fill, feeOnInput) == maxOut
                      && AmountInForOut(maxOut, bin.priceQ64, swapForY) == Ok(NetInput(fill, feeOnInput)))
                  || (RawOutput(fill, feeOnInput) < maxOut
                      && AmountOutForIn(NetInput(fill, feeOnInput), bin.priceQ64, swapForY)
                         == Ok(RawOutput(fill, feeOnInput))))
  {
    hide Net, Gross, InFor, OutFor, ExcludedFee, IncludedFee, AmountInForOut, AmountOutForIn, SideLiquidity;
    maxOut := SideLiquidity(bin, swapForY).value;
    ExcludedFeeIsNet(remaining, rate);
    if maxOut > 0 {
      var maxIn := AmountInForOut(maxOut, bin.priceQ64, swapForY).value;
      AmountInIsInFor(maxOut, bin.priceQ64, swapForY);
      var available := if feeOnInput then Net(remaining, rate) else remaining;
      if available < maxIn {
        InForIsLeast(available, maxOut, bin.priceQ64, swapForY);
        AmountOutIsOutFor(available, bin.priceQ64, swapForY);
        ExcludedFeeIsNet(OutFor(available, bin.priceQ64, swapForY), rate);
      } else {
        ExcludedFeeIsNet(maxOut, rate);
        if feeOnInput && available > maxIn {
          GrossIsLeast(remaining, rate, maxIn);
          IncludedFeeIsGross(maxIn, rate);
        }
      }
    }
  }

  // --- the whole list ---

  /** The fills of a run, one for each bin that is visited while input remains. */
  function Fills(t: Totals, bins: seq<Bin>, swapForY: bool, feeOnInput: bool, rate: u128): seq<Fill>
    requires FoldFills(t, bins, swapForY, feeOnInput, rate).Ok?
    decreases |bins|
  {
    if |bins| == 0 || t.remaining == 0 then []
    else
      var fill := FillBin(t.remaining, bins[0], swapForY, feeOnInput, rate).value;
      [fill] + Fills(AddFill(t, fill).value, bins[1..], swapForY, feeOnInput, rate)
  }

  function SumUsed(fills: seq<Fill>): nat {
    if |fills| == 0 then 0 else fills[0].used + SumUsed(fills[1..])
  }

  function SumOutput(fills: seq<Fill>): nat {
    if |fills| == 0 then 0 else fills[0].output + SumOutput(fills[1..])
  }

  function SumFee(fills: seq<Fill>): nat {
    if |fills| == 0 then 0 else fills[0].fee + SumFee(fills[1..])
  }

  /** What rests on the side of the swap over a list of bins. */
  function SumLiquidity(bins: seq<Bin>, swapForY: bool): nat {
    if |bins| == 0 then 0 else Resting(bins[0], swapForY) + SumLiquidity(bins[1..], swapForY)
  }

  /** Conservation over any list: input is split into consumed and remaining, every total is the sum over the fills,
      output is within the liquidity, and every fill respects its bin's price. */
  lemma {:induction false} ListConserves(t: Totals, bins: seq<Bin>, swapForY: bool, feeOnInput: bool, rate: FeeRate)
    requires FoldFills(t, bins, swapForY, feeOnInput, rate).Ok?
    ensures var end := FoldFills(t, bins, swapForY, feeOnInput, rate).value;
            var fills := Fills(t, bins, swapForY, feeOnInput, rate);
            && end.totalIn + end.remaining == t.totalIn + t.remaining
            && end.totalIn == t.totalIn + SumUsed(fills)
            && end.totalOut == t.totalOut + SumOutput(fills)
            && end.totalFee == t.totalFee + SumFee(fills)
            && SumOutput(fills) <= SumLiquidity(bins, swapForY)
            && |fills| <= |bins|
            && forall i :: 0 <= i < |fills| ==>
                 && NetInput(fills[i], feeOnInput) >= 0
                 && Worth(RawOutput(fills[i], feeOnInput), NetInput(fills[i], feeOnInput), bins[i].priceQ64, swapForY)
    decreases |bins|
  {
    hide FillBin, SideLiquidity, Resting, Worth;
    if |bins| > 0 && t.remaining > 0 {
      FillRespectsPrice(t.remaining, bins[0], swapForY, feeOnInput, rate);
      var fill := FillBin(t.remaining, bins[0], swapForY, feeOnInput, rate).value;
      var next := AddFill(t, fill).value;
      ListConserves(next, bins[1..], swapForY, feeOnInput, rate);
      var rest := Fills(next, bins[1..], swapForY, feeOnInput, rate);
      var fills := [fill] + rest;
      assert fills[1..] == rest;
      forall i | 0 <= i < |fills|
        ensures NetInput(fills[i], feeOnInput) >= 0
        ensures Worth(RawOutput(fills[i], feeOnInput), NetInput(fills[i], feeOnInput), bins[i].priceQ64, swapForY)
      {
        if i > 0 {
          assert fills[i] == rest[i - 1] && bins[i] == bins[1..][i - 1];
        }
      }
    }
  }

  /** A partial quote of one bin is that bin's fill. */
  lemma PartialQuoteIsFill(amountIn: u64, bin: Bin, swapForY: bool, feeOnInput: bool, p: FeeParameters)
    requires amountIn > 0 && TotalFeeRate(p).Ok?
    ensures PartialQuote(amountIn, bin, swapForY, feeOnInput, p).Ok?
       <==> FillBin(amountIn, bin, swapForY, feeOnInput, TotalFeeRate(p).value).Ok?
    ensures var fill := FillBin(amountIn, bin, swapForY, feeOnInput, TotalFeeRate(p).value);
            fill.Ok? ==> PartialQuote(amountIn, bin, swapForY, feeOnInput, p)
                         == Ok(QuoteResult(fill.value.used, fill.value.output, fill.value.fee))
    ensures PartialQuote(amountIn, bin, swapForY, feeOnInput, p).Err? ==>
            PartialQuote(amountIn, bin, swapForY, feeOnInput, p).error
            == FillBin(amountIn, bin, swapForY, feeOnInput, TotalFeeRate(p).value).error
  {
    hide FillBin, TotalFeeRate;
    var rate := TotalFeeRate(p).value;
    var fill := FillBin(amountIn, bin, swapForY, feeOnInput, rate);
    if fill.Ok? {
      FillWithinRemaining(amountIn, bin, swapForY, feeOnInput, rate);
      var t := AddFill(Totals(amountIn, 0, 0, 0), fill.value).value;
      assert FoldFills(t, [bin][1..], swapForY, feeOnInput, rate) == Ok(t);
    }
  }

  /** The list quote with every step made by a one-bin partial quote. */
  function FoldPartials(t: Totals, bins: seq<Bin>, swapForY: bool, feeOnInput: bool,
                        p: FeeParameters): Result<Totals, QuoteError>
    decreases |bins|
  {
    if |bins| == 0 || t.remaining == 0 then Ok(t)
    else
      var quote :- PartialQuote(t.remaining, bins[0], swapForY, feeOnInput, p);
      var next :- AddFill(t, Fill(quote.amountIn, quote.amountOut, quote.fee));
      FoldPartials(next, bins[1..], swapForY, feeOnInput, p)
  }

  lemma {:induction false} ListIsFoldOfPartials(t: Totals, bins: seq<Bin>, swapForY: bool, feeOnInput: bool,
                                                p: FeeParameters)
    requires TotalFeeRate(p).Ok?
    ensures FoldPartials(t, bins, swapForY, feeOnInput, p)
         == FoldFills(t, bins, swapForY, feeOnInput, TotalFeeRate(p).value)
    decreases |bins|
  {
    hide FillBin, TotalFeeRate, PartialQuote;
    if |bins| > 0 && t.remaining > 0 {
      PartialQuoteIsFill(t.remaining, bins[0], swapForY, feeOnInput, p);
      var fill := FillBin(t.remaining, bins[0], swapForY, feeOnInput, TotalFeeRate(p).value);
      if fill.Ok? && AddFill(t, fill.value).Ok? {
        ListIsFoldOfPartials(AddFill(t, fill.value).value, bins[1..], swapForY, feeOnInput, p);
      }
    }
  }
}
