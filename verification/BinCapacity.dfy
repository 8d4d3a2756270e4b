/** The capacity of one bin, and why compact segment data quotes the bin exactly below it. */
module BinCapacity {
  import opened Arithmetic
  import opened BinQuote
  import opened BinList

  /** Everything about a bin that decides its fills, once it holds liquidity that can be priced. */
  datatype Side = Side(maxOut: nat, maxIn: nat, price: nat, swapForY: bool, feeOnInput: bool, rate: FeeRate) {
    /** The maximum input is the least input that buys the whole side. */
    predicate Valid() {
      && price > 0
      && 0 < maxOut <= U64_MAX && maxIn <= U64_MAX
      && maxIn == InFor(maxOut, price, swapForY)
    }

    /** The gross input that empties the side. */
    function CapacityIn(): nat {
      if feeOnInput then Gross(maxIn, rate) else maxIn
    }

    /** The net output of the emptied side. */
    function CapacityOut(): nat {
      if feeOnInput then maxOut else Net(maxOut, rate)
    }

    /** The output of an input strictly inside the side. */
    function InsideOutput(amountIn: nat): nat
      requires Valid()
    {
      if feeOnInput then OutFor(Net(amountIn, rate), price, swapForY)
      else Net(OutFor(amountIn, price, swapForY), rate)
    }
  }

  /** The bin's side, when its liquidity can be priced in machine arithmetic. */
  predicate HasSide(bin: Bin, side: Side) {
    && side.Valid()
    && bin.priceQ64 == side.price
    && SideLiquidity(bin, side.swapForY) == Ok(side.maxOut)
    && AmountInForOut(side.maxOut, bin.priceQ64, side.swapForY) == Ok(side.maxIn)
  }

  function SideOf(bin: Bin, swapForY: bool, feeOnInput: bool, rate: FeeRate): Option<Side> {
    var maxOut :- SideLiquidity(bin, swapForY).ToOption();
    var maxIn :- AmountInForOut(maxOut, bin.priceQ64, swapForY).ToOption();
    if maxOut == 0 then None else Some(Side(maxOut, maxIn, bin.priceQ64, swapForY, feeOnInput, rate))
  }

  lemma SideOfHasSide(bin: Bin, swapForY: bool, feeOnInput: bool, rate: FeeRate)
    requires SideOf(bin, swapForY, feeOnInput, rate).Some?
    ensures HasSide(bin, SideOf(bin, swapForY, feeOnInput, rate).value)
  {
    hide InFor;
    AmountInIsInFor(SideLiquidity(bin, swapForY).value, bin.priceQ64, swapForY);
  }

  lemma WholeSideIsBought(side: Side)
    requires side.Valid()
    ensures 0 < side.maxIn && 0 < side.CapacityIn()
    ensures OutFor(side.maxIn, side.price, side.swapForY) >= side.maxOut
    ensures side.feeOnInput && side.rate > 0 ==> side.CapacityIn() >= 2
  {
    hide OutFor, Net;
    InForIsLeast(side.maxIn, side.maxOut, side.price, side.swapForY);
    InForIsLeast(0, side.maxOut, side.price, side.swapForY);
    OutForZero(side.price, side.swapForY);
    NetUndoesGross(side.maxIn, side.rate);
    NetOfOne(side.rate);
  }

  lemma OutForZero(price: nat, swapForY: bool)
    requires price > 0
    ensures OutFor(0, price, swapForY) == 0
  {
  }

  /** A positive rate takes the whole of a single unit. */
  lemma NetOfOne(rate: FeeRate)
    ensures rate > 0 ==> Net(1, rate) == 0 && Net(2, rate) == 1
    ensures rate == 0 ==> Net(1, rate) == 1
  {
  }

  // --- fills ---

  /** One fill in closed form, when the fee is taken from the input. */
  lemma FillWithInputFee(bin: Bin, side: Side, remaining: u64)
    requires HasSide(bin, side) && side.feeOnInput
    ensures var available := Net(remaining, side.rate);
            var fill := FillBin(remaining, bin, side.swapForY, true, side.rate);
            && (available < side.maxIn ==>
                  var raw := OutFor(available, side.price, side.swapForY);
                  raw < side.maxOut && fill == Ok(Fill(remaining, raw, remaining - available)))
            && (available == side.maxIn ==> fill == Ok(Fill(remaining, side.maxOut, remaining - available)))
            && (available > side.maxIn ==>
                  && side.maxIn <= side.CapacityIn() <= remaining
                  && fill == Ok(Fill(side.CapacityIn(), side.maxOut, side.CapacityIn() - side.maxIn)))
  {
    hide Net, Gross, OutFor, InFor, ExcludedFee, IncludedFee, AmountInForOut, AmountOutForIn, SideLiquidity;
    var available := Net(remaining, side.rate);
    ExcludedFeeIsNet(remaining, side.rate);
    if available < side.maxIn {
      InForIsLeast(available, side.maxOut, side.price, side.swapForY);
      AmountOutIsOutFor(available, bin.priceQ64, side.swapForY);
    } else if available > side.maxIn {
      GrossIsLeast(remaining, side.rate, side.maxIn);
      IncludedFeeIsGross(side.maxIn, side.rate);
      NetUndoesGross(side.maxIn, side.rate);
    }
  }

  /** One fill in closed form, when the fee is taken from the output. */
  lemma FillWithOutputFee(bin: Bin, side: Side, remaining: u64)
    requires HasSide(bin, side) && !side.feeOnInput
    ensures var fill := FillBin(remaining, bin, side.swapForY, false, side.rate);
            && (remaining < side.maxIn ==>
                  var raw := OutFor(remaining, side.price, side.swapForY);
                  raw < side.maxOut && fill == Ok(Fill(remaining, Net(raw, side.rate), raw - Net(raw, side.rate))))
            && (remaining >= side.maxIn ==>
                  fill == Ok(Fill(side.maxIn, side.CapacityOut(), side.maxOut - side.CapacityOut())))
  {
    hide Net, Gross, OutFor, InFor, ExcludedFee, IncludedFee, AmountInForOut, AmountOutForIn, SideLiquidity;
    if remaining < side.maxIn {
      InForIsLeast(remaining, side.maxOut, side.price, side.swapForY);
      AmountOutIsOutFor(remaining, bin.priceQ64, side.swapForY);
      ExcludedFeeIsNet(OutFor(remaining, side.price, side.swapForY), side.rate);
    } else {
      ExcludedFeeIsNet(side.maxOut, side.rate);
    }
  }

  // --- capacity ---

  /** The gross input, net output and fee that empty one bin; a bin that pays nothing counts as without liquidity. */
  function Capacity(bin: Bin, swapForY: bool, feeOnInput: bool, p: FeeParameters): Result<QuoteResult, QuoteError> {
    var quote :- PartialQuote(U64_MAX, bin, swapForY, feeOnInput, p);
    if quote.amountIn == 0 || quote.amountOut == 0 then Err(InsufficientLiquidity) else Ok(quote)
  }

  /** A full fill that consumes less than every representable input has measured the side exactly. */
  lemma MeasuredBelowMax(bin: Bin, side: Side)
    requires HasSide(bin, side)
    requires var fill := FillBin(U64_MAX, bin, side.swapForY, side.feeOnInput, side.rate);
             fill.Ok? && fill.value.used < U64_MAX
    ensures var fill := FillBin(U64_MAX, bin, side.swapForY, side.feeOnInput, side.rate).value;
            fill.used == side.CapacityIn() > 0 && fill.output == side.CapacityOut()
  {
    hide Net, Gross, OutFor, FillBin;
    WholeSideIsBought(side);
    if side.feeOnInput {
      FillWithInputFee(bin, side, U64_MAX);
    } else {
      FillWithOutputFee(bin, side, U64_MAX);
    }
  }

  /** Within a capacity below the largest input, compact segment data quotes every input as the bin itself would, and
      consumes it all. */
  lemma CompactionIsExact(bin: Bin, side: Side, a: u64)
    requires HasSide(bin, side) && 0 < a <= side.CapacityIn() < U64_MAX && side.CapacityOut() > 0
    ensures FillBin(a, bin, side.swapForY, side.feeOnInput, side.rate).Ok?
    ensures FillBin(a, bin, side.swapForY, side.feeOnInput, side.rate).value.used == a
    ensures OutputWithinCapacity(a, side.CapacityIn(), side.CapacityOut(), side.price, side.swapForY, side.feeOnInput,
                                 side.rate)
         == Ok(FillBin(a, bin, side.swapForY, side.feeOnInput, side.rate).value.output)
    ensures a < side.CapacityIn() ==>
            FillBin(a, bin, side.swapForY, side.feeOnInput, side.rate).value.output == side.InsideOutput(a)
    ensures a == side.CapacityIn() ==>
            FillBin(a, bin, side.swapForY, side.feeOnInput, side.rate).value.output == side.CapacityOut()
  {
    hide Net, Gross, OutFor, InFor, FillBin, ExcludedFee, AmountOutForIn;
    var cap := side.CapacityIn();
    if side.feeOnInput {
      FillWithInputFee(bin, side, a);
      ExcludedFeeIsNet(a, side.rate);
      GrossIsLeast(a, side.rate, side.maxIn);
      if a == cap {
        NetUndoesGross(side.maxIn, side.rate);
      } else {
        InForIsLeast(Net(a, side.rate), side.maxOut, side.price, side.swapForY);
        AmountOutIsOutFor(Net(a, side.rate), side.price, side.swapForY);
      }
    } else {
      FillWithOutputFee(bin, side, a);
      if a < cap {
        InForIsLeast(a, side.maxOut, side.price, side.swapForY);
        AmountOutIsOutFor(a, side.price, side.swapForY);
        ExcludedFeeIsNet(OutFor(a, side.price, side.swapForY), side.rate);
      }
    }
  }

  /** The input whose compact quote can differ: the fee leaves exactly the side's maximum input, whose output rounds
      past the side. */
  predicate RoundsPastTheSide(side: Side, capacityIn: nat, a: nat)
    requires side.Valid()
  {
    && side.feeOnInput && a < capacityIn
    && Net(a, side.rate) == side.maxIn
    && OutFor(side.maxIn, side.price, side.swapForY) != side.maxOut
  }

  /** Compact segment data quotes an input of any measured bin as the bin itself would, except exactly for such an
      input. */
  lemma CompactionIff(bin: Bin, side: Side, p: FeeParameters, a: u64)
    requires TotalFeeRate(p) == Ok(side.rate) && HasSide(bin, side)
    requires Capacity(bin, side.swapForY, side.feeOnInput, p).Ok?
    requires 0 < a <= Capacity(bin, side.swapForY, side.feeOnInput, p).value.amountIn
    ensures var capacity := Capacity(bin, side.swapForY, side.feeOnInput, p).value;
            var quote := PartialQuote(a, bin, side.swapForY, side.feeOnInput, p);
            && quote.Ok?
            && (OutputWithinCapacity(a, capacity.amountIn, capacity.amountOut, side.price, side.swapForY,
                                     side.feeOnInput, side.rate)
                == Ok(quote.value.amountOut)
                <==> !RoundsPastTheSide(side, capacity.amountIn, a))
  {
    hide Net, Gross, OutFor, InFor, FillBin, OutputWithinCapacity, HasSide, TotalFeeRate, PartialQuote;
    PartialQuoteIsFill(U64_MAX, bin, side.swapForY, side.feeOnInput, p);
    PartialQuoteIsFill(a, bin, side.swapForY, side.feeOnInput, p);
    if side.feeOnInput {
      InputFeeCompaction(bin, side, a);
    } else {
      OutputFeeCompaction(bin, side, a);
    }
  }

  lemma InputFeeCompaction(bin: Bin, side: Side, a: u64)
    requires HasSide(bin, side) && side.feeOnInput
    requires var full := FillBin(U64_MAX, bin, side.swapForY, true, side.rate);
             full.Ok? && 0 < a <= full.value.used && full.value.output > 0
    ensures var full := FillBin(U64_MAX, bin, side.swapForY, true, side.rate).value;
            var fill := FillBin(a, bin, side.swapForY, true, side.rate);
            && fill.Ok?
            && (OutputWithinCapacity(a, full.used, full.output, side.price, side.swapForY, true, side.rate)
                == Ok(fill.value.output)
                <==> !RoundsPastTheSide(side, full.used, a))
  {
    hide Net, Gross, OutFor, InFor, FillBin, OutputWithinCapacity;
    var full := FillBin(U64_MAX, bin, side.swapForY, true, side.rate).value;
    if full.used < U64_MAX {
      MeasuredBelowMax(bin, side);
      CompactionIsExact(bin, side, a);
      GrossIsLeast(a, side.rate, side.maxIn);
    } else {
      SaturatedCompaction(bin, side, a);
    }
  }

  /** A bin measured at the largest input: the side's net input is at least all that the fee leaves of it. */
  lemma SaturatedCompaction(bin: Bin, side: Side, a: u64)
    requires HasSide(bin, side) && side.feeOnInput && 0 < a
    requires var full := FillBin(U64_MAX, bin, side.swapForY, true, side.rate);
             full.Ok? && full.value.used == U64_MAX && full.value.output > 0
    ensures var full := FillBin(U64_MAX, bin, side.swapForY, true, side.rate).value;
            var fill := FillBin(a, bin, side.swapForY, true, side.rate);
            && fill.Ok?
            && (OutputWithinCapacity(a, U64_MAX, full.output, side.price, side.swapForY, true, side.rate)
                == Ok(fill.value.output)
                <==> !RoundsPastTheSide(side, U64_MAX, a))
  {
    hide Gross, OutFor, InFor, Net, FillBin, ExcludedFee, AmountOutForIn, AmountInForOut, SideLiquidity;
    assert Net(U64_MAX, side.rate) <= side.maxIn by {
      FillWithInputFee(bin, side, U64_MAX);
      NetUndoesGross(side.maxIn, side.rate);
    }
    FillWithInputFee(bin, side, a);
    NetMono(a, U64_MAX, side.rate);
    ExcludedFeeIsNet(a, side.rate);
    var net := Net(a, side.rate);
    if net < side.maxIn {
      InForIsLeast(net, side.maxOut, side.price, side.swapForY);
    }
    if OutFor(net, side.price, side.swapForY) <= U64_MAX {
      AmountOutIsOutFor(net, side.price, side.swapForY);
    } else if AmountOutForIn(net, side.price, side.swapForY).Ok? {
      ConvertedIsOutFor(net, side.price, side.swapForY);
    }
  }

  lemma OutputFeeCompaction(bin: Bin, side: Side, a: u64)
    requires HasSide(bin, side) && !side.feeOnInput
    requires var full := FillBin(U64_MAX, bin, side.swapForY, false, side.rate);
             full.Ok? && 0 < a <= full.value.used && full.value.output > 0
    ensures var full := FillBin(U64_MAX, bin, side.swapForY, false, side.rate).value;
            var fill := FillBin(a, bin, side.swapForY, false, side.rate);
            && fill.Ok?
            && OutputWithinCapacity(a, full.used, full.output, side.price, side.swapForY, false, side.rate)
               == Ok(fill.value.output)
  {
    hide Net, Gross, OutFor, InFor, FillBin, ExcludedFee, AmountOutForIn;
    FillWithOutputFee(bin, side, a);
    FillWithOutputFee(bin, side, U64_MAX);
    if a < side.maxIn {
      InForIsLeast(a, side.maxOut, side.price, side.swapForY);
      AmountOutIsOutFor(a, side.price, side.swapForY);
      ExcludedFeeIsNet(OutFor(a, side.price, side.swapForY), side.rate);
    }
  }

  /** A bin that takes the largest input takes every input, and never pays more than its capacity. */
  lemma FullBinTakesAll(bin: Bin, side: Side, a: u64)
    requires HasSide(bin, side) && 0 < a
    requires var full := FillBin(U64_MAX, bin, side.swapForY, side.feeOnInput, side.rate);
             full.Ok? && full.value.used == U64_MAX
    ensures side.feeOnInput ==> Net(U64_MAX, side.rate) <= side.maxIn
    ensures var full := FillBin(U64_MAX, bin, side.swapForY, side.feeOnInput, side.rate).value;
            var fill := FillBin(a, bin, side.swapForY, side.feeOnInput, side.rate);
            fill.Ok? && fill.value.used == a && fill.value.output <= full.output
  {
    hide Gross, OutFor, InFor, Net, FillBin, AmountInForOut, SideLiquidity;
    if side.feeOnInput {
      FillWithInputFee(bin, side, U64_MAX);
      NetUndoesGross(side.maxIn, side.rate);
      FillWithInputFee(bin, side, a);
      NetMono(a, U64_MAX, side.rate);
      OutForMono(Net(a, side.rate), Net(U64_MAX, side.rate), side.price, side.swapForY);
    } else {
      FillWithOutputFee(bin, side, U64_MAX);
      FillWithOutputFee(bin, side, a);
      if a < side.maxIn {
        NetMono(OutFor(a, side.price, side.swapForY), side.maxOut, side.rate);
      }
    }
  }

  /** A bin measured at the largest input is quoted exactly from compact data if it is at one unit below that input. */
  lemma FullBinIsExact(bin: Bin, side: Side, p: FeeParameters, a: u64)
    requires TotalFeeRate(p) == Ok(side.rate) && HasSide(bin, side) && 0 < a
    requires Capacity(bin, side.swapForY, side.feeOnInput, p).Ok?
    requires Capacity(bin, side.swapForY, side.feeOnInput, p).value.amountIn == U64_MAX
    requires !RoundsPastTheSide(side, U64_MAX, U64_MAX - 1)
    ensures var capacity := Capacity(bin, side.swapForY, side.feeOnInput, p).value;
            var quote := PartialQuote(a, bin, side.swapForY, side.feeOnInput, p);
            && quote.Ok? && quote.value.amountIn == a && quote.value.amountOut <= capacity.amountOut
            && OutputWithinCapacity(a, U64_MAX, capacity.amountOut, side.price, side.swapForY, side.feeOnInput,
                                    side.rate)
               == Ok(quote.value.amountOut)
  {
    hide Net, Gross, OutFor, InFor, FillBin, OutputWithinCapacity, HasSide, TotalFeeRate, PartialQuote;
    PartialQuoteIsFill(U64_MAX, bin, side.swapForY, side.feeOnInput, p);
    PartialQuoteIsFill(a, bin, side.swapForY, side.feeOnInput, p);
    FullBinTakesAll(bin, side, a);
    CompactionIff(bin, side, p, a);
    if a < U64_MAX {
      NetMono(a, U64_MAX - 1, side.rate);
      NetMono(U64_MAX - 1, U64_MAX, side.rate);
    }
  }

  /** A checked conversion that succeeds has the value of the unbounded one. */
  lemma ConvertedIsOutFor(amountIn: u64, price: u128, swapForY: bool)
    requires price > 0 && AmountOutForIn(amountIn, price, swapForY).Ok?
    ensures AmountOutForIn(amountIn, price, swapForY).value == OutFor(amountIn, price, swapForY)
  {
  }

  const WIDE_BIN: Bin := Bin(18457443185272303155, 0, 18432724054486427220, 0, 0, false)
  const WIDE_FEES: FeeParameters := FeeParameters(5, 26785, 0, 0, 0)

  /** Compact quoting is not identical to the bin: in this bin, measured at the largest input, one unit less pays one
      unit more. */
  lemma CompactionFailsAtTheLargestInput()
    ensures Capacity(WIDE_BIN, true, true, WIDE_FEES)
              == Ok(QuoteResult(U64_MAX, 18432724054486427220, U64_MAX - 18422039271708836097))
    ensures PartialQuote(U64_MAX - 1, WIDE_BIN, true, true, WIDE_FEES).Ok?
    ensures PartialQuote(U64_MAX - 1, WIDE_BIN, true, true, WIDE_FEES).value.amountOut == 18432724054486427220
    ensures OutputWithinCapacity(U64_MAX - 1, U64_MAX, 18432724054486427220, WIDE_BIN.priceQ64, true, true, 1339250)
         == Ok(18432724054486427221)
  {
    hide HasSide, Net, Gross, OutFor, InFor, FillBin, OutputWithinCapacity, ExcludedFee, AmountOutForIn, TotalFeeRate,
         PartialQuote;
    WideBinFacts();
    WideBinFills();
    PartialQuoteIsFill(U64_MAX, WIDE_BIN, true, true, WIDE_FEES);
    PartialQuoteIsFill(U64_MAX - 1, WIDE_BIN, true, true, WIDE_FEES);
    WideBinCompact();
  }

  lemma WideBinFills()
    ensures FillBin(U64_MAX, WIDE_BIN, true, true, 1339250)
         == Ok(Fill(U64_MAX, 18432724054486427220, U64_MAX - 18422039271708836097))
    ensures FillBin(U64_MAX - 1, WIDE_BIN, true, true, 1339250)
         == Ok(Fill(U64_MAX - 1, 18432724054486427220, U64_MAX - 1 - 18422039271708836097))
  {
    hide Net, Gross, OutFor, InFor, FillBin, TotalFeeRate, AmountInForOut;
    var side := Side(18432724054486427220, 18422039271708836097, WIDE_BIN.priceQ64, true, true, 1339250);
    WideBinFacts();
    FillWithInputFee(WIDE_BIN, side, U64_MAX);
    FillWithInputFee(WIDE_BIN, side, U64_MAX - 1);
  }

  lemma WideBinCompact()
    ensures OutputWithinCapacity(U64_MAX - 1, U64_MAX, 18432724054486427220, WIDE_BIN.priceQ64, true, true, 1339250)
         == Ok(18432724054486427221)
  {
    hide Net, Gross, OutFor, InFor, ExcludedFee, AmountOutForIn, AmountInForOut, TotalFeeRate;
    WideBinFacts();
    ExcludedFeeIsNet(U64_MAX - 1, 1339250);
    AmountOutIsOutFor(18422039271708836097, WIDE_BIN.priceQ64, true);
  }

  lemma WideBinFacts()
    ensures TotalFeeRate(WIDE_FEES) == Ok(1339250)
    ensures Net(U64_MAX, 1339250) == Net(U64_MAX - 1, 1339250) == 18422039271708836097
    ensures AmountInForOut(18432724054486427220, WIDE_BIN.priceQ64, true) == Ok(18422039271708836097)
    ensures InFor(18432724054486427220, WIDE_BIN.priceQ64, true) == 18422039271708836097
    ensures OutFor(18422039271708836097, WIDE_BIN.priceQ64, true) == 18432724054486427221
  {
  }

  /** Beyond the capacity a fill pays exactly the capacity; it consumes the capacity, or with an input fee one unit of
      dust more. */
  lemma FillBeyondCapacity(bin: Bin, side: Side, a: u64)
    requires HasSide(bin, side) && side.CapacityIn() < a
    ensures FillBin(a, bin, side.swapForY, side.feeOnInput, side.rate).Ok?
    ensures FillBin(a, bin, side.swapForY, side.feeOnInput, side.rate).value.output == side.CapacityOut()
    ensures FillBin(a, bin, side.swapForY, side.feeOnInput, side.rate).value.used == side.CapacityIn()
         || (a == side.CapacityIn() + 1 && side.feeOnInput && side.rate > 0
             && FillBin(a, bin, side.swapForY, side.feeOnInput, side.rate).value.used == a)
  {
    hide Net, Gross, OutFor, InFor, FillBin;
    var cap := side.CapacityIn();
    if side.feeOnInput {
      FillWithInputFee(bin, side, a);
      GrossIsLeast(a, side.rate, side.maxIn);
      if cap + 2 <= a {
        AtMostOneDustUnit(side.maxIn, side.rate, a);
      } else if side.rate == 0 {
        NoFeeIsIdentity(a);
        NoFeeIsIdentity(cap);
        NetUndoesGross(side.maxIn, 0);
      }
    } else {
      FillWithOutputFee(bin, side, a);
    }
  }

  lemma NoFeeIsIdentity(a: nat)
    ensures Net(a, 0) == a
  {
  }

  /** Inside the side, outputs are monotone and stay within the capacity's output. */
  lemma InsideOutputMono(side: Side, a: nat, b: nat)
    requires side.Valid() && a <= b
    ensures b < side.CapacityIn() ==> side.InsideOutput(a) <= side.InsideOutput(b) <= side.CapacityOut()
  {
    hide Net, Gross, OutFor, InFor;
    if b < side.CapacityIn() && side.feeOnInput {
      NetMono(a, b, side.rate);
      OutForMono(Net(a, side.rate), Net(b, side.rate), side.price, side.swapForY);
      GrossIsLeast(b, side.rate, side.maxIn);
      InForIsLeast(Net(b, side.rate), side.maxOut, side.price, side.swapForY);
    } else if b < side.CapacityIn() {
      OutForMono(a, b, side.price, side.swapForY);
      InForIsLeast(b, side.maxOut, side.price, side.swapForY);
      NetMono(OutFor(a, side.price, side.swapForY), OutFor(b, side.price, side.swapForY), side.rate);
      NetMono(OutFor(b, side.price, side.swapForY), side.maxOut, side.rate);
    }
  }
}
