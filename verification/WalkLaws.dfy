/** Where a walk goes and what it can take there, told from the bin ids and the accounts. */
module WalkLaws {
  import opened Arithmetic
  import opened PumpBoundary
  import opened BinQuote
  import opened BinList
  import opened BinCapacity
  import opened Addressing
  import opened LbPair
  import opened BinWalk
  import opened Snapshot
  import opened CurveShape
  import opened CurveRefinement
  import opened Selection

  // --- positions ---

  /** The bin id after a number of moves. */
  function Moved(binId: i32, swapForY: bool, moves: nat): i32 {
    if moves == 0 then binId else NextBin(Moved(binId, swapForY, moves - 1), swapForY)
  }

  /** A swap of X into Y moves down and a swap of Y into X moves up, one bin at a time, and stops at the i32 limits. */
  lemma {:induction false} KthVisit(binId: i32, swapForY: bool, k: nat)
    ensures Moved(binId, swapForY, k)
         == if swapForY then (if binId - k >= I32_MIN then binId - k else I32_MIN)
            else if binId + k <= I32_MAX then binId + k else I32_MAX
  {
    if k > 0 {
      KthVisit(binId, swapForY, k - 1);
    }
  }

  /** The id that lies a number of bins ahead. */
  function Ahead(binId: int, swapForY: bool, k: nat): int {
    if swapForY then binId - k else binId + k
  }

  /** All ids that a number of visits can reach lie within the i32 limits. */
  predicate Reachable(binId: i32, swapForY: bool, visits: nat) {
    visits == 0 || I32_MIN <= Ahead(binId, swapForY, visits - 1) <= I32_MAX
  }

  // --- one visit ---

  /** A visit reads the first supplied array that holds the id, at the id's place in it, if the bitmaps know that array
      and
      it is among the first two. */
  lemma VisitLaw(scan: Scan, binId: i32, used: seq<i64>)
    ensures var visit := VisitBin(scan, binId, used);
            var index: i64 := binId / 70;
            var known := Initialized(scan.view, index);
            var supplied := exists k :: 0 <= k < |scan.view.arrays| && scan.view.arrays[k].index == index;
            var current := |used| > 0 && used[|used| - 1] == index;
            && (visit.Unreadable? <==> known.Err?)
            && (visit.Skipped? <==> known == Ok(false))
            && (visit.MissingArray? <==> known == Ok(true) && !supplied)
            && (visit.ArrayLimit? <==> known == Ok(true) && supplied && !current && |used| == 2)
            && (visit.Found? ==>
                  && visit.used == (if current then used else used + [index])
                  && visit.fees == scan.FeesAt(binId)
                  && exists k :: 0 <= k < |scan.view.arrays| && scan.view.arrays[k].index == index
                              && (forall j :: 0 <= j < k ==> scan.view.arrays[j].index != index)
                              && visit.bin == Offered(scan.view.arrays[k].bins[binId % 70], scan.withOrders))
  {
    hide Initialized, FindArray, Offered;
    var index: i64 := binId / 70;
    FindArrayIsFirst(scan.view.arrays, index);
    if VisitBin(scan, binId, used).Found? {
      OfferedIs(scan, binId, used);
    }
  }

  /** A bin as a pair offers it: without its orders unless the pair supports them. */
  function Offered(bin: Bin, withOrders: bool): Bin {
    if withOrders then bin
    else Bin(bin.priceQ64, bin.amountX, bin.amountY, 0, 0, bin.limitOrderAskSide)
  }

  lemma OfferedIs(scan: Scan, binId: i32, used: seq<i64>)
    requires VisitBin(scan, binId, used).Found?
    ensures var found := FindArray(scan.view.arrays, binId / 70);
            found.Some? && VisitBin(scan, binId, used).bin == Offered(found.value.bins[binId % 70], scan.withOrders)
  {
    hide Initialized, FindArray;
  }

  // --- what rests along the way ---

  /** What rests at an id on the side of the swap, if an array with the id is supplied. */
  function RestingAt(view: View, withOrders: bool, swapForY: bool, binId: int): nat {
    if !(I32_MIN <= binId <= I32_MAX) then 0
    else
      match FindArray(view.arrays, binId / 70)
      case None => 0
      case Some(account) => Resting(Offered(account.bins[binId % 70], withOrders), swapForY)
  }

  /** What rests at an id and the next ones, each counted once. */
  function RestingAhead(view: View, withOrders: bool, swapForY: bool, binId: int, count: nat): nat
    decreases count
  {
    if count == 0 then 0
    else RestingAt(view, withOrders, swapForY, binId)
         + RestingAhead(view, withOrders, swapForY, Ahead(binId, swapForY, 1), count - 1)
  }

  lemma VisitOffersWhatRests(scan: Scan, binId: i32, used: seq<i64>)
    requires VisitBin(scan, binId, used).Found?
    ensures Resting(VisitBin(scan, binId, used).bin, scan.view.swapForY)
         == RestingAt(scan.view, scan.withOrders, scan.view.swapForY, binId)
  {
    hide VisitBin, FindArray, Offered, Resting;
    OfferedIs(scan, binId, used);
  }

  lemma PartialPaysWhatRests(remaining: u64, bin: Bin, swapForY: bool, feeOnInput: bool, p: FeeParameters)
    requires remaining > 0 && PartialQuote(remaining, bin, swapForY, feeOnInput, p).Ok?
    ensures var quote := PartialQuote(remaining, bin, swapForY, feeOnInput, p).value;
            quote.amountIn <= remaining && quote.amountOut <= Resting(bin, swapForY)
  {
    hide FillBin, TotalFeeRate, PartialQuote, Resting, Worth;
    PartialNeedsRate(remaining, bin, swapForY, feeOnInput, p);
    var rate := TotalFeeRate(p).value;
    PartialQuoteIsFill(remaining, bin, swapForY, feeOnInput, p);
    FillWithinRemaining(remaining, bin, swapForY, feeOnInput, rate);
    FillRespectsPrice(remaining, bin, swapForY, feeOnInput, rate);
  }

  /** A completed walk pays out at most what rests in the bins of its visits, each bin counted once. */
  lemma {:induction false} WalkPaysWhatRestsFrom(scan: Scan, visits: nat, binId: i32, remaining: u64, amountOut: u64,
                                                 used: seq<i64>)
    requires Reachable(binId, scan.view.swapForY, visits)
    requires WalkFrom(scan, visits, binId, remaining, amountOut, used).Ok?
    ensures WalkFrom(scan, visits, binId, remaining, amountOut, used).value.amountOut
            <= amountOut + RestingAhead(scan.view, scan.withOrders, scan.view.swapForY, binId, visits)
    decreases visits
  {
    hide VisitBin, PartialQuote, RestingAt, Resting;
    if remaining > 0 && visits > 0 {
      var next := NextBin(binId, scan.view.swapForY);
      if visits > 1 {
        KthVisit(binId, scan.view.swapForY, 1);
        assert next == Moved(binId, scan.view.swapForY, 1);
        assert next == Ahead(binId, scan.view.swapForY, 1);
      }
      var visit := VisitBin(scan, binId, used);
      if visit.Skipped? {
        WalkPaysWhatRestsFrom(scan, visits - 1, next, remaining, amountOut, used);
      } else if visit.Found? {
        VisitOffersWhatRests(scan, binId, used);
        PartialPaysWhatRests(remaining, visit.bin, scan.view.swapForY, scan.feeOnInput, visit.fees);
        var quote := PartialQuote(remaining, visit.bin, scan.view.swapForY, scan.feeOnInput, visit.fees).value;
        WalkPaysWhatRestsFrom(scan, visits - 1, next, remaining - quote.amountIn, amountOut + quote.amountOut,
                              visit.used);
      }
    }
  }

  /** Whether a pair's orders count, told from its type. */
  predicate OrdersCount(pair: Pair) {
    pair.fixed.functionType == 2 || (pair.fixed.functionType == 0 && pair.rewardsAreEmpty)
  }

  /** A completed walk pays out at most what rests in the sixteen bins from the active one on, below it for a swap of X
      into
      Y and above it for a swap of Y into X, each counted once. */
  lemma WalkPaysWhatRests(view: View, amountIn: u64)
    requires Walk(view, amountIn).Ok? && I32_MIN + 15 <= view.pair.activeId <= I32_MAX - 15
    ensures Walk(view, amountIn).value.amountOut
            <= RestingAhead(view, OrdersCount(view.pair), view.swapForY, view.pair.activeId, 16)
  {
    hide WalkFrom, RestingAhead;
    WalkPaysWhatRestsFrom(Prepare(view).value, MAX_VISITED, view.pair.activeId, amountIn, 0, []);
  }

  /** Both routes read the market's own accounts and clock, and swap in opposite directions: forwards the target goes
      in. */
  lemma RoutesReadTheMarket(market: Market)
    ensures var forward, reverse := market.ViewOf(true), market.ViewOf(false);
            && forward.pair == reverse.pair == market.pair && forward.arrays == reverse.arrays == market.arrays
            && forward.extension == reverse.extension == market.extension
            && forward.timestamp == reverse.timestamp == market.timestamp
            && forward.swapForY == market.targetIsX && reverse.swapForY == !market.targetIsX
  {
  }

  /** Forwards the route pays out the token that is not the target; in reverse its first leg pays out the target. */
  lemma RoutesPayTheRightSide(market: Market, amountIn: u64)
    requires I32_MIN + 15 <= market.pair.activeId <= I32_MAX - 15
    ensures var forward := RouteQuote(true, market.pool, market.ViewOf(true), amountIn);
            forward.Some? ==>
              forward.value.amountOut <= RestingAhead(market.ViewOf(true), OrdersCount(market.pair), market.targetIsX,
                                                      market.pair.activeId, 16)
    ensures var leg := Walk(market.ViewOf(false), amountIn);
            leg.Ok? ==>
              leg.value.amountOut <= RestingAhead(market.ViewOf(false), OrdersCount(market.pair), !market.targetIsX,
                                                  market.pair.activeId, 16)
  {
    hide Walk, RestingAhead, BuyAmountOut;
    if RouteQuote(true, market.pool, market.ViewOf(true), amountIn).Some? {
      WalkPaysWhatRests(market.ViewOf(true), BuyAmountOut(market.pool, amountIn).value);
    }
    if Walk(market.ViewOf(false), amountIn).Ok? {
      WalkPaysWhatRests(market.ViewOf(false), amountIn);
    }
  }

  // --- the parts of a walk ---

  /** The one-bin partial quotes that a walk adds up, in the order of its visits. */
  function Parts(scan: Scan, visits: nat, binId: i32, remaining: u64, used: seq<i64>): seq<QuoteResult>
    decreases visits
  {
    if remaining == 0 || visits == 0 then []
    else
      match VisitBin(scan, binId, used)
      case Skipped => Parts(scan, visits - 1, NextBin(binId, scan.view.swapForY), remaining, used)
      case Found(nowUsed, bin, fees) =>
        var partial := PartialQuote(remaining, bin, scan.view.swapForY, scan.feeOnInput, fees);
        if partial.Err? || partial.value.amountIn > remaining then []
        else
          [partial.value]
          + Parts(scan, visits - 1, NextBin(binId, scan.view.swapForY), remaining - partial.value.amountIn, nowUsed)
      case _ => []
  }

  function TotalIn(parts: seq<QuoteResult>): nat {
    if |parts| == 0 then 0 else parts[0].amountIn + TotalIn(parts[1..])
  }

  function TotalOut(parts: seq<QuoteResult>): nat {
    if |parts| == 0 then 0 else parts[0].amountOut + TotalOut(parts[1..])
  }

  function TotalFee(parts: seq<QuoteResult>): nat {
    if |parts| == 0 then 0 else parts[0].fee + TotalFee(parts[1..])
  }

  lemma PartAdds(part: QuoteResult, rest: seq<QuoteResult>)
    ensures TotalIn([part] + rest) == part.amountIn + TotalIn(rest)
    ensures TotalOut([part] + rest) == part.amountOut + TotalOut(rest)
    ensures TotalFee([part] + rest) == part.fee + TotalFee(rest)
  {
    assert ([part] + rest)[1..] == rest;
  }

  /** The snapshot over whole arrays adds up the parts of the account walk: its input, its output and its fee. */
  lemma {:induction false} SnapshotAddsParts(whole: seq<ParsedArray>, scan: Scan, visits: nat, binId: i32,
                                             amountIn: u64,
                                             remaining: u64, amountOut: u64, totalFee: u64, used: seq<i64>)
    requires WholeParses(scan.view.arrays, whole)
    requires SnapshotFrom(scan, whole, visits, binId, amountIn, remaining, amountOut, totalFee, used).Ok?
    ensures var quote := SnapshotFrom(scan, whole, visits, binId, amountIn, remaining, amountOut, totalFee,
                                      used).value.quote;
            var parts := Parts(scan, visits, binId, remaining, used);
            && TotalIn(parts) == remaining && quote.amountIn == amountIn
            && quote.amountOut == amountOut + TotalOut(parts)
            && quote.fee == totalFee + TotalFee(parts)
    decreases visits
  {
    hide ParsedBin, PartialQuote, Initialized, WholeParses, FindArray, Use, BinOffset, BinArrayIndex, NextBin;
    hide TotalIn, TotalOut, TotalFee;
    NoParts();
    if remaining > 0 {
      var next := NextBin(binId, scan.view.swapForY);
      WholeGivesAccountBin(scan.view.arrays, whole, binId, used);
      AddressRecoversBin(binId, BinArrayIndex(binId));
      if Initialized(scan.view, BinArrayIndex(binId)) == Ok(false) {
        SnapshotAddsParts(whole, scan, visits - 1, next, amountIn, remaining, amountOut, totalFee, used);
      } else {
        var (nowUsed, held) := ParsedBin(whole, binId, used).value;
        var bin := if scan.withOrders then held else WithoutOrders(held);
        var partial := PartialQuote(remaining, bin, scan.view.swapForY, scan.feeOnInput, scan.FeesAt(binId)).value;
        SnapshotAddsParts(whole, scan, visits - 1, next, amountIn, remaining - partial.amountIn,
                          amountOut + partial.amountOut, totalFee + partial.fee, nowUsed);
        PartAdds(partial, Parts(scan, visits - 1, next, remaining - partial.amountIn, nowUsed));
      }
    }
  }

  lemma NoParts()
    ensures TotalIn([]) == 0 && TotalOut([]) == 0 && TotalFee([]) == 0
  {
  }

  /** A snapshot quote reports the requested input, and the sums of the outputs and fees of the walk's parts. */
  lemma SnapshotIsItsParts(view: View, whole: seq<ParsedArray>, amountIn: u64)
    requires WholeParses(view.arrays, whole) && SnapshotOf(view, whole, amountIn).Ok? && Prepare(view).Ok?
    ensures var quote := SnapshotOf(view, whole, amountIn).value.quote;
            var parts := Parts(Prepare(view).value, 16, view.pair.activeId, amountIn, []);
            && quote.amountIn == amountIn == TotalIn(parts)
            && quote.amountOut == TotalOut(parts) && quote.fee == TotalFee(parts)
  {
    hide SnapshotFrom, Parts, WholeParses;
    SnapshotAddsParts(whole, Prepare(view).value, MAX_VISITED, view.pair.activeId, amountIn, amountIn, 0, 0, []);
  }

  /** A walk fails as incomplete, unless its outputs add up to more than a u64. */
  lemma {:induction false} WalkFailsIncomplete(scan: Scan, visits: nat, binId: i32, remaining: u64, amountOut: u64,
                                               used: seq<i64>)
    requires WalkFrom(scan, visits, binId, remaining, amountOut, used).Err?
    ensures WalkFrom(scan, visits, binId, remaining, amountOut, used).error
         == if amountOut + TotalOut(Parts(scan, visits, binId, remaining, used)) > U64_MAX then ArithmeticOverflow
            else BestDirectionQuoteIncomplete
    decreases visits
  {
    hide VisitBin, PartialQuote, NextBin, TotalOut, Resting;
    NoParts();
    if visits > 0 {
      var next := NextBin(binId, scan.view.swapForY);
      var visit := VisitBin(scan, binId, used);
      if visit.Skipped? {
        WalkFailsIncomplete(scan, visits - 1, next, remaining, amountOut, used);
      } else if visit.Found? {
        var partial := PartialQuote(remaining, visit.bin, scan.view.swapForY, scan.feeOnInput, visit.fees);
        if partial.Ok? {
          PartialPaysWhatRests(remaining, visit.bin, scan.view.swapForY, scan.feeOnInput, visit.fees);
          var rest := Parts(scan, visits - 1, next, remaining - partial.value.amountIn, visit.used);
          PartAdds(partial.value, rest);
          if amountOut + partial.value.amountOut <= U64_MAX {
            WalkFailsIncomplete(scan, visits - 1, next, remaining - partial.value.amountIn,
                                amountOut + partial.value.amountOut, visit.used);
          }
        }
      }
    }
  }

  // --- parsed arrays ---

  /** A parsed array lists every bin of its account at its place. */
  lemma {:induction false} WholeHolds(account: BinArray, k: nat, offset: u8, bin: Bin)
    requires k <= 70
    ensures (offset, bin) in AllBinsFrom(account, k) <==> k <= offset < 70 && bin == account.bins[offset]
    decreases 70 - k
  {
    if k < 70 {
      WholeHolds(account, k + 1, offset, bin);
    }
  }

  lemma {:induction false} WindowHoldsFrom(account: BinArray, activeId: i32, k: nat, offset: u8, bin: Bin)
    requires k <= 70 && WindowBinsFrom(account, activeId, k).Ok?
    ensures (offset, bin) in WindowBinsFrom(account, activeId, k).value
       <==> k <= offset < 70 && bin == account.bins[offset] && InWindow(70 * account.index + offset, activeId)
    decreases 70 - k
  {
    hide InWindow;
    if k < 70 {
      WindowHoldsFrom(account, activeId, k + 1, offset, bin);
    }
  }

  /** A windowed array lists exactly the account's bins whose id is an i32 within fifteen of the active id. */
  lemma WindowHolds(account: BinArray, activeId: i32, offset: u8, bin: Bin)
    requires ParseWindow(account, activeId).Ok?
    ensures ParseWindow(account, activeId).value.index == account.index
    ensures (offset, bin) in ParseWindow(account, activeId).value.bins
       <==> (var id := 70 * account.index + offset;
             && offset < 70 && bin == account.bins[offset]
             && I32_MIN <= id <= I32_MAX && activeId - 15 <= id <= activeId + 15)
  {
    hide WindowBinsFrom;
    WindowHoldsFrom(account, activeId, 0, offset, bin);
  }

  /** Cutting fails exactly for an array whose ids do not all fit 64 bits. */
  lemma {:induction false} WindowFails(account: BinArray, activeId: i32, k: nat)
    requires k <= 70
    ensures WindowBinsFrom(account, activeId, k).Ok?
       <==> k == 70 || (I64_MIN <= 70 * account.index && 70 * account.index + 69 <= I64_MAX)
    decreases 70 - k
  {
    hide InWindow;
    if k < 70 {
      WindowFails(account, activeId, k + 1);
    }
  }
}
