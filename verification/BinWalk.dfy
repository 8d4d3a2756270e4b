/** The account walk: at most sixteen bins in at most two arrays, quoted one after the other. */
module BinWalk {
  import opened Arithmetic
  import opened BinQuote
  import opened BinList
  import opened Addressing
  import opened LbPair

  const MAX_ARRAYS: nat := 2
  const MAX_VISITED: nat := 16

  datatype BinArrayData = BinArrayData(index: i64, bins: seq<Bin>)

  const NO_BIN: Bin := Bin(0, 0, 0, 0, 0, false)

  /** An account that holds a whole array. */
  type BinArray = a: BinArrayData | |a.bins| == BINS_PER_ARRAY witness BinArrayData(0, seq(70, i => NO_BIN))

  /** What one direction of a quote reads: the pair, the supplied arrays, the bitmap extension account if there is one,
      and the clock. */
  datatype View = View(pair: Pair, arrays: seq<BinArray>, extension: Option<seq<u8>>, swapForY: bool, timestamp: i64)

  /** A view whose fee and order modes have been decoded. */
  datatype Scan = Scan(view: View, feeOnInput: bool, withOrders: bool) {
    function Pair(): Pair {
      view.pair
    }

    /** The volatility state once the reference is brought up to date. */
    function Reference(): VariableParameters {
      Referenced(view.pair.variable, view.pair.activeId, view.pair.fixed, view.timestamp)
    }

    /** The fee parameters of a bin, which do not depend on the path to it. */
    function FeesAt(binId: i32): FeeParameters {
      FeeParametersOf(view.pair, AccumulatorAt(Reference(), binId, view.pair.fixed))
    }
  }

  function Prepare(view: View): Result<Scan, ArbError> {
    var feeOnInput :- FeeOnInput(view.pair, view.swapForY).OrElse(BestDirectionQuoteIncomplete);
    var withOrders :- SupportsLimitOrders(view.pair).OrElse(BestDirectionQuoteIncomplete);
    Ok(Scan(view, feeOnInput, withOrders))
  }

  function NextBin(binId: i32, swapForY: bool): i32 {
    if swapForY then (if binId == I32_MIN then I32_MIN else binId - 1)
    else if binId == I32_MAX then I32_MAX else binId + 1
  }

  function Initialized(view: View, arrayIndex: i64): Result<bool, QuoteError> {
    if InDefaultBitmap(arrayIndex) then Ok(DefaultBitmapContains(view.pair.bitmap, arrayIndex))
    else
      match view.extension
      case None => Ok(false)
      case Some(data) => ExtensionBitmapContains(data, arrayIndex)
  }

  /** The first supplied array with the wanted index. */
  function FindArray(arrays: seq<BinArray>, arrayIndex: i64): (found: Option<BinArray>)
    ensures found.Some? ==> found.value.index == arrayIndex
  {
    if |arrays| == 0 then None
    else if arrays[0].index == arrayIndex then Some(arrays[0])
    else FindArray(arrays[1..], arrayIndex)
  }

  /** It is the first one, and it is missing only when no supplied array has the index. */
  lemma {:induction false} FindArrayIsFirst(arrays: seq<BinArray>, arrayIndex: i64)
    ensures var found := FindArray(arrays, arrayIndex);
            && (found.None? <==> forall i :: 0 <= i < |arrays| ==> arrays[i].index != arrayIndex)
            && (found.Some? ==>
                  exists k :: 0 <= k < |arrays| && arrays[k] == found.value && arrays[k].index == arrayIndex
                           && forall i :: 0 <= i < k ==> arrays[i].index != arrayIndex)
  {
    if |arrays| > 0 && arrays[0].index != arrayIndex {
      var rest := arrays[1..];
      FindArrayIsFirst(rest, arrayIndex);
      assert forall i :: 1 <= i < |arrays| ==> arrays[i] == rest[i - 1];
      if FindArray(rest, arrayIndex).Some? {
        var k :| 0 <= k < |rest| && rest[k] == FindArray(rest, arrayIndex).value && rest[k].index == arrayIndex
                 && forall i :: 0 <= i < k ==> rest[i].index != arrayIndex;
        assert arrays[k + 1] == rest[k];
      }
    }
  }

  /** Records an array as used; a third array does not fit. */
  function Use(used: seq<i64>, arrayIndex: i64): Option<seq<i64>> {
    if |used| > 0 && used[|used| - 1] == arrayIndex then Some(used)
    else if |used| == MAX_ARRAYS then None
    else Some(used + [arrayIndex])
  }

  function WithoutOrders(bin: Bin): Bin {
    bin.(openOrderAmount := 0, processedOrderRemainingAmount := 0)
  }

  /** What a walk finds at a bin id. */
  datatype Visit =
    | Skipped
    | MissingArray
    | ArrayLimit
    | Unreadable
    | Found(used: seq<i64>, bin: Bin, fees: FeeParameters)

  function VisitBin(scan: Scan, binId: i32, used: seq<i64>): Visit {
    var arrayIndex := BinArrayIndex(binId);
    match Initialized(scan.view, arrayIndex)
    case Err(_) => Unreadable
    case Ok(false) => Skipped
    case Ok(true) =>
      match FindArray(scan.view.arrays, arrayIndex)
      case None => MissingArray
      case Some(account) =>
        match Use(used, arrayIndex)
        case None => ArrayLimit
        case Some(nowUsed) =>
          match BinOffset(binId, arrayIndex)
          case Err(_) => Unreadable
          case Ok(offset) =>
            var bin := account.bins[offset];
            Found(nowUsed, if scan.withOrders then bin else WithoutOrders(bin), scan.FeesAt(binId))
  }

  datatype WalkQuote = WalkQuote(amountOut: u64, used: seq<i64>)

  /** The walk with a number of visits left, from a bin id, a remaining input, an output so far and the arrays used so
      far. */
  function WalkFrom(scan: Scan, visits: nat, binId: i32, remaining: u64, amountOut: u64,
                    used: seq<i64>): Result<WalkQuote, ArbError>
  {
    if remaining == 0 then Ok(WalkQuote(amountOut, used))
    else if visits == 0 then Err(BestDirectionQuoteIncomplete)
    else
      match VisitBin(scan, binId, used)
      case Skipped => WalkFrom(scan, visits - 1, NextBin(binId, scan.view.swapForY), remaining, amountOut, used)
      case Found(nowUsed, bin, fees) =>
        var partial :- PartialQuote(remaining, bin, scan.view.swapForY, scan.feeOnInput,
                                    fees).OrElse(BestDirectionQuoteIncomplete);
        var left :- Fit64(remaining - partial.amountIn).OrElse(ArithmeticOverflow);
        var out :- Fit64(amountOut + partial.amountOut).OrElse(ArithmeticOverflow);
        WalkFrom(scan, visits - 1, NextBin(binId, scan.view.swapForY), left, out, nowUsed)
      case _ => Err(BestDirectionQuoteIncomplete)
  }

  function Walk(view: View, amountIn: u64): Result<WalkQuote, ArbError> {
    var scan :- Prepare(view);
    WalkFrom(scan, MAX_VISITED, view.pair.activeId, amountIn, 0, [])
  }

  /** The volatility state in the middle of a walk: the updated reference under any accumulator. */
  predicate Tracks(variable: VolatilityState, scan: Scan)
    reads variable
  {
    variable.State() == scan.Reference().(volatilityAccumulator := variable.volatilityAccumulator)
  }

  /** The part of a visit that both walks share: bitmap, account, array limit, bin and accumulator, in this order. */
  method Inspect(scan: Scan, activeId: i32, used: seq<i64>, variable: VolatilityState) returns (visit: Visit)
    requires Tracks(variable, scan)
    modifies variable
    ensures Tracks(variable, scan)
    ensures visit == VisitBin(scan, activeId, used)
    ensures !visit.Found? ==> variable.State() == old(variable.State())
  {
    hide Initialized, FindArray, AccumulatorAt, Referenced, FeeParametersOf, BinArrayIndex, BinOffset;
    var pair := scan.view.pair;
    var arrayIndex := BinArrayIndex(activeId);
    var initialized := Initialized(scan.view, arrayIndex);
    if initialized.Err? {
      return Unreadable;
    }
    if !initialized.value {
      return Skipped;
    }
    var account := FindArray(scan.view.arrays, arrayIndex);
    if account.None? {
      return MissingArray;
    }
    var nowUsed := used;
    if |used| == 0 || used[|used| - 1] != arrayIndex {
      if |used| == MAX_ARRAYS {
        return ArrayLimit;
      }
      nowUsed := used + [arrayIndex];
    }
    var offset := BinOffset(activeId, arrayIndex);
    if offset.Err? {
      return Unreadable;
    }
    var bin := account.value.bins[offset.value];
    if !scan.withOrders {
      bin := WithoutOrders(bin);
    }
    AccumulatorIgnoresCurrent(scan.Reference(), variable.volatilityAccumulator, activeId, pair.fixed);
    variable.UpdateAccumulator(activeId, pair.fixed);
    return Found(nowUsed, bin, FeeParametersOf(pair, variable.volatilityAccumulator));
  }

  method QuoteFromAccounts(amountIn: u64, view: View) returns (r: Result<WalkQuote, ArbError>)
    ensures r == Walk(view, amountIn)
  {
    hide PartialQuote, VisitBin, NextBin, FeeOnInput, SupportsLimitOrders;
    var variable := new VolatilityState(view.pair.variable);
    variable.UpdateReference(view.pair.activeId, view.pair.fixed, view.timestamp);
    var activeId: i32, remaining: u64, amountOut: u64 := view.pair.activeId, amountIn, 0;
    var feeOnInput :- FeeOnInput(view.pair, view.swapForY).OrElse(BestDirectionQuoteIncomplete);
    var withOrders :- SupportsLimitOrders(view.pair).OrElse(BestDirectionQuoteIncomplete);
    var scan := Scan(view, feeOnInput, withOrders);
    var used: seq<i64> := [];
    var visited := 0;
    while visited < MAX_VISITED
      invariant 0 <= visited <= MAX_VISITED
      invariant Tracks(variable, scan)
      invariant WalkFrom(scan, MAX_VISITED - visited, activeId, remaining, amountOut, used)
             == WalkFrom(scan, MAX_VISITED, view.pair.activeId, amountIn, 0, [])
    {
      if remaining == 0 {
        break;
      }
      visited := visited + 1;
      var visit := Inspect(scan, activeId, used, variable);
      if visit.Skipped? {
        activeId := NextBin(activeId, view.swapForY);
        continue;
      }
      if !visit.Found? {
        return Err(BestDirectionQuoteIncomplete);
      }
      used := visit.used;
      var partial :- PartialQuote(remaining, visit.bin, view.swapForY, feeOnInput,
                                  visit.fees).OrElse(BestDirectionQuoteIncomplete);
      remaining :- Fit64(remaining - partial.amountIn).OrElse(ArithmeticOverflow);
      amountOut :- Fit64(amountOut + partial.amountOut).OrElse(ArithmeticOverflow);
      if remaining != 0 {
        activeId := NextBin(activeId, view.swapForY);
      }
    }
    if remaining != 0 {
      return Err(BestDirectionQuoteIncomplete);
    }
    return Ok(WalkQuote(amountOut, used));
  }

  // --- the arrays a walk uses ---

  /** At most two arrays, strictly in the direction of the swap, none ahead of the bin that is visited next. */
  predicate UsedInOrder(used: seq<i64>, binId: i32, swapForY: bool) {
    && |used| <= MAX_ARRAYS
    && (|used| == 2 ==> if swapForY then used[0] > used[1] else used[0] < used[1])
    && forall i :: 0 <= i < |used| ==> if swapForY then BinArrayIndex(binId) <= used[i]
       else used[i] <= BinArrayIndex(binId)
  }

  lemma UseKeepsOrder(used: seq<i64>, binId: i32, swapForY: bool)
    requires UsedInOrder(used, binId, swapForY)
    ensures Use(used, BinArrayIndex(binId)).Some? ==>
              UsedInOrder(Use(used, BinArrayIndex(binId)).value, binId, swapForY)
  {
  }

  lemma NextKeepsOrder(used: seq<i64>, binId: i32, swapForY: bool)
    requires UsedInOrder(used, binId, swapForY)
    ensures UsedInOrder(used, NextBin(binId, swapForY), swapForY)
  {
    var next := NextBin(binId, swapForY);
    assert if swapForY then BinArrayIndex(next) <= BinArrayIndex(binId)
        else BinArrayIndex(binId) <= BinArrayIndex(next);
  }

  /** The used arrays of a completed walk are at most two, repeat-free and in the direction of the swap. */
  lemma {:induction false} WalkUsesArraysInOrder(scan: Scan, visits: nat, binId: i32, remaining: u64, amountOut: u64,
                                                 used: seq<i64>)
    requires UsedInOrder(used, binId, scan.view.swapForY)
    requires WalkFrom(scan, visits, binId, remaining, amountOut, used).Ok?
    ensures var all := WalkFrom(scan, visits, binId, remaining, amountOut, used).value.used;
            && used <= all && |all| <= MAX_ARRAYS
            && (|all| == 2 ==> if scan.view.swapForY then all[0] > all[1] else all[0] < all[1])
    decreases visits
  {
    hide PartialQuote, Initialized, FindArray, UsedInOrder, NextBin, BinArrayIndex;
    assert |used| <= MAX_ARRAYS && (|used| == 2
                                    ==> if scan.view.swapForY then used[0] > used[1] else used[0] < used[1]) by {
      OrderedUse(used, binId, scan.view.swapForY);
    }
    if remaining > 0 && visits > 0 {
      var next := NextBin(binId, scan.view.swapForY);
      var visit := VisitBin(scan, binId, used);
      if visit.Skipped? {
        NextKeepsOrder(used, binId, scan.view.swapForY);
        WalkUsesArraysInOrder(scan, visits - 1, next, remaining, amountOut, used);
      } else {
        UseKeepsOrder(used, binId, scan.view.swapForY);
        NextKeepsOrder(visit.used, binId, scan.view.swapForY);
        var partial := PartialQuote(remaining, visit.bin, scan.view.swapForY, scan.feeOnInput, visit.fees).value;
        WalkUsesArraysInOrder(scan, visits - 1, next, remaining - partial.amountIn, amountOut + partial.amountOut,
                              visit.used);
      }
    }
  }

  lemma OrderedUse(used: seq<i64>, binId: i32, swapForY: bool)
    requires UsedInOrder(used, binId, swapForY)
    ensures |used| <= MAX_ARRAYS && (|used| == 2 ==> if swapForY then used[0] > used[1] else used[0] < used[1])
  {
  }
}
