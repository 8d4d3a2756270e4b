/** The snapshot quote over parsed arrays, whole or cut to a window, against the account walk. */
module Snapshot {
  import opened Arithmetic
  import opened BinQuote
  import opened BinList
  import opened Addressing
  import opened LbPair
  import opened BinWalk

  /** A parsed array lists the bins it kept together with their offsets. */
  datatype ParsedArray = ParsedArray(index: i64, bins: seq<(u8, Bin)>)

  datatype SnapshotQuote = SnapshotQuote(quote: QuoteResult, used: seq<i64>)

  // --- parsing ---

  /** The bins from an offset on, each with its offset. */
  function AllBinsFrom(account: BinArray, k: nat): seq<(u8, Bin)>
    requires k <= BINS_PER_ARRAY
    decreases BINS_PER_ARRAY - k
  {
    if k == BINS_PER_ARRAY then [] else [(k, account.bins[k])] + AllBinsFrom(account, k + 1)
  }

  function Parse(account: BinArray): ParsedArray {
    ParsedArray(account.index, AllBinsFrom(account, 0))
  }

  method ParseBinArray(account: BinArray) returns (r: ParsedArray)
    ensures r == Parse(account)
  {
    var bins: seq<(u8, Bin)> := [];
    for k := 0 to BINS_PER_ARRAY
      invariant bins + AllBinsFrom(account, k) == AllBinsFrom(account, 0)
    {
      bins := bins + [(k, account.bins[k])];
    }
    return ParsedArray(account.index, bins);
  }

  function Saturate32(v: int): i32 {
    if v < I32_MIN then I32_MIN else if v > I32_MAX then I32_MAX else v
  }

  predicate InWindow(binId: int, activeId: i32) {
    Saturate32(activeId - (MAX_VISITED - 1)) <= binId <= Saturate32(activeId + (MAX_VISITED - 1))
  }

  /** The bins from an offset on whose absolute id a walk from the active bin can visit. */
  function WindowBinsFrom(account: BinArray, activeId: i32, k: nat): Result<seq<(u8, Bin)>, QuoteError>
    requires k <= BINS_PER_ARRAY
    decreases BINS_PER_ARRAY - k
  {
    if k == BINS_PER_ARRAY then Ok([])
    else
      var absoluteId := account.index * BINS_PER_ARRAY + k;
      if !(I64_MIN <= account.index * BINS_PER_ARRAY <= I64_MAX && absoluteId <= I64_MAX) then Err(MathOverflow)
      else
        var rest :- WindowBinsFrom(account, activeId, k + 1);
        Ok(if InWindow(absoluteId, activeId) then [(k, account.bins[k])] + rest else rest)
  }

  function ParseWindow(account: BinArray, activeId: i32): Result<ParsedArray, QuoteError> {
    var bins :- WindowBinsFrom(account, activeId, 0);
    Ok(ParsedArray(account.index, bins))
  }

  method ParseBinArrayWindow(account: BinArray, activeId: i32) returns (r: Result<ParsedArray, QuoteError>)
    ensures r == ParseWindow(account, activeId)
  {
    hide Saturate32;
    var lower := Saturate32(activeId - (MAX_VISITED - 1));
    var upper := Saturate32(activeId + (MAX_VISITED - 1));
    var bins: seq<(u8, Bin)> := [];
    for k := 0 to BINS_PER_ARRAY
      invariant var whole, rest := WindowBinsFrom(account, activeId, 0), WindowBinsFrom(account, activeId, k);
                if rest.Ok? then whole.Ok? && whole.value == bins + rest.value else whole == rest
    {
      var absoluteId := account.index * BINS_PER_ARRAY + k;
      if !(I64_MIN <= account.index * BINS_PER_ARRAY <= I64_MAX && absoluteId <= I64_MAX) {
        return Err(MathOverflow);
      }
      if lower <= absoluteId <= upper {
        bins := bins + [(k, account.bins[k])];
      }
    }
    assert bins + [] == bins;
    return Ok(ParsedArray(account.index, bins));
  }

  // --- quoting ---

  function FindParsed(arrays: seq<ParsedArray>, arrayIndex: i64): Option<ParsedArray> {
    if |arrays| == 0 then None
    else if arrays[0].index == arrayIndex then Some(arrays[0])
    else FindParsed(arrays[1..], arrayIndex)
  }

  function FindOffset(bins: seq<(u8, Bin)>, wanted: u8): Option<Bin> {
    if |bins| == 0 then None
    else if bins[0].0 == wanted then Some(bins[0].1)
    else FindOffset(bins[1..], wanted)
  }

  /** The bin of an id in the parsed arrays, with the arrays used so far. */
  function ParsedBin(arrays: seq<ParsedArray>, binId: i32, used: seq<i64>): Result<(seq<i64>, Bin), QuoteError> {
    var arrayIndex := BinArrayIndex(binId);
    match FindParsed(arrays, arrayIndex)
    case None => Err(InsufficientLiquidity)
    case Some(parsed) =>
      match Use(used, arrayIndex)
      case None => Err(InsufficientLiquidity)
      case Some(nowUsed) =>
        var offset :- BinOffset(binId, parsed.index);
        match FindOffset(parsed.bins, offset % 256)
        case None => Err(InsufficientLiquidity)
        case Some(bin) => Ok((nowUsed, bin))
  }

  /** The snapshot loop with a number of visits left; it reads the parsed arrays where the walk reads accounts. */
  function SnapshotFrom(scan: Scan, arrays: seq<ParsedArray>, visits: nat, binId: i32, amountIn: u64, remaining: u64,
                        amountOut: u64, totalFee: u64, used: seq<i64>): Result<SnapshotQuote, QuoteError>
    decreases visits
  {
    if remaining == 0 then Ok(SnapshotQuote(QuoteResult(amountIn, amountOut, totalFee), used))
    else if visits == 0 then Err(InsufficientLiquidity)
    else
      var initialized :- Initialized(scan.view, BinArrayIndex(binId));
      if !initialized then
        SnapshotFrom(scan, arrays, visits - 1, NextBin(binId, scan.view.swapForY), amountIn, remaining, amountOut,
                     totalFee, used)
      else
        var (nowUsed, held) :- ParsedBin(arrays, binId, used);
        var bin := if scan.withOrders then held else WithoutOrders(held);
        var partial :- PartialQuote(remaining, bin, scan.view.swapForY, scan.feeOnInput, scan.FeesAt(binId));
        var left :- Fit64(remaining - partial.amountIn);
        var out :- Fit64(amountOut + partial.amountOut);
        var fee :- Fit64(totalFee + partial.fee);
        SnapshotFrom(scan, arrays, visits - 1, NextBin(binId, scan.view.swapForY), amountIn, left, out, fee, nowUsed)
  }

  function SnapshotOf(view: View, arrays: seq<ParsedArray>, amountIn: u64): Result<SnapshotQuote, QuoteError> {
    var feeOnInput :- FeeOnInput(view.pair, view.swapForY);
    var withOrders :- SupportsLimitOrders(view.pair);
    SnapshotFrom(Scan(view, feeOnInput, withOrders), arrays, MAX_VISITED, view.pair.activeId, amountIn, amountIn, 0, 0,
                 [])
  }

  method QuoteSnapshot(amountIn: u64, view: View,
                       arrays: seq<ParsedArray>) returns (r: Result<SnapshotQuote, QuoteError>)
    ensures r == SnapshotOf(view, arrays, amountIn)
  {
    hide PartialQuote, Initialized, FindParsed, FindOffset, AccumulatorAt, Referenced, FeeParametersOf, BinOffset,
         BinArrayIndex,
         FeeOnInput, SupportsLimitOrders, NextBin;
    var pair := view.pair;
    var variable := new VolatilityState(pair.variable);
    variable.UpdateReference(pair.activeId, pair.fixed, view.timestamp);
    ghost var reference := variable.State();
    var activeId: i32, remaining: u64, amountOut: u64, totalFee: u64 := pair.activeId, amountIn, 0, 0;
    var used: seq<i64> := [];
    var feeOnInput :- FeeOnInput(pair, view.swapForY);
    var withOrders :- SupportsLimitOrders(pair);
    ghost var scan := Scan(view, feeOnInput, withOrders);
    var visited := 0;
    while visited < MAX_VISITED
      invariant 0 <= visited <= MAX_VISITED
      invariant variable.State() == reference.(volatilityAccumulator := variable.volatilityAccumulator)
      invariant SnapshotFrom(scan, arrays, MAX_VISITED - visited, activeId, amountIn, remaining, amountOut, totalFee,
                             used)
             == SnapshotFrom(scan, arrays, MAX_VISITED, pair.activeId, amountIn, amountIn, 0, 0, [])
    {
      if remaining == 0 {
        break;
      }
      visited := visited + 1;
      var arrayIndex := BinArrayIndex(activeId);
      var initialized :- Initialized(view, arrayIndex);
      if !initialized {
        activeId := NextBin(activeId, view.swapForY);
        continue;
      }
      var parsed := FindParsed(arrays, arrayIndex);
      if parsed.None? {
        return Err(InsufficientLiquidity);
      }
      if |used| == 0 || used[|used| - 1] != arrayIndex {
        if |used| == MAX_ARRAYS {
          return Err(InsufficientLiquidity);
        }
        used := used + [arrayIndex];
      }
      var wantedOffset :- BinOffset(activeId, parsed.value.index);
      var held := FindOffset(parsed.value.bins, wantedOffset % 256);
      if held.None? {
        return Err(InsufficientLiquidity);
      }
      var bin := held.value;
      if !withOrders {
        bin := WithoutOrders(bin);
      }
      AccumulatorIgnoresCurrent(reference, variable.volatilityAccumulator, activeId, pair.fixed);
      variable.UpdateAccumulator(activeId, pair.fixed);
      var partial :- PartialQuote(remaining, bin, view.swapForY, feeOnInput,
                                  FeeParametersOf(pair, variable.volatilityAccumulator));
      remaining :- Fit64(remaining - partial.amountIn);
      amountOut :- Fit64(amountOut + partial.amountOut);
      totalFee :- Fit64(totalFee + partial.fee);
      if remaining != 0 {
        activeId := NextBin(activeId, view.swapForY);
      }
    }
    if remaining != 0 {
      return Err(InsufficientLiquidity);
    }
    return Ok(SnapshotQuote(QuoteResult(amountIn, amountOut, totalFee), used));
  }

  // --- finding bins in whole and windowed arrays ---

  lemma {:induction false} WholeArrayFindsBin(account: BinArray, k: nat, wanted: nat)
    requires k <= wanted < BINS_PER_ARRAY
    ensures FindOffset(AllBinsFrom(account, k), wanted) == Some(account.bins[wanted])
    decreases BINS_PER_ARRAY - k
  {
    var rest := AllBinsFrom(account, k + 1);
    assert ([(k, account.bins[k])] + rest)[1..] == rest;
    if k < wanted {
      WholeArrayFindsBin(account, k + 1, wanted);
    }
  }

  lemma {:induction false} WindowFindsBin(account: BinArray, activeId: i32, k: nat, wanted: nat)
    requires k <= wanted < BINS_PER_ARRAY
    requires WindowBinsFrom(account, activeId, k).Ok?
    requires InWindow(account.index * BINS_PER_ARRAY + wanted, activeId)
    ensures FindOffset(WindowBinsFrom(account, activeId, k).value, wanted) == Some(account.bins[wanted])
    decreases BINS_PER_ARRAY - k
  {
    hide InWindow;
    var rest := WindowBinsFrom(account, activeId, k + 1).value;
    assert ([(k, account.bins[k])] + rest)[1..] == rest;
    if k < wanted {
      WindowFindsBin(account, activeId, k + 1, wanted);
    }
  }

  predicate WholeParses(accounts: seq<BinArray>, whole: seq<ParsedArray>) {
    |whole| == |accounts| && forall i :: 0 <= i < |accounts| ==> whole[i] == Parse(accounts[i])
  }

  predicate WindowParses(accounts: seq<BinArray>, activeId: i32, cut: seq<ParsedArray>) {
    |cut| == |accounts| && forall i :: 0 <= i < |accounts| ==> ParseWindow(accounts[i], activeId) == Ok(cut[i])
  }

  /** Parsing keeps the indices, so it finds the same arrays. */
  lemma {:induction false} WholeArraysFound(accounts: seq<BinArray>, whole: seq<ParsedArray>, arrayIndex: i64)
    requires WholeParses(accounts, whole)
    ensures var found := FindArray(accounts, arrayIndex);
            FindParsed(whole, arrayIndex) == if found.None? then None else Some(Parse(found.value))
    decreases |accounts|
  {
    hide AllBinsFrom;
    if |accounts| > 0 {
      assert whole[0] == Parse(accounts[0]);
      WholeArraysFound(accounts[1..], whole[1..], arrayIndex);
    }
  }

  lemma {:induction false} WindowArraysFound(accounts: seq<BinArray>, activeId: i32, cut: seq<ParsedArray>,
                                             arrayIndex: i64)
    requires WindowParses(accounts, activeId, cut)
    ensures var found := FindArray(accounts, arrayIndex);
            && (found.Some? ==> ParseWindow(found.value, activeId).Ok?)
            && FindParsed(cut, arrayIndex) == if found.None? then None
               else ParseWindow(found.value, activeId).ToOption()
    decreases |accounts|
  {
    hide WindowBinsFrom;
    if |accounts| > 0 {
      assert ParseWindow(accounts[0], activeId) == Ok(cut[0]);
      WindowArraysFound(accounts[1..], activeId, cut[1..], arrayIndex);
    }
  }

  // --- the window keeps every quote ---

  /** Within its number of visits, a walk stays inside the window. */
  predicate WithinReach(activeId: i32, binId: i32, visits: nat) {
    visits <= MAX_VISITED && Saturate32(activeId - (MAX_VISITED - visits)) <= binId
        <= Saturate32(activeId + (MAX_VISITED - visits))
  }

  lemma ReachStep(activeId: i32, binId: i32, visits: nat, swapForY: bool)
    requires WithinReach(activeId, binId, visits) && visits > 0
    ensures InWindow(binId, activeId) && WithinReach(activeId, NextBin(binId, swapForY), visits - 1)
  {
  }

  /** The bin that parsed arrays should give: the one in the account, if there is an account and it may be used. */
  function AccountBin(accounts: seq<BinArray>, binId: i32, used: seq<i64>): Result<(seq<i64>, Bin), QuoteError> {
    var found := FindArray(accounts, BinArrayIndex(binId));
    if found.None? || Use(used, BinArrayIndex(binId)).None? then Err(InsufficientLiquidity)
    else
      var offset :- BinOffset(binId, BinArrayIndex(binId));
      Ok((Use(used, BinArrayIndex(binId)).value, found.value.bins[offset]))
  }

  lemma WholeGivesAccountBin(accounts: seq<BinArray>, whole: seq<ParsedArray>, binId: i32, used: seq<i64>)
    requires WholeParses(accounts, whole)
    ensures ParsedBin(whole, binId, used) == AccountBin(accounts, binId, used)
  {
    hide FindArray, FindParsed, FindOffset, WholeParses, AllBinsFrom;
    var arrayIndex := BinArrayIndex(binId);
    WholeArraysFound(accounts, whole, arrayIndex);
    var found := FindArray(accounts, arrayIndex);
    if found.Some? {
      AddressRecoversBin(binId, arrayIndex);
      WholeArrayFindsBin(found.value, 0, BinOffset(binId, arrayIndex).value);
    }
  }

  /** At a bin within the window, the windowed arrays lose nothing. */
  lemma WindowGivesAccountBin(accounts: seq<BinArray>, activeId: i32, cut: seq<ParsedArray>, binId: i32, used: seq<i64>)
    requires WindowParses(accounts, activeId, cut) && InWindow(binId, activeId)
    ensures ParsedBin(cut, binId, used) == AccountBin(accounts, binId, used)
  {
    hide FindArray, FindParsed, FindOffset, InWindow, WindowParses, WindowBinsFrom;
    var arrayIndex := BinArrayIndex(binId);
    WindowArraysFound(accounts, activeId, cut, arrayIndex);
    var found := FindArray(accounts, arrayIndex);
    if found.Some? {
      AddressRecoversBin(binId, arrayIndex);
      WindowFindsBin(found.value, activeId, 0, BinOffset(binId, arrayIndex).value);
    }
  }

  /** Cutting every array to the window changes no quote, error or used array. */
  lemma {:induction false} WindowKeepsQuoteFrom(accounts: seq<BinArray>, whole: seq<ParsedArray>,
                                                cut: seq<ParsedArray>, scan: Scan,
                                                visits: nat, binId: i32, amountIn: u64, remaining: u64, amountOut: u64,
                                                totalFee: u64, used: seq<i64>)
    requires WholeParses(accounts, whole) && WindowParses(accounts, scan.view.pair.activeId, cut)
    requires WithinReach(scan.view.pair.activeId, binId, visits)
    ensures SnapshotFrom(scan, cut, visits, binId, amountIn, remaining, amountOut, totalFee, used)
         == SnapshotFrom(scan, whole, visits, binId, amountIn, remaining, amountOut, totalFee, used)
    decreases visits
  {
    hide ParsedBin, PartialQuote, Initialized, WithinReach, InWindow, WholeParses, WindowParses, AccountBin;
    if remaining > 0 && visits > 0 {
      var next := NextBin(binId, scan.view.swapForY);
      ReachStep(scan.view.pair.activeId, binId, visits, scan.view.swapForY);
      WholeGivesAccountBin(accounts, whole, binId, used);
      WindowGivesAccountBin(accounts, scan.view.pair.activeId, cut, binId, used);
      var initialized := Initialized(scan.view, BinArrayIndex(binId));
      if initialized == Ok(false) {
        WindowKeepsQuoteFrom(accounts, whole, cut, scan, visits - 1, next, amountIn, remaining, amountOut, totalFee,
                             used);
      } else if initialized == Ok(true) && ParsedBin(whole, binId, used).Ok? {
        var (nowUsed, held) := ParsedBin(whole, binId, used).value;
        var bin := if scan.withOrders then held else WithoutOrders(held);
        var partial := PartialQuote(remaining, bin, scan.view.swapForY, scan.feeOnInput, scan.FeesAt(binId));
        if partial.Ok? && remaining >= partial.value.amountIn && amountOut + partial.value.amountOut <= U64_MAX
           && totalFee + partial.value.fee <= U64_MAX {
          WindowKeepsQuoteFrom(accounts, whole, cut, scan, visits - 1, next, amountIn,
                               remaining - partial.value.amountIn,
                               amountOut + partial.value.amountOut, totalFee + partial.value.fee, nowUsed);
        }
      }
    }
  }

  lemma WindowKeepsQuote(view: View, whole: seq<ParsedArray>, cut: seq<ParsedArray>, amountIn: u64)
    requires WholeParses(view.arrays, whole) && WindowParses(view.arrays, view.pair.activeId, cut)
    ensures SnapshotOf(view, cut, amountIn) == SnapshotOf(view, whole, amountIn)
  {
    hide SnapshotFrom, WholeParses, WindowParses;
    if FeeOnInput(view.pair, view.swapForY).Ok? && SupportsLimitOrders(view.pair).Ok? {
      var scan := Scan(view, FeeOnInput(view.pair, view.swapForY).value, SupportsLimitOrders(view.pair).value);
      WindowKeepsQuoteFrom(view.arrays, whole, cut, scan, MAX_VISITED, view.pair.activeId, amountIn, amountIn, 0, 0,
                           []);
    }
  }

  // --- the snapshot agrees with the account walk ---

  /** Fees are a bounded part of what a fill moves, so the snapshot's fee total cannot overflow where the walk
      succeeds. */
  lemma PartialFeeBound(remaining: u64, bin: Bin, swapForY: bool, feeOnInput: bool, p: FeeParameters)
    requires remaining > 0 && PartialQuote(remaining, bin, swapForY, feeOnInput, p).Ok?
    ensures var quote := PartialQuote(remaining, bin, swapForY, feeOnInput, p).value;
            && quote.amountIn <= remaining
            && (feeOnInput ==> quote.fee <= quote.amountIn)
            && (!feeOnInput ==> 9 * quote.fee <= quote.amountOut + 10)
  {
    hide FillBin, FoldFills, Net;
    var rate := TotalFeeRate(p).value;
    PartialQuoteIsFill(remaining, bin, swapForY, feeOnInput, p);
    FillWithinRemaining(remaining, bin, swapForY, feeOnInput, rate);
    FillFeeBound(remaining, bin, swapForY, feeOnInput, rate);
  }

  lemma FillFeeBound(remaining: u64, bin: Bin, swapForY: bool, feeOnInput: bool, rate: FeeRate)
    requires FillBin(remaining, bin, swapForY, feeOnInput, rate).Ok?
    ensures var fill := FillBin(remaining, bin, swapForY, feeOnInput, rate).value;
            && (feeOnInput ==> fill.fee <= fill.used)
            && (!feeOnInput ==> 9 * fill.fee <= fill.output + 10)
  {
    hide Net, Gross, ExcludedFee, IncludedFee, AmountInForOut, AmountOutForIn, SideLiquidity;
    if feeOnInput {
      FillRespectsPrice(remaining, bin, swapForY, feeOnInput, rate);
    } else if SideLiquidity(bin, swapForY) != Ok(0) {
      var maxOut := SideLiquidity(bin, swapForY).value;
      var maxIn := AmountInForOut(maxOut, bin.priceQ64, swapForY).value;
      var raw := if maxIn <= remaining then maxOut else AmountOutForIn(remaining, bin.priceQ64, swapForY).value;
      ExcludedFeeIsNet(raw, rate);
      NetFeeBound(raw, rate);
    }
  }

  lemma NetFeeBound(raw: nat, rate: FeeRate)
    ensures 9 * (raw - Net(raw, rate)) <= Net(raw, rate) + 10
  {
    MulMono(rate, MAX_FEE_RATE, raw);
    DivUpBounds(raw * rate, FEE_PRECISION);
  }

  /** The fee total of a run that has used some of its visits. */
  predicate FeeTotalBounded(feeOnInput: bool, amountIn: u64, remaining: u64, amountOut: u64, totalFee: u64, visits: nat)
  {
    visits <= MAX_VISITED && if feeOnInput then totalFee + remaining <= amountIn
        else 9 * totalFee <= amountOut + 10 * (MAX_VISITED - visits)
  }

  lemma {:induction false} SnapshotAgreesFrom(whole: seq<ParsedArray>, scan: Scan, visits: nat, binId: i32,
                                              amountIn: u64, remaining: u64, amountOut: u64, totalFee: u64,
                                                  used: seq<i64>)
    requires WholeParses(scan.view.arrays, whole)
    requires FeeTotalBounded(scan.feeOnInput, amountIn, remaining, amountOut, totalFee, visits)
    ensures var walk := WalkFrom(scan, visits, binId, remaining, amountOut, used);
            var snapshot := SnapshotFrom(scan, whole, visits, binId, amountIn, remaining, amountOut, totalFee, used);
            && (walk.Ok? <==> snapshot.Ok?)
            && (walk.Ok? ==>
                  && snapshot.value.quote.amountIn == amountIn
                  && snapshot.value.quote.amountOut == walk.value.amountOut
                  && snapshot.value.used == walk.value.used)
    decreases visits
  {
    hide ParsedBin, PartialQuote, Initialized, WholeParses, FindArray, Use, BinOffset, BinArrayIndex, NextBin;
    if remaining > 0 && visits > 0 {
      var next := NextBin(binId, scan.view.swapForY);
      WholeGivesAccountBin(scan.view.arrays, whole, binId, used);
      AddressRecoversBin(binId, BinArrayIndex(binId));
      var initialized := Initialized(scan.view, BinArrayIndex(binId));
      if initialized == Ok(false) {
        SnapshotAgreesFrom(whole, scan, visits - 1, next, amountIn, remaining, amountOut, totalFee, used);
      } else if initialized == Ok(true) && ParsedBin(whole, binId, used).Ok? {
        var (nowUsed, held) := ParsedBin(whole, binId, used).value;
        var bin := if scan.withOrders then held else WithoutOrders(held);
        var partial := PartialQuote(remaining, bin, scan.view.swapForY, scan.feeOnInput, scan.FeesAt(binId));
        if partial.Ok? {
          PartialFeeBound(remaining, bin, scan.view.swapForY, scan.feeOnInput, scan.FeesAt(binId));
          if amountOut + partial.value.amountOut <= U64_MAX {
            SnapshotAgreesFrom(whole, scan, visits - 1, next, amountIn, remaining - partial.value.amountIn,
                               amountOut + partial.value.amountOut, totalFee + partial.value.fee, nowUsed);
          }
        }
      }
    }
  }

  /** The snapshot over whole arrays succeeds exactly when the account walk does, with the same output and the same
      arrays. */
  lemma SnapshotAgreesWithWalk(view: View, whole: seq<ParsedArray>, amountIn: u64)
    requires WholeParses(view.arrays, whole)
    ensures var walk, snapshot := Walk(view, amountIn), SnapshotOf(view, whole, amountIn);
            && (walk.Ok? <==> snapshot.Ok?)
            && (walk.Ok? ==>
                  && snapshot.value.quote.amountIn == amountIn
                  && snapshot.value.quote.amountOut == walk.value.amountOut
                  && snapshot.value.used == walk.value.used)
  {
    hide SnapshotFrom, WalkFrom, WholeParses;
    if FeeOnInput(view.pair, view.swapForY).Ok? && SupportsLimitOrders(view.pair).Ok? {
      var scan := Scan(view, FeeOnInput(view.pair, view.swapForY).value, SupportsLimitOrders(view.pair).value);
      SnapshotAgreesFrom(whole, scan, MAX_VISITED, view.pair.activeId, amountIn, amountIn, 0, 0, []);
    }
  }
}
