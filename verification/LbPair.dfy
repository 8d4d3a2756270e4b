/** The DLMM pair's parameters and the volatility state that a walk updates. */
module LbPair {
  import opened Arithmetic
  import opened BinQuote
  import opened Addressing

  datatype StaticParameters = StaticParameters(
    baseFactor: u16,
    filterPeriod: u16,
    decayPeriod: u16,
    reductionFactor: u16,
    variableFeeControl: u32,
    maxVolatilityAccumulator: u32,
    baseFeePowerFactor: u8,
    functionType: u8,
    collectFeeMode: u8)

  datatype VariableParameters = VariableParameters(
    volatilityAccumulator: u32,
    volatilityReference: u32,
    indexReference: i32,
    lastUpdateTimestamp: i64)

  datatype Pair = Pair(
    fixed: StaticParameters,
    variable: VariableParameters,
    activeId: i32,
    binStep: u16,
    bitmap: DefaultBitmap,
    rewardsAreEmpty: bool)

  function FeeOnInput(pair: Pair, swapForY: bool): Result<bool, QuoteError> {
    if pair.fixed.collectFeeMode == 0 then Ok(true)
    else if pair.fixed.collectFeeMode == 1 then Ok(!swapForY)
    else Err(InvalidInput)
  }

  function SupportsLimitOrders(pair: Pair): Result<bool, QuoteError> {
    if pair.fixed.functionType == 2 then Ok(true)
    else if pair.fixed.functionType == 1 then Ok(false)
    else if pair.fixed.functionType == 0 then Ok(pair.rewardsAreEmpty)
    else Err(InvalidInput)
  }

  function FeeParametersOf(pair: Pair, volatilityAccumulator: u32): FeeParameters {
    FeeParameters(pair.binStep, pair.fixed.baseFactor, pair.fixed.baseFeePowerFactor,
                  pair.fixed.variableFeeControl, volatilityAccumulator)
  }

  /** 64-bit signed subtraction that saturates. */
  function SaturatingSub(a: i64, b: i64): i64 {
    if a - b < I64_MIN then I64_MIN else if a - b > I64_MAX then I64_MAX else a - b
  }

  /** The state after the reference update: the product is cut back to 32 bits. */
  function Referenced(v: VariableParameters, activeId: i32, fixed: StaticParameters, timestamp: i64): VariableParameters
  {
    var elapsed := SaturatingSub(timestamp, v.lastUpdateTimestamp);
    if elapsed < fixed.filterPeriod then v
    else
      v.(indexReference := activeId,
      volatilityReference := if elapsed < fixed.decayPeriod
                             then Min(v.volatilityAccumulator * fixed.reductionFactor, U64_MAX) / 10_000 % (U32_MAX + 1)
                             else 0)
  }

  /** The accumulator of a bin, from the reference alone. */
  function AccumulatorAt(v: VariableParameters, binId: i32, fixed: StaticParameters): u32 {
    var distance := if v.indexReference >= binId then v.indexReference - binId else binId - v.indexReference;
    var delta := Min(distance, U32_MAX);
    Min(Min(v.volatilityReference + Min(delta * 10_000, U32_MAX), U32_MAX), fixed.maxVolatilityAccumulator)
  }

  function Accumulated(v: VariableParameters, binId: i32, fixed: StaticParameters): VariableParameters {
    v.(volatilityAccumulator := AccumulatorAt(v, binId, fixed))
  }

  /** The volatility state that each bin of a walk overwrites in place. */
  class VolatilityState {
    var volatilityAccumulator: u32
    var volatilityReference: u32
    var indexReference: i32
    var lastUpdateTimestamp: i64

    function State(): VariableParameters
      reads this
    {
      VariableParameters(volatilityAccumulator, volatilityReference, indexReference, lastUpdateTimestamp)
    }

    constructor (v: VariableParameters)
      ensures State() == v
    {
      volatilityAccumulator, volatilityReference := v.volatilityAccumulator, v.volatilityReference;
      indexReference, lastUpdateTimestamp := v.indexReference, v.lastUpdateTimestamp;
    }

    method UpdateReference(activeId: i32, fixed: StaticParameters, timestamp: i64)
      modifies this
      ensures State() == Referenced(old(State()), activeId, fixed, timestamp)
    {
      var elapsed := SaturatingSub(timestamp, lastUpdateTimestamp);
      if elapsed >= fixed.filterPeriod {
        indexReference := activeId;
        if elapsed < fixed.decayPeriod {
          volatilityReference := Min(volatilityAccumulator * fixed.reductionFactor, U64_MAX) / 10_000 % (U32_MAX + 1);
        } else {
          volatilityReference := 0;
        }
      }
    }

    method UpdateAccumulator(binId: i32, fixed: StaticParameters)
      modifies this
      ensures State() == Accumulated(old(State()), binId, fixed)
    {
      var distance := if indexReference >= binId then indexReference - binId else binId - indexReference;
      var delta := Min(distance, U32_MAX);
      volatilityAccumulator := Min(Min(volatilityReference + Min(delta * 10_000, U32_MAX), U32_MAX),
                                   fixed.maxVolatilityAccumulator);
    }
  }

  lemma AccumulatorIgnoresCurrent(v: VariableParameters, current: u32, binId: i32, fixed: StaticParameters)
    ensures AccumulatorAt(v.(volatilityAccumulator := current), binId, fixed) == AccumulatorAt(v, binId, fixed)
  {
  }

  /** The state after accumulating over a path of bins. */
  function AccumulatedAlong(v: VariableParameters, path: seq<i32>, fixed: StaticParameters): VariableParameters
    decreases |path|
  {
    if |path| == 0 then v else AccumulatedAlong(Accumulated(v, path[0], fixed), path[1..], fixed)
  }

  /** Whatever bins were visited before, the accumulator at a bin depends on the reference and the bin id only. */
  lemma {:induction false} AccumulatorForgetsPath(v: VariableParameters, path: seq<i32>, binId: i32,
                                                  fixed: StaticParameters)
    ensures Accumulated(AccumulatedAlong(v, path, fixed), binId, fixed) == Accumulated(v, binId, fixed)
    decreases |path|
  {
    if |path| > 0 {
      AccumulatorForgetsPath(Accumulated(v, path[0], fixed), path[1..], binId, fixed);
    }
  }
}
