/** How a pair's volatility, fee rate and modes behave, told from the reference outwards. */
module PairLaws {
  import opened Arithmetic
  import opened BinQuote
  import opened LbPair
  import opened BinWalk

  // --- the accumulator, bin by bin ---

  /** At the reference bin the accumulator is the reference, up to the maximum. */
  lemma AccumulatorAtReference(v: VariableParameters, fixed: StaticParameters)
    ensures Accumulated(v, v.indexReference, fixed)
         == v.(volatilityAccumulator := if v.volatilityReference <= fixed.maxVolatilityAccumulator
               then v.volatilityReference
                                        else fixed.maxVolatilityAccumulator)
  {
  }

  /** Each bin farther away, on either side, adds ten thousand until the maximum is reached. */
  lemma AccumulatorStep(v: VariableParameters, binId: i32, farther: i32, fixed: StaticParameters)
    requires (v.indexReference <= binId && farther == binId + 1) || (binId <= v.indexReference && farther == binId - 1)
    ensures var here := Accumulated(v, binId, fixed).volatilityAccumulator;
            Accumulated(v, farther, fixed).volatilityAccumulator
            == if here + 10_000 <= fixed.maxVolatilityAccumulator then here + 10_000 else fixed.maxVolatilityAccumulator
  {
  }

  /** Only the distance counts, and a larger distance, reference or maximum never lowers the accumulator. */
  lemma AccumulatorGrowsWithDistance(v: VariableParameters, w: VariableParameters, a: i32, b: i32,
                                     fixed: StaticParameters)
    requires v.indexReference == w.indexReference && v.volatilityReference <= w.volatilityReference
    requires -(b - v.indexReference) <= a - v.indexReference <= b - v.indexReference
             || b - v.indexReference <= a - v.indexReference <= -(b - v.indexReference)
    ensures Accumulated(v, a, fixed).volatilityAccumulator <= Accumulated(w, b, fixed).volatilityAccumulator
            <= fixed.maxVolatilityAccumulator
  {
  }

  /** In closed form: the reference and ten thousand for each bin of distance, capped. */
  lemma {:induction false} AccumulatorAtDistance(v: VariableParameters, d: nat, upwards: bool, fixed: StaticParameters)
    requires I32_MIN <= v.indexReference - d && v.indexReference + d <= I32_MAX
    ensures var binId := if upwards then v.indexReference + d else v.indexReference - d;
            var sum := v.volatilityReference + 10_000 * d;
            Accumulated(v, binId, fixed).volatilityAccumulator
            == if sum <= fixed.maxVolatilityAccumulator then sum else fixed.maxVolatilityAccumulator
  {
    hide Accumulated;
    if d == 0 {
      AccumulatorAtReference(v, fixed);
    } else {
      AccumulatorAtDistance(v, d - 1, upwards, fixed);
      if upwards {
        AccumulatorStep(v, v.indexReference + d - 1, v.indexReference + d, fixed);
      } else {
        AccumulatorStep(v, v.indexReference - d + 1, v.indexReference - d, fixed);
      }
    }
  }

  // --- the reference ---

  /** Within the filter period nothing changes; later the reference moves to the active bin and decays to the given
      share
      of the accumulator, rounded down and cut back to 32 bits, and past the decay period to nothing. */
  lemma ReferenceLaw(v: VariableParameters, activeId: i32, fixed: StaticParameters, timestamp: i64)
    ensures var w := Referenced(v, activeId, fixed, timestamp);
            var elapsed := timestamp - v.lastUpdateTimestamp;
            && (elapsed < fixed.filterPeriod ==> w == v)
            && (elapsed >= fixed.filterPeriod ==>
                  && w.indexReference == activeId && w.lastUpdateTimestamp == v.lastUpdateTimestamp
                  && w.volatilityAccumulator == v.volatilityAccumulator)
            && (fixed.filterPeriod <= elapsed < fixed.decayPeriod ==>
                  w.volatilityReference == v.volatilityAccumulator * fixed.reductionFactor / 10_000 % 0x1_0000_0000)
            && (elapsed >= fixed.filterPeriod && elapsed >= fixed.decayPeriod ==> w.volatilityReference == 0)
  {
    MulBounds(v.volatilityAccumulator, fixed.reductionFactor, U32_MAX, U16_MAX);
  }

  /** With a reduction factor of at most 100 percent the decayed reference is the largest share within the factor, and
      never
      above the accumulator. */
  lemma DecayLaw(v: VariableParameters, activeId: i32, fixed: StaticParameters, timestamp: i64)
    requires fixed.filterPeriod <= timestamp - v.lastUpdateTimestamp < fixed.decayPeriod
               && fixed.reductionFactor <= 10_000
    ensures var w := Referenced(v, activeId, fixed, timestamp);
            && w.volatilityReference <= v.volatilityAccumulator
            && 10_000 * w.volatilityReference <= v.volatilityAccumulator * fixed.reductionFactor
               < 10_000 * (w.volatilityReference + 1)
  {
    hide Referenced;
    ReferenceLaw(v, activeId, fixed, timestamp);
    MulBounds(v.volatilityAccumulator, fixed.reductionFactor, U32_MAX, 10_000);
    MulMono(fixed.reductionFactor, 10_000, v.volatilityAccumulator);
  }

  /** With a larger reduction factor the product is cut back to 32 bits, not capped. */
  lemma ReferenceIsCutBack()
    ensures Referenced(VariableParameters(U32_MAX, 0, 0, 0), 0, StaticParameters(0, 0, 1, 20_000, 0, 0, 0, 0, 0),
                       0).volatilityReference
         == U32_MAX - 1
  {
  }

  // --- the fee rate ---

  /** Ten to a power, from its two laws. */
  lemma PowersOfTen(k: nat)
    ensures Pow10(0) == 1 && Pow10(k + 1) == 10 * Pow10(k)
  {
  }

  /** The base fee in closed form; it fails exactly when the power or the product does not fit 128 bits. */
  lemma BaseFeeIs(p: FeeParameters)
    ensures var product := p.baseFactor * p.binStep * 10 * Pow10(p.baseFeePowerFactor);
            && (BaseFee(p).Ok? <==> Pow10(p.baseFeePowerFactor) <= U128_MAX && product <= U128_MAX)
            && (BaseFee(p).Ok? ==> BaseFee(p).value == product)
  {
    hide Pow10;
    MulBounds(p.baseFactor, p.binStep, U16_MAX, U16_MAX);
  }

  /** It is ten times bin step times base factor, and ten times that for each power. */
  lemma BaseFeeLaw(p: FeeParameters)
    ensures p.baseFeePowerFactor == 0 ==> BaseFee(p) == Ok(10 * p.binStep * p.baseFactor)
    ensures p.baseFeePowerFactor < U8_MAX && BaseFee(p.(baseFeePowerFactor := p.baseFeePowerFactor + 1)).Ok? ==>
              && BaseFee(p).Ok?
              && BaseFee(p.(baseFeePowerFactor := p.baseFeePowerFactor + 1)).value == 10 * BaseFee(p).value
  {
    hide Pow10, BaseFee;
    PowersOfTen(p.baseFeePowerFactor);
    BaseFeeIs(p);
    MulBounds(p.baseFactor, p.binStep, U16_MAX, U16_MAX);
    if p.baseFeePowerFactor < U8_MAX {
      BaseFeeIs(p.(baseFeePowerFactor := p.baseFeePowerFactor + 1));
      TenTimes(p.baseFactor * p.binStep * 10, Pow10(p.baseFeePowerFactor));
    }
  }

  lemma TenTimes(scaled: nat, power: nat)
    ensures scaled * (10 * power) == 10 * (scaled * power) && 0 <= scaled * power
  {
  }

  /** The variable fee is the control times the square of accumulator times bin step, over a hundred billion, rounded
      up;
      it fails exactly when the sum to be divided does not fit. */
  lemma VariableFeeLaw(p: FeeParameters)
    ensures var x := p.volatilityAccumulator * p.binStep;
            var product := p.variableFeeControl * (x * x);
            && (VariableFee(p).Ok? <==> product == 0 || product + VARIABLE_FEE_SCALE - 1 <= U128_MAX)
            && (VariableFee(p).Ok? ==>
                  product <= VARIABLE_FEE_SCALE * VariableFee(p).value < product + VARIABLE_FEE_SCALE)
  {
    hide DivDown;
    var x := p.volatilityAccumulator * p.binStep;
    MulBounds(p.volatilityAccumulator, p.binStep, U32_MAX, U16_MAX);
    MulBounds(x, x, U32_MAX * U16_MAX, U32_MAX * U16_MAX);
    MulBounds(p.variableFeeControl, x * x, U32_MAX, U32_MAX * U16_MAX * (U32_MAX * U16_MAX));
    DivDownBounds(p.variableFeeControl * (x * x) + (VARIABLE_FEE_SCALE - 1), VARIABLE_FEE_SCALE);
  }

  /** The total rate is the sum of both fees, capped at ten percent. */
  lemma TotalRateLaw(p: FeeParameters)
    requires TotalFeeRate(p).Ok?
    ensures BaseFee(p).Ok? && VariableFee(p).Ok?
    ensures var sum := BaseFee(p).value + VariableFee(p).value;
            TotalFeeRate(p).value == if sum <= 100_000_000 then sum else 100_000_000
  {
    hide BaseFee, VariableFee;
  }

  /** A larger accumulator never lowers the rate. */
  lemma RateGrowsWithAccumulator(p: FeeParameters, q: FeeParameters)
    requires q == p.(volatilityAccumulator := q.volatilityAccumulator)
               && p.volatilityAccumulator <= q.volatilityAccumulator
    requires TotalFeeRate(p).Ok? && TotalFeeRate(q).Ok?
    ensures TotalFeeRate(p).value <= TotalFeeRate(q).value
  {
    hide TotalFeeRate, VariableFee;
    TotalRateLaw(p);
    TotalRateLaw(q);
    VariableFeeLaw(p);
    VariableFeeLaw(q);
    var x, y := p.volatilityAccumulator * p.binStep, q.volatilityAccumulator * q.binStep;
    MulMono(p.volatilityAccumulator, q.volatilityAccumulator, p.binStep);
    MulBounds(x, x, y, y);
    MulMono(x * x, y * y, p.variableFeeControl);
  }

  /** Away from the reference bin the fee rate of a walk never falls, on either side. */
  lemma RateGrowsWithDistance(scan: Scan, a: i32, b: i32)
    requires var index := scan.Reference().indexReference;
             -(b - index) <= a - index <= b - index || b - index <= a - index <= -(b - index)
    requires TotalFeeRate(scan.FeesAt(a)).Ok? && TotalFeeRate(scan.FeesAt(b)).Ok?
    ensures TotalFeeRate(scan.FeesAt(a)).value <= TotalFeeRate(scan.FeesAt(b)).value
  {
    hide TotalFeeRate;
    AccumulatorGrowsWithDistance(scan.Reference(), scan.Reference(), a, b, scan.view.pair.fixed);
    RateGrowsWithAccumulator(scan.FeesAt(a), scan.FeesAt(b));
  }

  /** The fees of a bin carry the pair's parameters and the accumulator that the updated reference gives it. */
  lemma FeesAreThePairs(scan: Scan, binId: i32)
    ensures var fees, pair := scan.FeesAt(binId), scan.view.pair;
            && fees.binStep == pair.binStep && fees.baseFactor == pair.fixed.baseFactor
            && fees.baseFeePowerFactor == pair.fixed.baseFeePowerFactor
            && fees.variableFeeControl == pair.fixed.variableFeeControl
            && fees.volatilityAccumulator
               == Accumulated(Referenced(pair.variable, pair.activeId, pair.fixed, scan.view.timestamp), binId,
                              pair.fixed).volatilityAccumulator
  {
  }

  // --- modes ---

  /** In mode 0 the fee is taken from the input; in mode 1 always in token Y, which is the input of a swap of Y into
      X. */
  lemma FeeModes(pair: Pair, swapForY: bool)
    ensures FeeOnInput(pair, swapForY).Ok? <==> pair.fixed.collectFeeMode in {0, 1}
    ensures pair.fixed.collectFeeMode == 0 ==> FeeOnInput(pair, swapForY) == Ok(true)
    ensures pair.fixed.collectFeeMode == 1 ==>
              FeeOnInput(pair, true) == Ok(false) && FeeOnInput(pair, false) == Ok(true)
  {
  }

  /** Orders count for type 2, and for type 0 while there are no rewards. */
  lemma OrderModes(pair: Pair)
    ensures SupportsLimitOrders(pair).Ok? <==> pair.fixed.functionType in {0, 1, 2}
    ensures SupportsLimitOrders(pair) == Ok(true) <==>
              pair.fixed.functionType == 2 || (pair.fixed.functionType == 0 && pair.rewardsAreEmpty)
  {
  }
}
