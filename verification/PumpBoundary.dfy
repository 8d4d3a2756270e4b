/** Closed-form inversion of a Pump buy, and the search for the largest input a curve can absorb. */
module PumpBoundary {
  import opened Arithmetic
  import opened PumpQuote

  function BuyAmountOut(pool: PumpPool, quoteIn: u64): Option<u64> {
    match BuyExactQuoteIn(quoteIn, pool)
    case Ok(quote) => Some(quote.amountOut)
    case Err(_) => None
  }

  function CeilDivOption(n: u128, d: u128): Option<u128> {
    if d == 0 then None
    else
      var sum :- Keep128(n + (d - 1));
      Some(DivUp(n, d))
  }

  /** The gross input at a target's boundary, before it is confirmed by one exact quote. */
  function BoundaryEstimate(pool: PumpPool, targetOut: u64): Option<u64> {
    if targetOut == 0 || targetOut >= pool.baseReserve then None
    else
      var reserve :- Keep128(pool.EffectiveReserve());
      var share :- Keep128(targetOut * reserve);
      var boundaryCurveInput :- CeilDivOption(share, pool.baseReserve - targetOut);
      var scaled :- Keep128(boundaryCurveInput * (FEE_DENOMINATOR + pool.fees.Total()));
      var candidate :- Keep64(DivDown(scaled, FEE_DENOMINATOR));
      if candidate == 0 then None else Some(candidate)
  }

  function InputAtOrBelowTargetOut(pool: PumpPool, targetOut: u64): Option<u64> {
    var candidate :- BoundaryEstimate(pool, targetOut);
    var output :- BuyAmountOut(pool, candidate);
    if output < targetOut then Some(candidate) else None
  }

  /** The first curve input whose constant-product output reaches the target. */
  function BoundaryCurveInput(pool: PumpPool, targetOut: nat): nat
    requires targetOut < pool.baseReserve
  {
    DivUp(targetOut * pool.EffectiveReserve(), pool.baseReserve - targetOut)
  }

  predicate Reaches(pool: PumpPool, quoteIn: u64, targetOut: u64) {
    var output := BuyAmountOut(pool, quoteIn);
    output.Some? && output.value >= targetOut
  }

  lemma AmountOutIsCurveOutput(pool: PumpPool, q: u64)
    ensures BuyAmountOut(pool, q).Some? <==> q > 0 && PoolUsable(pool) && EffectiveQuote(q, pool.fees) >= 1
    ensures BuyAmountOut(pool, q).Some? ==>
            BuyAmountOut(pool, q).value == CurveOutput(EffectiveQuote(q, pool.fees) - 1, pool)
  {
    BuyOutcome(q, pool);
  }

  predicate BuysMore(pool: PumpPool, q1: u64, q: u64) {
    var o1, o := BuyAmountOut(pool, q1), BuyAmountOut(pool, q);
    o1.Some? && o.Some? && o1.value > o.value
  }

  /** Some smaller input buys a larger output exactly when the correction loses a unit that is worth some output. */
  lemma BuyOutputDropsIff(pool: PumpPool, q: u64)
    requires BuyAmountOut(pool, q).Some?
    ensures PoolUsable(pool) && EffectiveQuote(q, pool.fees) >= 1
    ensures (exists q1: u64 :: q1 <= q && BuysMore(pool, q1, q))
       <==> LosesUnit(q, pool.fees)
            && CurveOutput(EffectiveQuote(q, pool.fees) - 1, pool) < CurveOutput(EffectiveQuote(q, pool.fees), pool)
  {
    hide BuyAmountOut, EffectiveQuote, CurveOutput, LosesUnit;
    AmountOutIsCurveOutput(pool, q);
    BuyDropsIff(q, pool.fees);
    if LosesUnit(q, pool.fees) {
      UnitLessBuys(pool, q);
      assert CurveOutput(EffectiveQuote(q, pool.fees) - 1, pool) < CurveOutput(EffectiveQuote(q, pool.fees), pool)
        ==> BuysMore(pool, q - 1, q);
    }
    forall q1: u64 | q1 <= q && BuysMore(pool, q1, q)
      ensures EffectiveQuote(q1, pool.fees) == EffectiveQuote(q, pool.fees) + 1
      ensures CurveOutput(EffectiveQuote(q, pool.fees) - 1, pool) < CurveOutput(EffectiveQuote(q, pool.fees), pool)
    {
      MoreOutputIsOneUnit(pool, q1, q);
    }
  }

  /** The input before one that drops buys the output of one more unit. */
  lemma UnitLessBuys(pool: PumpPool, q: u64)
    requires PoolUsable(pool) && EffectiveQuote(q, pool.fees) >= 1 && LosesUnit(q, pool.fees)
    ensures q > 1
    ensures BuyAmountOut(pool, q - 1) == Some(CurveOutput(EffectiveQuote(q, pool.fees), pool))
  {
    hide BuyAmountOut, EffectiveQuote, CurveOutput, LosesUnit;
    OneUnitLessBuysMore(q, pool.fees);
    BuyAlmostMonotone(q - 1, q, pool.fees);
    NothingForNothing(pool.fees);
    AmountOutIsCurveOutput(pool, q - 1);
  }

  lemma NothingForNothing(fees: PumpFees)
    ensures EffectiveQuote(0, fees) == 0
  {
  }

  lemma MoreOutputIsOneUnit(pool: PumpPool, q1: u64, q: u64)
    requires q1 <= q && BuysMore(pool, q1, q)
    ensures PoolUsable(pool) && EffectiveQuote(q, pool.fees) >= 1
    ensures EffectiveQuote(q1, pool.fees) == EffectiveQuote(q, pool.fees) + 1
    ensures CurveOutput(EffectiveQuote(q, pool.fees) - 1, pool) < CurveOutput(EffectiveQuote(q, pool.fees), pool)
  {
    hide BuyAmountOut, EffectiveQuote, CurveOutput;
    AmountOutIsCurveOutput(pool, q1);
    AmountOutIsCurveOutput(pool, q);
    BuyAlmostMonotone(q1, q, pool.fees);
    if EffectiveQuote(q1, pool.fees) <= EffectiveQuote(q, pool.fees) {
      CurveOutputMono(EffectiveQuote(q1, pool.fees) - 1, EffectiveQuote(q, pool.fees) - 1, pool);
    }
  }

  /** An input reaches a target exactly when its effective quote exceeds the boundary curve input. */
  lemma ReachesIffBeyondBoundary(pool: PumpPool, q: u64, t: u64)
    requires PoolUsable(pool) && 0 < q && 0 < t < pool.baseReserve
    ensures Reaches(pool, q, t) <==> EffectiveQuote(q, pool.fees) > BoundaryCurveInput(pool, t)
  {
    hide BuyAmountOut, EffectiveQuote, CurveOutput, DivUp;
    AmountOutIsCurveOutput(pool, q);
    var f := EffectiveQuote(q, pool.fees);
    var b := BoundaryCurveInput(pool, t);
    if f >= 1 {
      CurveOutputReaches(f - 1, t, pool);
      DivUpIff(t * pool.EffectiveReserve(), pool.baseReserve - t, f - 1);
    }
  }

  /** The effective quote of any input at or below the boundary estimate stays within the boundary curve input. */
  lemma EffectiveWithinBoundary(q: nat, b: nat, fees: PumpFees)
    requires FEE_DENOMINATOR * q <= b * (FEE_DENOMINATOR + fees.Total())
    ensures EffectiveQuote(q, fees) <= b
  {
    EstimateBounds(q, fees);
    MulCancelLe(Estimate(q, fees), b, FEE_DENOMINATOR + fees.Total());
  }

  lemma BoundaryEstimateValue(pool: PumpPool, t: u64)
    requires BoundaryEstimate(pool, t).Some?
    ensures 0 < t < pool.baseReserve
    ensures BoundaryEstimate(pool, t).value
         == DivDown(BoundaryCurveInput(pool, t) * (FEE_DENOMINATOR + pool.fees.Total()), FEE_DENOMINATOR)
    ensures BoundaryEstimate(pool, t).value > 0
  {
  }

  /** The exact quote that confirms the closed form can reject it only by not quoting at all. */
  lemma ConfirmationRejectsOnlyMissingQuotes(pool: PumpPool, t: u64)
    ensures InputAtOrBelowTargetOut(pool, t)
         == if BoundaryEstimate(pool, t).Some? && BuyAmountOut(pool, BoundaryEstimate(pool, t).value).Some?
            then BoundaryEstimate(pool, t) else None
  {
    if BoundaryEstimate(pool, t).Some? {
      BoundaryEstimateValue(pool, t);
      var c := BoundaryEstimate(pool, t).value;
      AmountOutIsCurveOutput(pool, c);
      if BuyAmountOut(pool, c).Some? {
        BoundarySampleBelow(pool, t, c, c);
      }
    }
  }

  /** When a target has a sample: it lies inside the reserve, the arithmetic fits, the closed form is a positive u64,
      and
      Pump quotes it. */
  lemma SampleExistsIff(pool: PumpPool, t: u64)
    ensures InputAtOrBelowTargetOut(pool, t).Some?
       <==> (&& 0 < t < pool.baseReserve
             && t * pool.EffectiveReserve() + (pool.baseReserve - t) - 1 <= U128_MAX
             && var b := BoundaryCurveInput(pool, t);
                var c := DivDown(b * (FEE_DENOMINATOR + pool.fees.Total()), FEE_DENOMINATOR);
                && b * (FEE_DENOMINATOR + pool.fees.Total()) <= U128_MAX && 0 < c <= U64_MAX
                && BuyAmountOut(pool, c).Some?)
  {
    hide BuyAmountOut;
    ConfirmationRejectsOnlyMissingQuotes(pool, t);
    if 0 < t < pool.baseReserve {
      BoundaryInputFits(pool, t);
    }
  }

  lemma BoundaryInputFits(pool: PumpPool, t: u64)
    requires 0 < t < pool.baseReserve
    ensures 0 <= t * pool.EffectiveReserve() && 0 <= BoundaryCurveInput(pool, t) <= t * pool.EffectiveReserve()
  {
    hide DivUp;
    var n, d := t * pool.EffectiveReserve(), pool.baseReserve - t;
    DivUpIff(n, d, n);
    DivUpIff(n, d, -1);
    MulMono(1, d, n);
  }

  lemma BoundarySampleBelow(pool: PumpPool, t: u64, c: u64, q: u64)
    requires BoundaryEstimate(pool, t) == Some(c) && q <= c
    ensures !Reaches(pool, q, t)
  {
    BoundaryEstimateValue(pool, t);
    AmountOutIsCurveOutput(pool, q);
    if 0 < q && PoolUsable(pool) {
      var b := BoundaryCurveInput(pool, t);
      EffectiveWithinBoundary(q, b, pool.fees);
      ReachesIffBeyondBoundary(pool, q, t);
    }
  }

  // --- the coverage search ---

  /** An input whose Pump output fits a curve of the given input capacity. */
  predicate Fits(pool: PumpPool, capacity: u64, quoteIn: u64) {
    var output := BuyAmountOut(pool, quoteIn);
    output.Some? && output.value <= capacity
  }

  /** The binary search over inputs that the coverage loop performs. */
  function CoverageSearch(pool: PumpPool, capacity: u64, lower: u64, upper: u64): (r: u64)
    requires lower <= upper
    ensures lower <= r <= upper
    decreases upper - lower
  {
    if lower == upper then lower
    else
      var midpoint := lower + (upper - lower + 1) / 2;
      if Fits(pool, capacity, midpoint) then CoverageSearch(pool, capacity, midpoint, upper)
      else CoverageSearch(pool, capacity, lower, midpoint - 1)
  }

  /** One step of the search. */
  lemma CoverageSearchStep(pool: PumpPool, capacity: u64, lower: u64, upper: u64)
    requires lower < upper
    ensures var midpoint := lower + (upper - lower + 1) / 2;
            && lower < midpoint <= upper
            && CoverageSearch(pool, capacity, lower, upper) ==
                 if Fits(pool, capacity, midpoint) then CoverageSearch(pool, capacity, midpoint, upper)
                 else CoverageSearch(pool, capacity, lower, midpoint - 1)
  {
    hide Fits;
  }

  lemma {:induction false} CoverageSearchBrackets(pool: PumpPool, capacity: u64, lower: u64, upper: u64)
    requires lower <= upper
    requires lower == 0 || Fits(pool, capacity, lower)
    ensures var r := CoverageSearch(pool, capacity, lower, upper);
            && (r == 0 || Fits(pool, capacity, r))
            && (r == upper || !Fits(pool, capacity, r + 1))
    decreases upper - lower
  {
    hide Fits, CoverageSearch;
    if lower < upper {
      CoverageSearchStep(pool, capacity, lower, upper);
      var midpoint := lower + (upper - lower + 1) / 2;
      if Fits(pool, capacity, midpoint) {
        CoverageSearchBrackets(pool, capacity, midpoint, upper);
      } else {
        CoverageSearchBrackets(pool, capacity, lower, midpoint - 1);
      }
    }
  }

  lemma BuyQuotesFromEight(pool: PumpPool, q: u64)
    requires PoolUsable(pool) && q >= 8 && pool.fees.EachAtMostWhole()
    ensures EffectiveQuote(q, pool.fees) >= 1 && BuyAmountOut(pool, q).Some?
  {
    var fees := pool.fees;
    DivDownIff(q * FEE_DENOMINATOR, FEE_DENOMINATOR + fees.Total(), 2);
    OvershootAtMostTwo(q, fees);
    if Estimate(q, fees) == 2 {
      TotalStep(0, fees);
      TotalStep(1, fees);
    }
    AmountOutIsCurveOutput(pool, q);
  }

  /** Four lamports past an input, the effective quote has caught up whatever the rounding did. */
  lemma FourMoreLamportsCatchUp(q1: nat, q2: nat, fees: PumpFees)
    requires fees.EachAtMostWhole() && q1 + 4 <= q2 && EffectiveQuote(q1, fees) >= 0
    ensures EffectiveQuote(q1, fees) <= EffectiveQuote(q2, fees)
  {
    var m := LargestAffordable(q1, fees);
    TotalStep(m, fees);
    LargestAffordableIsLargest(0, q1, fees);
    LargestAffordableIsLargest(m + 1, q2, fees);
    BuyAffordableNearOptimal(q1, fees);
    BuyAffordableNearOptimal(q2, fees);
  }

  /** Past the found input by five lamports, everything exceeds the capacity, although Pump output is not monotone. */
  lemma CoverageSearchAccurate(pool: PumpPool, capacity: u64, max: u64, q: u64)
    requires pool.fees.EachAtMostWhole()
    requires var r := CoverageSearch(pool, capacity, 0, max); 8 <= r + 1 <= max && r + 5 <= q
    ensures BuyAmountOut(pool, q).Some? && BuyAmountOut(pool, q).value > capacity
  {
    hide BuyAmountOut, EffectiveQuote, CurveOutput;
    var r := CoverageSearch(pool, capacity, 0, max);
    CoverageSearchBrackets(pool, capacity, 0, max);
    AmountOutIsCurveOutput(pool, r);
    BuyQuotesFromEight(pool, r + 1);
    BuyQuotesFromEight(pool, q);
    FourMoreLamportsCatchUp(r + 1, q, pool.fees);
    AmountOutIsCurveOutput(pool, r + 1);
    AmountOutIsCurveOutput(pool, q);
    CurveOutputMono(EffectiveQuote(r + 1, pool.fees) - 1, EffectiveQuote(q, pool.fees) - 1, pool);
  }

  /** An input of at least sixteen stays covered when the capacity leaves room for one more curve unit than it buys. */
  lemma {:induction false} CoverageSearchKeeps(pool: PumpPool, capacity: u64, lower: u64, upper: u64, kept: u64)
    requires lower <= upper && 16 <= kept <= upper
    requires PoolUsable(pool) && pool.fees.EachAtMostWhole()
    requires EffectiveQuote(kept, pool.fees) >= 1
    requires CurveOutput(EffectiveQuote(kept, pool.fees), pool) <= capacity
    ensures CoverageSearch(pool, capacity, lower, upper) >= kept
    decreases upper - lower
  {
    hide BuyAmountOut, EffectiveQuote, CurveOutput, CoverageSearch;
    if lower < upper {
      CoverageSearchStep(pool, capacity, lower, upper);
      var midpoint := lower + (upper - lower + 1) / 2;
      if Fits(pool, capacity, midpoint) {
        CoverageSearchKeeps(pool, capacity, midpoint, upper, kept);
      } else {
        if midpoint <= kept {
          BuyQuotesFromEight(pool, midpoint);
          BuyAlmostMonotone(midpoint, kept, pool.fees);
          AmountOutIsCurveOutput(pool, midpoint);
          CurveOutputMono(EffectiveQuote(midpoint, pool.fees) - 1, EffectiveQuote(kept, pool.fees), pool);
          assert false;
        }
        CoverageSearchKeeps(pool, capacity, lower, midpoint - 1, kept);
      }
    }
  }
}
