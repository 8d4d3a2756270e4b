/** How far the closed-form boundary sample lies below the least input that reaches its target. */
module BoundaryGap {
  import opened Arithmetic
  import opened PumpQuote
  import opened PumpBoundary

  // --- the least input that reaches a target ---

  /** The least input that affords one effective unit more than the boundary, or the next input when the correction
      overshoots there. */
  function LeastReaching(pool: PumpPool, t: u64): nat
    requires t < pool.baseReserve
  {
    var b := BoundaryCurveInput(pool, t);
    var k := TotalWithFees(b + 1, pool.fees);
    if EffectiveQuote(k, pool.fees) > b then k else k + 1
  }

  /** Below the total of e, no input has an effective quote of e. */
  lemma BelowTotalMisses(q: nat, e: nat, fees: PumpFees)
    requires q < TotalWithFees(e, fees)
    ensures EffectiveQuote(q, fees) < e
  {
    hide EffectiveQuote, TotalWithFees, LargestAffordable;
    BuyAffordableNearOptimal(q, fees);
    LargestAffordableIsLargest(e, q, fees);
  }

  /** The total of e or the input after it has an effective quote of at least e. */
  lemma TotalOrNextReaches(e: nat, fees: PumpFees)
    requires e > 0
    ensures var k := TotalWithFees(e, fees);
            EffectiveQuote(k, fees) >= e || EffectiveQuote(k + 1, fees) >= e
  {
    hide EffectiveQuote, TotalWithFees, LargestAffordable, Estimate, Overshoot;
    var k := TotalWithFees(e, fees);
    LargestAffordableIsLargest(e, k + 1, fees);
    BuyAffordableNearOptimal(k + 1, fees);
    if EffectiveQuote(k + 1, fees) < e {
      MissedUnit(k + 1, e, fees);
    }
  }

  /** An input past the total of e that misses e overshoots by two, and then the input before it does not miss. */
  lemma MissedUnit(q: nat, e: nat, fees: PumpFees)
    requires 0 < e && TotalWithFees(e, fees) < q && EffectiveQuote(q, fees) < e
    ensures EffectiveQuote(q - 1, fees) >= e
  {
    hide EffectiveQuote, TotalWithFees, LargestAffordable, Estimate;
    LargestAffordableIsLargest(e, q, fees);
    BuyAffordableNearOptimal(q, fees);
    BuyOptimalIff(q, fees);
    OvershootByTwo(q, fees);
    OneUnitLessBuysMore(q, fees);
  }

  /** The least reaching input is what its name says, wherever it is an input at all. */
  lemma LeastReachingIsLeast(pool: PumpPool, t: u64)
    requires PoolUsable(pool) && 0 < t < pool.baseReserve
    ensures forall q: u64 :: Reaches(pool, q, t) ==> LeastReaching(pool, t) <= q
    ensures LeastReaching(pool, t) <= U64_MAX ==> Reaches(pool, LeastReaching(pool, t), t)
  {
    hide Reaches, EffectiveQuote, TotalWithFees, BoundaryCurveInput, DivUp;
    var b := BoundaryCurveInput(pool, t);
    var k := TotalWithFees(b + 1, pool.fees);
    TotalBounds(b + 1, pool.fees);
    hide PumpFees.Total;
    forall q: u64 | Reaches(pool, q, t) ensures LeastReaching(pool, t) <= q {
      AmountOutIsCurveOutput(pool, q);
      ReachesOnlyPositive(pool, q, t);
      ReachesIffBeyondBoundary(pool, q, t);
      if q < k {
        BelowTotalMisses(q, b + 1, pool.fees);
      }
    }
    if LeastReaching(pool, t) <= U64_MAX {
      TotalOrNextReaches(b + 1, pool.fees);
      ReachesIffBeyondBoundary(pool, LeastReaching(pool, t), t);
    }
  }

  lemma ReachesOnlyPositive(pool: PumpPool, q: u64, t: u64)
    requires Reaches(pool, q, t)
    ensures q > 0
  {
    hide EffectiveQuote, CurveOutput;
    AmountOutIsCurveOutput(pool, q);
  }

  /** Some input within n of the sample reaches the target exactly when the least reaching input is representable and
      within n. */
  lemma BoundaryGapIff(pool: PumpPool, t: u64, n: nat)
    requires InputAtOrBelowTargetOut(pool, t).Some?
    ensures 0 < t < pool.baseReserve
    ensures var c := InputAtOrBelowTargetOut(pool, t).value;
            (exists q: u64 :: Reaches(pool, q, t) && q <= c + n) <==> LeastReaching(pool, t) <= Min(c + n, U64_MAX)
  {
    hide Reaches, LeastReaching;
    SampleIsUsable(pool, t);
    LeastReachingIsLeast(pool, t);
  }

  lemma SampleIsUsable(pool: PumpPool, t: u64)
    requires InputAtOrBelowTargetOut(pool, t).Some?
    ensures PoolUsable(pool) && 0 < t < pool.baseReserve
    ensures InputAtOrBelowTargetOut(pool, t) == BoundaryEstimate(pool, t)
  {
    hide BuyAmountOut;
    BoundaryEstimateValue(pool, t);
    AmountOutIsCurveOutput(pool, InputAtOrBelowTargetOut(pool, t).value);
  }

  // --- bounds on the gap ---

  /** The most that the least reaching input can lie above the sample. */
  function GapBound(fees: PumpFees): int {
    var later := if fees.Total() + 2 < 2 * FEE_DENOMINATOR
        then Min((fees.Total() - 4) / FEE_DENOMINATOR + 1, (2 * fees.Total() - 4) / FEE_DENOMINATOR)
                 else (fees.Total() - 4) / FEE_DENOMINATOR;
    5 + later
  }

  /** The sample lies strictly below the least reaching input, by more than one lamport for each whole of fees and by at
      most the bound. */
  lemma BoundarySampleTight(pool: PumpPool, t: u64)
    requires InputAtOrBelowTargetOut(pool, t).Some?
    ensures 0 < t < pool.baseReserve
    ensures var gap := LeastReaching(pool, t) - InputAtOrBelowTargetOut(pool, t).value;
            1 + DivUp(pool.fees.Total(), FEE_DENOMINATOR) <= gap <= GapBound(pool.fees)
  {
    hide LeastReaching, DivUp, DivDown, InputAtOrBelowTargetOut, BoundaryEstimate, BoundaryCurveInput;
    SampleIsUsable(pool, t);
    BoundaryEstimateValue(pool, t);
    var b, c := BoundaryCurveInput(pool, t), InputAtOrBelowTargetOut(pool, t).value;
    GapAbove(b, c, pool.fees);
    LeastReachingIs(pool, t, b);
    if EffectiveQuote(TotalWithFees(b + 1, pool.fees), pool.fees) <= b {
      LateGap(b, c, pool.fees);
    }
  }

  lemma LeastReachingIs(pool: PumpPool, t: u64, b: nat)
    requires t < pool.baseReserve && b == BoundaryCurveInput(pool, t)
    ensures var k := TotalWithFees(b + 1, pool.fees);
            LeastReaching(pool, t) == if EffectiveQuote(k, pool.fees) > b then k else k + 1
  {
  }

  lemma GapAbove(b: nat, c: nat, fees: PumpFees)
    requires c == DivDown(b * (FEE_DENOMINATOR + fees.Total()), FEE_DENOMINATOR)
    ensures 1 + DivUp(fees.Total(), FEE_DENOMINATOR) <= TotalWithFees(b + 1, fees) - c
            <= 5 + (fees.Total() - 4) / FEE_DENOMINATOR
  {
    hide TotalWithFees;
    TotalBounds(b + 1, fees);
    var d := FEE_DENOMINATOR + fees.Total();
    assert (b + 1) * d == b * d + d;
  }

  /** When the correction overshoots at the least affording input, the two totals around the boundary bound the gap. */
  lemma LateGap(b: nat, c: nat, fees: PumpFees)
    requires c == DivDown(b * (FEE_DENOMINATOR + fees.Total()), FEE_DENOMINATOR)
    requires EffectiveQuote(TotalWithFees(b + 1, fees), fees) <= b
    ensures fees.Total() + 2 < 2 * FEE_DENOMINATOR
    ensures TotalWithFees(b + 1, fees) + 1 - c <= 5 + (2 * fees.Total() - 4) / FEE_DENOMINATOR
  {
    hide TotalWithFees, EffectiveQuote, Estimate, DivDown;
    var k, d := TotalWithFees(b + 1, fees), FEE_DENOMINATOR + fees.Total();
    OvershootsAtTotal(b, fees);
    TotalBounds(b + 1, fees);
    TotalBounds(b + 2, fees);
    EstimateBounds(k, fees);
    DivDownBounds(b * d, FEE_DENOMINATOR);
    Multiples(b, d);
    BetweenTotals(b * d, d, k, c);
  }

  lemma Multiples(b: nat, d: nat)
    ensures (b + 1) * d == b * d + d && (b + 2) * d == b * d + 2 * d
  {
  }

  lemma BetweenTotals(x: nat, d: nat, k: nat, c: nat)
    requires x + 2 * d <= FEE_DENOMINATOR * k <= x + d + 3 * (FEE_DENOMINATOR - 1)
    requires FEE_DENOMINATOR * (k + 2) <= x + 2 * d + 3 * (FEE_DENOMINATOR - 1)
               && x < FEE_DENOMINATOR * c + FEE_DENOMINATOR
    ensures d + 2 < 3 * FEE_DENOMINATOR
    ensures k + 1 - c <= 5 + (2 * d - 2 * FEE_DENOMINATOR - 4) / FEE_DENOMINATOR
  {
  }

  lemma OvershootsAtTotal(b: nat, fees: PumpFees)
    requires EffectiveQuote(TotalWithFees(b + 1, fees), fees) <= b
    ensures var k := TotalWithFees(b + 1, fees); Estimate(k, fees) == b + 2 && TotalWithFees(b + 2, fees) == k + 2
  {
    hide TotalWithFees, EffectiveQuote, Estimate, LargestAffordable;
    var k := TotalWithFees(b + 1, fees);
    LargestAffordableIsLargest(b + 1, k, fees);
    LargestAffordableIsLargest(b + 2, k, fees);
    TotalSteep(b + 1, b + 2, fees);
    BuyAffordableNearOptimal(k, fees);
    BuyOptimalIff(k, fees);
    OvershootByTwo(k, fees);
  }

  // --- eight lamports ---

  /** Up to a total fee of 40006 basis points the least reaching input is within eight lamports of every sample; up to
      100 percent, within six. */
  lemma EightLamports(pool: PumpPool, t: u64)
    requires InputAtOrBelowTargetOut(pool, t).Some?
    ensures 0 < t < pool.baseReserve
    ensures pool.fees.Total() <= 40_006 ==> LeastReaching(pool, t) <= InputAtOrBelowTargetOut(pool, t).value + 8
    ensures pool.fees.Total() <= FEE_DENOMINATOR ==>
              LeastReaching(pool, t) <= InputAtOrBelowTargetOut(pool, t).value + 6
    ensures pool.fees.Total() > 70_000 ==> LeastReaching(pool, t) > InputAtOrBelowTargetOut(pool, t).value + 8
  {
    hide LeastReaching, DivDown, InputAtOrBelowTargetOut, BoundaryEstimate, BoundaryCurveInput, TotalWithFees,
         EffectiveQuote;
    BoundarySampleTight(pool, t);
    DivUpBounds(pool.fees.Total(), FEE_DENOMINATOR);
    if 40_004 <= pool.fees.Total() <= 40_006 {
      SampleIsUsable(pool, t);
      BoundaryEstimateValue(pool, t);
      var b := BoundaryCurveInput(pool, t);
      LeastReachingIs(pool, t, b);
      NearThreshold(b, InputAtOrBelowTargetOut(pool, t).value, pool.fees);
      if EffectiveQuote(TotalWithFees(b + 1, pool.fees), pool.fees) <= b {
        LateGap(b, InputAtOrBelowTargetOut(pool, t).value, pool.fees);
      }
    }
  }

  /** The three totals for which size alone leaves a gap of nine possible: the remainders of the four roundings rule it
      out. */
  lemma NearThreshold(b: nat, c: nat, fees: PumpFees)
    requires 40_004 <= fees.Total() <= 40_006 && c == DivDown(b * (FEE_DENOMINATOR + fees.Total()), FEE_DENOMINATOR)
    ensures TotalWithFees(b + 1, fees) - c <= 8
  {
    hide TotalWithFees, DivDown, RoundedBy;
    DivDownBounds(b * (FEE_DENOMINATOR + fees.Total()), FEE_DENOMINATOR);
    hide PumpFees.Total;
    TotalIsRounded(b + 1, fees);
    RoundedByIsSmall(b + 1, fees.lp);
    RoundedByIsSmall(b + 1, fees.protocol);
    RoundedByIsSmall(b + 1, fees.creator);
    var s := SampleRemainder(b, c, fees.Total());
    NoNine(fees.Total(), s, RoundedBy(b + 1, fees.lp), RoundedBy(b + 1, fees.protocol), RoundedBy(b + 1, fees.creator),
           TotalWithFees(b + 1, fees) - c, b % 2 == 1);
  }

  /** What the sample's rounding drops, and the factors it shares with its two terms. */
  lemma SampleRemainder(b: nat, c: nat, total: nat) returns (s: int)
    requires 40_004 <= total <= 40_006
    ensures s == b * (FEE_DENOMINATOR + total) - FEE_DENOMINATOR * c
    ensures (b + 1) * (FEE_DENOMINATOR + total) == FEE_DENOMINATOR * c + s + FEE_DENOMINATOR + total
    ensures if total == 40_005 then s % 5 == 0 else s % 2 == 0
    ensures total == 40_006 && b % 2 == 0 ==> s % 4 == 0
  {
    s := b * (FEE_DENOMINATOR + total) - FEE_DENOMINATOR * c;
    if total == 40_004 {
      TermsAreEven(b, c);
    } else if total == 40_005 {
      TermsAreFives(b, c);
    } else {
      TermsAreFours(b, c);
    }
  }

  lemma NoNine(total: nat, s: int, r1: int, r2: int, r3: int, gap: int, odd: bool)
    requires 40_004 <= total <= 40_006 && FEE_DENOMINATOR * gap == FEE_DENOMINATOR + total + s + r1 + r2 + r3
    requires s < FEE_DENOMINATOR && r1 < FEE_DENOMINATOR && r2 < FEE_DENOMINATOR && r3 < FEE_DENOMINATOR
    requires if total == 40_005 then s % 5 == 0 else s % 2 == 0
    requires total == 40_006 && !odd ==> s % 4 == 0
    requires odd ==> r1 % 2 == 0 && r2 % 2 == 0 && r3 % 2 == 0
    ensures gap <= 8
  {
  }

  lemma TermsAreEven(b: nat, c: nat)
    ensures (b * 50_004 - FEE_DENOMINATOR * c) % 2 == 0
  {
    assert b * 50_004 - FEE_DENOMINATOR * c == 2 * (b * 25_002 - 5_000 * c);
  }

  lemma TermsAreFives(b: nat, c: nat)
    ensures (b * 50_005 - FEE_DENOMINATOR * c) % 5 == 0
  {
    assert b * 50_005 - FEE_DENOMINATOR * c == 5 * (b * 10_001 - 2_000 * c);
  }

  lemma TermsAreFours(b: nat, c: nat)
    ensures (b * 50_006 - FEE_DENOMINATOR * c) % 2 == 0
    ensures b % 2 == 0 ==> (b * 50_006 - FEE_DENOMINATOR * c) % 4 == 0
  {
    assert b * 50_006 - FEE_DENOMINATOR * c == 2 * (b * 25_003 - 5_000 * c);
    if b % 2 == 0 {
      assert b * 50_006 - FEE_DENOMINATOR * c == 4 * (b / 2 * 25_003 - 2_500 * c);
    }
  }

  /** How much a fee is rounded up, in parts of the denominator. */
  function RoundedBy(e: nat, bps: nat): int {
    FEE_DENOMINATOR * DivUp(e * bps, FEE_DENOMINATOR) - e * bps
  }

  lemma TotalIsRounded(e: nat, fees: PumpFees)
    ensures FEE_DENOMINATOR * TotalWithFees(e, fees)
         == e * (FEE_DENOMINATOR + fees.Total()) + RoundedBy(e, fees.lp) + RoundedBy(e, fees.protocol)
             + RoundedBy(e, fees.creator)
  {
    hide DivUp;
    assert e * (FEE_DENOMINATOR + fees.Total())
        == e * FEE_DENOMINATOR + e * fees.lp + e * fees.protocol + e * fees.creator;
  }

  /** Less than a whole, and even for an even quote. */
  lemma RoundedByIsSmall(e: nat, bps: nat)
    ensures 0 <= RoundedBy(e, bps) < FEE_DENOMINATOR
    ensures e % 2 == 0 ==> RoundedBy(e, bps) % 2 == 0
  {
    hide DivUp;
    DivUpBounds(e * bps, FEE_DENOMINATOR);
    if e % 2 == 0 {
      var h := e / 2;
      assert e * bps == 2 * (h * bps);
    }
  }

  /** One basis point above the threshold the eight lamports fail: for this pool the least reaching input is nine above
      the sample. */
  lemma NineLamports()
    ensures var pool := PumpPool(2, 1_428, 0, PumpFees(6_669, 6_669, 26_669));
            && pool.fees.Total() == 40_007
            && InputAtOrBelowTargetOut(pool, 1) == Some(7_140) && LeastReaching(pool, 1) == 7_149
            && Reaches(pool, 7_149, 1) && forall q: u64 :: Reaches(pool, q, 1) ==> 7_140 + 9 <= q
  {
    var pool := PumpPool(2, 1_428, 0, PumpFees(6_669, 6_669, 26_669));
    assert BoundaryCurveInput(pool, 1) == 1_428;
    NineLamportsSample();
    NineLamportsQuotes();
    hide LeastReaching, EffectiveQuote, TotalWithFees, InputAtOrBelowTargetOut, Reaches;
    LeastReachingIs(pool, 1, 1_428);
    LeastReachingIsLeast(pool, 1);
  }

  lemma NineLamportsQuotes()
    ensures var fees := PumpFees(6_669, 6_669, 26_669);
            TotalWithFees(1_429, fees) == 7_149 && EffectiveQuote(7_149, fees) == 1_429
                && EffectiveQuote(7_140, fees) == 1_427
  {
    var fees := PumpFees(6_669, 6_669, 26_669);
    assert Estimate(7_149, fees) == 1_429 && Estimate(7_140, fees) == 1_427;
    hide Estimate;
    assert TotalWithFees(1_429, fees) == 7_149 && TotalWithFees(1_427, fees) <= 7_140;
    hide TotalWithFees;
  }

  lemma NineLamportsSample()
    ensures InputAtOrBelowTargetOut(PumpPool(2, 1_428, 0, PumpFees(6_669, 6_669, 26_669)), 1) == Some(7_140)
  {
    var pool := PumpPool(2, 1_428, 0, PumpFees(6_669, 6_669, 26_669));
    assert BoundaryEstimate(pool, 1) == Some(7_140);
    NineLamportsQuotes();
    hide EffectiveQuote, BuyAmountOut, BoundaryEstimate;
    AmountOutIsCurveOutput(pool, 7_140);
    ConfirmationRejectsOnlyMissingQuotes(pool, 1);
  }
}
