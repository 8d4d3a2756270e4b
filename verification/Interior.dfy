/** Closed-form interior candidates, and the square-root prefilter in front of them. */
module Interior {
  import opened Arithmetic
  import opened Powers
  import opened NormalizedNumbers
  import opened NormalizedAccuracy
  import opened PumpQuote
  import opened PumpBoundary
  import opened DlmmCurve

  const ROOT_PREFILTER_MARGIN: int := 32

  function NormalizedSquare(v: u128): (r: Option<Normalized>)
    ensures r.Some? ==> r.value.Normal()
  {
    var n :- FromU128(v);
    Multiply(n, n)
  }

  /** The squared value lies at or below the square of the lower bound less the margin. */
  predicate FarBelow(squared: Normalized, lowerRoot: u128)
    requires squared.Normal()
  {
    var bound := NormalizedSquare(if lowerRoot < ROOT_PREFILTER_MARGIN then 0 else lowerRoot - ROOT_PREFILTER_MARGIN);
    bound.Some? && Compare(squared, bound.value) != Greater
  }

  /** The squared value lies at or above the square of the upper bound plus the margin. */
  predicate FarAbove(squared: Normalized, upperRoot: u128)
    requires squared.Normal()
  {
    var bound := NormalizedSquare(Min(upperRoot + ROOT_PREFILTER_MARGIN, U128_MAX));
    bound.Some? && Compare(squared, bound.value) != Less
  }

  predicate DefinitelyExcludes(squared: Normalized, lowerRoot: u128, upperRoot: u128)
    requires squared.Normal()
  {
    FarBelow(squared, lowerRoot) || FarAbove(squared, upperRoot)
  }

  /** The exponents for which the root is shifted by less than the width of a u128. */
  predicate RootInRange(n: Normalized) {
    n.Normal() && -128 <= n.exponent <= 255
  }

  // --- soundness of the prefilter ---

  lemma RootAtMost(root: nat, unit: nat, v: real, bound: nat)
    requires RootOf(root, unit, v) && v <= (bound * bound) as real
    ensures root <= bound
  {
    SquareMono(root, bound);
  }

  lemma SquareIsBelow(x: u128)
    requires NormalizedSquare(x).Some?
    ensures Value(NormalizedSquare(x).value) <= (x * x) as real
  {
    hide Multiply, FromU128, Value, ValuePlus;
    var n := FromU128(x).value;
    FromU128Truncates(x);
    MultiplyTruncates(n, n);
    ValuePositive(n);
    RealSquareMono(Value(n), x as real);
    RealOfProduct(x, x);
  }

  lemma RealSquareMono(a: real, b: real)
    requires 0.0 <= a <= b
    ensures a * a <= b * b
  {
    RealMulMono(a, b, a);
    RealMulMono(a, b, b);
  }

  /** Below: the root is at least the margin under the lower bound. */
  lemma FarBelowIsSound(squared: Normalized, lowerRoot: u128)
    requires RootInRange(squared) && FarBelow(squared, lowerRoot)
    ensures SqrtFloor(squared).Some? && SqrtFloor(squared).value + ROOT_PREFILTER_MARGIN <= lowerRoot
  {
    hide Compare, NormalizedSquare, Value, SqrtFloor, RootOf, RootUnit;
    SquareOfZero();
    var x := lowerRoot - ROOT_PREFILTER_MARGIN;
    assert lowerRoot >= ROOT_PREFILTER_MARGIN;
    CompareIsOrder(squared, NormalizedSquare(x).value);
    SquareIsBelow(x);
    SqrtBounds(squared);
    RootAtMost(SqrtFloor(squared).value, RootUnit(squared), Value(squared), x);
  }

  lemma SquareOfZero()
    ensures NormalizedSquare(0).None?
  {
  }

  /** A number below 2^66 loses less than four to the truncation of its mantissa. */
  lemma ConversionLoss(x: u128)
    requires 0 < x < 4 * TWO_64
    ensures x as real - 4.0 < Value(FromU128(x).value) <= x as real
  {
    hide Scale, Pow2, FromU128, Value, ValuePlus, BitLength;
    var n := FromU128(x).value;
    FromU128Truncates(x);
    ValueIs(n, Scale(n.exponent - 63));
    assert n.exponent <= 65 by {
      Pow2Values();
      FirstPowers();
      Pow2Add(2, 64);
      BitLengthWithin(x, 66);
    }
    ScaleMono(n.exponent - 63, 2);
    ScaleIsPow2(2);
    FirstPowers();
  }

  /** The represented square of a number in [32, 2^66) is at least the exact square of a number twelve below. */
  lemma SquareIsNear(x: u128)
    requires 32 <= x < 4 * TWO_64 && NormalizedSquare(x).Some?
    ensures ((x - 12) * (x - 12)) as real <= Value(NormalizedSquare(x).value)
  {
    hide Multiply, FromU128, Value, ValuePlus, LeftAfter;
    var n := FromU128(x).value;
    ConversionLoss(x);
    MultiplyTruncates(n, n);
    var v := Value(n);
    TruncationError(Multiply(n, n).value, v * v, 1);
    SquareLoss(v);
    RealSquareMono((x - 12) as real, v - 8.0);
    RealOfProduct(x - 12, x - 12);
  }

  /** One unit of relative error on a square below 2^132 costs its root at most eight. */
  lemma SquareLoss(v: real)
    requires 28.0 <= v <= (4 * TWO_64) as real
    ensures (v - 8.0) * (v - 8.0) <= (v * v) * LeftAfter(1)
  {
    assert (4 * TWO_64) as real * ULP == 8.0;
    RealMulMono(v, (4 * TWO_64) as real, ULP);
    LossBound(v, ULP);
    assert LeftAfter(1) == 1.0 - ULP;
  }

  lemma LossBound(v: real, u: real)
    requires 28.0 <= v && v * u <= 8.0
    ensures (v - 8.0) * (v - 8.0) <= (v * v) * (1.0 - u)
  {
    RealMulMono(v * u, 8.0, v);
    assert (v * v) * (1.0 - u) == v * v - (v * u) * v;
    assert (v - 8.0) * (v - 8.0) == v * v - 16.0 * v + 64.0;
  }

  /** Above: the root lies strictly above the upper bound, whatever precision its final shift lost. */
  lemma FarAboveIsSound(squared: Normalized, upperRoot: u128)
    requires RootInRange(squared) && FarAbove(squared, upperRoot) && upperRoot <= 3 * TWO_64
    ensures SqrtFloor(squared).Some? && SqrtFloor(squared).value > upperRoot
  {
    hide Compare, NormalizedSquare, Value, SqrtFloor, RootOf, RootUnit;
    var x: u128 := upperRoot + ROOT_PREFILTER_MARGIN;
    CompareIsOrder(squared, NormalizedSquare(x).value);
    SquareIsNear(x);
    SqrtBounds(squared);
    RootAbove(SqrtFloor(squared).value, RootUnit(squared), Value(squared), x - 12);
    if squared.exponent >= 128 {
      UnitIsPower(squared);
    }
  }

  lemma RootAbove(root: nat, unit: nat, v: real, bound: nat)
    requires RootOf(root, unit, v) && (bound * bound) as real <= v
    ensures bound < root + unit
  {
    SquareMono(root + unit, bound);
  }

  /** The granule of a root is 1, 2 or 4, or else at least 8. */
  lemma UnitIsPower(n: Normalized)
    requires n.exponent >= 128
    ensures RootUnit(n) <= 4 || RootUnit(n) >= 8
  {
    hide Pow2;
    var k := (n.exponent - n.exponent % 2) / 2 - 63;
    FirstPowers();
    Pow2Add(2, 1);
    if k <= 2 {
      Pow2Mono(k, 2);
    } else {
      Pow2Mono(3, k);
    }
  }

  /** Whenever the prefilter fires, the root that would be computed lies outside the interval. */
  lemma PrefilterIsSound(squared: Normalized, lowerRoot: u128, upperRoot: u128)
    requires RootInRange(squared) && upperRoot <= 3 * TWO_64
    requires DefinitelyExcludes(squared, lowerRoot, upperRoot)
    ensures SqrtFloor(squared).Some?
    ensures SqrtFloor(squared).value < lowerRoot || upperRoot < SqrtFloor(squared).value
  {
    hide FarBelow, FarAbove, SqrtFloor;
    if FarBelow(squared, lowerRoot) {
      FarBelowIsSound(squared, lowerRoot);
    } else {
      FarAboveIsSound(squared, upperRoot);
    }
  }

  /** It fires on every value well outside: at least forty-four below the lower bound or thirty-two above the upper
      one. */
  lemma PrefilterFires(squared: Normalized, lowerRoot: u128, upperRoot: u128)
    requires squared.Normal() && lowerRoot <= 3 * TWO_64 && upperRoot <= 3 * TWO_64
    ensures lowerRoot >= 64 && Value(squared) <= ((lowerRoot - 44) * (lowerRoot - 44)) as real ==>
              DefinitelyExcludes(squared, lowerRoot, upperRoot)
    ensures Value(squared) >= ((upperRoot + 32) * (upperRoot + 32)) as real ==>
              DefinitelyExcludes(squared, lowerRoot, upperRoot)
  {
    hide Compare, NormalizedSquare, Value;
    if lowerRoot >= 64 {
      SquareExists(lowerRoot - 32);
      SquareIsNear(lowerRoot - 32);
      CompareIsOrder(squared, NormalizedSquare(lowerRoot - 32).value);
    }
    SquareExists(upperRoot + 32);
    SquareIsBelow(upperRoot + 32);
    CompareIsOrder(squared, NormalizedSquare(upperRoot + 32).value);
  }

  lemma SquareExists(x: u128)
    requires 0 < x < 4 * TWO_64
    ensures NormalizedSquare(x).Some?
  {
    hide Pow2, BitLength;
    BitLengthOf128(x);
  }

  // --- the exponent of a ratio ---

  function TotalBits(factors: seq<u128>): nat {
    if |factors| == 0 then 0 else BitLength(factors[0]) + TotalBits(factors[1..])
  }

  lemma {:induction false} MultiplyAllExponent(v: Normalized, factors: seq<u128>)
    requires v.Normal() && MultiplyAll(v, factors).Some?
    ensures v.exponent <= MultiplyAll(v, factors).value.exponent <= v.exponent + TotalBits(factors)
    decreases |factors|
  {
    if |factors| > 0 {
      var f := FromU128(factors[0]).value;
      FromZero(factors[0]);
      MultiplyAllExponent(Multiply(v, f).value, factors[1..]);
    }
  }

  lemma {:induction false} DivideAllExponent(v: Normalized, divisors: seq<u128>)
    requires v.Normal() && DivideAll(v, divisors).Some?
    ensures v.exponent - TotalBits(divisors) <= DivideAll(v, divisors).value.exponent <= v.exponent
    decreases |divisors|
  {
    if |divisors| > 0 {
      var d := FromU128(divisors[0]).value;
      FromZero(divisors[0]);
      DivideAllExponent(Divide(v, d).value, divisors[1..]);
    }
  }

  lemma FromZero(v: u128)
    ensures v > 0 ==> FromU128(v).value.exponent >= 0
  {
    hide Pow2, DivDown;
    BitLengthBrackets(v);
  }

  lemma BitsOf(v: nat, n: nat, bound: nat)
    requires bound == Pow2(n) && v < bound
    ensures BitLength(v) <= n
  {
    BitLengthWithin(v, n);
  }

  lemma TwoPowers()
    ensures Pow2(14) == 0x4000 && Pow2(18) == 0x4_0000 && Pow2(65) == 2 * TWO_64 && Pow2(64) == TWO_64
  {
    hide Pow2;
    FirstPowers();
    Pow2Add(2, 2);
    Pow2Add(4, 4);
    Pow2Add(8, 4);
    Pow2Add(12, 2);
    Pow2Add(14, 4);
    Pow2Values();
    Pow2Add(1, 64);
  }

  /** A ratio of four numerators and two denominators of at most these sizes has a root in range. */
  lemma RatioInRange(a: u64, b: u64, c: nat, r: nat, d: u64, e: nat)
    requires c < 0x4000 && r < 2 * TWO_64 && 0 < e < 0x4_0000
    requires ProductRatio([a, b, c, r], [d, e]).Some?
    ensures RootInRange(ProductRatio([a, b, c, r], [d, e]).value)
  {
    hide Pow2, BitLength, FromU128, Multiply, Divide;
    TwoPowers();
    BitsOf(a, 64, TWO_64);
    BitsOf(b, 64, TWO_64);
    BitsOf(c, 14, 0x4000);
    BitsOf(r, 65, 2 * TWO_64);
    BitsOf(d, 64, TWO_64);
    BitsOf(e, 18, 0x4_0000);
    RatioExponent([a, b, c, r], [d, e]);
    hide TotalBits;
    assert [a, b, c, r] == [a] + [b, c, r] && [b, c, r] == [b] + [c, r] && [c, r] == [c] + [r] && [r] == [r] + [];
    BitsStep(a, [b, c, r]);
    BitsStep(b, [c, r]);
    BitsStep(c, [r]);
    BitsStep(r, []);
    assert [d, e] == [d] + [e] && [e] == [e] + [];
    BitsStep(d, [e]);
    BitsStep(e, []);
    NoBits();
  }

  lemma BitsStep(x: u128, rest: seq<u128>)
    ensures TotalBits([x] + rest) == BitLength(x) + TotalBits(rest)
  {
    hide BitLength;
    assert ([x] + rest)[1..] == rest;
  }

  lemma NoBits()
    ensures TotalBits([]) == 0
  {
  }

  lemma RatioExponent(numerators: seq<u128>, denominators: seq<u128>)
    requires ProductRatio(numerators, denominators).Some?
    ensures var n := ProductRatio(numerators, denominators).value;
            n.Normal() && 0 <= n.exponent + TotalBits(denominators) && n.exponent <= TotalBits(numerators)
  {
    hide BitLength, Multiply, Divide, FromU128, TotalBits, MultiplyAll, DivideAll;
    var one := FromU128(1).value;
    OneBit();
    MultiplyAllExponent(one, numerators);
    DivideAllExponent(MultiplyAll(one, numerators).value, denominators);
  }

  lemma OneBit()
    ensures BitLength(1) == 1
  {
  }

  // --- interior candidates, with the prefilter or without it ---

  /** The ratio whose root is the reserve plus curve input at the forward optimum of a segment. */
  function ForwardRatio(pool: PumpPool, segment: Segment): Option<Normalized>
    requires segment.Ordered()
  {
    ProductRatio([segment.OutputCapacity(), pool.baseReserve, FEE_DENOMINATOR, pool.EffectiveReserve()],
                 [segment.InputCapacity(), FEE_DENOMINATOR + pool.fees.Total()])
  }

  function ForwardLowerRoot(pool: PumpPool, start: u64): u128 {
    pool.EffectiveReserve() + DivDown(start * FEE_DENOMINATOR, FEE_DENOMINATOR + pool.fees.Total())
  }

  function ForwardUpperRoot(pool: PumpPool, end: u64): Option<u128> {
    var scaled :- CeilDivOption(end * FEE_DENOMINATOR, FEE_DENOMINATOR + pool.fees.Total());
    Keep128(pool.EffectiveReserve() + scaled)
  }

  lemma ForwardRatioInRange(pool: PumpPool, segment: Segment)
    requires segment.Ordered() && ForwardRatio(pool, segment).Some?
    ensures RootInRange(ForwardRatio(pool, segment).value)
  {
    hide RootInRange, ProductRatio;
    RatioInRange(segment.OutputCapacity(), pool.baseReserve, FEE_DENOMINATOR, pool.EffectiveReserve(),
                 segment.InputCapacity(), FEE_DENOMINATOR + pool.fees.Total());
  }

  /** The forward interior candidate of a segment, strictly between the segment's sampled ends. */
  function ForwardInterior(pool: PumpPool, segment: Segment, start: u64, end: u64, prefilter: bool): Option<u64>
    requires segment.Ordered()
  {
    var ratio :- ForwardRatio(pool, segment);
    var upperRoot :- ForwardUpperRoot(pool, end);
    ForwardRatioInRange(pool, segment);
    if prefilter && DefinitelyExcludes(ratio, ForwardLowerRoot(pool, start), upperRoot) then None
    else
      var root :- SqrtFloor(ratio);
      if root <= pool.EffectiveReserve() then None
      else
        var scaled :- Keep128((root - pool.EffectiveReserve()) * (FEE_DENOMINATOR + pool.fees.Total()));
        var candidate :- Keep64(DivDown(scaled, FEE_DENOMINATOR));
        if start < candidate < end then Some(candidate) else None
  }

  function ReverseRatio(pool: PumpPool, segment: Segment): Option<Normalized>
    requires segment.Ordered() && pool.fees.Total() < FEE_DENOMINATOR
  {
    ProductRatio([segment.OutputCapacity(), pool.EffectiveReserve(), pool.baseReserve,
                  FEE_DENOMINATOR - pool.fees.Total()],
                 [segment.InputCapacity(), FEE_DENOMINATOR])
  }

  lemma ReverseRatioInRange(pool: PumpPool, segment: Segment)
    requires segment.Ordered() && pool.fees.Total() < FEE_DENOMINATOR && ReverseRatio(pool, segment).Some?
    ensures RootInRange(ReverseRatio(pool, segment).value)
  {
    hide RootInRange, ProductRatio;
    RatioInRangeReversed(segment.OutputCapacity(), pool.EffectiveReserve(), pool.baseReserve,
                         FEE_DENOMINATOR - pool.fees.Total(),
                         segment.InputCapacity(), FEE_DENOMINATOR);
  }

  lemma RatioInRangeReversed(a: u64, r: nat, b: u64, c: nat, d: u64, e: nat)
    requires c < 0x4000 && r < 2 * TWO_64 && 0 < e < 0x4_0000
    requires ProductRatio([a, r, b, c], [d, e]).Some?
    ensures RootInRange(ProductRatio([a, r, b, c], [d, e]).value)
  {
    hide Pow2, BitLength, FromU128, Multiply, Divide;
    TwoPowers();
    BitsOf(a, 64, TWO_64);
    BitsOf(b, 64, TWO_64);
    BitsOf(c, 14, 0x4000);
    BitsOf(r, 65, 2 * TWO_64);
    BitsOf(d, 64, TWO_64);
    BitsOf(e, 18, 0x4_0000);
    RatioExponent([a, r, b, c], [d, e]);
    hide TotalBits;
    assert [a, r, b, c] == [a] + [r, b, c] && [r, b, c] == [r] + [b, c] && [b, c] == [b] + [c] && [c] == [c] + [];
    BitsStep(a, [r, b, c]);
    BitsStep(r, [b, c]);
    BitsStep(b, [c]);
    BitsStep(c, []);
    assert [d, e] == [d] + [e] && [e] == [e] + [];
    BitsStep(d, [e]);
    BitsStep(e, []);
    NoBits();
  }

  /** The reverse interior candidate: the optimum's output mapped back linearly into the segment's input. */
  function ReverseInterior(pool: PumpPool, segment: Segment, prefilter: bool): Option<u64>
    requires segment.Ordered()
  {
    if pool.fees.Total() >= FEE_DENOMINATOR then None
    else
      var ratio :- ReverseRatio(pool, segment);
      ReverseRatioInRange(pool, segment);
      if prefilter && DefinitelyExcludes(ratio, pool.baseReserve + segment.outputStart,
                                         pool.baseReserve + segment.outputEnd) then None
      else
        var root :- SqrtFloor(ratio);
        var target :- Keep128(root - pool.baseReserve);
        if target <= segment.outputStart || target >= segment.outputEnd then None
        else
          var scaled :- Keep128((target - segment.outputStart) * segment.InputCapacity());
          Keep64(segment.inputStart + DivDown(scaled, segment.OutputCapacity()))
  }

  // --- the root a candidate starts from ---

  /** x is the real root of the exact quotient of the factors. */
  predicate ExactRoot(x: real, numerators: seq<u128>, denominators: seq<u128>) {
    x >= 0.0 && x * x * TimesAll(1.0, denominators) == TimesAll(1.0, numerators)
  }

  /** A computed root exceeds the exact one by a relative error of at most 2^-60, and misses it by less than a granule
      and 2^-59. */
  predicate RootNear(n: Normalized, x: real)
    requires RootInRange(n)
  {
    var root := SqrtFloor(n);
    && root.Some?
    && root.value as real <= x * GrownBy(8)
    && x * LeftAfter(16) < (root.value + RootUnit(n)) as real
  }

  lemma RatioRootIsNear(numerators: seq<u128>, denominators: seq<u128>, x: real)
    requires |numerators| <= 4 && |denominators| <= 2 && ProductRatio(numerators, denominators).Some?
    requires RootInRange(ProductRatio(numerators, denominators).value) && ExactRoot(x, numerators, denominators)
    ensures RootNear(ProductRatio(numerators, denominators).value, x)
  {
    hide ProductRatio, TimesAll, Value, SqrtFloor, RootUnit, LeftAfter, GrownBy, Within, RootOf;
    var n := ProductRatio(numerators, denominators).value;
    RatioAccurate(numerators, denominators);
    SqrtBounds(n);
    RootOfNearSquare(SqrtFloor(n).value, RootUnit(n), Value(n), x, TimesAll(1.0, numerators),
                     TimesAll(1.0, denominators));
  }

  lemma RootOfNearSquare(root: nat, unit: nat, v: real, x: real, num: real, den: real)
    requires RootOf(root, unit, v) && Within(v, num, den, 16, 16) && x >= 0.0 && x * x * den == num
    ensures root as real <= x * GrownBy(8) && x * LeftAfter(16) < (root + unit) as real
  {
    hide Within, LeftAfter, GrownBy;
    SquareNear(v, x, num, den);
    SquaresOfWholes(root);
    SquaresOfWholes(root + unit);
    RootsCompare(root as real, x * GrownBy(8));
    RootsCompareStrictly(x * LeftAfter(16), (root + unit) as real);
  }

  lemma SquareNear(v: real, x: real, num: real, den: real)
    requires Within(v, num, den, 16, 16) && x >= 0.0 && x * x * den == num
    ensures v <= (x * GrownBy(8)) * (x * GrownBy(8))
    ensures (x * LeftAfter(16)) * (x * LeftAfter(16)) <= v
    ensures x * GrownBy(8) >= 0.0 && x * LeftAfter(16) >= 0.0
  {
    var y := x * x;
    WithinQuotient(v, y, num, den);
    hide GrownBy, LeftAfter, Within;
    SmallUnits();
    SquareOfScaled(x, GrownBy(8));
    SquareOfScaled(x, LeftAfter(16));
    RealMulMono(GrownBy(16), GrownBy(8) * GrownBy(8), y);
    RealMulMono(LeftAfter(16) * LeftAfter(16), LeftAfter(16), y);
  }

  lemma WithinQuotient(v: real, y: real, num: real, den: real)
    requires Within(v, num, den, 16, 16) && y * den == num
    ensures y * LeftAfter(16) <= v <= y * GrownBy(16)
  {
    hide GrownBy, LeftAfter;
    QuotientNear(v, y, den, LeftAfter(16), GrownBy(16));
  }

  lemma SmallUnits()
    ensures GrownBy(16) <= GrownBy(8) * GrownBy(8)
    ensures 0.0 <= LeftAfter(16) * LeftAfter(16) <= LeftAfter(16)
    ensures GrownBy(8) >= 0.0 && LeftAfter(16) >= 0.0
  {
  }

  lemma QuotientNear(v: real, y: real, den: real, low: real, high: real)
    requires den > 0.0 && (y * den) * low <= v * den <= (y * den) * high
    ensures y * low <= v <= y * high
  {
    assert (y * den) * low == (y * low) * den && (y * den) * high == (y * high) * den;
    RealCancel(y * low, v, den);
    RealCancel(v, y * high, den);
  }

  lemma SquareOfScaled(x: real, s: real)
    ensures (x * s) * (x * s) == x * x * (s * s)
    ensures x >= 0.0 && s >= 0.0 ==> x * s >= 0.0
    ensures x * x >= 0.0
  {
  }

  lemma SquaresOfWholes(n: nat)
    ensures (n * n) as real == n as real * n as real
  {
    RealOfProduct(n, n);
  }

  lemma RootsCompare(a: real, b: real)
    requires a >= 0.0 && b >= 0.0 && a * a <= b * b
    ensures a <= b
  {
    if a > b {
      PositiveProduct(a - b, a + b);
    }
  }

  lemma RootsCompareStrictly(a: real, b: real)
    requires a >= 0.0 && b >= 0.0 && a * a < b * b
    ensures a < b
  {
    assert b <= a ==> (a - b) * (a + b) >= 0.0;
  }

  /** The exact quotients whose roots are the optima of a segment. */
  function ForwardFactors(pool: PumpPool, segment: Segment): (seq<u128>, seq<u128>)
    requires segment.Ordered()
  {
    ([segment.OutputCapacity(), pool.baseReserve, FEE_DENOMINATOR, pool.EffectiveReserve()],
     [segment.InputCapacity(), FEE_DENOMINATOR + pool.fees.Total()])
  }

  function ReverseFactors(pool: PumpPool, segment: Segment): (seq<u128>, seq<u128>)
    requires segment.Ordered() && pool.fees.Total() < FEE_DENOMINATOR
  {
    ([segment.OutputCapacity(), pool.EffectiveReserve(), pool.baseReserve, FEE_DENOMINATOR - pool.fees.Total()],
     [segment.InputCapacity(), FEE_DENOMINATOR])
  }

  /** The root of each interior candidate is near the exact root of the exact quotient. */
  lemma InteriorRootsAreNear(pool: PumpPool, segment: Segment, x: real)
    requires segment.Ordered()
    ensures var (numerators, denominators) := ForwardFactors(pool, segment);
            ForwardRatio(pool, segment).Some? && ExactRoot(x, numerators, denominators) ==>
              RootInRange(ForwardRatio(pool, segment).value) && RootNear(ForwardRatio(pool, segment).value, x)
    ensures pool.fees.Total() < FEE_DENOMINATOR ==>
              var (numerators, denominators) := ReverseFactors(pool, segment);
              ReverseRatio(pool, segment).Some? && ExactRoot(x, numerators, denominators) ==>
                RootInRange(ReverseRatio(pool, segment).value) && RootNear(ReverseRatio(pool, segment).value, x)
  {
    hide RootInRange, RootNear, ExactRoot, ProductRatio;
    var forwards := ForwardFactors(pool, segment);
    if ForwardRatio(pool, segment).Some? && ExactRoot(x, forwards.0, forwards.1) {
      ForwardRatioInRange(pool, segment);
      RatioRootIsNear(forwards.0, forwards.1, x);
    }
    if pool.fees.Total() < FEE_DENOMINATOR && ReverseRatio(pool, segment).Some? {
      var backwards := ReverseFactors(pool, segment);
      if ExactRoot(x, backwards.0, backwards.1) {
        ReverseRatioInRange(pool, segment);
        RatioRootIsNear(backwards.0, backwards.1, x);
      }
    }
  }

  // --- transparency ---

  lemma ForwardBounds(pool: PumpPool, start: u64, end: u64)
    ensures ForwardUpperRoot(pool, end).Some? && ForwardUpperRoot(pool, end).value <= 3 * TWO_64
    ensures ForwardUpperRoot(pool, end).value
              == pool.EffectiveReserve() + DivUp(end * FEE_DENOMINATOR, FEE_DENOMINATOR + pool.fees.Total())
  {
    hide DivUp;
    MulMono(FEE_DENOMINATOR, FEE_DENOMINATOR + pool.fees.Total(), end);
    DivUpIff(end * FEE_DENOMINATOR, FEE_DENOMINATOR + pool.fees.Total(), end);
  }

  /** A curve input outside the interval of roots maps to no amount strictly between the segment's ends. */
  lemma OutsideRootGivesNoCandidate(d: nat, x: nat, start: nat, end: nat)
    requires d > 0 && (x < DivDown(start * FEE_DENOMINATOR, d) || DivUp(end * FEE_DENOMINATOR, d) < x)
    ensures DivDown(x * d, FEE_DENOMINATOR) <= start || end <= DivDown(x * d, FEE_DENOMINATOR)
  {
    hide DivDown, DivUp;
    DivDownIff(x * d, FEE_DENOMINATOR, start + 1);
    DivDownIff(x * d, FEE_DENOMINATOR, end);
    if x < DivDown(start * FEE_DENOMINATOR, d) {
      DivDownBounds(start * FEE_DENOMINATOR, d);
      MulMono(x, DivDown(start * FEE_DENOMINATOR, d), d);
    } else {
      DivUpBounds(end * FEE_DENOMINATOR, d);
      MulMono(DivUp(end * FEE_DENOMINATOR, d), x, d);
    }
  }

  /** The prefilter never changes a forward interior candidate. */
  lemma ForwardPrefilterIsTransparent(pool: PumpPool, segment: Segment, start: u64, end: u64)
    requires segment.Ordered()
    ensures ForwardInterior(pool, segment, start, end, true) == ForwardInterior(pool, segment, start, end, false)
  {
    hide ForwardRatio, SqrtFloor, DefinitelyExcludes, DivDown, DivUp, ForwardUpperRoot;
    ForwardBounds(pool, start, end);
    if ForwardRatio(pool, segment).Some? {
      var ratio, lower, upper := ForwardRatio(pool, segment).value, ForwardLowerRoot(pool, start),
          ForwardUpperRoot(pool, end).value;
      ForwardRatioInRange(pool, segment);
      if DefinitelyExcludes(ratio, lower, upper) {
        PrefilterIsSound(ratio, lower, upper);
        var root := SqrtFloor(ratio).value;
        if root > pool.EffectiveReserve() {
          OutsideRootGivesNoCandidate(FEE_DENOMINATOR + pool.fees.Total(), root - pool.EffectiveReserve(), start, end);
        }
      }
    }
  }

  /** The prefilter never changes a reverse interior candidate. */
  lemma ReversePrefilterIsTransparent(pool: PumpPool, segment: Segment)
    requires segment.Ordered()
    ensures ReverseInterior(pool, segment, true) == ReverseInterior(pool, segment, false)
  {
    hide ReverseRatio, SqrtFloor, DefinitelyExcludes, DivDown;
    if pool.fees.Total() < FEE_DENOMINATOR && ReverseRatio(pool, segment).Some? {
      var ratio := ReverseRatio(pool, segment).value;
      var lower, upper := pool.baseReserve + segment.outputStart, pool.baseReserve + segment.outputEnd;
      ReverseRatioInRange(pool, segment);
      if DefinitelyExcludes(ratio, lower, upper) {
        PrefilterIsSound(ratio, lower, upper);
      }
    }
  }
}
