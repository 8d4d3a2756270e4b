/** The exact roots behind the interior candidates are where a segment's spread is largest. */
module InteriorOptimum {
  import opened Arithmetic
  import opened NormalizedNumbers
  import opened NormalizedAccuracy
  import opened PumpQuote
  import opened PumpBoundary
  import opened DlmmCurve
  import opened Interior

  // --- the spread of a route through one segment, without roundings ---

  /** What a reserve r grown to y releases of the other reserve b, at a given worth for each unit, less the cost of the
      growth. */
  function Spread(worth: real, b: real, r: real, cost: real, y: real): real
    requires y > 0.0
  {
    worth * (b * ((y - r) / y)) - cost * (y - r)
  }

  /** Forwards, at a quote reserve grown to y: the tokens bought, sold at the segment's slope, less what they cost with
      all
      fees. Where the segment starts only adds a constant. */
  function ForwardSpread(pool: PumpPool, segment: Segment, y: real): real
    requires segment.Ordered() && segment.InputCapacity() > 0 && y > 0.0
  {
    Spread(segment.OutputCapacity() as real / segment.InputCapacity() as real,
           pool.baseReserve as real, pool.EffectiveReserve() as real,
           (FEE_DENOMINATOR + pool.fees.Total()) as real / FEE_DENOMINATOR as real, y)
  }

  /** In reverse, at a base reserve grown to y: the proceeds after all fees, less the input that the segment takes for
      the
      tokens sold. */
  function ReverseSpread(pool: PumpPool, segment: Segment, y: real): real
    requires segment.Ordered() && segment.OutputCapacity() > 0 && y > 0.0
  {
    Spread((FEE_DENOMINATOR - pool.fees.Total()) as real / FEE_DENOMINATOR as real,
           pool.EffectiveReserve() as real, pool.baseReserve as real,
           segment.InputCapacity() as real / segment.OutputCapacity() as real, y)
  }

  // --- the maximum ---

  /** With cost x^2 = worth b r, x is the only maximum of the spread. */
  lemma RootIsMaximum(worth: real, b: real, r: real, cost: real, x: real, y: real)
    requires cost > 0.0 && x > 0.0 && y > 0.0 && cost * (x * x) == worth * (b * r)
    ensures Spread(worth, b, r, cost, y) <= Spread(worth, b, r, cost, x)
    ensures y != x ==> Spread(worth, b, r, cost, y) < Spread(worth, b, r, cost, x)
  {
    var u, v := 1.0 / y, 1.0 / x;
    ShareOfGrown(worth, b, r, y, u);
    ShareOfGrown(worth, b, r, x, v);
    RootGap(cost, x, y, u, v);
  }

  lemma ShareOfGrown(s: real, b: real, r: real, y: real, u: real)
    requires y > 0.0 && u == 1.0 / y
    ensures u > 0.0 && y * u == 1.0
    ensures s * (b * ((y - r) / y)) == s * b - s * (b * r) * u
  {
    assert (y - r) / y == 1.0 - r * u;
    assert b * (1.0 - r * u) == b - b * r * u;
    assert s * (b - b * r * u) == s * b - s * (b * r) * u;
  }

  /** The two values differ by k (x - y)^2 / y. */
  lemma RootGap(k: real, x: real, y: real, u: real, v: real)
    requires k > 0.0 && x > 0.0 && u > 0.0 && y * u == 1.0 && x * v == 1.0
    ensures k * (x * x) * u + k * y - k * (x * x) * v - k * x >= 0.0
    ensures y != x ==> k * (x * x) * u + k * y - k * (x * x) * v - k * x > 0.0
  {
    var d := x - y;
    var square := d * d;
    assert (x * x) * v == x by {
      assert (x * x) * v == x * (x * v);
    }
    assert square * u == (x * x) * u - 2.0 * x + y by {
      assert square == x * x - 2.0 * (x * y) + y * y;
      assert (x * y) * u == x * (y * u) && (y * y) * u == y * (y * u);
    }
    assert k * (x * x) * u + k * y - k * (x * x) * v - k * x == k * (square * u) by {
      assert k * (x * x) * u == k * ((x * x) * u) && k * (x * x) * v == k * ((x * x) * v);
    }
    SquareTimes(k, d, square, u);
  }

  lemma SquareTimes(k: real, d: real, square: real, u: real)
    requires k > 0.0 && u > 0.0 && square == d * d
    ensures k * (square * u) >= 0.0 && (d != 0.0 ==> k * (square * u) > 0.0)
  {
    if d != 0.0 {
      SquareIsPositive(d, square);
      ProductIsPositive(square, u, square * u);
      ProductIsPositive(k, square * u, k * (square * u));
    } else {
      assert square == 0.0;
    }
  }

  lemma SquareIsPositive(d: real, square: real)
    requires d != 0.0 && square == d * d
    ensures square > 0.0
  {
    if d > 0.0 {
      ProductIsPositive(d, d, square);
    } else {
      assert square == (-d) * (-d);
      ProductIsPositive(-d, -d, square);
    }
  }

  lemma ProductIsPositive(a: real, b: real, product: real)
    requires a > 0.0 && b > 0.0 && product == a * b
    ensures product > 0.0
  {
  }

  // --- the factors of a ratio ---

  /** A ratio exists only for positive factors. */
  lemma {:induction false} ProductNeedsFactors(value: Normalized, factors: seq<u128>)
    requires value.Normal() && MultiplyAll(value, factors).Some?
    ensures forall i :: 0 <= i < |factors| ==> factors[i] > 0
    decreases |factors|
  {
    hide Multiply;
    if |factors| > 0 {
      ProductNeedsFactors(Multiply(value, FromU128(factors[0]).value).value, factors[1..]);
      assert forall i :: 1 <= i < |factors| ==> factors[i] == factors[1..][i - 1];
    }
  }

  lemma {:induction false} QuotientNeedsFactors(value: Normalized, factors: seq<u128>)
    requires value.Normal() && DivideAll(value, factors).Some?
    ensures forall i :: 0 <= i < |factors| ==> factors[i] > 0
    decreases |factors|
  {
    hide Divide;
    if |factors| > 0 {
      QuotientNeedsFactors(Divide(value, FromU128(factors[0]).value).value, factors[1..]);
      assert forall i :: 1 <= i < |factors| ==> factors[i] == factors[1..][i - 1];
    }
  }

  lemma RatioNeedsFactors(numerators: seq<u128>, denominators: seq<u128>)
    requires ProductRatio(numerators, denominators).Some?
    ensures forall i :: 0 <= i < |numerators| ==> numerators[i] > 0
    ensures forall i :: 0 <= i < |denominators| ==> denominators[i] > 0
  {
    hide MultiplyAll, DivideAll, FromU128;
    var product := MultiplyAll(FromU128(1).value, numerators).value;
    ProductNeedsFactors(FromU128(1).value, numerators);
    QuotientNeedsFactors(product, denominators);
  }

  lemma AllTimes(a: u128, b: u128, c: u128, d: u128, e: u128, f: u128)
    ensures TimesAll(1.0, [a, b, c, d]) == a as real * b as real * c as real * d as real
    ensures TimesAll(1.0, [e, f]) == e as real * f as real
  {
    assert [a, b, c, d] == [a] + [b, c, d] && [b, c, d] == [b] + [c, d] && [c, d] == [c] + [d] && [d] == [d] + [];
    assert [e, f] == [e] + [f] && [f] == [f] + [];
    var ab, abc := a as real * b as real, a as real * b as real * c as real;
    TimesStep(1.0, a, [b, c, d], a as real);
    TimesStep(a as real, b, [c, d], ab);
    TimesStep(ab, c, [d], abc);
    TimesStep(abc, d, [], abc * d as real);
    TimesStep(1.0, e, [f], e as real);
    TimesStep(e as real, f, [], e as real * f as real);
  }

  lemma TimesStep(x: real, f: u128, rest: seq<u128>, product: real)
    requires product == x * f as real
    ensures TimesAll(x, [f] + rest) == TimesAll(product, rest)
    ensures TimesAll(product, []) == product
  {
    var all := [f] + rest;
    assert all[0] == f && all[1..] == rest;
    assert product == x * all[0] as real;
  }

  /** A root of a positive quotient is positive. */
  lemma RootIsPositive(x: real, num: real, den: real)
    requires x >= 0.0 && x * x * den == num && num > 0.0
    ensures x > 0.0
  {
    assert x == 0.0 ==> x * x * den == 0.0;
  }

  // --- both directions ---

  /** Forwards, the exact root is the only reserve with the largest spread, and the computed root is near it. */
  lemma ForwardRootIsOptimal(pool: PumpPool, segment: Segment, x: real, y: real)
    requires segment.Ordered() && ForwardRatio(pool, segment).Some? && y > 0.0
    requires var (numerators, denominators) := ForwardFactors(pool, segment); ExactRoot(x, numerators, denominators)
    ensures segment.InputCapacity() > 0 && x > 0.0
    ensures ForwardSpread(pool, segment, y) <= ForwardSpread(pool, segment, x)
    ensures y != x ==> ForwardSpread(pool, segment, y) < ForwardSpread(pool, segment, x)
    ensures RootInRange(ForwardRatio(pool, segment).value) && RootNear(ForwardRatio(pool, segment).value, x)
  {
    hide Spread, ForwardRatio, ReverseRatio, ForwardFactors, ReverseFactors, ExactRoot, RootNear, RootInRange;
    InteriorRootsAreNear(pool, segment, x);
    var slope, cost := ForwardRates(pool, segment, x);
    RootIsMaximum(slope, pool.baseReserve as real, pool.EffectiveReserve() as real, cost, x, y);
  }

  /** The slopes of the two terms of the forward spread, which the exact root balances. */
  lemma ForwardRates(pool: PumpPool, segment: Segment, x: real) returns (slope: real, cost: real)
    requires segment.Ordered() && ForwardRatio(pool, segment).Some?
    requires var (numerators, denominators) := ForwardFactors(pool, segment); ExactRoot(x, numerators, denominators)
    ensures segment.InputCapacity() > 0 && x > 0.0 && cost > 0.0
    ensures slope == segment.OutputCapacity() as real / segment.InputCapacity() as real
    ensures cost == (FEE_DENOMINATOR + pool.fees.Total()) as real / FEE_DENOMINATOR as real
    ensures cost * (x * x) == slope * (pool.baseReserve as real * pool.EffectiveReserve() as real)
  {
    hide ProductRatio, TimesAll;
    var (numerators, denominators) := ForwardFactors(pool, segment);
    RatioNeedsFactors(numerators, denominators);
    var o, i := segment.OutputCapacity(), segment.InputCapacity();
    var b, r, total := pool.baseReserve, pool.EffectiveReserve(), FEE_DENOMINATOR + pool.fees.Total();
    assert numerators[0] == o && numerators[1] == b && numerators[3] == r && denominators[0] == i;
    slope, cost := o as real / i as real, total as real / FEE_DENOMINATOR as real;
    AllTimes(o, b, FEE_DENOMINATOR, r, i, total);
    ForwardScale(o as real, b as real, FEE_DENOMINATOR as real, r as real, i as real, total as real, x);
  }

  lemma ForwardScale(o: real, b: real, d: real, r: real, i: real, total: real, x: real)
    requires o > 0.0 && b > 0.0 && d > 0.0 && r > 0.0 && i > 0.0 && total > 0.0 && x >= 0.0
    requires x * x * (i * total) == o * b * d * r
    ensures x > 0.0 && total / d > 0.0 && total / d * (x * x) == o / i * (b * r)
  {
    var slope, cost := o / i, total / d;
    assert slope * i == o && cost * d == total;
    PositiveProduct(o, b);
    PositiveProduct(o * b, d);
    PositiveProduct(o * b * d, r);
    RootIsPositive(x, o * b * d * r, i * total);
    PositiveProduct(i, d);
    CancelScale(cost * (x * x), slope * (b * r), i * d) by {
      assert cost * (x * x) * (i * d) == x * x * (i * (cost * d));
      assert slope * (b * r) * (i * d) == (slope * i) * b * d * r;
    }
  }

  lemma CancelScale(a: real, b: real, c: real)
    requires c > 0.0 && a * c == b * c
    ensures a == b
  {
    RealCancel(a, b, c);
    RealCancel(b, a, c);
  }

  /** In reverse, too. */
  lemma ReverseRootIsOptimal(pool: PumpPool, segment: Segment, x: real, y: real)
    requires segment.Ordered() && pool.fees.Total() < FEE_DENOMINATOR && ReverseRatio(pool, segment).Some? && y > 0.0
    requires var (numerators, denominators) := ReverseFactors(pool, segment); ExactRoot(x, numerators, denominators)
    ensures segment.OutputCapacity() > 0 && x > 0.0
    ensures ReverseSpread(pool, segment, y) <= ReverseSpread(pool, segment, x)
    ensures y != x ==> ReverseSpread(pool, segment, y) < ReverseSpread(pool, segment, x)
    ensures RootInRange(ReverseRatio(pool, segment).value) && RootNear(ReverseRatio(pool, segment).value, x)
  {
    hide Spread, ForwardRatio, ReverseRatio, ForwardFactors, ReverseFactors, ExactRoot, RootNear, RootInRange;
    InteriorRootsAreNear(pool, segment, x);
    var share, cost := ReverseRates(pool, segment, x);
    RootIsMaximum(share, pool.EffectiveReserve() as real, pool.baseReserve as real, cost, x, y);
  }

  /** The slopes of the two terms of the reverse spread, which the exact root balances. */
  lemma ReverseRates(pool: PumpPool, segment: Segment, x: real) returns (share: real, cost: real)
    requires segment.Ordered() && pool.fees.Total() < FEE_DENOMINATOR && ReverseRatio(pool, segment).Some?
    requires var (numerators, denominators) := ReverseFactors(pool, segment); ExactRoot(x, numerators, denominators)
    ensures segment.OutputCapacity() > 0 && x > 0.0 && cost > 0.0
    ensures share == (FEE_DENOMINATOR - pool.fees.Total()) as real / FEE_DENOMINATOR as real
    ensures cost == segment.InputCapacity() as real / segment.OutputCapacity() as real
    ensures cost * (x * x) == share * (pool.EffectiveReserve() as real * pool.baseReserve as real)
  {
    hide ProductRatio, TimesAll;
    var (numerators, denominators) := ReverseFactors(pool, segment);
    RatioNeedsFactors(numerators, denominators);
    var o, i := segment.OutputCapacity(), segment.InputCapacity();
    var b, r, kept := pool.EffectiveReserve(), pool.baseReserve, FEE_DENOMINATOR - pool.fees.Total();
    assert numerators[0] == o && numerators[1] == b && numerators[2] == r && denominators[0] == i;
    share, cost := kept as real / FEE_DENOMINATOR as real, i as real / o as real;
    AllTimes(o, b, r, kept, i, FEE_DENOMINATOR);
    ReverseScale(o as real, b as real, r as real, kept as real, i as real, FEE_DENOMINATOR as real, x);
  }

  lemma ReverseScale(o: real, b: real, r: real, kept: real, i: real, d: real, x: real)
    requires o > 0.0 && b > 0.0 && d > 0.0 && r > 0.0 && i > 0.0 && kept > 0.0 && x >= 0.0
    requires x * x * (i * d) == o * b * r * kept
    ensures x > 0.0 && i / o > 0.0 && i / o * (x * x) == kept / d * (b * r)
  {
    var share, cost := kept / d, i / o;
    assert share * d == kept && cost * o == i;
    PositiveProduct(o, b);
    PositiveProduct(o * b, r);
    PositiveProduct(o * b * r, kept);
    RootIsPositive(x, o * b * r * kept, i * d);
    PositiveProduct(o, d);
    CancelScale(cost * (x * x), share * (b * r), o * d) by {
      assert cost * (x * x) * (o * d) == x * x * ((cost * o) * d);
      assert share * (b * r) * (o * d) == o * b * r * (share * d);
    }
  }

  // --- from the root to the candidate ---

  /** Forwards, the candidate is the gross input whose share without fees fills the reserve up to the root, rounded
      down, if
      it lies strictly between the segment's sampled ends; otherwise there is none. */
  lemma ForwardCandidateIff(pool: PumpPool, segment: Segment, start: u64, end: u64, c: u64)
    requires segment.Ordered()
    ensures ForwardRatio(pool, segment).Some? ==>
              RootInRange(ForwardRatio(pool, segment).value) && SqrtFloor(ForwardRatio(pool, segment).value).Some?
    ensures ForwardInterior(pool, segment, start, end, true) == Some(c)
       <==> (ForwardRatio(pool, segment).Some? && start < c < end
             && var grown := SqrtFloor(ForwardRatio(pool, segment).value).value - pool.EffectiveReserve();
                grown > 0 && 10_000 * c <= grown * (10_000 + pool.fees.Total()) < 10_000 * c + 10_000)
  {
    hide ForwardRatio, SqrtFloor, DefinitelyExcludes, ForwardUpperRoot, DivDown;
    ForwardPrefilterIsTransparent(pool, segment, start, end);
    ForwardBounds(pool, start, end);
    if ForwardRatio(pool, segment).Some? {
      ForwardRatioInRange(pool, segment);
      RootExists(ForwardRatio(pool, segment).value);
      var grown := SqrtFloor(ForwardRatio(pool, segment).value).value - pool.EffectiveReserve();
      if grown > 0 {
        ScaledIsFloor(grown, 10_000 + pool.fees.Total(), 10_000, c);
      }
    }
  }

  lemma RootExists(n: Normalized)
    requires RootInRange(n)
    ensures SqrtFloor(n).Some?
  {
    hide SqrtFloor, RootOf, Value, RootUnit;
    SqrtBounds(n);
  }

  lemma ScaledIsFloor(amount: nat, num: nat, den: nat, c: u64)
    requires den > 0
    ensures DivDown(amount * num, den) == c <==> den * c <= amount * num < den * c + den
    ensures amount * num >= 0
    ensures den <= 10_000 && amount * num < den * c + den ==> amount * num <= U128_MAX
  {
    hide DivDown;
    DivDownIff(amount * num, den, c);
    DivDownIff(amount * num, den, c + 1);
    MulBounds(den, c, den, U64_MAX);
    assert den * (c + 1) == den * c + den;
  }

  /** In reverse, the candidate is the segment's input at the share of its output that fills the reserve up to the root,
      rounded down, if that lies strictly inside the output; otherwise there is none. */
  lemma ReverseCandidateIff(pool: PumpPool, segment: Segment, c: u64)
    requires segment.Ordered() && pool.fees.Total() < FEE_DENOMINATOR
    ensures ReverseRatio(pool, segment).Some? ==>
              RootInRange(ReverseRatio(pool, segment).value) && SqrtFloor(ReverseRatio(pool, segment).value).Some?
    ensures ReverseInterior(pool, segment, true) == Some(c)
       <==> (ReverseRatio(pool, segment).Some?
             && var target := SqrtFloor(ReverseRatio(pool, segment).value).value - pool.baseReserve;
                var taken, inputs, outputs := c - segment.inputStart, segment.InputCapacity(), segment.OutputCapacity();
                && segment.outputStart < target < segment.outputEnd && taken >= 0
                && outputs * taken <= (target - segment.outputStart) * inputs < outputs * taken + outputs)
  {
    hide ReverseRatio, SqrtFloor, DefinitelyExcludes, DivDown;
    ReversePrefilterIsTransparent(pool, segment);
    if ReverseRatio(pool, segment).Some? {
      ReverseRatioInRange(pool, segment);
      RootExists(ReverseRatio(pool, segment).value);
      var target := SqrtFloor(ReverseRatio(pool, segment).value).value - pool.baseReserve;
      if segment.outputStart < target < segment.outputEnd {
        ShareIsFloor(target - segment.outputStart, segment.InputCapacity(), segment.OutputCapacity(),
                     c - segment.inputStart);
      }
    }
  }

  lemma ShareIsFloor(delta: nat, inputs: u64, outputs: u64, taken: int)
    requires 0 < delta < outputs
    ensures 0 <= delta * inputs <= U128_MAX && 0 <= DivDown(delta * inputs, outputs) <= inputs
    ensures DivDown(delta * inputs, outputs) == taken
       <==> taken >= 0 && outputs * taken <= delta * inputs < outputs * taken + outputs
  {
    hide DivDown;
    MulBounds(delta, inputs, U64_MAX, U64_MAX);
    MulMono(delta, outputs, inputs);
    DivDownIff(delta * inputs, outputs, taken);
    DivDownIff(delta * inputs, outputs, taken + 1);
    DivDownIff(delta * inputs, outputs, 0);
    DivDownIff(delta * inputs, outputs, inputs + 1);
    assert outputs * (taken + 1) == outputs * taken + outputs && outputs * (inputs + 1) == outputs * inputs + outputs;
  }

  // --- from the candidate to the optimum ---

  /** The quote reserve that a gross input reaches, without roundings. */
  function ReserveAfter(pool: PumpPool, input: u64): real {
    pool.EffectiveReserve() as real
    + input as real * FEE_DENOMINATOR as real / (FEE_DENOMINATOR + pool.fees.Total()) as real
  }

  /** The forward candidate reaches a reserve that exceeds the one of the largest spread by a relative error of at most
      2^-60, and misses it by less than 2^-59, a granule and one lamport. */
  lemma ForwardCandidateIsOptimal(pool: PumpPool, segment: Segment, start: u64, end: u64, x: real)
    requires segment.Ordered() && ForwardInterior(pool, segment, start, end, true).Some?
    requires var (numerators, denominators) := ForwardFactors(pool, segment); ExactRoot(x, numerators, denominators)
    ensures ForwardRatio(pool, segment).Some?
    ensures var y := ReserveAfter(pool, ForwardInterior(pool, segment, start, end, true).value);
            && y <= x * GrownBy(8)
            && x * LeftAfter(16) < y + (RootUnit(ForwardRatio(pool, segment).value) + 1) as real
  {
    hide ForwardRatio, ForwardFactors, ReverseFactors, SqrtFloor, RootUnit, ExactRoot, GrownBy, LeftAfter,
         ForwardInterior;
    var c := ForwardInterior(pool, segment, start, end, true).value;
    ForwardCandidateIff(pool, segment, start, end, c);
    InteriorRootsAreNear(pool, segment, x);
    NearIs(ForwardRatio(pool, segment).value, x);
    var root := SqrtFloor(ForwardRatio(pool, segment).value).value;
    ShareOfInput(c, root - pool.EffectiveReserve(), 10_000, 10_000 + pool.fees.Total());
  }

  lemma NearIs(n: Normalized, x: real)
    requires RootInRange(n) && RootNear(n, x)
    ensures SqrtFloor(n).Some? && SqrtFloor(n).value as real <= x * GrownBy(8)
    ensures x * LeftAfter(16) < (SqrtFloor(n).value + RootUnit(n)) as real
  {
    hide SqrtFloor, RootUnit, GrownBy, LeftAfter;
  }

  lemma ShareOfInput(c: nat, grown: nat, num: nat, den: nat)
    requires 0 < num <= den && num * c <= grown * den < num * c + num
    ensures c as real * num as real / den as real <= grown as real < c as real * num as real / den as real + 1.0
  {
    var q, d := c as real * num as real / den as real, den as real;
    assert q * d == c as real * num as real;
    RealOfProduct(c, num);
    RealOfProduct(grown, den);
    RealCancel(q, grown as real, d);
    assert (q + 1.0) * d == q * d + d;
    CancelStrict(grown as real, q + 1.0, d);
  }

  lemma CancelStrict(a: real, b: real, c: real)
    requires c > 0.0 && a * c < b * c
    ensures a < b
  {
    assert a >= b ==> (a - b) * c >= 0.0;
  }

  /** The base reserve that an input inside a segment reaches, without roundings. */
  function ReserveInside(pool: PumpPool, segment: Segment, input: int): real
    requires segment.Ordered() && segment.InputCapacity() > 0
  {
    (pool.baseReserve + segment.outputStart) as real
    + (input - segment.inputStart) as real * segment.OutputCapacity() as real / segment.InputCapacity() as real
  }

  /** The reverse candidate, too; it misses by less than the segment's output for one more unit of input. */
  lemma ReverseCandidateIsOptimal(pool: PumpPool, segment: Segment, x: real)
    requires segment.Ordered() && ReverseInterior(pool, segment, true).Some?
    requires pool.fees.Total() < FEE_DENOMINATOR
    requires var (numerators, denominators) := ReverseFactors(pool, segment); ExactRoot(x, numerators, denominators)
    ensures ReverseRatio(pool, segment).Some? && segment.InputCapacity() > 0
    ensures var c := ReverseInterior(pool, segment, true).value;
            && ReserveInside(pool, segment, c) <= x * GrownBy(8)
            && x * LeftAfter(16) < ReserveInside(pool, segment, c + 1)
               + RootUnit(ReverseRatio(pool, segment).value) as real
  {
    hide ForwardRatio, ReverseRatio, ForwardFactors, ReverseFactors, SqrtFloor, RootUnit, ExactRoot, GrownBy, LeftAfter,
         ReverseInterior;
    var c := ReverseInterior(pool, segment, true).value;
    ReverseCandidateIff(pool, segment, c);
    InteriorRootsAreNear(pool, segment, x);
    ReverseInputIsPositive(pool, segment);
    NearIs(ReverseRatio(pool, segment).value, x);
    var root := SqrtFloor(ReverseRatio(pool, segment).value).value;
    ShareOfOutput(c - segment.inputStart, root - pool.baseReserve - segment.outputStart, segment.OutputCapacity(),
                  segment.InputCapacity());
  }

  lemma ReverseInputIsPositive(pool: PumpPool, segment: Segment)
    requires segment.Ordered() && pool.fees.Total() < FEE_DENOMINATOR && ReverseRatio(pool, segment).Some?
    ensures segment.InputCapacity() > 0
  {
    hide ProductRatio;
    var (numerators, denominators) := ReverseFactors(pool, segment);
    RatioNeedsFactors(numerators, denominators);
    assert denominators[0] == segment.InputCapacity();
  }

  lemma ShareOfOutput(taken: nat, delta: nat, outputs: nat, inputs: nat)
    requires inputs > 0 && outputs * taken <= delta * inputs < outputs * taken + outputs
    ensures taken as real * outputs as real / inputs as real <= delta as real
            < (taken + 1) as real * outputs as real / inputs as real
  {
    var q, r, d := taken as real * outputs as real / inputs as real,
        (taken + 1) as real * outputs as real / inputs as real, inputs as real;
    assert q * d == taken as real * outputs as real && r * d == (taken + 1) as real * outputs as real;
    RealOfProduct(taken, outputs);
    RealOfProduct(taken + 1, outputs);
    RealOfProduct(delta, inputs);
    assert (taken + 1) * outputs == outputs * taken + outputs;
    RealCancel(q, delta as real, d);
    CancelStrict(delta as real, r, d);
  }
}
