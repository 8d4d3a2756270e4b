/** What normalized numbers represent, and how far each operation is from the exact value. */
module NormalizedAccuracy {
  import opened Arithmetic
  import opened Powers
  import opened NormalizedNumbers

  /** Two to any integer power. */
  function Scale(e: int): (s: real)
    ensures s > 0.0
    decreases if e < 0 then -e else e
  {
    if e == 0 then 1.0 else if e > 0 then 2.0 * Scale(e - 1) else Scale(e + 1) / 2.0
  }

  /** The rational that a normalized number stands for. */
  function Value(n: Normalized): real {
    n.mantissa as real * Scale(n.exponent - 63)
  }

  /** The value with a few more units in the last place. */
  function ValuePlus(n: Normalized, ulps: nat): real {
    (n.mantissa + ulps) as real * Scale(n.exponent - 63)
  }

  lemma RealMulMono(a: real, b: real, c: real)
    requires a <= b && 0.0 <= c
    ensures a * c <= b * c
  {
    assert (b - a) * c >= 0.0;
  }

  lemma RealMulStrict(a: real, b: real, c: real)
    requires a < b && 0.0 < c
    ensures a * c < b * c
  {
    assert (b - a) * c > 0.0;
  }

  lemma ScaleStep(e: int)
    ensures Scale(e + 1) == 2.0 * Scale(e)
  {
  }

  lemma {:induction false} ScaleAdd(a: int, b: int)
    ensures Scale(a + b) == Scale(a) * Scale(b)
    decreases if a < 0 then -a else a
  {
    hide Scale;
    ScaleZero();
    if a > 0 {
      ScaleAdd(a - 1, b);
      ScaleStep(a - 1);
      ScaleStep(a + b - 1);
      Regroup(2.0, Scale(a - 1), Scale(b));
    } else if a < 0 {
      ScaleAdd(a + 1, b);
      ScaleStep(a);
      ScaleStep(a + b);
      Regroup(2.0, Scale(a), Scale(b));
    }
  }

  lemma {:induction false} ScaleIsPow2(n: nat)
    ensures Scale(n) == Pow2(n) as real
  {
    if n > 0 {
      ScaleIsPow2(n - 1);
      ScaleStep(n - 1);
    }
  }

  /** Shifting the scale up by n multiplies by 2^n. */
  lemma ScaleShift(e: int, n: nat)
    ensures Scale(e + n) == Pow2(n) as real * Scale(e)
  {
    ScaleIsPow2(n);
    ScaleAdd(n, e);
  }

  lemma {:induction false} ScaleMono(a: int, b: int)
    requires a <= b
    ensures Scale(a) <= Scale(b)
    decreases b - a
  {
    if a < b {
      ScaleMono(a, b - 1);
      ScaleStep(b - 1);
    }
  }

  // --- order ---

  lemma ValueInBinade(n: Normalized)
    requires n.Normal()
    ensures Scale(n.exponent) <= Value(n) < Scale(n.exponent + 1)
  {
    hide Scale, Pow2;
    var s := Scale(n.exponent - 63);
    Pow2Values();
    ScaleShift(n.exponent - 63, 63);
    ScaleShift(n.exponent - 63, 64);
    assert n.exponent - 63 + 63 == n.exponent && n.exponent - 63 + 64 == n.exponent + 1;
    RealMulMono(TWO_63 as real, n.mantissa as real, s);
    RealMulStrict(n.mantissa as real, TWO_64 as real, s);
  }

  /** Comparison agrees with the order of the represented values. */
  lemma CompareIsOrder(a: Normalized, b: Normalized)
    requires a.Normal() && b.Normal()
    ensures Compare(a, b) == Less <==> Value(a) < Value(b)
    ensures Compare(a, b) == Equal <==> Value(a) == Value(b)
    ensures Compare(a, b) == Greater <==> Value(a) > Value(b)
  {
    hide Scale;
    if a.exponent < b.exponent {
      ValuesApart(a, b);
    } else if b.exponent < a.exponent {
      ValuesApart(b, a);
    } else if a.mantissa < b.mantissa {
      RealMulStrict(a.mantissa as real, b.mantissa as real, Scale(a.exponent - 63));
    } else if b.mantissa < a.mantissa {
      RealMulStrict(b.mantissa as real, a.mantissa as real, Scale(a.exponent - 63));
    }
  }

  lemma ValuesApart(a: Normalized, b: Normalized)
    requires a.Normal() && b.Normal() && a.exponent < b.exponent
    ensures Value(a) < Value(b)
  {
    hide Scale;
    ValueInBinade(a);
    ValueInBinade(b);
    ScaleMono(a.exponent + 1, b.exponent);
  }

  // --- truncation of each operation ---

  /** Conversion keeps up to 64 bits exactly and truncates the rest to one unit. */
  lemma FromU128Truncates(v: u128)
    requires v > 0
    ensures var n := FromU128(v).value;
            && Value(n) <= v as real < ValuePlus(n, 1)
            && (v <= U64_MAX ==> Value(n) == v as real)
  {
    hide Scale, Pow2, DivDown, FromU128, Value, ValuePlus, BitLength;
    var n, bits := FromU128(v).value, BitLength(v);
    ConversionShape(v);
    ValueIs(n, Scale(n.exponent - 63));
    if bits <= 64 {
      ShortValue(v, n.mantissa, bits);
    } else {
      LongValue(v, n.mantissa, bits);
      if v <= U64_MAX {
        Pow2Values();
        BitLengthWithin(v, 64);
      }
    }
  }

  lemma ConversionShape(v: u128)
    requires v > 0
    ensures var n, bits := FromU128(v).value, BitLength(v);
            && n.exponent == bits - 1
            && n.mantissa == if bits <= 64 then v * Pow2(64 - bits) else DivDown(v, Pow2(bits - 64))
  {
    hide Pow2, DivDown, BitLength;
  }

  lemma ShortValue(v: nat, m: nat, bits: nat)
    requires bits <= 64 && m == v * Pow2(64 - bits)
    ensures v as real == m as real * Scale(bits - 64) < (m + 1) as real * Scale(bits - 64)
  {
    hide Scale, Pow2;
    var p := Pow2(64 - bits);
    ScaleShift(bits - 64, 64 - bits);
    ScaleZero();
    assert m as real == v as real * p as real;
    Regroup(v as real, p as real, Scale(bits - 64));
    RealMulStrict(m as real, (m + 1) as real, Scale(bits - 64));
  }

  lemma LongValue(v: nat, m: nat, bits: nat)
    requires 64 < bits && m == DivDown(v, Pow2(bits - 64))
    ensures m as real * Scale(bits - 64) <= v as real < (m + 1) as real * Scale(bits - 64)
  {
    hide Scale, Pow2, DivDown;
    var p := Pow2(bits - 64);
    ScaleIsPow2(bits - 64);
    DivDownBounds(v, p);
    assert p * m + p == (m + 1) * p;
    ScaledBracket(m, v, p, 1.0, 1);
  }

  lemma ScaleZero()
    ensures Scale(0) == 1.0
  {
  }

  /** A product is truncated to one unit. */
  lemma MultiplyTruncates(a: Normalized, b: Normalized)
    requires a.Normal() && b.Normal() && Multiply(a, b).Some?
    ensures var n := Multiply(a, b).value;
            Value(n) <= Value(a) * Value(b) < ValuePlus(n, 1)
  {
    hide Scale, Pow2, Multiply, Value;
    var n := Multiply(a, b).value;
    var product := a.mantissa * b.mantissa;
    var s := Scale(a.exponent + b.exponent - 126);
    ProductValue(a, b, product);
    var unit := ProductShape(a, b, product);
    ScaledBracket(n.mantissa, product, unit, s, 1);
    ValueIs(n, unit as real * s);
  }

  lemma ValueIs(n: Normalized, s: real)
    requires s == Scale(n.exponent - 63)
    ensures Value(n) == n.mantissa as real * s && ValuePlus(n, 1) == (n.mantissa + 1) as real * s
    ensures ValuePlus(n, 2) == (n.mantissa + 2) as real * s && s > 0.0
  {
  }

  lemma ProductShape(a: Normalized, b: Normalized, product: nat) returns (unit: nat)
    requires a.Normal() && b.Normal() && Multiply(a, b).Some? && product == a.mantissa * b.mantissa
    ensures var n := Multiply(a, b).value;
            && n.mantissa * unit <= product < (n.mantissa + 1) * unit
            && Scale(n.exponent - 63) == unit as real * Scale(a.exponent + b.exponent - 126)
  {
    hide Scale, Pow2;
    Pow2Values();
    ScaleShift(a.exponent + b.exponent - 126, 63);
    ScaleShift(a.exponent + b.exponent - 126, 64);
    unit := if product / TWO_63 >= TWO_64 then TWO_64 else TWO_63;
    ProductMantissa(product, Multiply(a, b).value.mantissa, unit);
  }

  lemma ProductValue(a: Normalized, b: Normalized, product: nat)
    requires product == a.mantissa * b.mantissa
    ensures Value(a) * Value(b) == product as real * Scale(a.exponent + b.exponent - 126)
  {
    hide Scale;
    ScaleAdd(a.exponent - 63, b.exponent - 63);
    assert product as real == a.mantissa as real * b.mantissa as real;
    RealProducts(a.mantissa as real, Scale(a.exponent - 63), b.mantissa as real, Scale(b.exponent - 63));
  }

  lemma ProductMantissa(product: nat, m: nat, unit: nat)
    requires if product / TWO_63 >= TWO_64 then unit == TWO_64 && m == product / TWO_63 / 2
             else unit == TWO_63 && m == product / TWO_63
    ensures m * unit <= product < (m + 1) * unit
  {
  }

  lemma RealProducts(a: real, s: real, b: real, t: real)
    ensures (a * s) * (b * t) == (a * b) * (s * t)
  {
  }

  /** A bracket between whole multiples of a unit carries over to any positive scale. */
  lemma ScaledBracket(m: nat, x: nat, unit: nat, s: real, ulps: nat)
    requires m * unit <= x < (m + ulps) * unit && s > 0.0
    ensures m as real * (unit as real * s) <= x as real * s < (m + ulps) as real * (unit as real * s)
  {
    RealMulMono((m * unit) as real, x as real, s);
    RealMulStrict(x as real, ((m + ulps) * unit) as real, s);
    assert (m * unit) as real == m as real * unit as real;
    assert ((m + ulps) * unit) as real == (m + ulps) as real * unit as real;
    Regroup(m as real, unit as real, s);
    Regroup((m + ulps) as real, unit as real, s);
  }

  lemma Regroup(a: real, b: real, c: real)
    ensures (a * b) * c == a * (b * c)
  {
  }

  /** A quotient is truncated to two units, stated without dividing. */
  lemma DivideTruncates(a: Normalized, b: Normalized)
    requires a.Normal() && b.Normal() && Divide(a, b).Some?
    ensures var n := Divide(a, b).value;
            Value(n) * Value(b) <= Value(a) < ValuePlus(n, 2) * Value(b)
  {
    hide Scale, Pow2, DivDown, Divide, Value, ValuePlus;
    var n := Divide(a, b).value;
    var q := DivDown(a.mantissa * TWO_63, b.mantissa);
    var s, t := Scale(a.exponent - 126), Scale(a.exponent - b.exponent - 63);
    ScaleStep(a.exponent - b.exponent - 64);
    ScaleAdd(a.exponent - b.exponent - 63, b.exponent - 63);
    QuotientShape(a, b, q, n, t);
    QuotientBracket(a, b, q, s);
    QuotientValue(q as real, t, b.mantissa as real, Scale(b.exponent - 63), s);
    QuotientValue((q + 1) as real, t, b.mantissa as real, Scale(b.exponent - 63), s);
    ValueIs(b, Scale(b.exponent - 63));
    RealMulMono((q + 1) as real * t, ValuePlus(n, 2), Value(b));
  }

  /** The integer quotient brackets the dividend's value in units of the divisor's mantissa. */
  lemma QuotientBracket(a: Normalized, b: Normalized, q: nat, s: real)
    requires a.Normal() && b.Normal() && q == DivDown(a.mantissa * TWO_63, b.mantissa) && s == Scale(a.exponent - 126)
    ensures q as real * (b.mantissa as real * s) <= Value(a) < (q + 1) as real * (b.mantissa as real * s)
  {
    hide Scale, Pow2, DivDown;
    DivDownBounds(a.mantissa * TWO_63, b.mantissa);
    assert b.mantissa * q + b.mantissa == (q + 1) * b.mantissa;
    ScaledBracket(q, a.mantissa * TWO_63, b.mantissa, s, 1);
    Pow2Values();
    ScaleShift(a.exponent - 126, 63);
    Regroup(a.mantissa as real, TWO_63 as real, s);
  }

  lemma QuotientValue(q: real, t: real, m: real, u: real, s: real)
    requires s == t * u
    ensures (q * t) * (m * u) == q * (m * s)
  {
    RealProducts(q, t, m, u);
    Regroup(q, m, s);
  }

  lemma QuotientShape(a: Normalized, b: Normalized, q: nat, n: Normalized, t: real)
    requires a.Normal() && b.Normal() && Divide(a, b) == Some(n) && q == DivDown(a.mantissa * TWO_63, b.mantissa)
    requires t == Scale(a.exponent - b.exponent - 63) == 2.0 * Scale(a.exponent - b.exponent - 64) > 0.0
    ensures Value(n) == q as real * t && (q + 1) as real * t <= ValuePlus(n, 2)
    ensures Value(b) >= 0.0
  {
    hide Scale, DivDown;
  }

  // --- accumulated relative error ---

  /** One unit in the last place of the smallest mantissa: 2^-63. */
  const ULP: real := 1.0 / TWO_63 as real

  /** What some units of relative error leave of a value. */
  function LeftAfter(units: nat): real {
    1.0 - units as real * ULP
  }

  /** What some units of relative error make of a value at most. */
  function GrownBy(units: nat): real {
    1.0 + units as real * ULP
  }

  /** v * den is the exact numerator within so many units of relative error below and above. */
  predicate Within(v: real, num: real, den: real, below: nat, above: nat) {
    && num > 0.0 && den > 0.0
    && num * LeftAfter(below) <= v * den <= num * GrownBy(above)
  }

  /** Truncation by some units costs at most as many units of relative error. */
  lemma TruncationError(n: Normalized, x: real, ulps: nat)
    requires n.Normal() && Value(n) <= x < ValuePlus(n, ulps) && ulps <= 2
    ensures x * LeftAfter(ulps) <= Value(n)
    ensures Value(n) > 0.0
  {
    hide Scale;
    var s, u := Scale(n.exponent - 63), ulps as real * ULP;
    RealMulMono(TWO_63 as real, n.mantissa as real, s);
    assert ValuePlus(n, ulps) == Value(n) + ulps as real * s;
    assert TWO_63 as real * s * u == ulps as real * s;
    assert x <= Value(n) + Value(n) * u by {
      RealMulMono(TWO_63 as real * s, Value(n), u);
    }
    RealMulMono(x, Value(n) + Value(n) * u, 1.0 - u);
    Difference(Value(n), u);
  }

  lemma Difference(v: real, u: real)
    requires v >= 0.0
    ensures (v + v * u) * (1.0 - u) <= v
  {
    assert (v + v * u) * (1.0 - u) == v - v * (u * u);
    assert u * u >= 0.0;
    RealMulMono(0.0, u * u, v);
  }

  /** Small relative errors at most add up. */
  lemma ErrorsAdd(p: nat, q: nat)
    requires p <= 1000 && q <= 1000
    ensures 0.0 <= 1.0 - (p + q) as real * ULP <= (1.0 - p as real * ULP) * (1.0 - q as real * ULP)
    ensures 0.0 <= 1.0 - p as real * ULP <= 1.0
  {
    var a, b := p as real * ULP, q as real * ULP;
    assert (1.0 - a) * (1.0 - b) == 1.0 - a - b + a * b;
    assert (p + q) as real * ULP == a + b;
    RealMulMono(0.0, a, b);
  }

  lemma WithinWithoutExcess(v: real, num: real, den: real, below: nat)
    ensures Within(v, num, den, below, 0) <==> num > 0.0 && den > 0.0 && num * LeftAfter(below) <= v * den <= num
  {
    assert GrownBy(0) == 1.0;
  }

  lemma MultiplyStep(v: Normalized, num: real, den: real, below: nat, f: u128)
    requires v.Normal() && f > 0 && below <= 900 && Within(Value(v), num, den, below, 0)
    requires Multiply(v, FromU128(f).value).Some?
    ensures Within(Value(Multiply(v, FromU128(f).value).value), num * f as real, den, below + 2, 0)
  {
    hide Multiply, FromU128, Value, ValuePlus, Within, LeftAfter;
    var factor := FromU128(f).value;
    var n := Multiply(v, factor).value;
    WithinWithoutExcess(Value(v), num, den, below);
    WithinWithoutExcess(Value(n), num * f as real, den, below + 2);
    PositiveProduct(num, f as real);
    var e1, e2, e3, e4 := LeftAfter(below), LeftAfter(1), LeftAfter(below + 1), LeftAfter(below + 2);
    LeftAfterAdds(below, 1);
    LeftAfterAdds(below + 1, 1);
    FactorError(f);
    ValuePositive(v);
    var p := Value(v) * Value(factor);
    ProductError(Value(v), den, num, e1, Value(factor), f as real, e2, e3);
    assert p * e2 <= Value(n) <= p by {
      MultiplyTruncates(v, factor);
      TruncationError(n, p, 1);
    }
    ScaledError(p, den, num * f as real, e3, Value(n), e2, e4);
  }

  lemma LeftAfterAdds(p: nat, q: nat)
    requires p <= 1000 && q <= 1000
    ensures 0.0 <= LeftAfter(p + q) <= LeftAfter(p) * LeftAfter(q) && 0.0 <= LeftAfter(p) && 0.0 <= LeftAfter(q)
  {
    ErrorsAdd(p, q);
    ErrorsAdd(q, p);
  }

  lemma ValuePositive(v: Normalized)
    requires v.Normal()
    ensures Value(v) > 0.0
  {
    hide Scale;
    PositiveProduct(v.mantissa as real, Scale(v.exponent - 63));
  }

  lemma FactorError(f: u128)
    requires f > 0
    ensures f as real * LeftAfter(1) <= Value(FromU128(f).value) <= f as real
    ensures Value(FromU128(f).value) > 0.0
  {
    hide FromU128, Value, ValuePlus, ULP;
    FromU128Truncates(f);
    TruncationError(FromU128(f).value, f as real, 1);
  }

  lemma PositiveProduct(a: real, b: real)
    requires a > 0.0 && b > 0.0
    ensures a * b > 0.0
  {
  }

  /** Two factors with relative errors, over a common denominator. */
  lemma ProductError(v: real, den: real, num: real, e1: real, w: real, f: real, e2: real, e: real)
    requires num > 0.0 && den > 0.0 && f > 0.0 && v >= 0.0 && w >= 0.0 && e1 >= 0.0 && e2 >= 0.0
    requires num * e1 <= v * den <= num && f * e2 <= w <= f && e <= e1 * e2
    ensures (num * f) * e <= (v * w) * den <= num * f
  {
    assert (v * w) * den == (v * den) * w;
    RealMulMono(v * den, num, w);
    RealMulMono(w, f, num);
    RealMulMono(num * e1, v * den, w);
    RealMulMono(f * e2, w, num * e1);
    assert (num * e1) * (f * e2) == (num * f) * (e1 * e2);
    RealMulMono(e, e1 * e2, num * f);
  }

  /** A truncated value inherits the error of what it truncates. */
  lemma ScaledError(p: real, den: real, num: real, e1: real, n: real, e2: real, e: real)
    requires num > 0.0 && den > 0.0 && e1 >= 0.0 && e2 >= 0.0
    requires num * e1 <= p * den <= num && p * e2 <= n <= p && e <= e1 * e2
    ensures num * e <= n * den <= num
  {
    RealMulMono(n, p, den);
    RealMulMono(p * e2, n, den);
    assert (p * e2) * den == (p * den) * e2;
    RealMulMono(num * e1, p * den, e2);
    assert (num * e1) * e2 == num * (e1 * e2);
    RealMulMono(e, e1 * e2, num);
  }

  lemma DivideStep(v: Normalized, num: real, den: real, below: nat, above: nat, d: u128)
    requires v.Normal() && d > 0 && below <= 900 && above <= 900 && Within(Value(v), num, den, below, above)
    requires Divide(v, FromU128(d).value).Some?
    ensures Within(Value(Divide(v, FromU128(d).value).value), num, den * d as real, below + 2, above + 2)
  {
    hide Divide, FromU128, Value, ValuePlus, LeftAfter, GrownBy, Scale, Pow2;
    var divisor := FromU128(d).value;
    var n := Divide(v, divisor).value;
    FactorError(d);
    DivideTruncates(v, divisor);
    QuotientError(n, Value(divisor), Value(v));
    PositiveProduct(den, d as real);
    LowerError(Value(v), num, den, below, Value(n), Value(divisor), d as real);
    UpperError(Value(v), num, den, above, Value(n), Value(divisor), d as real);
  }

  lemma LowerError(v: real, num: real, den: real, below: nat, n: real, divisor: real, d: real)
    requires below <= 900 && num > 0.0 && den > 0.0 && n >= 0.0 && divisor <= d
    requires num * LeftAfter(below) <= v * den && v * LeftAfter(2) <= n * divisor
    ensures num * LeftAfter(below + 2) <= n * (den * d)
  {
    hide LeftAfter;
    LeftAfterAdds(below, 2);
    LowerQuotient(v, num, den, LeftAfter(below), n, divisor, d, LeftAfter(2), LeftAfter(below + 2));
  }

  lemma UpperError(v: real, num: real, den: real, above: nat, n: real, divisor: real, d: real)
    requires above <= 900 && num > 0.0 && den > 0.0 && n >= 0.0 && d * LeftAfter(1) <= divisor
    requires v * den <= num * GrownBy(above) && n * divisor <= v
    ensures n * (den * d) <= num * GrownBy(above + 2)
  {
    hide LeftAfter, GrownBy;
    RoundingUp(above);
    UpperQuotient(v, num, den, GrownBy(above), n, divisor, d, LeftAfter(1), GrownBy(above + 2));
  }

  /** The truncation of a quotient, stated without dividing. */
  lemma QuotientError(n: Normalized, divisor: real, dividend: real)
    requires n.Normal() && divisor > 0.0 && Value(n) * divisor <= dividend < ValuePlus(n, 2) * divisor
    ensures dividend * LeftAfter(2) <= Value(n) * divisor
    ensures Value(n) > 0.0
  {
    hide Scale;
    var s, u := Scale(n.exponent - 63), 2.0 * ULP;
    RealMulMono(TWO_63 as real, n.mantissa as real, s);
    assert ValuePlus(n, 2) == Value(n) + 2.0 * s;
    assert TWO_63 as real * s * u == 2.0 * s;
    assert ValuePlus(n, 2) <= Value(n) + Value(n) * u by {
      RealMulMono(TWO_63 as real * s, Value(n), u);
    }
    var w := Value(n) * divisor;
    RealMulMono(ValuePlus(n, 2), Value(n) + Value(n) * u, divisor);
    assert (Value(n) + Value(n) * u) * divisor == w + w * u;
    assert TWO_63 as real * s > 0.0;
    RealMulMono(0.0, Value(n), divisor);
    RealMulMono(dividend, w + w * u, 1.0 - u);
    Difference(w, u);
  }

  lemma LowerQuotient(v: real, num: real, den: real, e1: real, n: real, divisor: real, d: real, e2: real, e: real)
    requires num > 0.0 && den > 0.0 && n >= 0.0 && e1 >= 0.0 && e2 >= 0.0 && divisor <= d
    requires num * e1 <= v * den && v * e2 <= n * divisor && e <= e1 * e2
    ensures num * e <= n * (den * d)
  {
    RealMulMono(divisor, d, n);
    RealMulMono(v * e2, n * d, den);
    assert (n * d) * den == n * (den * d);
    assert (v * e2) * den == (v * den) * e2;
    RealMulMono(num * e1, v * den, e2);
    assert (num * e1) * e2 == num * (e1 * e2);
    RealMulMono(e, e1 * e2, num);
  }

  lemma RoundingUp(above: nat)
    requires above <= 900
    ensures GrownBy(above) <= GrownBy(above + 2) * LeftAfter(1)
    ensures LeftAfter(1) > 0.0
  {
    var h, u := above as real * ULP, ULP;
    assert (above + 2) as real * ULP == h + 2.0 * u;
    assert (1.0 + (h + 2.0 * u)) * (1.0 - u) == 1.0 + h + u - (h + 2.0 * u) * u;
    RealMulMono(h + 2.0 * u, 1.0, u);
  }

  lemma UpperQuotient(v: real, num: real, den: real, e1: real, n: real, divisor: real, d: real, e2: real, e: real)
    requires num > 0.0 && den > 0.0 && n >= 0.0 && e2 > 0.0 && d * e2 <= divisor
    requires v * den <= num * e1 && n * divisor <= v && e1 <= e * e2
    ensures n * (den * d) <= num * e
  {
    RealMulMono(d * e2, divisor, n);
    RealMulMono(n * (d * e2), v, den);
    assert (n * (d * e2)) * den == (n * (den * d)) * e2;
    RealMulMono(e1, e * e2, num);
    assert num * (e * e2) == (num * e) * e2;
    RealCancel(n * (den * d), num * e, e2);
  }

  lemma RealCancel(a: real, b: real, c: real)
    requires c > 0.0 && a * c <= b * c
    ensures a <= b
  {
    assert a > b ==> (a - b) * c > 0.0;
  }

  /** An exact number multiplied by every factor. */
  function TimesAll(x: real, factors: seq<u128>): real
    decreases |factors|
  {
    if |factors| == 0 then x else TimesAll(x * factors[0] as real, factors[1..])
  }

  lemma {:induction false} MultiplyAllWithin(v: Normalized, num: real, den: real, below: nat, factors: seq<u128>)
    requires v.Normal() && below + 2 * |factors| <= 900 && Within(Value(v), num, den, below, 0)
    requires MultiplyAll(v, factors).Some?
    ensures Within(Value(MultiplyAll(v, factors).value), TimesAll(num, factors), den, below + 2 * |factors|, 0)
    decreases |factors|
  {
    hide Multiply, FromU128, Value, Within;
    if |factors| > 0 {
      var f := factors[0];
      MultiplyStep(v, num, den, below, f);
      var next := Multiply(v, FromU128(f).value).value;
      MultiplyAllWithin(next, num * f as real, den, below + 2, factors[1..]);
      assert below + 2 + 2 * |factors[1..]| == below + 2 * |factors|;
      assert MultiplyAll(v, factors) == MultiplyAll(next, factors[1..]);
      assert TimesAll(num, factors) == TimesAll(num * f as real, factors[1..]);
    }
  }

  lemma {:induction false} DivideAllWithin(v: Normalized, num: real, den: real, below: nat, above: nat,
                                           divisors: seq<u128>)
    requires v.Normal() && below + 2 * |divisors| <= 900 && above + 2 * |divisors| <= 900
               && Within(Value(v), num, den, below, above)
    requires DivideAll(v, divisors).Some?
    ensures Within(Value(DivideAll(v, divisors).value), num, TimesAll(den, divisors), below + 2 * |divisors|,
                   above + 2 * |divisors|)
    decreases |divisors|
  {
    hide Divide, FromU128, Value, Within;
    if |divisors| > 0 {
      var d := divisors[0];
      DivideStep(v, num, den, below, above, d);
      var next := Divide(v, FromU128(d).value).value;
      DivideAllWithin(next, num, den * d as real, below + 2, above + 2, divisors[1..]);
      assert DivideAll(v, divisors) == DivideAll(next, divisors[1..]);
      assert TimesAll(den, divisors) == TimesAll(den * d as real, divisors[1..]);
      assert below + 2 + 2 * |divisors[1..]| == below + 2 * |divisors|;
      assert above + 2 + 2 * |divisors[1..]| == above + 2 * |divisors|;
    }
  }

  /** A ratio of up to four numerators and two denominators is within sixteen units, a relative error of 2^-59. */
  lemma RatioAccurate(numerators: seq<u128>, denominators: seq<u128>)
    requires |numerators| <= 4 && |denominators| <= 2 && ProductRatio(numerators, denominators).Some?
    ensures Within(Value(ProductRatio(numerators, denominators).value), TimesAll(1.0, numerators),
                   TimesAll(1.0, denominators), 16, 16)
    ensures 16.0 * ULP == Scale(-59)
  {
    hide Multiply, Divide, FromU128, Value, Scale, Within, TimesAll;
    var one := FromU128(1).value;
    FromU128Truncates(1);
    OneIsExact(Value(one));
    MultiplyAllWithin(one, 1.0, 1.0, 0, numerators);
    var product := MultiplyAll(one, numerators).value;
    var num, den := TimesAll(1.0, numerators), TimesAll(1.0, denominators);
    DivideAllWithin(product, num, 1.0, 2 * |numerators|, 0, denominators);
    Weaken(Value(ProductRatio(numerators, denominators).value), num, den, 2 * |numerators| + 2 * |denominators|,
           2 * |denominators|);
    SixteenUlps();
  }

  lemma OneIsExact(v: real)
    requires v == 1.0
    ensures Within(v, 1.0, 1.0, 0, 0)
  {
  }

  lemma Weaken(v: real, num: real, den: real, below: nat, above: nat)
    requires Within(v, num, den, below, above) && below <= 16 && above <= 16
    ensures Within(v, num, den, 16, 16)
  {
    RealMulMono(below as real, 16.0, ULP);
    RealMulMono(above as real, 16.0, ULP);
    RealMulMono(LeftAfter(16), LeftAfter(below), num);
    RealMulMono(GrownBy(above), GrownBy(16), num);
  }

  lemma SixteenUlps()
    ensures 16.0 * ULP == Scale(-59)
  {
    hide Scale, Pow2;
    ScaleShift(-59, 59);
    ScaleZero();
    Pow2Values();
    Pow2Add(59, 4);
    assert Pow2(4) == 16 by {
      assert Pow2(1) == 2 && Pow2(2) == 4 by {
        FirstPowers();
      }
      Pow2Add(2, 2);
    }
  }

  lemma FirstPowers()
    ensures Pow2(0) == 1 && Pow2(1) == 2 && Pow2(2) == 4
  {
  }

  // --- the square root ---

  /** The power of two that the final left shift leaves as a granularity; one for values below 2^128. */
  function RootUnit(n: Normalized): nat {
    if n.exponent <= 127 then 1 else Pow2((n.exponent - n.exponent % 2) / 2 - 63)
  }

  /** The 128-bit number whose integer root is taken, and the shift that scales the root back. */
  lemma RootParts(n: Normalized) returns (w: nat, shift: int)
    requires n.Normal() && -128 <= n.exponent <= 255
    ensures TWO_63 * TWO_63 <= w < TWO_64 * TWO_64 && Value(n) == w as real * Scale(shift + shift)
    ensures -128 < shift <= 64 && (shift >= 1 <==> n.exponent >= 128) && (shift >= 0 ==> RootUnit(n) == Pow2(shift))
    ensures SqrtFloor(n) == if shift >= 0 then Some(FloorRoot(w) * Pow2(shift) % TWO_128)
              else Some(DivDown(FloorRoot(w), Pow2(-shift)))
  {
    hide Scale, DivDown, FloorRoot;
    var odd := n.exponent % 2;
    var m := if odd == 1 then n.mantissa * 2 else n.mantissa;
    w, shift := m * TWO_63, (n.exponent - odd) / 2 - 63;
    Pow2Values();
    assert shift + shift + 63 == n.exponent - odd - 63;
    ScaleShift(shift + shift, 63);
    ScaleStep(n.exponent - 64);
    assert w as real == m as real * TWO_63 as real;
    Regroup(m as real, TWO_63 as real, Scale(shift + shift));
    ScaledRootFits(m);
    FirstPowers();
  }

  /** A root brackets a value to one granule. */
  predicate RootOf(root: nat, unit: nat, v: real) {
    (root * root) as real <= v < ((root + unit) * (root + unit)) as real
  }

  /** The root squares to at most the value, and is less than one granule below the exact root: below 2^128 it is the
      exact floor root. */
  lemma SqrtBounds(n: Normalized)
    requires n.Normal() && -128 <= n.exponent <= 255
    ensures SqrtFloor(n).Some? && RootOf(SqrtFloor(n).value, RootUnit(n), Value(n))
    ensures n.exponent <= 127 ==> RootUnit(n) == 1
    ensures n.exponent >= 128 ==> TWO_63 * RootUnit(n) <= SqrtFloor(n).value
  {
    hide Scale, DivDown, FloorRoot, Value, SqrtFloor, RootUnit, Pow2, RootOf;
    var w, shift := RootParts(n);
    if shift >= 0 {
      RootShiftedLeft(w, shift);
    } else {
      RootShiftedRight(w, shift);
    }
    SmallUnit(n);
  }

  lemma SmallUnit(n: Normalized)
    ensures n.exponent <= 127 ==> RootUnit(n) == 1
  {
  }

  lemma RootRange(w: nat)
    requires TWO_63 * TWO_63 <= w < TWO_64 * TWO_64
    ensures TWO_63 <= FloorRoot(w) < TWO_64
  {
    var r := FloorRoot(w);
    SquareMono(TWO_63, r);
    SquareMono(r + 1, TWO_63);
    SquareMono(TWO_64, r);
  }

  lemma RootShiftedLeft(w: nat, shift: nat)
    requires TWO_63 * TWO_63 <= w < TWO_64 * TWO_64 && shift <= 64
    ensures FloorRoot(w) * Pow2(shift) % TWO_128 == FloorRoot(w) * Pow2(shift) >= TWO_63 * Pow2(shift)
    ensures RootOf(FloorRoot(w) * Pow2(shift), Pow2(shift), w as real * Scale(shift + shift))
  {
    hide Scale, Pow2, FloorRoot, IsFloorRoot, RootOf;
    var r, p := FloorRoot(w), Pow2(shift);
    RootRange(w);
    ShiftedFits(r, shift);
    MulMono(TWO_63, r, p);
    GrownValue(w, shift);
    SquaresGrow(w, r, p);
    RootOfWhole(r * p, p, w * (p * p));
  }

  lemma GrownValue(w: nat, shift: nat)
    ensures w as real * Scale(shift + shift) == (w * (Pow2(shift) * Pow2(shift))) as real
  {
    hide Scale, Pow2;
    Pow2Add(shift, shift);
    ScaleIsPow2(shift + shift);
    RealOfProduct(w, Pow2(shift + shift));
  }

  lemma ShiftedFits(r: nat, shift: nat)
    requires r < TWO_64 && shift <= 64
    ensures 0 <= r * Pow2(shift) < TWO_128
  {
    hide Pow2;
    Pow2Values();
    Pow2Mono(shift, 64);
    MulBounds(r, Pow2(shift), TWO_64 - 1, TWO_64);
  }

  lemma SquaresGrow(w: nat, r: nat, p: nat)
    requires IsFloorRoot(r, w) && p > 0
    ensures (r * p) * (r * p) <= w * (p * p) < (r * p + p) * (r * p + p)
  {
    SquareOfProduct(r, p);
    SquareOfProduct(r + 1, p);
    assert r * p + p == (r + 1) * p;
    ScaledBetween(r * r, w, (r + 1) * (r + 1), p * p);
  }

  lemma RootOfWhole(root: nat, unit: nat, x: nat)
    requires root * root <= x < (root + unit) * (root + unit)
    ensures RootOf(root, unit, x as real)
  {
  }

  lemma ScaledBetween(low: nat, w: nat, high: nat, q: nat)
    requires low <= w < high && q > 0
    ensures low * q <= w * q < high * q
  {
    MulMono(low, w, q);
    MulMono(w + 1, high, q);
    assert (w + 1) * q == w * q + q;
  }

  lemma SquareOfProduct(a: nat, p: nat)
    ensures (a * p) * (a * p) == (a * a) * (p * p)
  {
  }

  lemma RootShiftedRight(w: nat, shift: int)
    requires shift < 0
    ensures RootOf(DivDown(FloorRoot(w), Pow2(-shift)), 1, w as real * Scale(shift + shift))
  {
    hide Scale, Pow2, FloorRoot, DivDown, IsFloorRoot;
    var r, p := FloorRoot(w), Pow2(-shift);
    DivDownBounds(r, p);
    var q, v, root := p * p, w as real * Scale(shift + shift), DivDown(r, p);
    ShrunkValue(w, shift, q, v);
    SquaresShrink(w, r, p, root);
    ShrinkBelow(root * root, q, w, v);
    ShrinkAbove((root + 1) * (root + 1), q, w, v);
  }

  lemma UnitScale(e: int, n: nat)
    requires e + n == 0
    ensures Pow2(n) as real * Scale(e) == 1.0
  {
    hide Scale, Pow2;
    ScaleShift(e, n);
    ScaleZero();
  }

  lemma ShrunkValue(w: nat, shift: int, q: nat, v: real)
    requires shift < 0 && q == Pow2(-shift) * Pow2(-shift) && v == w as real * Scale(shift + shift)
    ensures v * q as real == w as real
  {
    hide Scale, Pow2;
    var n: nat := -shift;
    Pow2Add(n, n);
    UnitScale(shift + shift, n + n);
    UnitCancels(w as real, Scale(shift + shift), Pow2(n + n), q, v);
  }

  lemma UnitCancels(w: real, s: real, unit: nat, q: nat, v: real)
    requires unit == q && unit as real * s == 1.0 && v == w * s
    ensures v * q as real == w
  {
    assert q as real * s == 1.0;
    assert v * q as real == w * (q as real * s);
  }

  lemma SquaresShrink(w: nat, r: nat, p: nat, root: nat)
    requires IsFloorRoot(r, w) && p * root <= r < p * root + p
    ensures (root * root) * (p * p) <= w < ((root + 1) * (root + 1)) * (p * p)
  {
    var low, high := root * p, (root + 1) * p;
    assert high == p * root + p && low == p * root;
    SquareMono(low, r);
    SquareMono(r + 1, high);
    SquareOfProduct(root, p);
    SquareOfProduct(root + 1, p);
  }

  lemma ShrinkBelow(s: nat, q: nat, w: nat, v: real)
    requires q > 0 && s * q <= w && v * q as real == w as real
    ensures s as real <= v
  {
    RealOfProduct(s, q);
    RealCancel(s as real, v, q as real);
  }

  lemma ShrinkAbove(s: nat, q: nat, w: nat, v: real)
    requires q > 0 && w < s * q && v * q as real == w as real
    ensures v < s as real
  {
    RealOfProduct(s, q);
    assert s as real <= v ==> (v - s as real) * q as real >= 0.0;
  }

  lemma RealOfProduct(a: nat, b: nat)
    ensures (a * b) as real == a as real * b as real
  {
  }
}
