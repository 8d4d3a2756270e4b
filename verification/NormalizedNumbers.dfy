/** The custom floating format: a 64-bit mantissa with its top bit set, and a binary exponent. */
module NormalizedNumbers {
  import opened Arithmetic
  import opened Powers

  datatype Normalized = Normalized(mantissa: u64, exponent: i32) {
    /** The top bit of the mantissa is set. */
    predicate Normal() {
      TWO_63 <= mantissa
    }
  }

  datatype Ordering = Less | Equal | Greater

  function Keep32(v: int): Option<i32> {
    if I32_MIN <= v <= I32_MAX then Some(v) else None
  }

  // --- operations ---

  function FromU128(v: u128): (r: Option<Normalized>)
    ensures r.None? <==> v == 0
    ensures r.Some? ==> r.value.Normal() && r.value.exponent == BitLength(v) - 1 <= 127
  {
    if v == 0 then None
    else
      var bits := BitLength(v);
      MantissaFits(v);
      var mantissa: u64 := if bits <= 64 then v * Pow2(64 - bits) else DivDown(v, Pow2(bits - 64));
      Some(Normalized(mantissa, bits - 1))
  }

  function Multiply(a: Normalized, b: Normalized): (r: Option<Normalized>)
    requires a.Normal() && b.Normal()
    ensures r.Some? ==> r.value.Normal()
  {
    ProductFits(a.mantissa, b.mantissa);
    var product: u128 := a.mantissa * b.mantissa;
    var mantissa := product / TWO_63;
    var exponent :- Keep32(a.exponent + b.exponent);
    if mantissa >= TWO_64 then
      var raised :- Keep32(exponent + 1);
      Some(Normalized(mantissa / 2, raised))
    else Some(Normalized(mantissa, exponent))
  }

  function Divide(a: Normalized, b: Normalized): (r: Option<Normalized>)
    requires a.Normal() && b.Normal()
    ensures r.Some? ==> r.value.Normal()
  {
    QuotientFits(a.mantissa, b.mantissa);
    var quotient := DivDown(a.mantissa * TWO_63, b.mantissa);
    var exponent :- Keep32(a.exponent - b.exponent);
    if quotient < TWO_63 then
      var lowered :- Keep32(exponent - 1);
      Some(Normalized(2 * quotient, lowered))
    else Some(Normalized(quotient, exponent))
  }

  function Compare(a: Normalized, b: Normalized): Ordering {
    if a.exponent < b.exponent then Less
    else if a.exponent > b.exponent then Greater
    else if a.mantissa < b.mantissa then Less
    else if a.mantissa > b.mantissa then Greater
    else Equal
  }

  /** The root by an integer square root of a 128-bit mantissa; bits shifted out on the left are lost. */
  function SqrtFloor(n: Normalized): Option<u128>
    requires n.Normal() && -128 <= n.exponent
  {
    var odd := n.exponent % 2;
    var mantissa := if odd == 1 then n.mantissa * 2 else n.mantissa;
    var scaledRoot := FloorRoot(mantissa * TWO_63);
    var shift := (n.exponent - odd) / 2 - 63;
    if shift >= 128 then None
    else if shift >= 0 then Some(scaledRoot * Pow2(shift) % TWO_128)
    else
      ScaledRootFits(mantissa);
      Some(DivDown(scaledRoot, Pow2(-shift)))
  }

  function MultiplyAll(value: Normalized, factors: seq<u128>): (r: Option<Normalized>)
    requires value.Normal()
    ensures r.Some? ==> r.value.Normal()
    decreases |factors|
  {
    if |factors| == 0 then Some(value)
    else
      var factor :- FromU128(factors[0]);
      var next :- Multiply(value, factor);
      MultiplyAll(next, factors[1..])
  }

  function DivideAll(value: Normalized, divisors: seq<u128>): (r: Option<Normalized>)
    requires value.Normal()
    ensures r.Some? ==> r.value.Normal()
    decreases |divisors|
  {
    if |divisors| == 0 then Some(value)
    else
      var divisor :- FromU128(divisors[0]);
      var next :- Divide(value, divisor);
      DivideAll(next, divisors[1..])
  }

  function ProductRatio(numerators: seq<u128>, denominators: seq<u128>): (r: Option<Normalized>)
    ensures r.Some? ==> r.value.Normal()
  {
    var product :- MultiplyAll(FromU128(1).value, numerators);
    DivideAll(product, denominators)
  }

  // --- the mantissa stays normal ---

  lemma MantissaFits(v: u128)
    requires v > 0
    ensures var bits := BitLength(v);
            && 0 < bits <= 128
            && (bits <= 64 ==> TWO_63 <= v * Pow2(64 - bits) < TWO_64)
            && (bits > 64 ==> TWO_63 <= DivDown(v, Pow2(bits - 64)) < TWO_64)
  {
    BitLengthBrackets(v);
    BitLengthOf128(v);
    if BitLength(v) <= 64 {
      ShortMantissa(v, BitLength(v));
    } else {
      LongMantissa(v, BitLength(v));
    }
  }

  lemma ShortMantissa(v: nat, bits: nat)
    requires 0 < bits <= 64 && Pow2(bits - 1) <= v < Pow2(bits)
    ensures TWO_63 <= v * Pow2(64 - bits) < TWO_64
  {
    hide Pow2;
    Pow2Values();
    var p := Pow2(64 - bits);
    Pow2Add(bits - 1, 64 - bits);
    Pow2Add(bits, 64 - bits);
    MulMono(Pow2(bits - 1), v, p);
    MulMono(v + 1, Pow2(bits), p);
    assert (v + 1) * p == v * p + p;
  }

  lemma LongMantissa(v: nat, bits: nat)
    requires 64 < bits && Pow2(bits - 1) <= v < Pow2(bits)
    ensures TWO_63 <= DivDown(v, Pow2(bits - 64)) < TWO_64
  {
    hide Pow2, DivDown;
    Pow2Values();
    Pow2Add(63, bits - 64);
    Pow2Add(64, bits - 64);
    DivDownIff(v, Pow2(bits - 64), TWO_63);
    DivDownIff(v, Pow2(bits - 64), TWO_64);
  }

  lemma ProductFits(a: u64, b: u64)
    requires TWO_63 <= a && TWO_63 <= b
    ensures TWO_63 * TWO_63 <= a * b <= U64_MAX * U64_MAX
  {
    MulBounds(TWO_63, TWO_63, a, b);
    MulBounds(a, b, U64_MAX, U64_MAX);
  }

  lemma QuotientFits(a: u64, b: u64)
    requires TWO_63 <= a && TWO_63 <= b
    ensures TWO_63 / 2 <= DivDown(a * TWO_63, b) < TWO_64
  {
    DivDownIff(a * TWO_63, b, TWO_63 / 2);
    DivDownIff(a * TWO_63, b, TWO_64);
  }

  lemma ScaledRootFits(mantissa: nat)
    requires mantissa <= 2 * U64_MAX
    ensures FloorRoot(mantissa * TWO_63) < TWO_64
  {
    SquareMono(TWO_64, FloorRoot(mantissa * TWO_63));
  }
}
