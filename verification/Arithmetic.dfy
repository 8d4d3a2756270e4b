/** Machine integer ranges, checked results and the two roundings of division. */
module Arithmetic {

  const U8_MAX: int := 0xFF
  const U16_MAX: int := 0xFFFF
  const U32_MAX: int := 0xFFFF_FFFF
  const U64_MAX: int := 0xFFFF_FFFF_FFFF_FFFF
  const U128_MAX: int := 0xFFFF_FFFF_FFFF_FFFF_FFFF_FFFF_FFFF_FFFF
  const TWO_63: int := 0x8000_0000_0000_0000
  const TWO_64: int := 0x1_0000_0000_0000_0000
  const TWO_128: int := 0x1_0000_0000_0000_0000_0000_0000_0000_0000
  const I32_MIN: int := -0x8000_0000
  const I32_MAX: int := 0x7FFF_FFFF
  const I64_MIN: int := -0x8000_0000_0000_0000
  const I64_MAX: int := 0x7FFF_FFFF_FFFF_FFFF

  type u8 = x: int | 0 <= x <= U8_MAX
  type u16 = x: int | 0 <= x <= U16_MAX
  type u32 = x: int | 0 <= x <= U32_MAX
  type u64 = x: int | 0 <= x <= U64_MAX
  type u128 = x: int | 0 <= x <= U128_MAX
  type i32 = x: int | I32_MIN <= x <= I32_MAX
  type i64 = x: int | I64_MIN <= x <= I64_MAX

  datatype Option<+T> = None | Some(value: T) {
    predicate IsFailure() {
      None?
    }

    function PropagateFailure<U>(): Option<U>
      requires None?
    {
      None
    }

    function Extract(): T
      requires Some?
    {
      value
    }
  }

  datatype Result<+T, +E> = Ok(value: T) | Err(error: E) {
    predicate IsFailure() {
      Err?
    }

    function PropagateFailure<U>(): Result<U, E>
      requires Err?
    {
      Err(error)
    }

    function Extract(): T
      requires Ok?
    {
      value
    }

    /** Replaces the error of a failed computation. */
    function OrElse<F>(error: F): Result<T, F> {
      match this
      case Ok(v) => Ok(v)
      case Err(_) => Err(error)
    }

    /** Forgets why a computation failed. */
    function ToOption(): Option<T> {
      match this
      case Ok(v) => Some(v)
      case Err(_) => None
    }
  }

  datatype QuoteError = InvalidInput | MathOverflow | InsufficientLiquidity

  /** The instruction errors that quoting and selection can raise. */
  datatype ArbError = ArithmeticOverflow | BestDirectionQuoteIncomplete | NoProfitableDirection

  datatype QuoteResult = QuoteResult(amountIn: u64, amountOut: u64, fee: u64)

  /** A 128-bit checked operation whose failure is reported as an overflow. */
  function Fit128(v: int): Result<u128, QuoteError> {
    if 0 <= v <= U128_MAX then Ok(v) else Err(MathOverflow)
  }

  /** A 64-bit checked operation, or a conversion to u64. */
  function Fit64(v: int): Result<u64, QuoteError> {
    if 0 <= v <= U64_MAX then Ok(v) else Err(MathOverflow)
  }

  /** The same checks where the source works with optional values. */
  function Keep128(v: int): Option<u128> {
    if 0 <= v <= U128_MAX then Some(v) else None
  }

  function Keep64(v: int): Option<u64> {
    if 0 <= v <= U64_MAX then Some(v) else None
  }

  function Min(a: int, b: int): int {
    if a <= b then a else b
  }

  /** Division of unsigned numbers, rounded down. */
  function DivDown(n: nat, d: nat): (q: nat)
    requires d > 0
    ensures q <= n
  {
    QuotientRange(n, d);
    n / d
  }

  /** Division of unsigned numbers, rounded up. */
  function DivUp(n: nat, d: nat): nat
    requires d > 0
  {
    DivDown(n + (d - 1), d)
  }

  /** The checked ceiling division of the quote code. */
  function CeilDiv(n: u128, d: u128): Result<u128, QuoteError> {
    if d == 0 then Err(InvalidInput)
    else
      var sum :- Fit128(n + (d - 1));
      Ok(DivUp(n, d))
  }

  // --- monotonicity of products and the adjunctions of division ---

  lemma MulMono(a: int, b: int, c: int)
    requires a <= b && 0 <= c
    ensures a * c <= b * c && c * a <= c * b
  {
    assert (b - a) * c >= 0;
  }

  lemma MulCancelLe(a: int, b: int, c: int)
    requires 0 < c && a * c <= b * c
    ensures a <= b
  {
    assert a > b ==> (a - b) * c >= c;
  }

  lemma QuotientIff(n: int, d: int, q: int)
    requires d > 0
    ensures q <= n / d <==> d * q <= n
  {
    var k := n / d;
    assert n == d * k + n % d;
    if q <= k {
      MulMono(q, k, d);
    } else {
      MulMono(k + 1, q, d);
      assert d * (k + 1) == d * k + d;
    }
  }

  lemma QuotientRange(n: nat, d: nat)
    requires d > 0
    ensures 0 <= n / d <= n
  {
    QuotientIff(n, d, 0);
    QuotientIff(n, d, n + 1);
    MulMono(1, d, n + 1);
  }

  /** DivDown(n, d) is the greatest q with d * q <= n. */
  lemma DivDownIff(n: nat, d: nat, q: int)
    requires d > 0
    ensures q <= DivDown(n, d) <==> d * q <= n
  {
    QuotientIff(n, d, q);
  }

  /** DivUp(n, d) is the least q with n <= d * q. */
  lemma DivUpIff(n: nat, d: nat, q: int)
    requires d > 0
    ensures DivUp(n, d) <= q <==> n <= d * q
  {
    DivDownIff(n + (d - 1), d, q + 1);
    assert d * (q + 1) == d * q + d;
  }

  lemma DivDownBounds(n: nat, d: nat)
    requires d > 0
    ensures d * DivDown(n, d) <= n < d * DivDown(n, d) + d
  {
    assert n == d * (n / d) + n % d;
  }

  lemma DivUpBounds(n: nat, d: nat)
    requires d > 0
    ensures n <= d * DivUp(n, d) < n + d
  {
    DivDownBounds(n + (d - 1), d);
  }

  lemma DivMono(a: nat, b: nat, d: nat)
    requires d > 0 && a <= b
    ensures DivDown(a, d) <= DivDown(b, d)
  {
    DivDownBounds(a, d);
    DivDownIff(b, d, DivDown(a, d));
  }

  lemma DivUpMono(a: nat, b: nat, d: nat)
    requires d > 0 && a <= b
    ensures DivUp(a, d) <= DivUp(b, d)
  {
    DivMono(a + (d - 1), b + (d - 1), d);
  }

  lemma MulBounds(a: nat, b: nat, ma: nat, mb: nat)
    requires a <= ma && b <= mb
    ensures 0 <= a * b <= ma * mb
  {
    MulMono(a, ma, b);
    MulMono(b, mb, ma);
  }
}
