/** Powers of two, bit lengths and integer square roots. */
module Powers {
  import opened Arithmetic

  function Pow2(n: nat): (p: nat)
    ensures p > 0
  {
    if n == 0 then 1 else 2 * Pow2(n - 1)
  }

  /** The number of bits up to the highest one that is set: 128 less the leading zeros of a u128. */
  function BitLength(v: nat): nat {
    if v == 0 then 0 else 1 + BitLength(v / 2)
  }

  lemma {:induction false} Pow2Add(a: nat, b: nat)
    ensures Pow2(a + b) == Pow2(a) * Pow2(b)
  {
    if a > 0 {
      Pow2Add(a - 1, b);
      assert 2 * Pow2(a - 1) * Pow2(b) == 2 * (Pow2(a - 1) * Pow2(b));
    }
  }

  lemma Pow2Mono(a: nat, b: nat)
    requires a <= b
    ensures Pow2(a) <= Pow2(b)
  {
    Pow2Add(a, b - a);
    MulMono(1, Pow2(b - a), Pow2(a));
  }

  lemma Pow2Values()
    ensures Pow2(63) == TWO_63 && Pow2(64) == TWO_64 && Pow2(128) == TWO_128
  {
    assert Pow2(4) == 2 * (2 * (2 * (2 * Pow2(0))));
    Pow2Doubles(4, 16);
    Pow2Doubles(8, 256);
    Pow2Doubles(16, 0x1_0000);
    Pow2Doubles(32, 0x1_0000_0000);
    Pow2Doubles(64, TWO_64);
    Pow2Add(1, 63);
  }

  lemma Pow2Doubles(n: nat, p: nat)
    requires Pow2(n) == p
    ensures Pow2(n + n) == p * p
  {
    Pow2Add(n, n);
  }

  lemma {:induction false} BitLengthBrackets(v: nat)
    ensures v < Pow2(BitLength(v))
    ensures v > 0 ==> BitLength(v) > 0 && Pow2(BitLength(v) - 1) <= v
  {
    if v > 0 {
      BitLengthBrackets(v / 2);
      assert BitLength(1) == 1;
    }
  }

  lemma BitLengthWithin(v: nat, n: nat)
    requires v < Pow2(n)
    ensures BitLength(v) <= n
  {
    BitLengthBrackets(v);
    var k := BitLength(v);
    if k > 0 && n <= k - 1 {
      Pow2Mono(n, k - 1);
    }
  }

  // --- square roots ---

  predicate IsFloorRoot(root: nat, v: nat) {
    root * root <= v < (root + 1) * (root + 1)
  }

  /** The floor of the square root, by two bits of the argument at a time. */
  function FloorRoot(v: nat): (root: nat)
    ensures IsFloorRoot(root, v)
  {
    if v == 0 then 0
    else
      var half := FloorRoot(v / 4);
      var doubled := 2 * half;
      RootDoubles(v, half);
      if (doubled + 1) * (doubled + 1) <= v then doubled + 1 else doubled
  }

  lemma RootDoubles(v: nat, half: nat)
    requires IsFloorRoot(half, v / 4)
    ensures (2 * half) * (2 * half) <= v < (2 * half + 2) * (2 * half + 2)
  {
    assert (2 * half) * (2 * half) == 4 * (half * half);
    assert (2 * half + 2) * (2 * half + 2) == 4 * ((half + 1) * (half + 1));
  }

  lemma SquareMono(a: nat, b: nat)
    ensures a <= b <==> a * a <= b * b
  {
    if a <= b {
      MulBounds(a, a, b, b);
    } else {
      MulBounds(b + 1, b + 1, a, a);
      assert (b + 1) * (b + 1) == b * b + 2 * b + 1;
    }
  }

  lemma FloorRootUnique(root: nat, v: nat)
    requires IsFloorRoot(root, v)
    ensures FloorRoot(v) == root
  {
    hide FloorRoot;
    var r := FloorRoot(v);
    SquareMono(r + 1, root);
    SquareMono(root + 1, r);
  }

  /** One Newton step from above stays above the root, and a step that does not descend has found it. */
  lemma NewtonStep(v: nat, estimate: nat)
    requires estimate > 0 && v < (estimate + 1) * (estimate + 1)
    ensures var next := (estimate + DivDown(v, estimate)) / 2;
            && v < (next + 1) * (next + 1)
            && (next >= estimate ==> estimate * estimate <= v)
            && (next < estimate && v > 0 ==> next > 0)
  {
    var k := DivDown(v, estimate);
    var next := (estimate + k) / 2;
    DivDownBounds(v, estimate);
    var s := estimate + k + 1;
    assert s <= 2 * (next + 1);
    MulBounds(s, s, 2 * (next + 1), 2 * (next + 1));
    assert 4 * ((next + 1) * (next + 1)) == (2 * (next + 1)) * (2 * (next + 1));
    ArithmeticMean(estimate, k + 1);
    assert estimate * (k + 1) == estimate * k + estimate;
    if next >= estimate {
      MulMono(estimate, k, estimate);
    }
    if estimate == 1 {
      assert next >= estimate || v == 0;
    }
  }

  lemma ArithmeticMean(a: nat, b: nat)
    ensures 4 * (a * b) <= (a + b) * (a + b)
  {
    assert (a + b) * (a + b) - 4 * (a * b) == (a - b) * (a - b);
    assert (a - b) * (a - b) >= 0;
  }

  lemma BitLengthOf128(v: u128)
    ensures BitLength(v) <= 128
  {
    Pow2Values();
    BitLengthWithin(v, 128);
  }

  lemma HalfPowerSquares(v: nat, bits: nat, half: nat)
    requires v < Pow2(bits) && bits <= half + half
    ensures v < Pow2(half) * Pow2(half)
  {
    Pow2Add(half, half);
    Pow2Mono(bits, half + half);
  }

  /** The first estimate is a power of two that is never below the root. */
  lemma InitialEstimate(v: u128)
    ensures var estimate := Pow2((BitLength(v) + 1) / 2);
            && 0 < estimate <= TWO_64 && FloorRoot(v) <= estimate
            && v < (estimate + 1) * (estimate + 1)
  {
    hide FloorRoot, BitLength, Pow2;
    var half := (BitLength(v) + 1) / 2;
    var estimate := Pow2(half);
    BitLengthBrackets(v);
    BitLengthOf128(v);
    Pow2Values();
    Pow2Mono(half, 64);
    HalfPowerSquares(v, BitLength(v), half);
    assert (estimate + 1) * (estimate + 1) == estimate * estimate + 2 * estimate + 1;
    RootBelow(v, estimate);
  }

  lemma RootBelow(v: nat, bound: nat)
    requires v <= bound * bound
    ensures FloorRoot(v) <= bound
  {
    hide FloorRoot;
    var r := FloorRoot(v);
    SquareMono(r, bound);
  }

  /** Newton's iteration in 128-bit arithmetic: no sum overflows, and it stops at the exact floor root. */
  method IntegerSqrt(value: u128) returns (root: u128)
    ensures root == FloorRoot(value)
    ensures IsFloorRoot(root, value)
  {
    hide FloorRoot, BitLength, Pow2, DivDown;
    if value < 2 {
      FloorRootUnique(value, value);
      return value;
    }
    InitialEstimate(value);
    var estimate: u128 := Pow2((BitLength(value) + 1) / 2);
    while true
      invariant 0 < estimate <= TWO_64
      invariant value < (estimate + 1) * (estimate + 1)
      decreases estimate
    {
      NewtonStep(value, estimate);
      NewtonSumFits(value, estimate);
      var sum: u128 := estimate + DivDown(value, estimate);
      var next: u128 := sum / 2;
      if next >= estimate {
        FloorRootUnique(estimate, value);
        return estimate;
      }
      estimate := next;
    }
  }

  /** An estimate at or above the root divides the value to at most two above itself. */
  lemma NewtonSumFits(v: u128, estimate: nat)
    requires 0 < estimate <= TWO_64 && v < (estimate + 1) * (estimate + 1)
    ensures estimate + DivDown(v, estimate) <= U128_MAX
  {
    DivDownIff(v, estimate, estimate + 4);
    assert (estimate + 1) * (estimate + 1) == estimate * estimate + 2 * estimate + 1;
    assert estimate * (estimate + 4) == estimate * estimate + 4 * estimate;
  }
}
