/** Which bit of a pair's bitmaps stands for which bin array, with each bitmap read as one long number. */
module BitmapLaws {
  import opened Arithmetic
  import opened Powers
  import opened Bytes
  import opened Addressing
  import opened LbPair
  import opened BinWalk

  /** Bit k of a number. */
  predicate Bit(n: nat, k: nat) {
    n / Pow2(k) % 2 == 1
  }

  /** The number with the given digits, least significant first, of a number of bits each. */
  function Joined(digits: seq<nat>, width: nat): nat {
    if |digits| == 0 then 0 else digits[0] + Pow2(width) * Joined(digits[1..], width)
  }

  // --- the bits of a joined number ---

  lemma DivideTwice(n: nat, a: nat, b: nat)
    requires a > 0 && b > 0
    ensures a * b > 0 && n / a / b == n / (a * b)
  {
    PositiveProduct(a, b);
    var q, r := n / a, n / a / b;
    QuotientIff(n, a, q);
    QuotientIff(n, a, q + 1);
    QuotientIff(q, b, r);
    QuotientIff(q, b, r + 1);
    Regrouped(a, b, r);
    Regrouped(a, b, r + 1);
    QuotientIff(n, a, b * r);
    QuotientIff(n, a, b * (r + 1));
    QuotientIff(n, a * b, r);
    QuotientIff(n, a * b, r + 1);
  }

  lemma PositiveProduct(a: nat, b: nat)
    requires a > 0 && b > 0
    ensures a * b > 0
  {
  }

  lemma Regrouped(a: nat, b: nat, r: nat)
    ensures a * (b * r) == (a * b) * r
  {
  }

  /** Below the first digit's width, the bits are the first digit's. */
  lemma LowBit(low: nat, high: nat, width: nat, k: nat)
    requires k < width
    ensures Bit(low + Pow2(width) * high, k) <==> Bit(low, k)
  {
    hide Pow2;
    var p, q := Pow2(k), Pow2(width - k - 1);
    Pow2Add(k, width - k);
    Pow2Add(1, width - k - 1);
    PowerOfOne();
    assert Pow2(width) * high == p * (2 * (q * high)) by {
      Regrouped(p, 2 * q, high);
    }
    AddMultiple(low, p, 2 * (q * high));
    EvenAddend(low / p, q * high);
  }

  lemma PowerOfOne()
    ensures Pow2(1) == 2 && Pow2(0) == 1
  {
  }

  lemma AddMultiple(low: nat, p: nat, m: nat)
    requires p > 0
    ensures (low + p * m) / p == low / p + m
  {
    var q := low / p;
    QuotientIff(low, p, q);
    QuotientIff(low, p, q + 1);
    assert p * (q + m) == p * q + p * m && p * (q + m + 1) == p * (q + 1) + p * m;
    QuotientIff(low + p * m, p, q + m);
    QuotientIff(low + p * m, p, q + m + 1);
  }

  lemma EvenAddend(n: nat, m: nat)
    ensures (n + 2 * m) % 2 == n % 2
  {
  }

  /** From the first digit's width on, the bits are those of the rest. */
  lemma HighBit(low: nat, high: nat, width: nat, k: nat)
    requires low < Pow2(width)
    ensures Bit(low + Pow2(width) * high, width + k) <==> Bit(high, k)
  {
    hide Pow2;
    var p := Pow2(width);
    Pow2Add(width, k);
    AddMultiple(low, p, high);
    QuotientIff(low, p, 1);
    QuotientIff(low, p, 0);
    DivideTwice(low + p * high, p, Pow2(k));
  }

  /** Bit b of digit a is bit width * a + b of the joined number. */
  lemma {:induction false} BitOfDigit(digits: seq<nat>, width: nat, a: nat, b: nat)
    requires a < |digits| && b < width && forall i :: 0 <= i < |digits| ==> digits[i] < Pow2(width)
    ensures Bit(Joined(digits, width), width * a + b) <==> Bit(digits[a], b)
    decreases a
  {
    hide Bit, Pow2;
    var rest := digits[1..];
    if a == 0 {
      LowBit(digits[0], Joined(rest, width), width, b);
    } else {
      assert forall i :: 0 <= i < |rest| ==> rest[i] == digits[i + 1];
      BitOfDigit(rest, width, a - 1, b);
      NextDigit(width, a, b);
      HighBit(digits[0], Joined(rest, width), width, width * (a - 1) + b);
    }
  }

  lemma NextDigit(width: nat, a: nat, b: nat)
    requires a > 0
    ensures width * a + b == width + (width * (a - 1) + b) && width * (a - 1) >= 0
  {
  }

  // --- the default bitmap ---

  /** As one number of 1024 bits, the default bitmap holds array i at bit i + 512. */
  lemma DefaultBitmapLaw(bitmap: DefaultBitmap, arrayIndex: i64)
    ensures DefaultBitmapContains(bitmap, arrayIndex)
       <==> -512 <= arrayIndex <= 511 && Bit(Joined(bitmap, 64), arrayIndex + 512)
  {
    hide Joined, Pow2, DivDown;
    if InDefaultBitmap(arrayIndex) {
      var bit := arrayIndex + 512;
      Pow2Values();
      BitOfDigit(bitmap, 64, bit / 64, bit % 64);
      TestBitIsBit(bitmap[bit / 64], bit % 64);
    }
  }

  lemma TestBitIsBit(word: u64, k: nat)
    ensures TestBit(word, k) <==> Bit(word, k)
  {
    hide Pow2;
  }

  // --- the extension bitmap ---

  lemma {:induction false} LittleEndianIsJoined(digits: seq<u8>)
    ensures FromLittleEndian(digits) == Joined(digits, 8)
  {
    if |digits| > 0 {
      EightBits();
      LittleEndianIsJoined(digits[1..]);
    }
  }

  lemma EightBits()
    ensures Pow2(8) == 256
  {
    assert Pow2(4) == 16;
    Pow2Doubles(4, 16);
  }

  /** The rank of an array among the bits of the extension: arrays from 512 up, then arrays from -513 down. */
  function RankOf(arrayIndex: int): int {
    if arrayIndex >= 512 then arrayIndex - 512 else 6_144 + (-513 - arrayIndex)
  }

  /** The extension holds an array of its range at the bit of its rank, counted over the bytes that follow the header;
      other
      arrays are in neither of its halves. */
  lemma ExtensionBitmapLaw(data: seq<u8>, arrayIndex: i64)
    ensures -512 <= arrayIndex <= 511 || !InExtension(arrayIndex) ==>
              ExtensionBitmapContains(data, arrayIndex) == Ok(false)
    ensures InExtension(arrayIndex) ==>
              var rank := RankOf(arrayIndex);
              && (ExtensionBitmapContains(data, arrayIndex).Ok? <==> 48 + rank / 64 * 8 <= |data|)
              && (ExtensionBitmapContains(data, arrayIndex).Ok? ==>
                    (ExtensionBitmapContains(data, arrayIndex).value <==> Bit(data[40 + rank / 8], rank % 8)))
  {
    hide FromLittleEndian, Bit, TestBit, ExtensionPosition;
    if !InDefaultBitmap(arrayIndex) {
      ExtensionDomain(arrayIndex);
    }
    if InExtension(arrayIndex) {
      PositionOfRank(arrayIndex);
      var rank := RankOf(arrayIndex);
      var offset := 40 + rank / 64 * 8;
      if offset + 8 <= |data| {
        var digits := data[offset..offset + 8];
        WordBit(digits, rank % 64);
        TestBitIsBit(ReadU64(data, offset).value, rank % 64);
        assert digits[rank % 64 / 8] == data[40 + rank / 8];
      }
    }
  }

  lemma PositionOfRank(arrayIndex: i64)
    requires InExtension(arrayIndex)
    ensures ExtensionPosition(arrayIndex) == Some((40 + RankOf(arrayIndex) / 64 * 8, RankOf(arrayIndex) % 64))
    ensures 0 <= RankOf(arrayIndex) < 12_288
  {
    ExtensionRank(arrayIndex);
    var (offset, bit) := ExtensionPosition(arrayIndex).value;
    AlignedPosition(offset - 40, bit, RankOf(arrayIndex));
  }

  lemma AlignedPosition(bytes: int, bit: int, rank: int)
    requires bytes * 8 + bit == rank && 0 <= bit < 64 && bytes % 8 == 0
    ensures bytes == rank / 64 * 8 && bit == rank % 64
  {
  }

  lemma WordBit(digits: seq<u8>, k: nat)
    requires |digits| == 8 && k < 64
    ensures Bit(FromLittleEndian(digits), k) <==> Bit(digits[k / 8], k % 8)
  {
    hide FromLittleEndian, Joined, Bit, Pow2;
    EightBits();
    LittleEndianIsJoined(digits);
    BitOfDigit(digits, 8, k / 8, k % 8);
  }

  // --- both together ---

  /** An array is known when its bit is set: in the pair for the middle range, and otherwise in the extension if there
      is
      one. */
  lemma KnownArrays(view: View, arrayIndex: i64)
    ensures -512 <= arrayIndex <= 511 ==>
              Initialized(view, arrayIndex) == Ok(Bit(Joined(view.pair.bitmap, 64), arrayIndex + 512))
    ensures !(-512 <= arrayIndex <= 511) && (view.extension.None? || !InExtension(arrayIndex)) ==>
              Initialized(view, arrayIndex) == Ok(false)
    ensures InExtension(arrayIndex) && view.extension.Some? ==>
              Initialized(view, arrayIndex) == ExtensionBitmapContains(view.extension.value, arrayIndex)
  {
    hide Bit, Joined, ExtensionBitmapContains, DefaultBitmapContains;
    DefaultBitmapLaw(view.pair.bitmap, arrayIndex);
    if view.extension.Some? {
      ExtensionBitmapLaw(view.extension.value, arrayIndex);
    }
  }
}
