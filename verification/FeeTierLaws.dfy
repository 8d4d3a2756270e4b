/** The fee configuration's encoding, and what the selection means for a market. */
module FeeTierLaws {
  import opened Arithmetic
  import opened Bytes
  import opened PumpQuote
  import opened FeeTiers

  // --- little-endian numbers ---

  /** The lowest bytes of a number, least significant first. */
  function ToLittleEndian(n: nat, length: nat): (digits: seq<u8>)
    ensures |digits| == length
  {
    if length == 0 then [] else [n % 256] + ToLittleEndian(n / 256, length - 1)
  }

  lemma {:induction false} LittleEndianRoundTrip(n: nat, length: nat)
    requires n < Pow256(length)
    ensures FromLittleEndian(ToLittleEndian(n, length)) == n
  {
    if length > 0 {
      LittleEndianRoundTrip(n / 256, length - 1);
      assert ToLittleEndian(n, length)[1..] == ToLittleEndian(n / 256, length - 1);
    }
  }

  lemma Lengths()
    ensures Pow256(4) == 0x1_0000_0000 && Pow256(8) == TWO_64 && Pow256(16) == TWO_128
  {
    assert Pow256(4) == 0x1_0000_0000;
    assert Pow256(8) == 256 * (256 * (256 * (256 * Pow256(4))));
    assert Pow256(12) == 256 * (256 * (256 * (256 * Pow256(8))));
    assert Pow256(16) == 256 * (256 * (256 * (256 * Pow256(12))));
  }

  lemma ReadsBack(before: seq<u8>, n: nat, length: nat, after: seq<u8>)
    requires n < Pow256(length)
    ensures var data := before + ToLittleEndian(n, length) + after;
            Slice(data, |before|, length) == Ok(ToLittleEndian(n, length))
    ensures FromLittleEndian(ToLittleEndian(n, length)) == n
  {
    var data := before + ToLittleEndian(n, length) + after;
    assert data[|before|..|before| + length] == ToLittleEndian(n, length);
    LittleEndianRoundTrip(n, length);
  }

  // --- the account ---

  function EncodeFees(fees: PumpFees): (bytes: seq<u8>)
    ensures |bytes| == 24
  {
    ToLittleEndian(fees.lp, 8) + ToLittleEndian(fees.protocol, 8) + ToLittleEndian(fees.creator, 8)
  }

  function EncodeTier(tier: FeeTier): (bytes: seq<u8>)
    ensures |bytes| == 40
  {
    ToLittleEndian(tier.marketCapThreshold, 16) + EncodeFees(tier.fees)
  }

  function EncodeTiers(tiers: seq<FeeTier>): (bytes: seq<u8>)
    ensures |bytes| == 40 * |tiers|
  {
    if |tiers| == 0 then [] else EncodeTier(tiers[0]) + EncodeTiers(tiers[1..])
  }

  /** A header, the flat fees, the number of tiers, the tiers, and whatever follows. */
  function Encode(header: seq<u8>, config: FeeConfig, rest: seq<u8>): seq<u8> {
    header + EncodeFees(config.flat) + ToLittleEndian(|config.tiers|, 4) + EncodeTiers(config.tiers) + rest
  }

  /** Three 64-bit rates parse to themselves when all fit 16 bits, and are refused otherwise. */
  lemma RatesReadBack(before: seq<u8>, lp: u64, protocol: u64, creator: u64, after: seq<u8>)
    ensures ParseFees(before + ToLittleEndian(lp, 8) + ToLittleEndian(protocol, 8) + ToLittleEndian(creator, 8)
                      + after, |before|)
         == if lp <= U16_MAX && protocol <= U16_MAX && creator <= U16_MAX then Ok(PumpFees(lp, protocol, creator))
            else Err(InvalidInput)
  {
    hide ReadU64, ToLittleEndian;
    var a, b, c := ToLittleEndian(lp, 8), ToLittleEndian(protocol, 8), ToLittleEndian(creator, 8);
    var data := before + a + b + c + after;
    assert data == before + a + (b + c + after);
    RateReadsBack(before, lp, b + c + after);
    assert data == (before + a) + b + (c + after);
    RateReadsBack(before + a, protocol, c + after);
    RateReadsBack(before + a + b, creator, after);
  }

  lemma RateReadsBack(before: seq<u8>, n: u64, after: seq<u8>)
    ensures ReadU64(before + ToLittleEndian(n, 8) + after, |before|) == Ok(n)
  {
    hide FromLittleEndian, Slice;
    Lengths();
    ReadsBack(before, n, 8, after);
  }

  lemma FeesReadBack(before: seq<u8>, fees: PumpFees, after: seq<u8>)
    ensures ParseFees(before + EncodeFees(fees) + after, |before|) == Ok(fees)
  {
    hide ParseFees;
    RatesReadBack(before, fees.lp, fees.protocol, fees.creator, after);
    var a, b, c := ToLittleEndian(fees.lp, 8), ToLittleEndian(fees.protocol, 8), ToLittleEndian(fees.creator, 8);
    assert before + EncodeFees(fees) + after == before + a + b + c + after;
  }

  lemma TierReadsBack(before: seq<u8>, tier: FeeTier, after: seq<u8>)
    ensures ParseTier(before + EncodeTier(tier) + after, |before|) == Ok(tier)
  {
    hide FromLittleEndian, Slice, ParseFees, EncodeFees;
    Lengths();
    var threshold := ToLittleEndian(tier.marketCapThreshold, 16);
    var data := before + EncodeTier(tier) + after;
    assert data == before + threshold + (EncodeFees(tier.fees) + after);
    ReadsBack(before, tier.marketCapThreshold, 16, EncodeFees(tier.fees) + after);
    assert data == (before + threshold) + EncodeFees(tier.fees) + after;
    FeesReadBack(before + threshold, tier.fees, after);
  }

  lemma {:induction false} TiersReadBack(before: seq<u8>, tiers: seq<FeeTier>, after: seq<u8>)
    ensures ParseTiersFrom(before + EncodeTiers(tiers) + after, |before|, |tiers|) == Ok(tiers)
    decreases |tiers|
  {
    hide ParseTier, EncodeTier;
    if |tiers| > 0 {
      var data := before + EncodeTiers(tiers) + after;
      var first, others := EncodeTier(tiers[0]), tiers[1..];
      assert data == before + first + (EncodeTiers(others) + after);
      TierReadsBack(before, tiers[0], EncodeTiers(others) + after);
      assert data == (before + first) + EncodeTiers(others) + after;
      TiersReadBack(before + first, others, after);
      assert [tiers[0]] + others == tiers;
    }
  }

  /** An encoded configuration of one to sixty-four tiers parses to itself, whatever surrounds it; any other number of
      tiers
      is refused. */
  lemma ConfigReadsBack(header: seq<u8>, config: FeeConfig, rest: seq<u8>)
    requires |header| == 41 && |config.tiers| <= U32_MAX
    ensures ParseConfig(Encode(header, config, rest))
         == if 1 <= |config.tiers| <= 64 then Ok(config) else Err(InvalidInput)
  {
    hide FromLittleEndian, Slice, ParseFees, ParseTiersFrom, EncodeFees, EncodeTiers;
    Lengths();
    var data := Encode(header, config, rest);
    var count := ToLittleEndian(|config.tiers|, 4);
    var tiers := EncodeTiers(config.tiers);
    assert data == header + EncodeFees(config.flat) + (count + tiers + rest);
    FeesReadBack(header, config.flat, count + tiers + rest);
    assert data == (header + EncodeFees(config.flat)) + count + (tiers + rest);
    ReadsBack(header + EncodeFees(config.flat), |config.tiers|, 4, tiers + rest);
    assert data == (header + EncodeFees(config.flat) + count) + tiers + rest;
    TiersReadBack(header + EncodeFees(config.flat) + count, config.tiers, rest);
    EnoughTiers(|data|, |config.tiers|, |rest|);
  }

  lemma EnoughTiers(length: nat, count: nat, rest: nat)
    requires length == 69 + 40 * count + rest
    ensures count <= (length - 69) / 40
  {
  }

  /** A count that the data is too short for is refused. */
  lemma ShortDataIsRefused(data: seq<u8>, count: u32)
    requires ReadU32(data, 65) == Ok(count) && |data| < 69 + 40 * count
    ensures ParseConfig(data) == Err(InvalidInput)
  {
    hide ReadU32;
  }

  // --- the selection ---

  /** The market capitalisation is the mint supply times the quote reserve for each unit of base, rounded down; no
      product
      overflows. */
  lemma MarketCapLaw(reserve: u64, supply: u64, base: u64)
    requires base > 0
    ensures MarketCap(reserve, supply, base).Ok?
    ensures base * MarketCap(reserve, supply, base).value <= reserve * supply
            < base * (MarketCap(reserve, supply, base).value + 1)
  {
    hide DivDown;
    MulBounds(reserve, supply, U64_MAX, U64_MAX);
    DivDownBounds(reserve * supply, base);
    assert base * (DivDown(reserve * supply, base) + 1) == base * DivDown(reserve * supply, base) + base;
  }

  /** Without a configuration the global fees apply, outside a Pump pool the flat ones, and otherwise those of the last
      tier
      whose threshold times the base reserve is within supply times quote reserve, or of the first tier. */
  lemma SelectionLaw(config: Option<FeeConfig>, global: PumpFees, isPumpPool: bool, supply: u64, base: u64,
                     reserve: u64)
    ensures config.None? ==> Select(config, global, isPumpPool, supply, base, reserve) == Ok(global)
    ensures config.Some? && !isPumpPool ==>
              Select(config, global, isPumpPool, supply, base, reserve) == Ok(config.value.flat)
    ensures config.Some? && isPumpPool && (base == 0 || |config.value.tiers| == 0) ==>
              Select(config, global, isPumpPool, supply, base, reserve) == Err(InvalidInput)
    ensures config.Some? && isPumpPool && base > 0 && |config.value.tiers| > 0 ==>
              var tiers, selected := config.value.tiers, Select(config, global, isPumpPool, supply, base, reserve);
              && selected.Ok?
              && exists k :: 0 <= k < |tiers| && selected.value == tiers[k].fees
                          && (k > 0 ==> Qualifies(tiers[k], supply, base, reserve))
                          && forall j :: k < j < |tiers| ==> !Qualifies(tiers[j], supply, base, reserve)
  {
    hide SelectFrom, MarketCap, Qualifies;
    if config.Some? && isPumpPool && base > 0 && |config.value.tiers| > 0 {
      var tiers := config.value.tiers;
      MarketCapLaw(reserve, supply, base);
      var last := LastQualifying(tiers, supply, base, reserve, |tiers|);
      forall i | 0 <= i < |tiers|
        ensures Qualifies(tiers[i], supply, base, reserve)
           <==> tiers[i].marketCapThreshold <= MarketCap(reserve, supply, base).value
      {
        QualifiesIff(tiers[i], supply, base, reserve);
      }
      SelectsLastQualifying(tiers, MarketCap(reserve, supply, base).value, tiers[0].fees, last);
      var k := if last < 0 then 0 else last;
      assert forall j :: k < j < |tiers| ==> !Qualifies(tiers[j], supply, base, reserve);
    }
  }

  /** The last of the first n tiers that qualifies, if there is one. */
  lemma LastQualifying(tiers: seq<FeeTier>, supply: u64, base: u64, reserve: u64, n: nat) returns (last: int)
    requires n <= |tiers|
    ensures -1 <= last < n
    ensures last >= 0 ==> Qualifies(tiers[last], supply, base, reserve)
    ensures forall j :: last < j < n ==> !Qualifies(tiers[j], supply, base, reserve)
  {
    hide Qualifies;
    if n == 0 {
      last := -1;
    } else if Qualifies(tiers[n - 1], supply, base, reserve) {
      last := n - 1;
    } else {
      last := LastQualifying(tiers, supply, base, reserve, n - 1);
    }
  }

  /** Streaming from the account answers without tiers, too: with the global fees, which a parsed configuration
      refuses. */
  lemma StreamWithoutTiers(header: seq<u8>, config: FeeConfig, rest: seq<u8>, global: PumpFees, isPumpPool: bool,
                           supply: u64,
                           base: u64, reserve: u64)
    requires |header| == 41 && (|config.tiers| == 0 || 64 < |config.tiers| <= U32_MAX)
    ensures Stream(Encode(header, config, rest), global, isPumpPool, supply, base, reserve)
         == if !isPumpPool then Ok(config.flat)
            else if base > 0 && |config.tiers| == 0 then Ok(global)
            else Err(InvalidInput)
  {
    hide FromLittleEndian, Slice, ParseFees, EncodeFees, EncodeTiers;
    Lengths();
    var data := Encode(header, config, rest);
    var count, tiers := ToLittleEndian(|config.tiers|, 4), EncodeTiers(config.tiers);
    assert data == header + EncodeFees(config.flat) + (count + tiers + rest);
    FeesReadBack(header, config.flat, count + tiers + rest);
    assert data == (header + EncodeFees(config.flat)) + count + (tiers + rest);
    ReadsBack(header + EncodeFees(config.flat), |config.tiers|, 4, tiers + rest);
  }

  predicate Qualifies(tier: FeeTier, supply: u64, base: u64, reserve: u64) {
    base * tier.marketCapThreshold <= reserve * supply
  }

  lemma QualifiesIff(tier: FeeTier, supply: u64, base: u64, reserve: u64)
    requires base > 0
    ensures MarketCap(reserve, supply, base).Ok?
    ensures Qualifies(tier, supply, base, reserve)
       <==> tier.marketCapThreshold <= MarketCap(reserve, supply, base).value
  {
    hide MarketCap, DivDown;
    MarketCapLaw(reserve, supply, base);
    var cap := MarketCap(reserve, supply, base).value;
    if tier.marketCapThreshold <= cap {
      MulMono(tier.marketCapThreshold, cap, base);
    } else {
      MulMono(cap + 1, tier.marketCapThreshold, base);
    }
  }
}
