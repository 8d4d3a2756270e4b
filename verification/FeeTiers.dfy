/** Pump fee selection: from a parsed configuration, and streamed from the account bytes. */
module FeeTiers {
  import opened Arithmetic
  import opened Bytes
  import opened PumpQuote

  const FLAT_OFFSET: nat := 8 + 1 + 32
  const TIERS_OFFSET: nat := FLAT_OFFSET + 28
  const TIER_SIZE: nat := 40
  const MAX_TIERS: nat := 64

  datatype FeeTier = FeeTier(marketCapThreshold: u128, fees: PumpFees)

  datatype FeeConfig = FeeConfig(flat: PumpFees, tiers: seq<FeeTier>)

  // --- the account layout ---

  function Narrow(v: u64): Result<u16, QuoteError> {
    if v <= U16_MAX then Ok(v) else Err(InvalidInput)
  }

  function ParseFees(data: seq<u8>, offset: nat): Result<PumpFees, QuoteError> {
    var lp64 :- ReadU64(data, offset);
    var lp :- Narrow(lp64);
    var protocol64 :- ReadU64(data, offset + 8);
    var protocol :- Narrow(protocol64);
    var creator64 :- ReadU64(data, offset + 16);
    var creator :- Narrow(creator64);
    Ok(PumpFees(lp, protocol, creator))
  }

  function AvailableTiers(data: seq<u8>): nat {
    if |data| <= TIERS_OFFSET then 0 else (|data| - TIERS_OFFSET) / TIER_SIZE
  }

  predicate TierCountFits(data: seq<u8>, count: nat) {
    0 < count <= AvailableTiers(data) && count <= MAX_TIERS
  }

  function ParseTier(data: seq<u8>, offset: nat): Result<FeeTier, QuoteError> {
    var threshold :- ReadU128(data, offset);
    var fees :- ParseFees(data, offset + 16);
    Ok(FeeTier(threshold, fees))
  }

  function ParseTiersFrom(data: seq<u8>, offset: nat, count: nat): Result<seq<FeeTier>, QuoteError>
    decreases count
  {
    if count == 0 then Ok([])
    else
      var tier :- ParseTier(data, offset);
      var rest :- ParseTiersFrom(data, offset + TIER_SIZE, count - 1);
      Ok([tier] + rest)
  }

  function ParseConfig(data: seq<u8>): Result<FeeConfig, QuoteError> {
    var count :- ReadU32(data, FLAT_OFFSET + 24);
    if !TierCountFits(data, count) then Err(InvalidInput)
    else
      var tiers :- ParseTiersFrom(data, TIERS_OFFSET, count);
      var flat :- ParseFees(data, FLAT_OFFSET);
      Ok(FeeConfig(flat, tiers))
  }

  method ParsePumpFeeConfig(data: seq<u8>) returns (r: Result<FeeConfig, QuoteError>)
    ensures r == ParseConfig(data)
  {
    hide ParseTier, ParseFees, ReadU32;
    var count :- ReadU32(data, FLAT_OFFSET + 24);
    if !TierCountFits(data, count) {
      return Err(InvalidInput);
    }
    var tiers: seq<FeeTier> := [];
    var offset: nat := TIERS_OFFSET;
    for k := 0 to count
      invariant var whole, rest := ParseTiersFrom(data, TIERS_OFFSET, count), ParseTiersFrom(data, offset, count - k);
                if rest.Ok? then whole.Ok? && whole.value == tiers + rest.value else whole == rest
    {
      var tier :- ParseTier(data, offset);
      tiers := tiers + [tier];
      offset := offset + TIER_SIZE;
    }
    assert tiers + [] == tiers;
    var flat :- ParseFees(data, FLAT_OFFSET);
    return Ok(FeeConfig(flat, tiers));
  }

  // --- selection ---

  function MarketCap(effectiveQuoteReserve: u64, mintSupply: u64, baseReserve: u64): Result<u128, QuoteError>
    requires baseReserve > 0
  {
    var product :- Fit128(effectiveQuoteReserve * mintSupply);
    Ok(DivDown(product, baseReserve))
  }

  /** The tier loop: every tier whose threshold the market cap reaches replaces the selection. */
  function SelectFrom(tiers: seq<FeeTier>, marketCap: u128, selected: PumpFees): PumpFees
    decreases |tiers|
  {
    if |tiers| == 0 then selected
    else SelectFrom(tiers[1..], marketCap, if marketCap >= tiers[0].marketCapThreshold then tiers[0].fees else selected)
  }

  function Select(config: Option<FeeConfig>, global: PumpFees, isPumpPool: bool, mintSupply: u64, baseReserve: u64,
                  effectiveQuoteReserve: u64): Result<PumpFees, QuoteError> {
    match config
    case None => Ok(global)
    case Some(parsed) =>
      if !isPumpPool then Ok(parsed.flat)
      else if baseReserve == 0 || |parsed.tiers| == 0 then Err(InvalidInput)
      else
        var marketCap :- MarketCap(effectiveQuoteReserve, mintSupply, baseReserve);
        Ok(SelectFrom(parsed.tiers, marketCap, parsed.tiers[0].fees))
  }

  method SelectPumpFees(config: Option<FeeConfig>, global: PumpFees, isPumpPool: bool, mintSupply: u64,
                        baseReserve: u64,
                        effectiveQuoteReserve: u64) returns (r: Result<PumpFees, QuoteError>)
    ensures r == Select(config, global, isPumpPool, mintSupply, baseReserve, effectiveQuoteReserve)
  {
    hide MarketCap;
    if config.None? {
      return Ok(global);
    }
    var tiers := config.value.tiers;
    if !isPumpPool {
      return Ok(config.value.flat);
    }
    if baseReserve == 0 || |tiers| == 0 {
      return Err(InvalidInput);
    }
    var marketCap :- MarketCap(effectiveQuoteReserve, mintSupply, baseReserve);
    var selected := tiers[0].fees;
    assert tiers[0..] == tiers;
    for k := 0 to |tiers|
      invariant SelectFrom(tiers[k..], marketCap, selected) == SelectFrom(tiers, marketCap, tiers[0].fees)
    {
      assert tiers[k..][1..] == tiers[k + 1..];
      if marketCap >= tiers[k].marketCapThreshold {
        selected := tiers[k].fees;
      }
    }
    return Ok(selected);
  }

  /** The streaming loop from a tier on; only the fees of tiers that qualify are read. */
  function StreamFrom(data: seq<u8>, k: nat, count: nat, marketCap: u128,
                      selected: PumpFees): Result<PumpFees, QuoteError>
    requires k <= count
    decreases count - k
  {
    if k == count then Ok(selected)
    else
      var threshold :- ReadU128(data, TIERS_OFFSET + k * TIER_SIZE);
      if marketCap >= threshold then
        var fees :- ParseFees(data, TIERS_OFFSET + k * TIER_SIZE + 16);
        StreamFrom(data, k + 1, count, marketCap, fees)
      else StreamFrom(data, k + 1, count, marketCap, selected)
  }

  function Stream(data: seq<u8>, global: PumpFees, isPumpPool: bool, mintSupply: u64, baseReserve: u64,
                  effectiveQuoteReserve: u64): Result<PumpFees, QuoteError> {
    var flat :- ParseFees(data, FLAT_OFFSET);
    if !isPumpPool then Ok(flat)
    else if baseReserve == 0 then Err(InvalidInput)
    else
      var count :- ReadU32(data, FLAT_OFFSET + 24);
      if count == 0 then Ok(global)
      else if !TierCountFits(data, count) then Err(InvalidInput)
      else
        var marketCap :- MarketCap(effectiveQuoteReserve, mintSupply, baseReserve);
        var first :- ParseFees(data, TIERS_OFFSET + 16);
        StreamFrom(data, 0, count, marketCap, first)
  }

  method SelectPumpFeesFromData(data: seq<u8>, global: PumpFees, isPumpPool: bool, mintSupply: u64, baseReserve: u64,
                                effectiveQuoteReserve: u64) returns (r: Result<PumpFees, QuoteError>)
    ensures r == Stream(data, global, isPumpPool, mintSupply, baseReserve, effectiveQuoteReserve)
  {
    hide MarketCap, ParseFees, ReadU32, ReadU128;
    var flat :- ParseFees(data, FLAT_OFFSET);
    if !isPumpPool {
      return Ok(flat);
    }
    if baseReserve == 0 {
      return Err(InvalidInput);
    }
    var count :- ReadU32(data, FLAT_OFFSET + 24);
    if !TierCountFits(data, count) {
      return if count == 0 then Ok(global) else Err(InvalidInput);
    }
    var marketCap :- MarketCap(effectiveQuoteReserve, mintSupply, baseReserve);
    var selected :- ParseFees(data, TIERS_OFFSET + 16);
    ghost var first := selected;
    for k := 0 to count
      invariant StreamFrom(data, k, count, marketCap, selected) == StreamFrom(data, 0, count, marketCap, first)
    {
      var offset := TIERS_OFFSET + k * TIER_SIZE;
      var threshold :- ReadU128(data, offset);
      if marketCap >= threshold {
        selected :- ParseFees(data, offset + 16);
      }
    }
    return Ok(selected);
  }

  // --- the streaming form refines the parsed one ---

  lemma {:induction false} StreamFollowsTiers(data: seq<u8>, k: nat, count: nat, marketCap: u128, selected: PumpFees)
    requires k <= count && ParseTiersFrom(data, TIERS_OFFSET + k * TIER_SIZE, count - k).Ok?
    ensures StreamFrom(data, k, count, marketCap, selected)
         == Ok(SelectFrom(ParseTiersFrom(data, TIERS_OFFSET + k * TIER_SIZE, count - k).value, marketCap, selected))
    decreases count - k
  {
    hide ReadU128, ParseFees;
    if k < count {
      var tiers := ParseTiersFrom(data, TIERS_OFFSET + k * TIER_SIZE, count - k).value;
      var rest := ParseTiersFrom(data, TIERS_OFFSET + (k + 1) * TIER_SIZE, count - (k + 1)).value;
      assert TIERS_OFFSET + (k + 1) * TIER_SIZE == TIERS_OFFSET + k * TIER_SIZE + TIER_SIZE;
      assert tiers[1..] == rest;
      StreamFollowsTiers(data, k + 1, count, marketCap,
                         if marketCap >= tiers[0].marketCapThreshold then tiers[0].fees else selected);
    }
  }

  /** Whenever the configuration parses, streaming selects exactly the fees, or the error, of the parsed selection, for
      any tier order. */
  lemma StreamingRefinesParsed(data: seq<u8>, global: PumpFees, isPumpPool: bool, mintSupply: u64, baseReserve: u64,
                               effectiveQuoteReserve: u64)
    requires ParseConfig(data).Ok?
    ensures Stream(data, global, isPumpPool, mintSupply, baseReserve, effectiveQuoteReserve)
         == Select(Some(ParseConfig(data).value), global, isPumpPool, mintSupply, baseReserve, effectiveQuoteReserve)
  {
    hide MarketCap, ReadU32, ReadU128, ParseFees, StreamFrom, SelectFrom;
    var count := ReadU32(data, FLAT_OFFSET + 24).value;
    var tiers := ParseConfig(data).value.tiers;
    assert ParseTier(data, TIERS_OFFSET).Ok? && tiers[0] == ParseTier(data, TIERS_OFFSET).value;
    if isPumpPool && baseReserve > 0 && MarketCap(effectiveQuoteReserve, mintSupply, baseReserve).Ok? {
      StreamFollowsTiers(data, 0, count, MarketCap(effectiveQuoteReserve, mintSupply, baseReserve).value,
                         tiers[0].fees);
    }
  }

  // --- which tier is selected ---

  /** The selection is the last tier that qualifies, or the starting one when none does. */
  lemma {:induction false} SelectsLastQualifying(tiers: seq<FeeTier>, marketCap: u128, selected: PumpFees, last: int)
    requires -1 <= last < |tiers|
    requires last >= 0 ==> tiers[last].marketCapThreshold <= marketCap
    requires forall i :: last < i < |tiers| ==> marketCap < tiers[i].marketCapThreshold
    ensures SelectFrom(tiers, marketCap, selected) == if last < 0 then selected else tiers[last].fees
    decreases |tiers|
  {
    if |tiers| > 0 {
      var next := if marketCap >= tiers[0].marketCapThreshold then tiers[0].fees else selected;
      assert last < 0 ==> marketCap < tiers[0].marketCapThreshold;
      SelectsLastQualifying(tiers[1..], marketCap, next, if last < 0 then -1 else last - 1);
    }
  }

  predicate AscendingThresholds(tiers: seq<FeeTier>) {
    forall i, j :: 0 <= i < j < |tiers| ==> tiers[i].marketCapThreshold < tiers[j].marketCapThreshold
  }

  /** With ascending thresholds the selection is the tier of the greatest threshold not above the market cap, or the
      first tier when none qualifies. */
  lemma SelectsGreatestThreshold(tiers: seq<FeeTier>, marketCap: u128, k: nat)
    requires AscendingThresholds(tiers) && k < |tiers|
    ensures (tiers[k].marketCapThreshold <= marketCap
             && forall i :: 0 <= i < |tiers| && tiers[i].marketCapThreshold <= marketCap ==>
                  tiers[i].marketCapThreshold <= tiers[k].marketCapThreshold)
            ==> SelectFrom(tiers, marketCap, tiers[0].fees) == tiers[k].fees
    ensures marketCap < tiers[0].marketCapThreshold ==> SelectFrom(tiers, marketCap, tiers[0].fees) == tiers[0].fees
  {
    hide SelectFrom;
    if marketCap < tiers[0].marketCapThreshold {
      SelectsLastQualifying(tiers, marketCap, tiers[0].fees, -1);
    } else if tiers[k].marketCapThreshold <= marketCap
           && forall i :: 0 <= i < |tiers| && tiers[i].marketCapThreshold <= marketCap ==>
                tiers[i].marketCapThreshold <= tiers[k].marketCapThreshold {
      SelectsLastQualifying(tiers, marketCap, tiers[0].fees, k);
    }
  }
}
