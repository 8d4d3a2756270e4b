/** Little-endian reads from account data. */
module Bytes {
  import opened Arithmetic
  import opened Powers

  function Pow256(n: nat): nat {
    if n == 0 then 1 else 256 * Pow256(n - 1)
  }

  /** The number whose little-endian digits are the given bytes. */
  function FromLittleEndian(digits: seq<u8>): (v: nat)
    ensures v < Pow256(|digits|)
  {
    if |digits| == 0 then 0 else digits[0] + 256 * FromLittleEndian(digits[1..])
  }

  /** The bytes at an offset, when the account is long enough to hold them. */
  function Slice(data: seq<u8>, offset: nat, length: nat): Result<seq<u8>, QuoteError> {
    if offset + length <= |data| then Ok(data[offset..offset + length]) else Err(InvalidInput)
  }

  function ReadU32(data: seq<u8>, offset: nat): Result<u32, QuoteError> {
    var digits :- Slice(data, offset, 4);
    assert Pow256(4) == U32_MAX + 1;
    Ok(FromLittleEndian(digits))
  }

  function ReadU64(data: seq<u8>, offset: nat): Result<u64, QuoteError> {
    var digits :- Slice(data, offset, 8);
    assert Pow256(8) == 256 * (256 * (256 * (256 * Pow256(4))));
    Ok(FromLittleEndian(digits))
  }

  function ReadU128(data: seq<u8>, offset: nat): Result<u128, QuoteError> {
    var digits :- Slice(data, offset, 16);
    assert Pow256(8) == 256 * (256 * (256 * (256 * Pow256(4))));
    assert Pow256(12) == 256 * (256 * (256 * (256 * Pow256(8))));
    assert Pow256(16) == 256 * (256 * (256 * (256 * Pow256(12))));
    Ok(FromLittleEndian(digits))
  }

  /** Whether a bit of a word is set. */
  predicate TestBit(word: u64, bit: nat) {
    DivDown(word, Pow2(bit)) % 2 == 1
  }
}
