/** Which array, offset and bitmap bit a bin id belongs to. */
module Addressing {
  import opened Arithmetic
  import opened Bytes

  const BINS_PER_ARRAY: int := 70
  const BITMAP_WORDS: int := 512
  const EXTENSION_CHUNKS: int := 12
  const EXTENSION_HEADER: int := 8 + 32
  const EXTENSION_SIDE_BYTES: int := 12 * 8 * 8

  type DefaultBitmap = words: seq<u64> | |words| == 16 witness seq(16, i => 0)

  function BinArrayIndex(binId: i32): i64 {
    binId / BINS_PER_ARRAY
  }

  function BinOffset(binId: i32, arrayIndex: i64): (offset: Result<nat, QuoteError>)
    ensures offset.Ok? ==> offset.value < BINS_PER_ARRAY
  {
    if !(I64_MIN <= arrayIndex * BINS_PER_ARRAY <= I64_MAX) then Err(MathOverflow)
    else
      var offset := binId - arrayIndex * BINS_PER_ARRAY;
      if !(I64_MIN <= offset <= I64_MAX) then Err(MathOverflow)
      else if 0 <= offset < BINS_PER_ARRAY then Ok(offset)
      else Err(InvalidInput)
  }

  predicate InDefaultBitmap(arrayIndex: i64) {
    -512 <= arrayIndex <= 511
  }

  predicate DefaultBitmapContains(bitmap: DefaultBitmap, arrayIndex: i64) {
    InDefaultBitmap(arrayIndex) &&
    var bit := arrayIndex + 512;
    TestBit(bitmap[bit / 64], bit % 64)
  }

  /** The byte offset of the word and the bit inside it that stand for an array outside the default bitmap. */
  function ExtensionPosition(arrayIndex: i64): Option<(nat, nat)>
    requires !InDefaultBitmap(arrayIndex)
  {
    var (sideOffset, relative) := if arrayIndex >= 512 then (EXTENSION_HEADER, arrayIndex)
                                  else (EXTENSION_HEADER + EXTENSION_SIDE_BYTES, -(arrayIndex + 1));
    var chunk, bit := relative / BITMAP_WORDS - 1, relative % BITMAP_WORDS;
    if !(0 <= chunk < EXTENSION_CHUNKS) then None
    else Some((sideOffset + chunk * 64 + bit / 64 * 8, bit % 64))
  }

  function ExtensionBitmapContains(data: seq<u8>, arrayIndex: i64): Result<bool, QuoteError> {
    if InDefaultBitmap(arrayIndex) then Ok(false)
    else
      match ExtensionPosition(arrayIndex)
      case None => Ok(false)
      case Some((offset, bit)) =>
        var word :- ReadU64(data, offset);
        Ok(TestBit(word, bit))
  }

  /** Array index and offset together recover every bin id, and no other array accepts it. */
  lemma AddressRecoversBin(binId: i32, arrayIndex: i64)
    ensures BinOffset(binId, arrayIndex).Ok? <==> arrayIndex == BinArrayIndex(binId)
    ensures BinOffset(binId, BinArrayIndex(binId)).Ok?
    ensures BinArrayIndex(binId) * BINS_PER_ARRAY + BinOffset(binId, BinArrayIndex(binId)).value == binId
  {
  }

  /** The arrays that have an extension bit. */
  predicate InExtension(arrayIndex: int) {
    -6656 <= arrayIndex <= -513 || 512 <= arrayIndex <= 6655
  }

  /** The rank of an extension bit in the account, counting from the first bit after the header. */
  function BitRank(position: (nat, nat)): int {
    (position.0 - EXTENSION_HEADER) * 8 + position.1
  }

  /** The array whose bit has a given rank. */
  function ArrayOfRank(rank: int): int {
    if rank < 6144 then rank + 512 else -(rank - 6144) - 513
  }

  /** Arrays outside the default bitmap have a bit exactly in the extension's range. */
  lemma ExtensionDomain(arrayIndex: i64)
    requires !InDefaultBitmap(arrayIndex)
    ensures ExtensionPosition(arrayIndex).Some? <==> InExtension(arrayIndex)
  {
  }

  /** The extension's positions are one-to-one onto its 12288 bits, each inside an aligned word of the account. */
  lemma ExtensionBijection(arrayIndex: i64, rank: int)
    ensures !InDefaultBitmap(arrayIndex) && InExtension(arrayIndex) ==>
              var position := ExtensionPosition(arrayIndex).value;
              && 0 <= BitRank(position) < 12288
              && ArrayOfRank(BitRank(position)) == arrayIndex
              && position.1 < 64 && (position.0 - EXTENSION_HEADER) % 8 == 0
    ensures 0 <= rank < 12288 ==>
              && InExtension(ArrayOfRank(rank))
              && ExtensionPosition(ArrayOfRank(rank)).Some?
              && BitRank(ExtensionPosition(ArrayOfRank(rank)).value) == rank
  {
    if InExtension(arrayIndex) {
      ExtensionRank(arrayIndex);
    }
    if 0 <= rank < 12288 {
      ExtensionRank(ArrayOfRank(rank));
    }
  }

  lemma ExtensionRank(arrayIndex: i64)
    requires InExtension(arrayIndex)
    ensures ExtensionPosition(arrayIndex).Some?
    ensures var position := ExtensionPosition(arrayIndex).value;
            && BitRank(position) == (if arrayIndex >= 512 then arrayIndex - 512 else 6144 - arrayIndex - 513)
            && position.1 < 64 && (position.0 - EXTENSION_HEADER) % 8 == 0
  {
  }
}
