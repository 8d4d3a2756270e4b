/** The piecewise curve: contiguous segments in a fixed buffer, answered by binary search. */
module DlmmCurve {
  import opened Arithmetic
  import opened BinQuote
  import opened BinWalk

  datatype StopReason =
    | InputLimitReached
    | MissingBinArray
    | BinArrayLimitReached
    | VisitedBinLimitReached
    | NoUsableLiquidity

  datatype Segment = Segment(
    inputStart: u64,
    inputEnd: u64,
    outputStart: u64,
    outputEnd: u64,
    priceQ64: u128,
    feeRate: u64,
    swapForY: bool,
    feeOnInput: bool,
    used: seq<i64>) {
    /** Both capacities can be taken by plain subtraction. */
    predicate Ordered() {
      inputStart <= inputEnd && outputStart <= outputEnd
    }

    function InputCapacity(): u64
      requires Ordered()
    {
      inputEnd - inputStart
    }

    function OutputCapacity(): u64
      requires Ordered()
    {
      outputEnd - outputStart
    }
  }

  const EMPTY_SEGMENT: Segment := Segment(0, 0, 0, 0, 0, 0, false, false, [])

  /** The curve as a value. */
  datatype CurveData = CurveData(segments: seq<Segment>, visited: nat, stop: StopReason)

  datatype CurveQuote = CurveQuote(amountOut: u64, used: seq<i64>)

  function LargestCompleteInput(segments: seq<Segment>): u64 {
    if |segments| == 0 then 0 else segments[|segments| - 1].inputEnd
  }

  /** Input ends strictly increase, which is what the lookup relies on. */
  predicate Ascending(segments: seq<Segment>) {
    forall i, j :: 0 <= i < j < |segments| ==> segments[i].inputEnd < segments[j].inputEnd
  }

  /** The first segment whose end is not below the amount. */
  function FirstCovering(segments: seq<Segment>, amountIn: u64): (k: nat)
    ensures k <= |segments|
    ensures forall i :: 0 <= i < k ==> segments[i].inputEnd < amountIn
    ensures k < |segments| ==> amountIn <= segments[k].inputEnd
  {
    if |segments| == 0 || amountIn <= segments[0].inputEnd then 0
    else
      var rest := FirstCovering(segments[1..], amountIn);
      assert forall i :: 1 <= i < 1 + rest ==> segments[i] == segments[1..][i - 1];
      1 + rest
  }

  /** A segment's quote; capacities are plain differences, which no built segment makes negative. */
  function SegmentQuote(segment: Segment, amountIn: u64): Result<CurveQuote, QuoteError> {
    var remaining :- Fit64(amountIn - segment.inputStart);
    if remaining == 0 then Ok(CurveQuote(segment.outputStart, segment.used))
    else
      var capacityIn :- Fit64(segment.inputEnd - segment.inputStart);
      var capacityOut :- Fit64(segment.outputEnd - segment.outputStart);
      var inside :- OutputWithinCapacity(remaining, capacityIn, capacityOut, segment.priceQ64,
                                         segment.swapForY, segment.feeOnInput, segment.feeRate);
      var out :- Fit64(segment.outputStart + inside);
      Ok(CurveQuote(out, segment.used))
  }

  function QuoteAt(segments: seq<Segment>, amountIn: u64): Result<CurveQuote, QuoteError> {
    if amountIn == 0 then Err(InvalidInput)
    else
      var k := FirstCovering(segments, amountIn);
      if k == |segments| then Err(InsufficientLiquidity) else SegmentQuote(segments[k], amountIn)
  }

  class DlmmCurve {
    const segments: array<Segment>
    var len: nat
    var visitedBins: nat
    var stopReason: StopReason

    predicate Valid()
      reads this
    {
      segments.Length == MAX_VISITED && len <= MAX_VISITED
    }

    function Segments(): seq<Segment>
      requires Valid()
      reads this, segments
    {
      segments[..len]
    }

    function Data(): CurveData
      requires Valid()
      reads this, segments
    {
      CurveData(Segments(), visitedBins, stopReason)
    }

    constructor ()
      ensures Valid() && fresh(segments)
      ensures Data() == CurveData([], 0, VisitedBinLimitReached)
    {
      segments := new Segment[MAX_VISITED](_ => EMPTY_SEGMENT);
      len, visitedBins, stopReason := 0, 0, VisitedBinLimitReached;
    }

    method Clear()
      requires Valid()
      modifies this
      ensures Valid() && Data() == CurveData([], 0, VisitedBinLimitReached)
    {
      len, visitedBins, stopReason := 0, 0, VisitedBinLimitReached;
    }

    /** Appends a segment, or fails and changes nothing when the buffer is full. */
    method Push(segment: Segment) returns (r: Result<(), ArbError>)
      requires Valid()
      modifies this`len, segments
      ensures Valid()
      ensures r.Ok? <==> old(len) < MAX_VISITED
      ensures Segments() == if r.Ok? then old(Segments()) + [segment] else old(Segments())
      ensures r.Err? ==> r.error == BestDirectionQuoteIncomplete
    {
      if len >= segments.Length {
        return Err(BestDirectionQuoteIncomplete);
      }
      segments[len] := segment;
      len := len + 1;
      return Ok(());
    }

    /** The binary search finds the first covering segment. */
    method Quote(amountIn: u64) returns (r: Result<CurveQuote, QuoteError>)
      requires Valid() && Ascending(Segments())
      ensures r == QuoteAt(Segments(), amountIn)
    {
      hide SegmentQuote;
      if amountIn == 0 {
        return Err(InvalidInput);
      }
      var all := Segments();
      var lower, upper := 0, len;
      while lower < upper
        invariant 0 <= lower <= upper <= len
        invariant forall i :: 0 <= i < lower ==> all[i].inputEnd < amountIn
        invariant forall i :: upper <= i < len ==> amountIn <= all[i].inputEnd
      {
        var midpoint := lower + (upper - lower) / 2;
        assert segments[midpoint] == all[midpoint];
        if amountIn <= segments[midpoint].inputEnd {
          upper := midpoint;
        } else {
          lower := midpoint + 1;
        }
      }
      var k := FirstCovering(all, amountIn);
      assert k < len ==> amountIn <= all[k].inputEnd;
      assert lower < len ==> amountIn <= all[lower].inputEnd;
      assert k == lower;
      if lower == len {
        return Err(InsufficientLiquidity);
      }
      return SegmentQuote(segments[lower], amountIn);
    }
  }
}
