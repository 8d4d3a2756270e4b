/** When the quote of a built curve is a nondecreasing function of the amount. */
module CurveMonotone {
  import opened Arithmetic
  import opened BinQuote
  import opened BinCapacity
  import opened BinWalk
  import opened DlmmCurve
  import opened CurveBuild
  import opened CurveShape
  import opened CurveRefinement

  /** Every covered amount is quoted, and a larger one never for less. */
  predicate InOrder(segments: seq<Segment>, a: u64, b: u64) {
    0 < a <= b <= LargestCompleteInput(segments) ==>
      && QuoteAt(segments, a).Ok? && QuoteAt(segments, b).Ok?
      && QuoteAt(segments, a).value.amountOut <= QuoteAt(segments, b).value.amountOut
  }

  /** The curve is one segment that spans every input, and one unit below the largest its quote rounds past the side. */
  ghost predicate RoundsPastItsEnd(segments: seq<Segment>) {
    |segments| > 0 && exists side :: Saturated(segments[0], side) && RoundsPastTheSide(side, U64_MAX, U64_MAX - 1)
  }

  // --- one saturated segment ---

  /** The output of an input to a saturated side, as far as it is representable. */
  lemma SaturatedQuote(segment: Segment, side: Side, a: u64)
    requires Saturated(segment, side) && segment.outputStart < segment.outputEnd && 0 < a < U64_MAX
    ensures var inside := OutFor(Net(a, side.rate), side.price, side.swapForY);
            && (segment.outputStart + inside <= U64_MAX ==>
                  SegmentQuote(segment, a) == Ok(CurveQuote(segment.outputStart + inside, segment.used)))
            && (SegmentQuote(segment, a).Ok? ==>
                  SegmentQuote(segment, a).value.amountOut == segment.outputStart + inside)
  {
    hide Net, OutFor, InFor, ExcludedFee, AmountOutForIn;
    ExcludedFeeIsNet(a, side.rate);
    var net := Net(a, side.rate);
    if OutFor(net, side.price, side.swapForY) <= U64_MAX {
      AmountOutIsOutFor(net, side.price, side.swapForY);
    } else if AmountOutForIn(net, side.price, side.swapForY).Ok? {
      ConvertedIsOutFor(net, side.price, side.swapForY);
    }
  }

  lemma SaturatedEnd(segment: Segment, side: Side)
    requires Saturated(segment, side) && segment.outputStart < segment.outputEnd
    ensures SegmentQuote(segment, U64_MAX) == Ok(CurveQuote(segment.outputEnd, segment.used))
  {
    hide Net, OutFor, InFor;
  }

  /** Below the largest input, the net input stays below the side's or rounds past it only where the condition says. */
  lemma SaturatedInside(segment: Segment, side: Side, a: u64)
    requires Saturated(segment, side) && 0 < a < U64_MAX && !RoundsPastTheSide(side, U64_MAX, U64_MAX - 1)
    ensures OutFor(Net(a, side.rate), side.price, side.swapForY) <= segment.outputEnd - segment.outputStart
  {
    hide Net, OutFor, InFor;
    NetMono(a, U64_MAX - 1, side.rate);
    NetMono(U64_MAX - 1, U64_MAX, side.rate);
    OutForMono(Net(a, side.rate), Net(U64_MAX, side.rate), side.price, side.swapForY);
    InForIsLeast(Net(a, side.rate), side.maxOut, side.price, side.swapForY);
  }

  lemma SaturatedMono(segment: Segment, side: Side, a: u64, b: u64)
    requires Saturated(segment, side) && segment.outputStart < segment.outputEnd && 0 < a <= b
    requires !RoundsPastTheSide(side, U64_MAX, U64_MAX - 1)
    ensures SegmentQuote(segment, a).Ok? && SegmentQuote(segment, b).Ok?
    ensures SegmentQuote(segment, a).value.amountOut <= SegmentQuote(segment, b).value.amountOut
  {
    hide Net, OutFor, InFor, SegmentQuote, Saturated, RoundsPastTheSide;
    SaturatedEnd(segment, side);
    SaturatedPrice(segment, side);
    if a < U64_MAX {
      SaturatedInside(segment, side, a);
      SaturatedQuote(segment, side, a);
    }
    if b < U64_MAX {
      SaturatedInside(segment, side, b);
      SaturatedQuote(segment, side, b);
      NetMono(a, b, side.rate);
      OutForMono(Net(a, side.rate), Net(b, side.rate), side.price, side.swapForY);
    }
  }

  lemma SaturatedPrice(segment: Segment, side: Side)
    requires Saturated(segment, side)
    ensures side.price > 0
  {
  }

  /** Where it rounds past the side, one unit below the largest input is quoted for more than the largest, or not at
      all. */
  lemma SaturatedDrops(segment: Segment, side: Side)
    requires Saturated(segment, side) && segment.outputStart < segment.outputEnd
    requires RoundsPastTheSide(side, U64_MAX, U64_MAX - 1)
    ensures SegmentQuote(segment, U64_MAX) == Ok(CurveQuote(segment.outputEnd, segment.used))
    ensures SegmentQuote(segment, U64_MAX - 1).Ok? ==>
              SegmentQuote(segment, U64_MAX - 1).value.amountOut > segment.outputEnd
  {
    hide Net, OutFor, InFor, SegmentQuote;
    SaturatedEnd(segment, side);
    SaturatedQuote(segment, side, U64_MAX - 1);
    NetMono(U64_MAX - 1, U64_MAX, side.rate);
    InForIsLeast(side.maxIn, side.maxOut, side.price, side.swapForY);
  }

  // --- built curves ---

  /** A built curve that starts with a segment over every input has no other. */
  lemma SaturatedIsAlone(segments: seq<Segment>)
    requires Contiguous(segments, 0, 0) && |segments| > 0 && segments[0].inputEnd == U64_MAX
    ensures |segments| == 1
  {
    hide Contiguous;
    ContiguousInOrder(segments, 0, 0);
    var last := segments[|segments| - 1];
    assert last.inputStart < last.inputEnd;
  }

  /** A later segment never spans every input, so it is measured. */
  lemma LaterIsMeasured(segments: seq<Segment>, i: nat)
    requires Contiguous(segments, 0, 0) && 0 < i < |segments| && Recorded(segments[i])
    ensures Measured(segments[i])
  {
    hide Contiguous, Measured, Saturated;
    ContiguousInOrder(segments, 0, 0);
    assert segments[0].inputEnd <= segments[i].inputStart;
    if !Measured(segments[i]) {
      var side :| Saturated(segments[i], side);
      SaturatedSpans(segments[i], side);
    }
  }

  lemma SegmentsInOrder(segments: seq<Segment>, a: u64, b: u64)
    requires Contiguous(segments, 0, 0) && forall i :: 0 <= i < |segments| ==> Recorded(segments[i])
    requires !RoundsPastItsEnd(segments)
    ensures InOrder(segments, a, b)
  {
    hide Contiguous, Measured, Saturated, RoundsPastTheSide, QuoteAt, SegmentQuote;
    if 0 < a <= b <= LargestCompleteInput(segments) {
      forall i | 0 < i < |segments| ensures Measured(segments[i]) {
        LaterIsMeasured(segments, i);
      }
      if Measured(segments[0]) {
        CurveQuoteMono(segments, a, b);
      } else {
        var side :| Saturated(segments[0], side);
        SaturatedSpans(segments[0], side);
        ContiguousInOrder(segments, 0, 0);
        assert segments == [segments[0]] + segments[1..];
        LookupFindsFirst(segments[0], segments[1..], a);
        LookupFindsFirst(segments[0], segments[1..], b);
        SaturatedMono(segments[0], side, a, b);
      }
    }
  }

  lemma SaturatedSpans(segment: Segment, side: Side)
    requires Saturated(segment, side)
    ensures segment.inputStart == 0 && segment.inputEnd == U64_MAX
  {
  }

  /** A built curve is quoted on its whole coverage, and never for less as the amount grows, exactly when it does not
      round past its end. */
  lemma BuiltQuoteMonoIff(view: View, inputLimit: u64)
    requires Build(view, inputLimit).Ok?
    ensures var segments := Build(view, inputLimit).value.segments;
            (forall a: u64, b: u64 :: InOrder(segments, a, b)) <==> !RoundsPastItsEnd(segments)
  {
    hide BuildFrom, Contiguous, Recorded, RoundsPastTheSide, InOrder, Net, OutFor, InFor;
    var segments := Build(view, inputLimit).value.segments;
    var scan := Prepare(view).value;
    BuildIsContiguous(scan, inputLimit, MAX_VISITED, view.pair.activeId, 0, 0, []);
    BuildIsRecorded(scan, inputLimit, MAX_VISITED, view.pair.activeId, 0, 0, []);
    if RoundsPastItsEnd(segments) {
      var side :| Saturated(segments[0], side) && RoundsPastTheSide(side, U64_MAX, U64_MAX - 1);
      EndIsOutOfOrder(segments, side);
    } else {
      forall a: u64, b: u64 ensures InOrder(segments, a, b) {
        SegmentsInOrder(segments, a, b);
      }
    }
  }

  lemma EndIsOutOfOrder(segments: seq<Segment>, side: Side)
    requires Contiguous(segments, 0, 0) && |segments| > 0 && Saturated(segments[0], side)
    requires RoundsPastTheSide(side, U64_MAX, U64_MAX - 1)
    ensures !InOrder(segments, U64_MAX - 1, U64_MAX)
  {
    hide Contiguous, Saturated, RoundsPastTheSide, QuoteAt, SegmentQuote;
    SaturatedSpans(segments[0], side);
    ContiguousInOrder(segments, 0, 0);
    SaturatedIsAlone(segments);
    assert segments == [segments[0]] + [];
    LookupFindsFirst(segments[0], [], U64_MAX - 1);
    LookupFindsFirst(segments[0], [], U64_MAX);
    SaturatedDrops(segments[0], side);
  }

  /** With per-bin capacities below the largest input, every built curve is monotone, whatever its fees. */
  lemma BuiltQuoteMono(view: View, inputLimit: u64, a: u64, b: u64)
    requires Build(view, inputLimit).Ok?
    requires var segments := Build(view, inputLimit).value.segments;
             |segments| > 0 ==> segments[0].inputEnd < U64_MAX
    ensures InOrder(Build(view, inputLimit).value.segments, a, b)
  {
    hide Build, RoundsPastTheSide, InOrder;
    BuiltQuoteMonoIff(view, inputLimit);
  }
}
