# Bounded amount selection over Pump and Meteora quotes

The executor chooses how much WSOL to send round a two-leg route between a Pump constant-product pool and a Meteora DLMM pair, and in which
direction. This project models the integer quote engine under that choice and the bounded optimiser on top of it, with the 64-bit and 128-bit
limits, both roundings, every error result, the volatility state that a walk overwrites, and the bounded buffers:

- **Quotes.** Pump buys and sells with three separately rounded-up fees (`PumpQuote`), and the fill of one DLMM bin with the fee on the input or
  on the output (`BinQuote`, `BinList`, `BinCapacity`).
- **Walks.** At most 16 bins and 2 arrays, guided by the pair's bitmap and its extension, over accounts (`BinWalk`) or over parsed arrays
  (`Snapshot`), with the addressing arithmetic (`Addressing`) and the pair's volatility state (`LbPair`).
- **The curve.** One pass turns a walk into segments (`CurveBuild`), a binary search answers amounts from them (`DlmmCurve`);
  `CurveShape`, `CurveRefinement` and `CurveMonotone` prove what a curve is, `RefinementLimits` where the proof must stop.
- **The search.** Closed-form boundary samples and the coverage search (`PumpBoundary`, `BoundaryGap`), interior candidates
  with their floating format and square-root prefilter (`NormalizedNumbers`, `NormalizedAccuracy`, `Powers`, `Interior`, `InteriorOptimum`),
  candidate evaluation (`Candidates`, `Search`), and the staged choice between the two directions
  (`Selection`, `SelectionProperties`, `ExpansionGate`, `PriceBound`).
- **Fee tiers.** Selection of Pump's fees from parsed or raw configuration data (`FeeTiers`).

Code of the executor that updates state is modelled as methods and classes with loops and fixed arrays, each proved equal to a function; the
properties are then proved about those functions. The main results:

1. *The curve refines the walk.* `CurveRefinesWalk`, `NothingBeyondCoverage` and `CutAnswersAlike` hold for every amount, every
   input limit and every market without the corner cases named below; `Snapshot` adds that the windowed and the whole snapshot quote agree
   with the same walk, and `BuiltQuoteMonoIff` says exactly when the curve's quote never falls.
2. *The prefilter is transparent.* Skipping a square root never changes a candidate, for all reserves and segments, although the compared
   squares are truncated twice.
3. *Selection is sound, and its refusals are honest.* A selected amount is the best of everything evaluated, with an exact output equal to the
   fixed-amount route's; a refusal says "no profit" only when both minimum quotes are complete.
4. *Widening and parity.* Raising the maximum keeps a profitable minimum (forwards, with room on the curve), and min = max
   selects what the fixed-amount instruction selects.

## Where the code and its documentation disagree

The model follows the code. Each disagreement is a theorem here: an input at which the text fails, and what holds instead.

- `programs/sol-arb-executor/src/instructions/dynamic_amount.rs:1111` and `docs/architecture-decisions.md:112-113` call Pump output monotone in
  the input. It is not (`BuyIsNotMonotone`). `BuyOutputDropsIff` says exactly at which inputs a smaller one buys more output,
  `BuyDropsIff` the same of the effective quote, `BuyAlmostMonotone` bounds the loss by one unit, and `TwoFeesAreMonotone` shows that three
  non-zero fees are needed. The coverage search that relies on monotonicity is still within five lamports (`CoverageSearchAccurate`).
- `programs/sol-arb-executor/src/quote/math.rs:309-312` calls compact segment quoting algebraically identical to the one-bin partial quote.
  It is so for every capacity below u64::MAX (`CompactionIsExact`), not at u64::MAX (`CompactionFailsAtTheLargestInput`); `CompactionIff` gives
  the exact inputs for which the two agree.
- `docs/architecture-decisions.md:136-138` speaks of a gap within eight lamports. `BoundaryGapIff` gives the exact condition for each pool and
  target. The gap is within eight for all of them up to total fees of 40006 basis points (`EightLamports`), and no further: `NineLamports` has a
  pool with 40007.
- Under an output fee a bin with exactly one output unit is left out of the curve but consumes input in the walk (`SkipsLiquidityIff`,
  `OneUnitBinIsLost`). Under an input fee a bin can take one dust unit more than its capacity (`FillBeyondCapacity`). The refinement of the walk
  by the curve therefore needs three conditions, and `RefinementLimits` shows that none of them can be dropped.
- `docs/architecture-decisions.md:172-177` says that a direction without positive spread at the minimum cannot become profitable. Rounding breaks
  it: `GateShutsOutProfit` has a market in which the minimum pays less than it costs and a larger amount in the range earns a profit.
  `OpensIffRoutePays` says what the gate decides instead, and `NothingToFind` names a price condition, after fees, under which the gate loses
  nothing. `WorthlessMinimumStaysShut` names a family that the gate shuts out without a complete minimum quote, so the text does not speak of it.
  `SelectionIsSound` speaks of the amounts that are evaluated.

## Laws of the definitions

The statements above speak through the model's own definitions. Each of these is fixed by laws that do not use it: the positions of a walk
and what rests there (`WalkLaws`, `BinLaws`), volatility and fee rates from the reference outwards (`PairLaws`), the bitmaps as numbers
(`BitmapLaws`), the products of the pool's reserves (`PumpLaws`), the encoding of fee tiers (`FeeTierLaws`), stop reasons and coverage
(`CurveLaws`), the candidates segment by segment (`CandidateLaws`), and which search a direction ends up with (`SelectionLaws`).

## Definitions the statements rest on

All paths of this list are under `programs/sol-arb-executor/src/`.

- `PumpQuote.BuyExactQuoteIn`, `SellBaseIn`: `quote/math.rs:57-164`. `EffectiveQuote`, `TotalWithFees` and `LargestAffordable` are the same
  quantities on unbounded numbers, and the independent optimum they are compared with.
- `BinQuote.TotalFeeRate`, `ExcludedFee`, `IncludedFee`, `AmountInForOut`, `AmountOutForIn`: `quote/math.rs:166-261`; `FillBin` is one pass of
  the loop at `quote/math.rs:354-411`; `OutputWithinCapacity`: `quote/math.rs:313-335`. `Net`, `Gross`, `InFor`, `OutFor` are the conversions on
  unbounded numbers.
- `BinCapacity.Capacity`: `quote/math.rs:290-307`. `Side` is everything about a bin that decides its fills.
- `LbPair.Referenced`, `AccumulatorAt`, `FeeOnInput`, `SupportsLimitOrders`: `quote/accounts.rs:408-469`.
- `BinWalk.VisitBin` and `Walk`: `instructions/best_direction.rs:284-384`. A `View` is a pair, its parsed bin arrays, the bitmap extension's
  bytes, a swap direction and a clock.
- `Snapshot.Parse`, `ParseWindow`, `SnapshotOf`: `quote/accounts.rs:292-318` and `491-590`.
- `CurveBuild.Build`: `instructions/dynamic_amount.rs:753-872`; `DlmmCurve.QuoteAt`: `instructions/dynamic_amount.rs:157-202`.
- `PumpBoundary.InputAtOrBelowTargetOut`: `instructions/dynamic_amount.rs:1126-1156`.
- `Interior.ForwardInterior`, `ReverseInterior`, `DefinitelyExcludes`: `instructions/dynamic_amount.rs:1172-1252` and `1384-1401`; their last
  parameter switches the prefilter on, as in the program, or off.
- `Candidates.BetterChoice`, `SummaryOf`: `instructions/dynamic_amount.rs:992-1043` and `1260-1263`.
- `Search.Gather`, `SearchOf`: `instructions/dynamic_amount.rs:874-990`. `Selection.Probe`, `Decide`, `SelectDynamic`:
  `instructions/dynamic_amount.rs:377-704`. `Selection.SelectFixed`: `instructions/best_direction.rs:189-282`.
- `FeeTiers.Select`, `Stream`: `quote/accounts.rs:151-244`.
- `CurveRefinement.TameView`: the market condition of the refinement, on what the pass visits and builds. A bin's capacity is below u64::MAX, or
  the bin pays something at that input and is quoted exactly one unit below it; no positive output fee takes a bin's only unit; and no segment
  with a positive input fee is followed by one without (`CurveShape.NoFreeDust`). `TameBins` leaves the last part out.
- `BoundaryGap.LeastReaching`: the least input whose Pump output reaches a target, in closed form; `PumpQuote.LosesUnit`: the inputs at which the
  correction of a buy loses an affordable unit.

## Model

| member | source | states |
|---|---|---|
| `CurveRefinement.CurveRefinesWalk` | programs/sol-arb-executor/src/instructions/dynamic_amount.rs:753-872 | Main result. When the bins that the pass visits are tame and no segment with a positive input fee is followed by a free one, every amount from 1 to the coverage of the built curve completes in the raw-account walk with exactly the output of the curve, and the walk's used arrays are a prefix of the curve's. |
| `CurveRefinement.FullSegmentAgrees` | programs/sol-arb-executor/src/instructions/dynamic_amount.rs:157-202 | At a bin that takes the largest input, curve and walk agree on every amount if they do one unit below that input. |
| `CurveRefinement.NothingBeyondCoverage` | programs/sol-arb-executor/src/instructions/dynamic_amount.rs:782-871 | When the pass was not stopped by its input limit, the account walk over tame bins fails for every amount more than one unit past the coverage, whatever the fees. |
| `CurveRefinement.CurveRefinesWalkFrom` | programs/sol-arb-executor/src/instructions/best_direction.rs:284-376 | The refinement in inductive form: from any common bin, totals, remaining input and used arrays, the rest of the walk ends as the rest of the curve says. |
| `CurveRefinement.NothingBeyondCoverageFrom` | programs/sol-arb-executor/src/instructions/dynamic_amount.rs:782-871 | The inductive form of the coverage bound, with the one unit of dust an input fee can leave in a bin. |
| `CurveRefinement.WalkOverSegment` | programs/sol-arb-executor/src/instructions/best_direction.rs:345-369 | The walk's step over a bin that became a segment: it takes the whole bin (or the rest of the input), and at most one dust unit more. |
| `CurveRefinement.DustBuysNothing` | programs/sol-arb-executor/src/quote/math.rs:390-396 | One unit into a segment with a positive input fee buys nothing, so a swallowed dust unit changes no output. |
| `CurveRefinement.CutAnswersAlike` | programs/sol-arb-executor/src/instructions/dynamic_amount.rs:753-872 | A curve cut at a lower input limit answers every amount up to that limit as the curve with the higher limit does, in outputs, arrays and errors. |
| `CurveRefinement.LowerLimitCuts` | programs/sol-arb-executor/src/instructions/dynamic_amount.rs:852-857 | The cut curve is the other curve, or its prefix up to a segment that covers the lower limit. |
| `CurveRefinement.LimitIsCovered` | programs/sol-arb-executor/src/instructions/dynamic_amount.rs:852-857 | A curve that stopped on its input limit covers the limit. |
| `CurveRefinement.UniqueSegment` | programs/sol-arb-executor/src/instructions/dynamic_amount.rs:164-177 | On a built curve the lookup finds the segment that contains the amount, and no other segment contains it. |
| `CurveRefinement.SegmentQuoteMono` | programs/sol-arb-executor/src/instructions/dynamic_amount.rs:157-202 | Within one measured segment, whatever its fee, outputs are quoted, never fall and stay between the segment's output ends. |
| `CurveMonotone.BuiltQuoteMono` | programs/sol-arb-executor/src/instructions/dynamic_amount.rs:157-202 | The quote of every curve that the pass builds from bins of capacity below u64::MAX succeeds on the whole coverage and never falls as the amount grows, whatever the fees. |
| `CurveMonotone.BuiltQuoteMonoIff` | programs/sol-arb-executor/src/instructions/dynamic_amount.rs:782-871 | For every built curve: its quote succeeds on the whole coverage and never falls if and only if the curve is not a single segment over every input whose side, one unit below the largest input, rounds past its liquidity. |
| `CurveRefinement.CurveQuoteMono` | programs/sol-arb-executor/src/instructions/dynamic_amount.rs:157-202 | The quote of contiguous measured segments never fails inside the coverage and never falls as the amount grows. |
| `RefinementLimits.OneUnitBinBreaksRefinement` | programs/sol-arb-executor/src/instructions/dynamic_amount.rs:832-860 | The refinement needs its first condition: in a concrete market with a one-unit bin under an output fee the curve answers 4 and the walk 3. |
| `RefinementLimits.ZeroBaseFeeBreaksRefinement` | programs/sol-arb-executor/src/instructions/dynamic_amount.rs:832-860 | The refinement needs its second condition: with a zero base fee and a variable fee that falls to zero, the curve sells the dust unit that the walk has lost in the bin before. |
| `RefinementLimits.FullCapacityBreaksRefinement` | programs/sol-arb-executor/src/instructions/dynamic_amount.rs:157-202 | The refinement needs its third condition: a bin that takes the largest input is quoted one unit higher by the curve than by the walk, and one unit higher than the next input. |
| `CurveShape.BuildIsContiguous` | programs/sol-arb-executor/src/instructions/dynamic_amount.rs:782-871 | Invariant over the whole pass: segments touch, each adds input and output, there is at most one for each visited bin, and used arrays only grow. |
| `CurveShape.ContiguousInOrder` | programs/sol-arb-executor/src/instructions/dynamic_amount.rs:161-177 | Contiguous segments have strictly increasing input and output ends, which the binary search needs. |
| `CurveShape.BuildIsRecorded` | programs/sol-arb-executor/src/instructions/dynamic_amount.rs:782-871 | Every built segment, whatever its fees, records exactly the capacity of its bin's side, or all that the side takes of every input. |
| `CurveRefinement.BaseFeeLeavesNoFreeDust` | programs/sol-arb-executor/src/instructions/dynamic_amount.rs:782-871 | A positive base fee, and equally a pair without any fee, builds no curve in which a positive rate is followed by a zero rate under an input fee. |
| `CurveShape.BuildUsesArraysInOrder` | programs/sol-arb-executor/src/instructions/dynamic_amount.rs:798-815 | Every segment's used arrays are at most two, repeat-free and in the direction of the swap. |
| `CurveShape.CapacityHasSide` | programs/sol-arb-executor/src/quote/math.rs:290-307 | A measured capacity below the largest input is the exact gross input and net output of the bin's liquidity. |
| `CurveShape.SkipsLiquidityIff` | programs/sol-arb-executor/src/quote/math.rs:290-307 | The measure leaves out a drained bin that holds liquidity if and only if a positive output fee swallows its only unit. |
| `CurveShape.OneUnitBinIsLost` | programs/sol-arb-executor/src/instructions/dynamic_amount.rs:832-860 | A concrete bin with one unit under an output fee: the curve skips it, the walk spends input on it for nothing. |
| `CurveShape.PositiveRate` | programs/sol-arb-executor/src/quote/math.rs:166-195 | A positive base fee makes every total rate positive, whatever the volatility. |
| `CurveBuild.BuildCurve` | programs/sol-arb-executor/src/instructions/dynamic_amount.rs:753-872 | The method returns the curve of the functional specification, segments, visited bins and stop reason, or its error. |
| `CurveBuild.Traverse` | programs/sol-arb-executor/src/instructions/dynamic_amount.rs:782-871 | The loop over at most 16 bins pushes exactly the segments of the specification into the bounded buffer, from any start. |
| `CurveLaws.StopReasonIsHonest` | programs/sol-arb-executor/src/instructions/dynamic_amount.rs:852-870 | A curve stops at its input limit exactly when it covers it, with no earlier segment covering it; by the visit limit after sixteen visits, with segments or without usable liquidity; at a missing array exactly there. |
| `CurveLaws.CurveFitsItsNeed` | programs/sol-arb-executor/src/instructions/dynamic_amount.rs:508-557 | A direction's curve stops at its limit exactly when it covers what the amount feeds into it, and nothing before its last segment does; where Pump quotes nothing the curve is not cut. |
| `CurveLaws.CurveRefuses` | programs/sol-arb-executor/src/instructions/dynamic_amount.rs:157-177 | A curve refuses an amount of zero as invalid and an amount past its coverage as short of liquidity. |
| `DlmmCurve.DlmmCurve.Quote` | programs/sol-arb-executor/src/instructions/dynamic_amount.rs:157-202 | The binary search over the buffer answers as the first covering segment does, errors included. |
| `DlmmCurve.DlmmCurve.Push` | programs/sol-arb-executor/src/instructions/dynamic_amount.rs:136-144 | Appends one segment; a full buffer refuses and nothing changes. |
| `DlmmCurve.DlmmCurve.Clear` | programs/sol-arb-executor/src/instructions/dynamic_amount.rs:130-134 | Empties the curve, with no segment left behind. |
| `DlmmCurve.FirstCovering` | programs/sol-arb-executor/src/instructions/dynamic_amount.rs:164-177 | The found segment covers the amount and no earlier one does. |
| `BinWalk.QuoteFromAccounts` | programs/sol-arb-executor/src/instructions/best_direction.rs:284-376 | The method with its loop over ids, arrays and the in-place volatility state returns the walk of the specification. |
| `BinWalk.Inspect` | programs/sol-arb-executor/src/instructions/best_direction.rs:313-351 | Bitmap, account, array limit, bin and accumulator in the source's order; the volatility state changes only when a bin was found, and then only its accumulator. |
| `BinWalk.WalkUsesArraysInOrder` | programs/sol-arb-executor/src/instructions/best_direction.rs:327-344 | The used arrays of every completed walk are at most two, repeat-free and strictly in the direction of the swap. |
| `WalkLaws.KthVisit` | programs/sol-arb-executor/src/instructions/best_direction.rs:378-384 | The k-th visit is at the active id less k for a swap of X into Y, and at the active id plus k for a swap of Y into X, up to the i32 limits. |
| `WalkLaws.VisitLaw` | programs/sol-arb-executor/src/instructions/best_direction.rs:313-351 | A visit is skipped, fails, or finds a bin exactly as the bitmaps, the first supplied array of index id / 70 and the two-array limit say; the bin is at the id's remainder in that array, without its orders unless the pair supports them. |
| `WalkLaws.WalkPaysWhatRests` | programs/sol-arb-executor/src/instructions/best_direction.rs:284-376 | Away from the i32 limits a completed walk pays out at most what rests in the sixteen bins from the active one on, in the direction of the swap, each counted once. |
| `WalkLaws.RoutesReadTheMarket` | programs/sol-arb-executor/src/instructions/dynamic_amount.rs:385-432 | Both directions read the same pair, arrays, bitmap extension and clock, and swap in opposite directions, the target going in forwards. |
| `WalkLaws.RoutesPayTheRightSide` | programs/sol-arb-executor/src/instructions/best_direction.rs:189-238 | Forwards the route pays out at most what rests of the token that is not the target; in reverse its first leg pays out at most what rests of the target. |
| `BitmapLaws.DefaultBitmapLaw` | programs/sol-arb-executor/src/quote/accounts.rs:365-371 | As one number of 1024 bits, the default bitmap holds array i at bit i + 512. |
| `BitmapLaws.ExtensionBitmapLaw` | programs/sol-arb-executor/src/quote/accounts.rs:373-406 | The extension holds an array of its range at the bit of its rank, counted over the bytes after the header, and answers exactly when the account is long enough for that word. |
| `BitmapLaws.KnownArrays` | programs/sol-arb-executor/src/instructions/best_direction.rs:313-322 | An array is known by its bit in the pair for the middle range, and otherwise by the extension if there is one. |
| `BinWalk.FindArrayIsFirst` | programs/sol-arb-executor/src/instructions/best_direction.rs:327-336 | The lookup yields the first supplied array with the wanted index, and none exactly when no supplied array has it. |
| `Snapshot.SnapshotAgreesWithWalk` | programs/sol-arb-executor/src/quote/accounts.rs:491-590 | The snapshot quote over whole 70-bin arrays succeeds if and only if the account walk does, with the same output and the same arrays; its extra fee total never overflows where the walk succeeds. |
| `WalkLaws.SnapshotIsItsParts` | programs/sol-arb-executor/src/quote/accounts.rs:513-589 | A snapshot quote reports the requested input, which the walk's one-bin partial quotes consume exactly, and the sums of their outputs and fees. |
| `Snapshot.WindowKeepsQuote` | programs/sol-arb-executor/src/quote/accounts.rs:302-318 | Arrays cut to active id ± 15 give the same result as whole arrays for every state: quote, error and used arrays, also at the i32 limits. |
| `Snapshot.WindowKeepsQuoteFrom` | programs/sol-arb-executor/src/quote/accounts.rs:491-590 | The same for every intermediate state of the loop that can still be reached with the visits left. |
| `Snapshot.WindowGivesAccountBin` | programs/sol-arb-executor/src/quote/accounts.rs:302-318 | At a bin within the window the windowed arrays yield the account's bin, or the same absence of it. |
| `Snapshot.PartialFeeBound` | programs/sol-arb-executor/src/quote/math.rs:390-410 | A partial quote consumes at most its input; its fee is at most the input under an input fee and about a ninth of the output under an output fee. |
| `Snapshot.QuoteSnapshot` | programs/sol-arb-executor/src/quote/accounts.rs:491-590 | The snapshot method with its loop state returns the quote of the specification. |
| `Snapshot.ParseBinArray` | programs/sol-arb-executor/src/quote/accounts.rs:292-300 | Parsing keeps the index and all 70 bins with their offsets. |
| `Snapshot.ParseBinArrayWindow` | programs/sol-arb-executor/src/quote/accounts.rs:302-318 | The cutting loop keeps exactly the bins of the specification's window, in order. |
| `WalkLaws.WindowHolds` | programs/sol-arb-executor/src/quote/accounts.rs:302-318 | A windowed array lists exactly the account's bins whose id is an i32 within fifteen of the active id. |
| `WalkLaws.WalkFailsIncomplete` | programs/sol-arb-executor/src/instructions/best_direction.rs:323-370 | A failed walk is incomplete, unless its outputs add up to more than a u64. |
| `LbPair.AccumulatorForgetsPath` | programs/sol-arb-executor/src/quote/accounts.rs:427-439 | Whatever bins were visited before, the accumulator at a bin depends on the reference and the bin id only. |
| `PairLaws.AccumulatorAtReference` | programs/sol-arb-executor/src/quote/accounts.rs:427-439 | At the reference bin the accumulator becomes the smaller of the reference and the maximum, and nothing else changes. |
| `PairLaws.AccumulatorStep` | programs/sol-arb-executor/src/quote/accounts.rs:427-439 | Each bin farther from the reference, on either side, adds ten thousand until the maximum is reached. |
| `PairLaws.AccumulatorAtDistance` | programs/sol-arb-executor/src/quote/accounts.rs:427-439 | At distance d on either side the accumulator is the smaller of the reference plus 10000 d and the maximum. |
| `PairLaws.AccumulatorGrowsWithDistance` | programs/sol-arb-executor/src/quote/accounts.rs:427-439 | Only the distance counts, and a larger distance or reference never lowers the accumulator. |
| `PairLaws.RateGrowsWithDistance` | programs/sol-arb-executor/src/quote/math.rs:166-195 | Away from the reference bin the fee rate of a walk never falls, on either side. |
| `PairLaws.FeesAreThePairs` | programs/sol-arb-executor/src/quote/accounts.rs:441-452 | A bin's fees carry the pair's parameters and the accumulator that the updated reference gives the bin. |
| `PairLaws.ReferenceLaw` | programs/sol-arb-executor/src/quote/accounts.rs:408-425 | For every clock: within the filter period nothing changes; later the reference moves to the active bin and decays to the given share of the accumulator, rounded down and cut back to 32 bits, and past the decay period to zero. |
| `PairLaws.DecayLaw` | programs/sol-arb-executor/src/quote/accounts.rs:417-420 | With a reduction factor of at most 100 percent the decayed reference is the largest one within that share of the accumulator. |
| `PairLaws.ReferenceIsCutBack` | programs/sol-arb-executor/src/quote/accounts.rs:417-420 | With a reduction factor above 100 percent the share is cut back to 32 bits, not capped: a concrete state. |
| `PairLaws.BaseFeeLaw` | programs/sol-arb-executor/src/quote/math.rs:166-195 | The base fee is ten times bin step times base factor, and ten times that for each power. |
| `PairLaws.VariableFeeLaw` | programs/sol-arb-executor/src/quote/math.rs:166-195 | The variable fee is the control times the square of accumulator times bin step over a hundred billion, rounded up, and fails exactly when that does not fit. |
| `PairLaws.TotalRateLaw` | programs/sol-arb-executor/src/quote/math.rs:166-195 | The total rate is the sum of both fees, capped at ten percent. |
| `PairLaws.FeeModes` | programs/sol-arb-executor/src/quote/accounts.rs:454-460 | In mode 0 the fee is taken from the input, in mode 1 always in token Y, and other modes are refused. |
| `PairLaws.OrderModes` | programs/sol-arb-executor/src/quote/accounts.rs:462-469 | Orders count for type 2, and for type 0 while there are no rewards; types above 2 are refused. |
| `LbPair.VolatilityState.UpdateReference` | programs/sol-arb-executor/src/quote/accounts.rs:408-425 | The reference after filter and decay periods, with the saturating clock difference and the 32-bit truncation of the product. |
| `LbPair.VolatilityState.UpdateAccumulator` | programs/sol-arb-executor/src/quote/accounts.rs:427-439 | Overwrites the accumulator from the reference and the bin id, and nothing else. |
| `Addressing.AddressRecoversBin` | programs/sol-arb-executor/src/quote/accounts.rs:347-363 | An offset exists exactly for the array of the bin's own index, and index · 70 + offset is the bin id. |
| `Addressing.ExtensionDomain` | programs/sol-arb-executor/src/quote/accounts.rs:373-406 | Outside the default bitmap an array has an extension bit exactly in [-6656, -513] ∪ [512, 6655]. |
| `Addressing.ExtensionBijection` | programs/sol-arb-executor/src/quote/accounts.rs:373-406 | Those arrays map one-to-one onto the 12288 bits of the extension, each bit inside an aligned word after the header. |
| `BinCapacity.CompactionIff` | programs/sol-arb-executor/src/quote/math.rs:309-335 | For every measured bin and every input up to its capacity, compact segment data and the one-bin partial quote agree if and only if it is not the case that an input below the capacity leaves, after its fee, exactly the maximum net input while that net input's output rounds past the liquidity. |
| `BinCapacity.CompactionFailsAtTheLargestInput` | programs/sol-arb-executor/src/quote/math.rs:309-312 | The claim "algebraically identical" is false at a capacity of u64::MAX: a concrete bin pays one unit more from compact data than from the bin itself. |
| `BinCapacity.CompactionIsExact` | programs/sol-arb-executor/src/quote/math.rs:313-335 | With a capacity below u64::MAX the two always agree, and the bin consumes the whole input. |
| `BinCapacity.FullBinIsExact` | programs/sol-arb-executor/src/quote/math.rs:309-335 | At a capacity of u64::MAX the two agree on every input if they do one unit below that capacity, and the bin consumes every input. |
| `BinCapacity.FillBeyondCapacity` | programs/sol-arb-executor/src/quote/math.rs:383-400 | Past the capacity a fill pays exactly the capacity's output; it consumes the capacity, or with an input fee one dust unit more, and only when that is all the input left. |
| `BinCapacity.MeasuredBelowMax` | programs/sol-arb-executor/src/quote/math.rs:290-307 | A measure that consumed less than the largest input has measured the side exactly. |
| `BinCapacity.InsideOutputMono` | programs/sol-arb-executor/src/quote/math.rs:313-335 | Inside a side outputs never fall, and never exceed the capacity's output. |
| `BinCapacity.FillWithInputFee` | programs/sol-arb-executor/src/quote/math.rs:358-400 | A fill under an input fee in closed form, for inputs below, at and above the side's net input. |
| `BinCapacity.FillWithOutputFee` | programs/sol-arb-executor/src/quote/math.rs:358-400 | A fill under an output fee in closed form. |
| `BinCapacity.WholeSideIsBought` | programs/sol-arb-executor/src/quote/math.rs:383-400 | The maximum input buys the whole side, is positive, and with a positive input-fee rate is grossed up to at least two units. |
| `BinQuote.InForIsLeast` | programs/sol-arb-executor/src/quote/math.rs:227-261 | The input for an output is the least input whose output reaches it, in both price directions. |
| `BinQuote.GrossIsLeast` | programs/sol-arb-executor/src/quote/math.rs:197-225 | The included amount is the least gross amount whose net reaches a given amount. |
| `BinQuote.NetUndoesGross` | programs/sol-arb-executor/src/quote/math.rs:197-225 | Excluding the fee from an included amount gives the amount back exactly. |
| `BinQuote.AtMostOneDustUnit` | programs/sol-arb-executor/src/quote/math.rs:390-396 | Two units above the included amount, the net amount is already larger: at most one unit is dust. |
| `BinQuote.ExcludedFeeIsNet` | programs/sol-arb-executor/src/quote/math.rs:197-212 | No check of the fee exclusion can fail for a valid rate; it splits the amount into net and fee. |
| `BinQuote.IncludedFeeIsGross` | programs/sol-arb-executor/src/quote/math.rs:214-225 | The fee inclusion succeeds whenever the gross amount is representable. |
| `BinQuote.TotalFeeRate` | programs/sol-arb-executor/src/quote/math.rs:166-195 | The total rate of base and variable fee is never above ten percent. |
| `BinList.QuoteExactIn` | programs/sol-arb-executor/src/quote/math.rs:337-421 | The loop over remaining input and totals equals the fold over the bins, in full-fill and partial mode, errors included. |
| `BinList.ListConserves` | programs/sol-arb-executor/src/quote/math.rs:337-421 | Over any list: input splits into consumed and remaining, the totals of input, output and fee are the sums over the fills, output is within the side's liquidity, and each fill respects its bin's price. |
| `BinList.FillRespectsPrice` | programs/sol-arb-executor/src/quote/math.rs:363-400 | In both directions a fill's raw output is worth at most its net input at the bin's price, and is at most what rests there: the output token's amount, and the orders when they rest on that side. |
| `BinQuote.LiquidityIsResting` | programs/sol-arb-executor/src/quote/math.rs:363-382 | A side's liquidity is the output token's amount plus both order amounts exactly when they rest on that side, whenever the sum is a u64. |
| `BinLaws.EnoughInputTakesAll` | programs/sol-arb-executor/src/quote/math.rs:383-400 | An input whose net part reaches the price of everything that rests there pays out exactly that for exactly that price; a smaller one leaves something behind. |
| `BinLaws.OtherSideIsIgnored` | programs/sol-arb-executor/src/quote/math.rs:363-376 | The input token's amount, and orders on its side, change no fill. |
| `BinLaws.ListPaysWhatRests` | programs/sol-arb-executor/src/quote/math.rs:337-421 | A quote over any list pays out at most what rests in its bins on the side of the swap. |
| `BinLaws.FullQuoteConsumesAll` | programs/sol-arb-executor/src/quote/math.rs:413-415 | A full quote is the partial quote that consumed its whole input, and fails where input is left. |
| `BinLaws.AmountInExistsIff` | programs/sol-arb-executor/src/quote/math.rs:227-246 | The input for an output exists exactly for a positive price, when the product fits 128 bits with room for rounding up and the result fits 64. |
| `BinLaws.AmountOutExistsIff` | programs/sol-arb-executor/src/quote/math.rs:248-261 | The output for an input exists exactly for a positive price, when the product fits 128 bits and the result 64. |
| `BinLaws.IncludedExistsIff` | programs/sol-arb-executor/src/quote/math.rs:214-225 | The included amount exists exactly when it fits 64 bits. |
| `BinList.FillWithinRemaining` | programs/sol-arb-executor/src/quote/math.rs:401-403 | A fill never consumes more than is left, so the loop's subtraction cannot underflow. |
| `BinList.ListIsFoldOfPartials` | programs/sol-arb-executor/src/quote/math.rs:273-281 | Quoting a list equals folding one-bin partial quotes, errors included. |
| `BinList.PartialQuoteIsFill` | programs/sol-arb-executor/src/quote/math.rs:273-281 | A one-bin partial quote succeeds exactly when the bin's fill does, with the same figures and the same error. |
| `PumpQuote.BuyOutcome` | programs/sol-arb-executor/src/quote/math.rs:57-115 | A buy succeeds exactly when input and reserves are usable and the corrected effective quote is positive; no checked operation overflows, and the output is the constant-product output of one unit less. |
| `PumpLaws.BuyKeepsProduct` | programs/sol-arb-executor/src/quote/math.rs:97-114 | A buy pays the most that keeps the product of the base reserve and the sum of real and virtual quote reserve, when the latter grows by the input less the reported fee less one. |
| `PumpLaws.BuyFeeIsTight` | programs/sol-arb-executor/src/quote/math.rs:79-96 | What the reported fee leaves of the input is affordable with all three fees, and two units more would not be. |
| `PumpLaws.OnlyTheSumCounts` | programs/sol-arb-executor/src/quote/math.rs:100-102 | Only the sum of real and virtual quote reserve counts for a buy. |
| `PumpLaws.BuyFailures` | programs/sol-arb-executor/src/quote/math.rs:66-99 | A failed buy is an overflow when the correction exceeds the estimate, and invalid input otherwise. |
| `PumpQuote.BuyAffordableNearOptimal` | programs/sol-arb-executor/src/quote/math.rs:70-99 | The corrected effective quote is affordable with its three rounded-up fees, and is the largest affordable one or one less. |
| `PumpQuote.BuyOptimalIff` | programs/sol-arb-executor/src/quote/math.rs:70-99 | It is the largest affordable one if and only if not both: the estimate overshoots by two, and one unit below the estimate is affordable. |
| `PumpQuote.BuyDropsIff` | programs/sol-arb-executor/src/quote/math.rs:70-99 | Some smaller input has a larger effective quote if and only if the estimate overshoots by two while one unit less is affordable with an input to spare. |
| `PumpBoundary.BuyOutputDropsIff` | programs/sol-arb-executor/src/instructions/dynamic_amount.rs:1111-1112 | The comment that Pump output is monotone is false, and exactly so: some smaller input buys a larger output if and only if the effective quote drops and the lost unit is worth some output. |
| `PumpQuote.BuyIsNotMonotone` | programs/sol-arb-executor/src/instructions/dynamic_amount.rs:1111-1112 | A concrete pool: 2008 lamports buy less than 2007. |
| `PumpQuote.BuyAlmostMonotone` | programs/sol-arb-executor/src/quote/math.rs:70-99 | Spending more loses at most one effective unit. |
| `PumpQuote.MonotoneUpToSmallOvershoot` | programs/sol-arb-executor/src/quote/math.rs:70-99 | No smaller input buys more than an input whose estimate overshoots by at most one. |
| `PumpQuote.TwoFeesAreMonotone` | programs/sol-arb-executor/src/quote/math.rs:70-99 | With one of the three fees at zero the effective quote is monotone for every pair of inputs. |
| `PumpQuote.LargestAffordableIsLargest` | programs/sol-arb-executor/src/quote/math.rs:70-99 | The independent optimum: an effective quote is affordable exactly when it is at most the largest affordable one. |
| `PumpQuote.OvershootAtMostTwo` | programs/sol-arb-executor/src/quote/math.rs:70-99 | Ignoring the three roundings overshoots the input by at most two lamports. |
| `PumpQuote.CurveOutputReaches` | programs/sol-arb-executor/src/instructions/dynamic_amount.rs:1130-1139 | A constant-product output reaches a target exactly when the curve input covers the target's share of the reserve. |
| `PumpQuote.CurveOutputBelowReserve` | programs/sol-arb-executor/src/quote/math.rs:100-108 | The output never reaches the reserve it is taken from. |
| `PumpQuote.SellAlmostMonotone` | programs/sol-arb-executor/src/quote/math.rs:132-151 | With total fees up to 100 percent, selling more lowers the proceeds by at most two lamports. |
| `PumpQuote.SellDropIsReached` | programs/sol-arb-executor/src/quote/math.rs:132-151 | A concrete pool in which one more unit sold lowers the proceeds by exactly two. |
| `PumpQuote.SellOutcome` | programs/sol-arb-executor/src/quote/math.rs:117-164 | A sale succeeds if and only if the product fits 128 bits, the fees leave non-negative proceeds, the quote reserve covers all but the lp fee, and the fee is a u64; it then pays the constant-product quote net of three separately rounded-up fees, and reports those fees. |
| `PumpLaws.SaleKeepsProduct` | programs/sol-arb-executor/src/quote/math.rs:129-163 | The proceeds and the reported fee of a sale add up to the most quote that keeps the product, and the fee is the three rounded-up fees on that sum. |
| `PumpLaws.SaleFailures` | programs/sol-arb-executor/src/quote/math.rs:126-158 | A failed sale is invalid without input or reserves, short of liquidity when only the reserve cannot pay what the lp fee leaves, and an overflow otherwise. |
| `BoundaryGap.BoundaryGapIff` | docs/architecture-decisions.md:136-138 | The exact condition for every sample and every n: some input within n of the sample reaches the target if and only if the least reaching input, in closed form, is a u64 within n. |
| `BoundaryGap.LeastReachingIsLeast` | programs/sol-arb-executor/src/instructions/dynamic_amount.rs:1126-1156 | The least reaching input is the total of one effective unit above the boundary curve input, or the input after it: nothing below reaches the target, and it does. |
| `BoundaryGap.BoundarySampleTight` | programs/sol-arb-executor/src/instructions/dynamic_amount.rs:1126-1156 | Whenever the sample exists it lies strictly below every reaching input, by at least one lamport more than the fees in wholes rounded up, and by at most a bound that grows with the total fee. |
| `BoundaryGap.EightLamports` | docs/architecture-decisions.md:136-138 | The gap is within eight lamports for every pool and target up to total fees of 40006 basis points, within six up to 100 percent, and never within eight above 700 percent. |
| `BoundaryGap.NineLamports` | docs/architecture-decisions.md:136-138 | The text fails from 40007 basis points on: a concrete pool and target with the least reaching input nine lamports above the sample. |
| `PumpBoundary.ConfirmationRejectsOnlyMissingQuotes` | programs/sol-arb-executor/src/instructions/dynamic_amount.rs:1149-1155 | The exact quote that confirms the closed form can reject it only by not quoting at all. |
| `PumpBoundary.SampleExistsIff` | programs/sol-arb-executor/src/instructions/dynamic_amount.rs:1126-1156 | A target has a sample if and only if it lies inside the reserve, the arithmetic fits 128 bits, the closed form is a positive u64 and Pump quotes it. |
| `PumpBoundary.ReachesIffBeyondBoundary` | programs/sol-arb-executor/src/instructions/dynamic_amount.rs:1126-1149 | An input reaches a target exactly when its effective quote exceeds the boundary curve input. |
| `PumpBoundary.CoverageSearchAccurate` | programs/sol-arb-executor/src/instructions/dynamic_amount.rs:1098-1124 | Although Pump output is not monotone, every input five or more lamports above the search's answer exceeds the curve capacity, for fees of at most 100 percent each and answers from seven up. |
| `PumpBoundary.CoverageSearchBrackets` | programs/sol-arb-executor/src/instructions/dynamic_amount.rs:1098-1124 | The answer fits the capacity or is zero, and the next input, if in range, does not fit. |
| `PumpBoundary.CoverageSearchKeeps` | programs/sol-arb-executor/src/instructions/dynamic_amount.rs:1098-1124 | An input of at least 16 stays covered when the capacity leaves room for one more unit of curve input than it buys. |
| `PumpBoundary.CoverageSearch` | programs/sol-arb-executor/src/instructions/dynamic_amount.rs:1110-1122 | The answer of the search stays between its bounds. |
| `PumpBoundary.FourMoreLamportsCatchUp` | programs/sol-arb-executor/src/quote/math.rs:70-99 | Four lamports on, the effective quote has caught up whatever the rounding did. |
| `Search.LargestForwardCompleteAmount` | programs/sol-arb-executor/src/instructions/dynamic_amount.rs:1098-1124 | The shortcut and the binary search loop return the specification's largest forward amount. |
| `CurveLaws.LargestForwardLaw` | programs/sol-arb-executor/src/instructions/dynamic_amount.rs:1098-1124 | It is the maximum when that quotes, and otherwise an input whose Pump output fits the curve, or zero, with a next one that does not fit. |
| `CurveLaws.LargestReverseLaw` | programs/sol-arb-executor/src/instructions/dynamic_amount.rs:948-948 | In reverse an amount is within the largest complete one exactly when it is within the maximum and the coverage. |
| `Powers.IntegerSqrt` | programs/sol-arb-executor/src/instructions/dynamic_amount.rs:1403-1415 | For every u128 Newton's iteration ends, no sum overflows, and the result is the exact floor root. |
| `Powers.NewtonStep` | programs/sol-arb-executor/src/instructions/dynamic_amount.rs:1406-1414 | One step from above stays at or above the root, and a step that does not descend has found it. |
| `Powers.InitialEstimate` | programs/sol-arb-executor/src/instructions/dynamic_amount.rs:1404-1406 | The first estimate is never below the root. |
| `NormalizedNumbers.FromU128` | programs/sol-arb-executor/src/instructions/dynamic_amount.rs:1304-1316 | Zero is refused; every other number becomes normal, with its top bit set. |
| `NormalizedNumbers.Multiply` | programs/sol-arb-executor/src/instructions/dynamic_amount.rs:1318-1330 | Products of normal numbers are normal. |
| `NormalizedNumbers.Divide` | programs/sol-arb-executor/src/instructions/dynamic_amount.rs:1332-1343 | Quotients of normal numbers are normal. |
| `NormalizedNumbers.ProductRatio` | programs/sol-arb-executor/src/instructions/dynamic_amount.rs:1373-1382 | The ratio of any factors is normal. |
| `NormalizedAccuracy.CompareIsOrder` | programs/sol-arb-executor/src/instructions/dynamic_amount.rs:1345-1349 | Comparison is the order of the represented rationals, in all three outcomes. |
| `NormalizedAccuracy.FromU128Truncates` | programs/sol-arb-executor/src/instructions/dynamic_amount.rs:1304-1316 | Conversion is exact up to 64 bits and truncates by less than one unit beyond. |
| `NormalizedAccuracy.MultiplyTruncates` | programs/sol-arb-executor/src/instructions/dynamic_amount.rs:1318-1330 | A product is truncated by less than one unit. |
| `NormalizedAccuracy.DivideTruncates` | programs/sol-arb-executor/src/instructions/dynamic_amount.rs:1332-1343 | A quotient is truncated by less than two units. |
| `NormalizedAccuracy.RatioAccurate` | programs/sol-arb-executor/src/instructions/dynamic_amount.rs:1373-1382 | Up to four numerators over up to two denominators are within relative error 2^-59 of the exact rational. |
| `NormalizedAccuracy.SqrtBounds` | programs/sol-arb-executor/src/instructions/dynamic_amount.rs:1351-1367 | The root squares to at most the value and is less than one granule below the exact root; below 2^128 it is the exact floor root. |
| `Interior.PrefilterIsSound` | programs/sol-arb-executor/src/instructions/dynamic_amount.rs:1384-1401 | Whenever the prefilter fires, the root that would be computed exists and lies outside the interval. |
| `Interior.PrefilterFires` | programs/sol-arb-executor/src/instructions/dynamic_amount.rs:1384-1401 | The prefilter fires on every value at least forty-four below the lower root or thirty-two above the upper one. |
| `Interior.FarBelowIsSound` | programs/sol-arb-executor/src/instructions/dynamic_amount.rs:1384-1401 | The lower test puts the root below the lower bound. |
| `Interior.FarAboveIsSound` | programs/sol-arb-executor/src/instructions/dynamic_amount.rs:1384-1401 | The upper test with margin 32 puts the root above the upper bound, despite 66-bit numbers losing bits twice. |
| `Interior.RatioInRange` | programs/sol-arb-executor/src/instructions/dynamic_amount.rs:1351-1367 | Four numerators and two denominators of the sizes that occur always have a root in range, so no shift loses the result. |
| `Interior.InteriorRootsAreNear` | programs/sol-arb-executor/src/instructions/dynamic_amount.rs:1181-1203 | The root behind each interior candidate exceeds the real root of the exact quotient by a relative error of at most 2^-60, and misses it by less than one granule and a relative error of 2^-59, in both directions. |
| `InteriorOptimum.ForwardRootIsOptimal` | programs/sol-arb-executor/src/instructions/dynamic_amount.rs:1172-1213 | The exact root behind the forward candidate is the only quote reserve at which the segment's spread, without roundings, is largest, and the computed root is near it. |
| `InteriorOptimum.ReverseRootIsOptimal` | programs/sol-arb-executor/src/instructions/dynamic_amount.rs:1215-1252 | The exact root behind the reverse candidate is the only base reserve at which the segment's spread, without roundings, is largest, and the computed root is near it. |
| `InteriorOptimum.ForwardCandidateIff` | programs/sol-arb-executor/src/instructions/dynamic_amount.rs:1203-1212 | The forward candidate is the gross input whose share without fees fills the reserve up to the root, rounded down, if it lies strictly between the segment's sampled ends, and there is none otherwise. |
| `InteriorOptimum.ReverseCandidateIff` | programs/sol-arb-executor/src/instructions/dynamic_amount.rs:1238-1251 | The reverse candidate is the segment's input at the share of its output that fills the reserve up to the root, rounded down, if the root lies strictly inside, and there is none otherwise. |
| `InteriorOptimum.ForwardCandidateIsOptimal` | programs/sol-arb-executor/src/instructions/dynamic_amount.rs:1172-1213 | The forward candidate reaches the reserve of the largest spread to within a relative error of 2^-59, a granule and one lamport. |
| `InteriorOptimum.ReverseCandidateIsOptimal` | programs/sol-arb-executor/src/instructions/dynamic_amount.rs:1215-1252 | The reverse candidate reaches the reserve of the largest spread to within a relative error of 2^-59, a granule and the output of one more unit of input. |
| `Interior.ForwardPrefilterIsTransparent` | programs/sol-arb-executor/src/instructions/dynamic_amount.rs:1172-1213 | For all reserves, fees and segments the forward interior candidate is the same with and without the prefilter. |
| `Interior.ReversePrefilterIsTransparent` | programs/sol-arb-executor/src/instructions/dynamic_amount.rs:1215-1252 | The same for the reverse interior candidate. |
| `FeeTiers.StreamingRefinesParsed` | programs/sol-arb-executor/src/quote/accounts.rs:204-244 | Whenever the fee configuration parses, streaming selection returns exactly what selection over the parsed tiers returns, fees or error, for any tier order. |
| `FeeTiers.SelectsGreatestThreshold` | programs/sol-arb-executor/src/quote/accounts.rs:174-202 | With ascending thresholds the selection is the tier of the greatest threshold not above the market cap, or the first tier when none qualifies. |
| `FeeTiers.SelectsLastQualifying` | programs/sol-arb-executor/src/quote/accounts.rs:188-199 | In any order the selection is the last qualifying tier, or the first tier when none qualifies. |
| `FeeTiers.ParsePumpFeeConfig` | programs/sol-arb-executor/src/quote/accounts.rs:151-172 | The tier-building loop returns the parsed configuration of the specification, from the account's bytes. |
| `FeeTiers.SelectPumpFees` | programs/sol-arb-executor/src/quote/accounts.rs:174-202 | The loop over parsed tiers returns the selection of the specification. |
| `FeeTiers.SelectPumpFeesFromData` | programs/sol-arb-executor/src/quote/accounts.rs:204-244 | The loop over raw bytes returns the streaming selection of the specification. |
| `FeeTierLaws.ConfigReadsBack` | programs/sol-arb-executor/src/quote/accounts.rs:151-172 | An encoded configuration of one to sixty-four tiers parses to itself, whatever surrounds it; any other number of tiers is refused. |
| `FeeTierLaws.RatesReadBack` | programs/sol-arb-executor/src/quote/accounts.rs:111-123 | Three 64-bit rates parse to themselves when all fit 16 bits, and are refused otherwise. |
| `FeeTierLaws.StreamWithoutTiers` | programs/sol-arb-executor/src/quote/accounts.rs:213-229 | Streaming from an account without tiers gives the global fees, and refuses more than sixty-four; outside a Pump pool it gives the flat fees. |
| `FeeTierLaws.MarketCapLaw` | programs/sol-arb-executor/src/quote/accounts.rs:191-194 | The market capitalisation is supply times quote reserve for each unit of base, rounded down, and never overflows. |
| `FeeTierLaws.SelectionLaw` | programs/sol-arb-executor/src/quote/accounts.rs:182-201 | Without a configuration the global fees apply, outside a Pump pool the flat ones, and otherwise those of the last tier whose threshold times the base reserve is within supply times quote reserve, or of the first tier. |
| `ExpansionGate.GateShutsOutProfit` | docs/architecture-decisions.md:172-177 | The text that a complete minimum quote without positive spread cannot become profitable is false: in a concrete market the minimum of 10 pays 6, so nothing is selected, while the full search of the same direction earns 152. |
| `ExpansionGate.OpensIffRoutePays` | programs/sol-arb-executor/src/instructions/dynamic_amount.rs:595-608 | Over tame bins a probe opens the gate if and only if the fixed-amount route of the minimum pays more than the minimum. |
| `ExpansionGate.WorthlessMinimumStaysShut` | programs/sol-arb-executor/src/instructions/dynamic_amount.rs:595-608 | Forwards the gate stays shut in every market whose pool pays nothing for the minimum, whatever larger amounts would earn; the minimum has no complete quote there. |
| `PriceBound.NothingToFind` | docs/architecture-decisions.md:172-177 | Where the text does hold: if, after all fees, the pool's spot price times the best price of the reachable bins is at most one, the full search of the direction over tame bins finds nothing in any range, so a shut gate loses nothing. |
| `PriceBound.NoRoutePays` | programs/sol-arb-executor/src/instructions/best_direction.rs:189-238 | In such a market no amount sent round the route returns more than it costs, in both directions. |
| `PriceBound.WalkIsBounded` | programs/sol-arb-executor/src/instructions/best_direction.rs:309-371 | A completed walk pays at most the best price, after each bin's fee, of the bins it can reach for its whole input. |
| `PriceBound.BuyIsBounded` | programs/sol-arb-executor/src/quote/math.rs:57-115 | A buy pays at most the pool's spot price after its three fees for its whole input. |
| `PriceBound.SaleIsBounded` | programs/sol-arb-executor/src/quote/math.rs:117-164 | A sale pays at most the pool's spot price after its three fees for its whole input. |
| `BinList.FillPaysFee` | programs/sol-arb-executor/src/quote/math.rs:358-400 | What a fill buys with, or pays out, is within the part of its input or raw output that the fee rate leaves. |
| `Candidates.CandidateAmounts.PushUnique` | programs/sol-arb-executor/src/instructions/dynamic_amount.rs:286-295 | Adds an amount that is neither zero nor present; a full buffer drops it; earlier amounts stay. |
| `Candidates.CandidateAmounts.PushNeighborhood` | programs/sol-arb-executor/src/instructions/dynamic_amount.rs:1265-1275 | Adds the amount and its two neighbours, each only within the range and without wrapping, to any buffer; with three free slots none is dropped. |
| `Candidates.EvaluateCandidates` | programs/sol-arb-executor/src/instructions/dynamic_amount.rs:992-1043 | The loop returns the summary of the specification: best choice, completeness and the minimum's quote. |
| `Candidates.EvaluationFindsBest` | programs/sol-arb-executor/src/instructions/dynamic_amount.rs:992-1043 | The best choice is one of the candidates in range, and no candidate in range offers a better one. |
| `Candidates.BestIgnoresOrder` | programs/sol-arb-executor/src/instructions/dynamic_amount.rs:1260-1263 | The best choice is unique: the same set of candidates gives the same choice in any order and multiplicity. |
| `Candidates.EvaluationIgnoresOrder` | programs/sol-arb-executor/src/instructions/dynamic_amount.rs:992-1043 | The whole evaluation, including the minimum's quote, is independent of candidate order. |
| `Candidates.SummaryOfMinimum` | programs/sol-arb-executor/src/instructions/dynamic_amount.rs:1007-1016 | The minimum counts as quoted, and with its exact output, precisely when it is a candidate within coverage that quotes. |
| `Search.CollectForward` | programs/sol-arb-executor/src/instructions/dynamic_amount.rs:889-939 | The bounded buffer holds exactly the generated forward candidates: 66 slots never drop one. |
| `Search.CollectReverse` | programs/sol-arb-executor/src/instructions/dynamic_amount.rs:955-983 | The same for the reverse candidates. |
| `CandidateLaws.CandidatesAreSamples` | programs/sol-arb-executor/src/instructions/dynamic_amount.rs:885-983 | A positive amount is a candidate if and only if it is an end of the range, or some segment's sampled end in range, or a neighbour in range of some segment's interior candidate in range; forwards with the carried start of the segment. |
| `CandidateLaws.SampledEndsAreCandidates` | programs/sol-arb-executor/src/instructions/dynamic_amount.rs:889-911 | On a contiguous curve a segment's sampled start is at most its sampled end, and every sampled end in range is a candidate. |
| `CandidateLaws.SearchBeatsSamples` | programs/sol-arb-executor/src/instructions/dynamic_amount.rs:926-938 | A search's best is not beaten at either end of the range or at any sample of any segment. |
| `CandidateLaws.CandidatesAreDistinct` | programs/sol-arb-executor/src/instructions/dynamic_amount.rs:286-295 | No amount is a candidate twice. |
| `CurveLaws.SearchReports` | programs/sol-arb-executor/src/instructions/dynamic_amount.rs:1032-1042 | A search reports its coverage, the visits and the stop reason of its curve, and the numbers of segments that gave a boundary and an interior candidate. |
| `CurveLaws.SearchSeesQuotes` | programs/sol-arb-executor/src/instructions/dynamic_amount.rs:1000-1010 | A search has seen a complete quote if and only if some candidate in range quotes. |
| `Search.SearchForward` | programs/sol-arb-executor/src/instructions/dynamic_amount.rs:874-939 | The method returns the forward search of the specification. |
| `Search.SearchReverse` | programs/sol-arb-executor/src/instructions/dynamic_amount.rs:941-990 | The method returns the reverse search of the specification. |
| `Selection.ProbeDirection` | programs/sol-arb-executor/src/instructions/dynamic_amount.rs:508-593 | The probe builds its curve for the minimum and evaluates exactly the minimum. |
| `Selection.SearchDirection` | programs/sol-arb-executor/src/instructions/dynamic_amount.rs:648-704 | The full search of a direction builds its curve for the maximum and searches it. |
| `Selection.SelectDynamicAmount` | programs/sol-arb-executor/src/instructions/dynamic_amount.rs:377-493 | Probing, widening, searching and deciding return the selection of the specification, or its error. |
| `SelectionProperties.SelectionIsSound` | programs/sol-arb-executor/src/instructions/dynamic_amount.rs:377-493 | A selected amount lies in [min, max], its output is the exact composed quote, its profit is output less input and at least the minimum profit, and no evaluated amount of either direction is better by profit, then smaller input, then the forward direction. |
| `SelectionProperties.RefusalIsHonest` | docs/architecture-decisions.md:150-166 | When all curves build, selection fails exactly when no evaluated amount of either direction offers the minimum profit, and it reports a missing profit exactly when both directions quoted the minimum. |
| `SelectionLaws.SelectionWidens` | programs/sol-arb-executor/src/instructions/dynamic_amount.rs:455-492 | For both directions: if the range is wider than one amount and the probe is complete and pays more than the minimum, the selection uses the direction's full search, and otherwise its probe; the selected choice is the better result by profit, then smaller input, then the forward direction, with the statistics of its search. |
| `SelectionLaws.SelectionFollowsRoutes` | programs/sol-arb-executor/src/instructions/dynamic_amount.rs:595-608 | Over tame bins the selection uses a direction's full search if and only if the fixed-amount route of the minimum pays more than the minimum, and its probe otherwise. |
| `SelectionLaws.FailureMeansNothingFound` | programs/sol-arb-executor/src/instructions/dynamic_amount.rs:610-626 | A selection fails only when neither of those two results has a choice. |
| `SelectionLaws.SelectionBeatsEvaluations` | programs/sol-arb-executor/src/instructions/dynamic_amount.rs:992-1043 | No amount that a widened direction evaluates offers more profit than the selection, or as much for less input. |
| `SelectionLaws.BestIsExplicit` | programs/sol-arb-executor/src/instructions/dynamic_amount.rs:1260-1263 | A best choice has at least the profit of every candidate in range that offers the minimum profit, and for equal profit at most its input. |
| `SelectionProperties.UnreadyIsNeverUnprofitable` | programs/sol-arb-executor/src/instructions/dynamic_amount.rs:425-448 | A reverse direction that is not ready is never reported as a missing profit. |
| `SelectionProperties.FinalSearchIsBest` | programs/sol-arb-executor/src/instructions/dynamic_amount.rs:464-492 | Whatever a direction ends up with, probe or full search, is the best of the amounts it evaluated. |
| `SelectionProperties.EvaluationIsRouteQuote` | programs/sol-arb-executor/src/instructions/dynamic_amount.rs:1059-1096 | Every evaluation that succeeds on a built curve over tame bins is the route's quote through the account walk. |
| `SelectionProperties.SelectedOutputIsRouteOutput` | programs/sol-arb-executor/src/instructions/best_direction.rs:189-259 | Over tame bins the selected output is what the fixed-amount route of the same amount and direction reports. |
| `SelectionProperties.MinimumIsCandidate` | programs/sol-arb-executor/src/instructions/dynamic_amount.rs:874-990 | The minimum is always among the generated candidates. |
| `SelectionProperties.WideningKeepsReverse` | programs/sol-arb-executor/src/instructions/dynamic_amount.rs:941-990 | Raising the maximum never loses a profitable minimum in reverse: the full search earns at least the probe's profit. |
| `SelectionProperties.WideningKeepsForward` | programs/sol-arb-executor/src/instructions/dynamic_amount.rs:874-939 | The same forwards, for a minimum of at least 16, fees of at most 100 percent each, and a full curve with room for one more unit of curve input. |
| `SelectionProperties.FixedDynamicParity` | programs/sol-arb-executor/src/instructions/dynamic_amount.rs:377-493 | With min = max, dynamic selection succeeds if and only if the fixed-amount choice does, in the same direction with the same output, and its arrays start with the fixed ones. |
| `SelectionLaws.FixedFailures` | programs/sol-arb-executor/src/instructions/best_direction.rs:240-275 | A fixed-amount selection succeeds exactly when some route covers amount and minimum profit, and otherwise names the overflow, the missing quotes or the missing profit. |
| `SelectionLaws.FixedTakesTheLarger` | programs/sol-arb-executor/src/instructions/best_direction.rs:243-282 | A fixed-amount selection takes the route with the larger output, forwards on a tie, with that route's output and arrays. |
| `SelectionProperties.ForwardProbeAgrees` | programs/sol-arb-executor/src/instructions/best_direction.rs:189-259 | The forward probe offers a choice exactly when the fixed forward route covers amount and profit, with the same output. |
| `SelectionProperties.ReverseProbeAgrees` | programs/sol-arb-executor/src/instructions/best_direction.rs:189-259 | The same for the reverse probe. |

## Left out

- Account validation, program-derived addresses, token extensions, Anchor contexts, events and failure logs: field-equality checks and foreign calls.
- The CPI adapters, the route `execute` functions, `post_trade_checks.rs` and `balance.rs`: each is settled by one branch.
- Whether the cashback account is ready, the clock, and reading account data are parameters (`reverseReady`, `View.timestamp`, `View.arrays`).
- Decoding of bin arrays, pairs and pools from bytes: accounts are parsed 70-bin arrays, so an array account whose data cannot be read is simply
  absent. The fee-tier table and the bitmap extension are modelled on bytes.
- The TypeScript scripts and the `test-programs`: no quote arithmetic of the program.
- Optimality over all amounts in the range: the code claims only the best of its generated candidates, and that is what is proved.
- CurveRefinement.CurveRefinesWalk: stated for markets that satisfy `TameView`; `RefinementLimits` has a market for each of its three conditions that shows curve and walk differing without it.
- CurveRefinement.NothingBeyondCoverage: says nothing about the amount one unit above the coverage, which an input fee can swallow as dust.
- SelectionProperties.FixedDynamicParity: excludes the curve input that lies exactly one unit past the coverage, for the same reason, and curves that do not build.
- SelectionProperties.WideningKeepsForward: needs room in the full curve for the output of one more curve-input unit, because the coverage search is not exact where Pump output drops.
- PriceBound.NothingToFind: a sufficient price condition for a gate that loses nothing; in dearer markets the gate may or may not lose a profit, depending on roundings and the liquidity of each bin.
- InteriorOptimum.ForwardRootIsOptimal: speaks of the spread without roundings; the integer candidate is only sampled there, and the exact quotes decide.
- DlmmCurve.DlmmCurve.Quote: a segment's capacities are unbounded differences of its ends, where the source subtracts u64 values without a check; `BuildIsContiguous` shows that no built segment has an end below its start.
- Stack frames, heap limits and compute units: the buffers' sizes are modelled, their placement is not.
