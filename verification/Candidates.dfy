/** The bounded candidate buffer and the choice among evaluated candidates. */
module Candidates {
  import opened Arithmetic
  import opened BinWalk
  import opened DlmmCurve

  const MAX_CANDIDATES: nat := 2 + MAX_VISITED * 4

  datatype DirectionChoice = DirectionChoice(amountIn: u64, amountOut: u64, profit: u64, used: seq<i64>)

  datatype DirectionSearch = DirectionSearch(
    best: Option<DirectionChoice>,
    completeSeen: bool,
    minimumQuoteComplete: bool,
    minimumAmountOut: u64,
    largestCompleteAmount: u64,
    boundaryCandidates: u8,
    interiorCandidates: u8,
    visited: nat,
    stop: StopReason)

  type Evaluator = u64 -> Result<CurveQuote, QuoteError>

  // --- the buffer ---

  /** A list without zeros and duplicates, extended by one amount. */
  function Pushed(amounts: seq<u64>, amount: u64): seq<u64> {
    if amount == 0 || amount in amounts then amounts else amounts + [amount]
  }

  /** The same for a buffer, which drops the amount when it is full. */
  function Kept(amounts: seq<u64>, amount: u64): seq<u64> {
    if |amounts| < MAX_CANDIDATES then Pushed(amounts, amount) else amounts
  }

  class CandidateAmounts {
    const values: array<u64>
    var len: nat

    predicate Valid()
      reads this
    {
      values.Length == MAX_CANDIDATES && len <= MAX_CANDIDATES
    }

    function Amounts(): seq<u64>
      requires Valid()
      reads this, values
    {
      values[..len]
    }

    constructor ()
      ensures Valid() && fresh(values) && Amounts() == []
    {
      values := new u64[MAX_CANDIDATES](_ => 0);
      len := 0;
    }

    /** Adds an amount that is neither zero nor present; a full buffer drops it. */
    method PushUnique(amount: u64)
      requires Valid()
      modifies this, values
      ensures Valid()
      ensures Amounts() == Kept(old(Amounts()), amount)
    {
      if amount == 0 || amount in values[..len] {
        return;
      }
      if len < values.Length {
        values[len] := amount;
        len := len + 1;
      }
    }

    /** An interior candidate and its two neighbours, within the range; with three free slots none of them is
        dropped. */
    method PushNeighborhood(amount: u64, min: u64, max: u64)
      requires Valid()
      modifies this, values
      ensures Valid() && len <= old(len) + 3
      ensures Amounts() == NeighborhoodKept(old(Amounts()), amount, min, max)
      ensures old(len) + 3 <= MAX_CANDIDATES ==> Amounts() == NeighborhoodPushed(old(Amounts()), amount, min, max)
    {
      var below: u64 := if amount == 0 then 0 else amount - 1;
      var above: u64 := if amount == U64_MAX then U64_MAX else amount + 1;
      if min <= below <= max {
        PushUnique(below);
      }
      if min <= amount <= max {
        PushUnique(amount);
      }
      if min <= above <= max {
        PushUnique(above);
      }
    }
  }

  function PushedWithin(amounts: seq<u64>, amount: u64, min: u64, max: u64): seq<u64> {
    if min <= amount <= max then Pushed(amounts, amount) else amounts
  }

  function NeighborhoodPushed(amounts: seq<u64>, amount: u64, min: u64, max: u64): seq<u64> {
    var below: u64 := if amount == 0 then 0 else amount - 1;
    var above: u64 := if amount == U64_MAX then U64_MAX else amount + 1;
    PushedWithin(PushedWithin(PushedWithin(amounts, below, min, max), amount, min, max), above, min, max)
  }

  function KeptWithin(amounts: seq<u64>, amount: u64, min: u64, max: u64): seq<u64> {
    if min <= amount <= max then Kept(amounts, amount) else amounts
  }

  function NeighborhoodKept(amounts: seq<u64>, amount: u64, min: u64, max: u64): seq<u64> {
    var below: u64 := if amount == 0 then 0 else amount - 1;
    var above: u64 := if amount == U64_MAX then U64_MAX else amount + 1;
    KeptWithin(KeptWithin(KeptWithin(amounts, below, min, max), amount, min, max), above, min, max)
  }

  // --- the choice ---

  predicate BetterChoice(candidate: DirectionChoice, current: DirectionChoice) {
    candidate.profit > current.profit || (candidate.profit == current.profit && candidate.amountIn < current.amountIn)
  }

  /** The choice that an amount offers: a complete quote with at least the minimum profit. */
  function ChoiceAt(evaluate: Evaluator, amountIn: u64, minProfit: u64): Option<DirectionChoice> {
    match evaluate(amountIn)
    case Err(_) => None
    case Ok(quote) =>
      if quote.amountOut < amountIn || quote.amountOut - amountIn < minProfit then None
      else Some(DirectionChoice(amountIn, quote.amountOut, quote.amountOut - amountIn, quote.used))
  }

  function Improved(best: Option<DirectionChoice>, candidate: Option<DirectionChoice>): Option<DirectionChoice> {
    if candidate.None? then best
    else if best.None? || BetterChoice(candidate.value, best.value) then candidate
    else best
  }

  /** What the evaluation loop knows after some candidates. */
  datatype Summary = Summary(best: Option<DirectionChoice>, completeSeen: bool, minimumComplete: bool, minimumOut: u64)

  function Step(s: Summary, evaluate: Evaluator, amountIn: u64, min: u64, largest: u64, minProfit: u64): Summary {
    if !(min <= amountIn <= largest) || evaluate(amountIn).Err? then s
    else
      Summary(Improved(s.best, ChoiceAt(evaluate, amountIn, minProfit)), true,
              s.minimumComplete || amountIn == min,
              if amountIn == min then evaluate(amountIn).value.amountOut else s.minimumOut)
  }

  function SummaryFrom(s: Summary, evaluate: Evaluator, candidates: seq<u64>, min: u64, largest: u64,
                       minProfit: u64): Summary
    decreases |candidates|
  {
    if |candidates| == 0 then s
    else SummaryFrom(Step(s, evaluate, candidates[0], min, largest, minProfit), evaluate, candidates[1..], min,
                     largest, minProfit)
  }

  const NOTHING_SEEN: Summary := Summary(None, false, false, 0)

  function SummaryOf(evaluate: Evaluator, candidates: seq<u64>, min: u64, largest: u64, minProfit: u64): Summary {
    SummaryFrom(NOTHING_SEEN, evaluate, candidates, min, largest, minProfit)
  }

  method EvaluateCandidates(candidates: seq<u64>, min: u64, minProfit: u64, largest: u64, visited: nat, boundary: u8,
                            interior: u8,
                            stop: StopReason, evaluate: Evaluator) returns (r: DirectionSearch)
    ensures var s := SummaryOf(evaluate, candidates, min, largest, minProfit);
            r == DirectionSearch(s.best, s.completeSeen, s.minimumComplete, s.minimumOut, largest, boundary, interior,
                                 visited, stop)
  {
    hide BetterChoice;
    var best: Option<DirectionChoice> := None;
    var completeSeen, minimumQuoteComplete, minimumAmountOut: u64 := false, false, 0;
    assert candidates[0..] == candidates;
    for k := 0 to |candidates|
      invariant SummaryFrom(Summary(best, completeSeen, minimumQuoteComplete, minimumAmountOut), evaluate,
                            candidates[k..], min, largest, minProfit)
             == SummaryOf(evaluate, candidates, min, largest, minProfit)
    {
      var amountIn := candidates[k];
      assert candidates[k..][1..] == candidates[k + 1..];
      if !(min <= amountIn <= largest) {
        continue;
      }
      var quote := evaluate(amountIn);
      if quote.Err? {
        continue;
      }
      completeSeen := true;
      if amountIn == min {
        minimumQuoteComplete, minimumAmountOut := true, quote.value.amountOut;
      }
      if quote.value.amountOut < amountIn {
        continue;
      }
      var profit := quote.value.amountOut - amountIn;
      if profit < minProfit {
        continue;
      }
      var candidate := DirectionChoice(amountIn, quote.value.amountOut, profit, quote.value.used);
      if best.None? || BetterChoice(candidate, best.value) {
        best := Some(candidate);
      }
    }
    return DirectionSearch(best, completeSeen, minimumQuoteComplete, minimumAmountOut, largest, boundary, interior,
                           visited, stop);
  }

  // --- what the loop finds ---

  /** An optional choice is the best that some amounts offer: one of them, with none better. */
  predicate IsBest(best: Option<DirectionChoice>, evaluate: Evaluator, candidates: seq<u64>, min: u64, largest: u64,
                   minProfit: u64)
  {
    && (best.Some? ==> best.value.amountIn in candidates && min <= best.value.amountIn <= largest
                       && ChoiceAt(evaluate, best.value.amountIn, minProfit) == best)
    && forall k :: 0 <= k < |candidates| && min <= candidates[k] <= largest ==>
         var choice := ChoiceAt(evaluate, candidates[k], minProfit);
         choice.Some? ==> best.Some? && !BetterChoice(choice.value, best.value)
  }

  lemma BestExtends(best: Option<DirectionChoice>, evaluate: Evaluator, seen: seq<u64>, a: u64, min: u64, largest: u64,
                    minProfit: u64)
    requires IsBest(best, evaluate, seen, min, largest, minProfit)
    ensures IsBest(if min <= a <= largest then Improved(best, ChoiceAt(evaluate, a, minProfit)) else best,
                   evaluate, seen + [a], min, largest, minProfit)
  {
    var after := if min <= a <= largest then Improved(best, ChoiceAt(evaluate, a, minProfit)) else best;
    var all := seen + [a];
    assert best.Some? ==> best.value.amountIn in all;
    assert all[|seen|] == a;
    forall k | 0 <= k < |all| && min <= all[k] <= largest && ChoiceAt(evaluate, all[k], minProfit).Some?
      ensures after.Some? && !BetterChoice(ChoiceAt(evaluate, all[k], minProfit).value, after.value)
    {
      if k < |seen| {
        assert all[k] == seen[k];
      }
    }
  }

  lemma {:induction false} SummaryIsBest(s: Summary, evaluate: Evaluator, seen: seq<u64>, candidates: seq<u64>,
                                         min: u64, largest: u64, minProfit: u64)
    requires IsBest(s.best, evaluate, seen, min, largest, minProfit)
    ensures IsBest(SummaryFrom(s, evaluate, candidates, min, largest, minProfit).best, evaluate, seen + candidates,
                   min, largest, minProfit)
    decreases |candidates|
  {
    hide IsBest, BetterChoice;
    if |candidates| == 0 {
      assert seen + candidates == seen;
    } else {
      BestExtends(s.best, evaluate, seen, candidates[0], min, largest, minProfit);
      assert seen + [candidates[0]] + candidates[1..] == seen + candidates;
      SummaryIsBest(Step(s, evaluate, candidates[0], min, largest, minProfit), evaluate, seen + [candidates[0]],
                    candidates[1..],
                    min, largest, minProfit);
    }
  }

  /** The loop's best is the best of all candidates. */
  lemma EvaluationFindsBest(evaluate: Evaluator, candidates: seq<u64>, min: u64, largest: u64, minProfit: u64)
    ensures IsBest(SummaryOf(evaluate, candidates, min, largest, minProfit).best, evaluate, candidates, min, largest,
                   minProfit)
  {
    assert [] + candidates == candidates;
    SummaryIsBest(NOTHING_SEEN, evaluate, [], candidates, min, largest, minProfit);
  }

  /** The best choice is unique, so the order and multiplicity of the candidates do not matter. */
  lemma BestIgnoresOrder(b1: Option<DirectionChoice>, b2: Option<DirectionChoice>, evaluate: Evaluator, c1: seq<u64>,
                         c2: seq<u64>,
                         min: u64, largest: u64, minProfit: u64)
    requires forall a :: a in c1 <==> a in c2
    requires IsBest(b1, evaluate, c1, min, largest, minProfit) && IsBest(b2, evaluate, c2, min, largest, minProfit)
    ensures b1 == b2
  {
    if b1.Some? {
      var k :| 0 <= k < |c2| && c2[k] == b1.value.amountIn;
    }
    if b2.Some? {
      var k :| 0 <= k < |c1| && c1[k] == b2.value.amountIn;
    }
  }

  /** Whether the minimum was quoted, and its output, depend only on whether it is a candidate. */
  lemma {:induction false} SummaryOfMinimum(s: Summary, evaluate: Evaluator, candidates: seq<u64>, min: u64,
                                            largest: u64, minProfit: u64)
    ensures var r := SummaryFrom(s, evaluate, candidates, min, largest, minProfit);
            var quoted := min <= largest && min in candidates && evaluate(min).Ok?;
            && r.minimumComplete == (s.minimumComplete || quoted)
            && r.minimumOut == if quoted then evaluate(min).value.amountOut else s.minimumOut
    ensures var r := SummaryFrom(s, evaluate, candidates, min, largest, minProfit);
            r.completeSeen == (s.completeSeen || exists a :: a in candidates && min <= a <= largest && evaluate(a).Ok?)
    decreases |candidates|
  {
    hide Improved, ChoiceAt;
    if |candidates| > 0 {
      var a, rest := candidates[0], candidates[1..];
      assert candidates == [a] + rest;
      assert forall x :: x in candidates <==> x == a || x in rest;
      SummaryOfMinimum(Step(s, evaluate, a, min, largest, minProfit), evaluate, rest, min, largest, minProfit);
    }
  }

  /** The whole result of an evaluation is independent of the order of its candidates. */
  lemma EvaluationIgnoresOrder(evaluate: Evaluator, c1: seq<u64>, c2: seq<u64>, min: u64, largest: u64, minProfit: u64)
    requires forall a :: a in c1 <==> a in c2
    ensures SummaryOf(evaluate, c1, min, largest, minProfit) == SummaryOf(evaluate, c2, min, largest, minProfit)
  {
    hide IsBest, SummaryFrom;
    EvaluationFindsBest(evaluate, c1, min, largest, minProfit);
    EvaluationFindsBest(evaluate, c2, min, largest, minProfit);
    var s1, s2 := SummaryOf(evaluate, c1, min, largest, minProfit), SummaryOf(evaluate, c2, min, largest, minProfit);
    BestIgnoresOrder(s1.best, s2.best, evaluate, c1, c2, min, largest, minProfit);
    SummaryOfMinimum(NOTHING_SEEN, evaluate, c1, min, largest, minProfit);
    SummaryOfMinimum(NOTHING_SEEN, evaluate, c2, min, largest, minProfit);
  }
}
