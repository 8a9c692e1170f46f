/**
 * Python's sums of token counts in scripts/audit-codex-wakeups.py: exact while everything added is an integer,
 * rounded to a double as soon as a float takes part.
 */
module AuditRounding {
  import opened Wrappers
  import opened Permutations
  import opened WakeupAudit
  import opened AuditSums

  /** The largest magnitude up to which a double holds every integer. */
  const EXACT_LIMIT: int := 9007199254740992

  function Magnitude(x: real): real {
    if x < 0.0 then -x else x
  }

  predicate IsWhole(x: real) {
    x == x.Floor as real
  }

  function ValueOf(c: Count): real {
    c.value
  }

  function WeightOf(c: Count): real {
    Magnitude(c.value)
  }

  ghost predicate AllInts(counts: seq<Count>) {
    forall c | c in counts :: c.isInt
  }

  ghost predicate AllWhole(counts: seq<Count>) {
    forall c | c in counts :: IsWhole(c.value)
  }

  /** All integers, or whole numbers that together stay within the limit. */
  ghost predicate Exactly(counts: seq<Count>) {
    AllInts(counts) || (AllWhole(counts) && Sum(WeightOf, counts) <= EXACT_LIMIT as real)
  }

  type Summation = seq<Count> -> Count
  type Addition = (Count, Count) -> Count

  /** A way of adding that makes no error on such numbers and keeps integers integers. */
  ghost predicate AddsExactly(sum: Summation, plus: Addition) {
    && (forall counts | Exactly(counts) :: sum(counts).value == Sum(ValueOf, counts))
    && (forall counts | AllInts(counts) :: sum(counts).isInt)
    && (forall a, b | Exactly([a, b]) :: plus(a, b).value == a.value + b.value)
  }

  // ----- Adding one number after the other --------------------------------------------------------------------------

  /** What is known of rounding to a double: integers within the limit stay as they are. */
  ghost predicate KeepsIntegers(round: real -> real) {
    forall x: real | IsWhole(x) && Magnitude(x) <= EXACT_LIMIT as real :: round(x) == x
  }

  /** `a + b` */
  function Plus(round: real -> real): Addition {
    (a: Count, b: Count) =>
      if a.isInt && b.isInt then Count(a.value + b.value, true)
      else Count(round(round(a.value) + round(b.value)), false)
  }

  /** `sum(counts)`, as Python accumulates it up to version 3.11. */
  function Accumulated(round: real -> real, counts: seq<Count>): Count {
    if counts == [] then Count(0.0, true)
    else Plus(round)(Accumulated(round, counts[..|counts| - 1]), counts[|counts| - 1])
  }

  function PlainSum(round: real -> real): Summation {
    counts => Accumulated(round, counts)
  }

  lemma {:induction false} IntsStayInts(round: real -> real, counts: seq<Count>)
    requires AllInts(counts)
    ensures Accumulated(round, counts).isInt && Accumulated(round, counts).value == Sum(ValueOf, counts)
  {
    if counts != [] {
      var front, last := counts[..|counts| - 1], counts[|counts| - 1];
      assert counts == front + [last];
      IntsStayInts(round, front);
      SumLast(ValueOf, front, last);
    }
  }

  lemma SumLast<A>(f: A -> real, front: seq<A>, last: A)
    ensures Sum(f, front + [last]) == Sum(f, front) + f(last)
  {
    SumConcat(f, front, [last]);
    assert [last][1..] == [];
  }

  lemma {:induction false} WholeStaysExact(round: real -> real, counts: seq<Count>)
    requires KeepsIntegers(round) && AllWhole(counts) && Sum(WeightOf, counts) <= EXACT_LIMIT as real
    ensures Accumulated(round, counts).value == Sum(ValueOf, counts)
  {
    if counts != [] {
      var front, last := counts[..|counts| - 1], counts[|counts| - 1];
      assert counts == front + [last];
      SumLast(ValueOf, front, last);
      SumLast(WeightOf, front, last);
      WeightsAdd(front);
      WholeStaysExact(round, front);
      WholeSum(front);
      WeightBounds(front);
      hide Sum, KeepsIntegers, IsWhole, Accumulated;
      LastStepIsExact(round, Accumulated(round, front), last);
      AccumulatedStep(round, front, last);
    }
  }

  lemma AccumulatedStep(round: real -> real, front: seq<Count>, last: Count)
    ensures Accumulated(round, front + [last]) == Plus(round)(Accumulated(round, front), last)
  {
    assert (front + [last])[..|front|] == front;
  }

  /** Whole numbers within the limit are added without rounding. */
  lemma LastStepIsExact(round: real -> real, a: Count, b: Count)
    requires KeepsIntegers(round) && IsWhole(a.value) && IsWhole(b.value)
    requires WeightOf(a) + WeightOf(b) <= EXACT_LIMIT as real
    ensures Plus(round)(a, b).value == a.value + b.value
  {
    WholeAdds(a.value, b.value);
    hide IsWhole;
    assert round(a.value) == a.value && round(b.value) == b.value;
    assert round(a.value + b.value) == a.value + b.value;
  }

  lemma WholeAdds(x: real, y: real)
    requires IsWhole(x) && IsWhole(y)
    ensures IsWhole(x + y)
  {
    assert x + y == (x.Floor + y.Floor) as real;
  }

  lemma {:induction false} WeightsAdd(counts: seq<Count>)
    ensures 0.0 <= Sum(WeightOf, counts)
  {
    if counts != [] { WeightsAdd(counts[1..]); }
  }

  lemma {:induction false} WholeSum(counts: seq<Count>)
    requires AllWhole(counts)
    ensures IsWhole(Sum(ValueOf, counts))
  {
    if counts != [] {
      WholeSum(counts[1..]);
      WholeAdds(counts[0].value, Sum(ValueOf, counts[1..]));
    }
  }

  lemma {:induction false} WeightBounds(counts: seq<Count>)
    ensures Magnitude(Sum(ValueOf, counts)) <= Sum(WeightOf, counts)
  {
    if counts != [] { WeightBounds(counts[1..]); }
  }

  /** Accumulating makes no error on integers and on whole numbers within the limit. */
  lemma PlainSumIsExact(round: real -> real)
    requires KeepsIntegers(round)
    ensures AddsExactly(PlainSum(round), Plus(round))
  {
    hide Sum, IsWhole, KeepsIntegers;
    forall counts | AllInts(counts)
      ensures PlainSum(round)(counts).isInt && PlainSum(round)(counts).value == Sum(ValueOf, counts)
    {
      IntsStayInts(round, counts);
    }
    forall counts | Exactly(counts) ensures PlainSum(round)(counts).value == Sum(ValueOf, counts) {
      if !AllInts(counts) { WholeStaysExact(round, counts); }
    }
    forall a, b | Exactly([a, b]) ensures Plus(round)(a, b).value == a.value + b.value {
      if !AllInts([a, b]) {
        SumOfTwo(a, b);
        LastStepIsExact(round, a, b);
      } else {
        assert [a, b][0] in [a, b] && [a, b][1] in [a, b];
      }
    }
  }

  lemma SumOfTwo(a: Count, b: Count)
    ensures Sum(WeightOf, [a, b]) == WeightOf(a) + WeightOf(b)
    ensures AllWhole([a, b]) <==> IsWhole(a.value) && IsWhole(b.value)
  {
    SumLast(WeightOf, [a], b);
    assert [a] + [b] == [a, b] && [a][1..] == [];
    assert [a, b][0] in [a, b] && [a, b][1] in [a, b];
  }

  // ----- The sums of the summary ----------------------------------------------------------------------------------

  function CountIn(e: Episode): Count {
    if e.inputTokens.Some? then e.inputTokens.value else Count(0.0, true)
  }

  /** The numbers added for one class of calls. */
  function CountsOf(p: Counterfactual -> bool, episodes: seq<Episode>): seq<Count> {
    Map(CountIn, KnownOf(p, episodes))
  }

  /** `build_summary`, with the sums as the script computes them. */
  function ScriptSummary(sum: Summation, plus: Addition, episodes: seq<Episode>): Summary {
    var (required, indeterminate) := (sum(CountsOf(IsRequired, episodes)), sum(CountsOf(IsIndeterminate, episodes)));
    var complete := episodes != [] && forall e | e in episodes :: e.inputTokens.Some?;
    Summary(required.value, sum(CountsOf(IsAvoidable, episodes)).value, indeterminate.value, complete,
            if complete then Some(required.value) else None,
            if complete then Some(plus(required, indeterminate).value) else None)
  }

  lemma CountsStep(p: Counterfactual -> bool, e: Episode, rest: seq<Episode>)
    ensures CountsOf(p, [e] + rest)
         == (if p(e.counterfactual) && e.inputTokens.Some? then [CountIn(e)] else []) + CountsOf(p, rest)
  {
    KeepStep((x: Episode) => p(x.counterfactual) && x.inputTokens.Some?, e, rest);
  }

  /** What is added for a class is among all counts, and its sum is that of the class. */
  lemma {:induction false} CountsAre(p: Counterfactual -> bool, episodes: seq<Episode>)
    ensures Sum(ValueOf, CountsOf(p, episodes)) == SumOf(p, episodes)
    ensures AllInts(Map(CountIn, episodes)) ==> AllInts(CountsOf(p, episodes))
    ensures AllWhole(Map(CountIn, episodes)) ==> AllWhole(CountsOf(p, episodes))
  {
    SumOfMap(CountIn, ValueOf, Tokens, KnownOf(p, episodes));
    KeepMembers((e: Episode) => p(e.counterfactual) && e.inputTokens.Some?, episodes);
    hide IsWhole, Sum, CountIn;
    forall c | c in CountsOf(p, episodes) ensures c in Map(CountIn, episodes) {
      var known := KnownOf(p, episodes);
      var i :| 0 <= i < |known| && CountIn(known[i]) == c;
      assert known[i] in episodes;
      var j :| 0 <= j < |episodes| && episodes[j] == known[i];
      assert Map(CountIn, episodes)[j] == c;
    }
  }

  lemma {:induction false} SumOfMap<A>(f: A -> Count, g: Count -> real, h: A -> real, xs: seq<A>)
    requires forall i | 0 <= i < |xs| :: h(xs[i]) == g(f(xs[i]))
    ensures Sum(g, Map(f, xs)) == Sum(h, xs)
  {
    if xs != [] {
      SumOfMap(f, g, h, xs[1..]);
      assert Map(f, xs)[1..] == Map(f, xs[1..]);
    }
  }

  /** The classes together weigh no more than all episodes. */
  lemma {:induction false} WeightsSplit(episodes: seq<Episode>)
    ensures Sum(WeightOf, CountsOf(IsRequired, episodes)) + Sum(WeightOf, CountsOf(IsAvoidable, episodes))
          + Sum(WeightOf, CountsOf(IsIndeterminate, episodes)) <= Sum(WeightOf, Map(CountIn, episodes))
  {
    if episodes != [] {
      var e, rest := episodes[0], episodes[1..];
      assert episodes == [e] + rest;
      WeightsSplit(rest);
      assert Map(CountIn, episodes) == [CountIn(e)] + Map(CountIn, rest);
      SumFirst(CountIn(e), Map(CountIn, rest));
      hide Sum, WeightOf, CountsOf, Map, CountIn;
      WeightStep(IsRequired, e, rest);
      WeightStep(IsAvoidable, e, rest);
      WeightStep(IsIndeterminate, e, rest);
    }
  }

  lemma WeightStep(p: Counterfactual -> bool, e: Episode, rest: seq<Episode>)
    ensures Sum(WeightOf, CountsOf(p, [e] + rest)) == Sum(WeightOf, CountsOf(p, rest))
        + if p(e.counterfactual) && e.inputTokens.Some? then WeightOf(CountIn(e)) else 0.0
  {
    CountsStep(p, e, rest);
    SumFirst(CountIn(e), CountsOf(p, rest));
    hide Sum, WeightOf, CountsOf;
    assert [] + CountsOf(p, rest) == CountsOf(p, rest);
  }

  lemma SumFirst(c: Count, rest: seq<Count>)
    ensures Sum(WeightOf, [c] + rest) == WeightOf(c) + Sum(WeightOf, rest) && 0.0 <= WeightOf(c)
  {
    assert ([c] + rest)[1..] == rest;
  }

  /**
   * Every sum the script computes, the retained maximum included, is the mathematical one when all counts are integers,
   * or whole and together within the limit of a double.
   */
  lemma ScriptSummaryIsExact(sum: Summation, plus: Addition, episodes: seq<Episode>)
    requires AddsExactly(sum, plus) && Exactly(Map(CountIn, episodes))
    ensures ScriptSummary(sum, plus, episodes) == BuildSummary(episodes)
  {
    var (required, avoidable) := (CountsOf(IsRequired, episodes), CountsOf(IsAvoidable, episodes));
    var indeterminate := CountsOf(IsIndeterminate, episodes);
    CountsAre(IsRequired, episodes);
    CountsAre(IsAvoidable, episodes);
    CountsAre(IsIndeterminate, episodes);
    WeightsSplit(episodes);
    WeightsAdd(required);
    WeightsAdd(avoidable);
    WeightsAdd(indeterminate);
    hide Sum, SumOf, CountsOf, Map, AllInts, AllWhole, AddsExactly;
    assert Exactly(required) && Exactly(avoidable) && Exactly(indeterminate);
    MaximumIsExact(sum, plus, required, indeterminate);
    assert sum(avoidable).value == Sum(ValueOf, avoidable) by { SumIsExact(sum, plus, avoidable); }
  }

  lemma SumIsExact(sum: Summation, plus: Addition, counts: seq<Count>)
    requires AddsExactly(sum, plus) && Exactly(counts)
    ensures sum(counts).value == Sum(ValueOf, counts)
  {}

  /** The sum of two sums. */
  lemma MaximumIsExact(sum: Summation, plus: Addition, xs: seq<Count>, ys: seq<Count>)
    requires AddsExactly(sum, plus)
    requires || (AllInts(xs) && AllInts(ys))
             || (AllWhole(xs) && AllWhole(ys) && Sum(WeightOf, xs) + Sum(WeightOf, ys) <= EXACT_LIMIT as real)
    ensures sum(xs).value == Sum(ValueOf, xs) && sum(ys).value == Sum(ValueOf, ys)
    ensures plus(sum(xs), sum(ys)).value == Sum(ValueOf, xs) + Sum(ValueOf, ys)
  {
    WeightsAdd(xs);
    WeightsAdd(ys);
    WeightBounds(xs);
    WeightBounds(ys);
    hide Sum, IsWhole;
    assert Exactly(xs) && Exactly(ys);
    if !(AllInts(xs) && AllInts(ys)) {
      WholeSum(xs);
      WholeSum(ys);
      SumOfTwo(sum(xs), sum(ys));
    }
    assert Exactly([sum(xs), sum(ys)]);
  }

  /**
   * Then every known token is counted once as required, avoidable or indeterminate, and when the counts are complete,
   * the retained maximum and what is safely avoidable add up to the total.
   */
  lemma ScriptSummaryAddsUp(sum: Summation, plus: Addition, episodes: seq<Episode>)
    requires AddsExactly(sum, plus) && Exactly(Map(CountIn, episodes))
    ensures var s := ScriptSummary(sum, plus, episodes);
            var total := sum(Map(CountIn, episodes)).value;
            && s.required + s.avoidable + s.indeterminate == total
            && (s.complete ==> s.maximum.Some? && s.maximum.value + s.avoidable == total)
            && (!s.complete ==> s.minimum.None? && s.maximum.None?)
  {
    SumOfMap(CountIn, ValueOf, Tokens, episodes);
    hide Exactly, ScriptSummary, BuildSummary;
    ScriptSummaryIsExact(sum, plus, episodes);
    SummaryAddsUp(episodes);
    SumIsExact(sum, plus, Map(CountIn, episodes));
  }

  /** Under that condition the script's summaries of the same episodes agree in every order. */
  lemma ScriptSummaryIgnoresOrder(sum: Summation, plus: Addition, a: seq<Episode>, b: seq<Episode>)
    requires multiset(a) == multiset(b) && AddsExactly(sum, plus) && Exactly(Map(CountIn, a))
    ensures ScriptSummary(sum, plus, a) == ScriptSummary(sum, plus, b)
  {
    MapPermutes(CountIn, a, b);
    ExactlyPermutes(Map(CountIn, a), Map(CountIn, b));
    hide *;
    ScriptSummaryIsExact(sum, plus, a);
    ScriptSummaryIsExact(sum, plus, b);
    SummaryIgnoresOrder(a, b);
  }

  lemma ExactlyPermutes(a: seq<Count>, b: seq<Count>)
    requires multiset(a) == multiset(b) && Exactly(a)
    ensures Exactly(b)
  {
    SumPermutes(WeightOf, a, b);
    hide Sum, IsWhole;
    forall c | c in b ensures c in a {
      assert c in multiset(b) && c in multiset(a);
    }
  }
}
