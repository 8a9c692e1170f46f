/**
 * The summary that scripts/audit-codex-wakeups.py prints: the sums are accumulated over the sorted episodes, so the
 * order of reading can show in them as well.
 */
module AuditScript {
  import opened Wrappers
  import opened Permutations
  import opened StableSort
  import opened WakeupAudit
  import opened AuditSums
  import opened AuditCalls
  import opened AuditOrder
  import opened AuditSettled
  import opened AuditRounding

  /** The summary with the script's sums, or `None` when the audit raises. */
  function ScriptAudit(sum: Summation, plus: Addition, ledgers: seq<Ledger>, events: Events): Option<Summary> {
    match Collected(AuditOutcomes(ledgers, events))
    case None => None
    case Some(episodes) => Some(ScriptSummary(sum, plus, episodes))
  }

  // ----- Counts that are added without error ------------------------------------------------------------------------

  /** The tokens of a row, zero when it counts none. */
  function RowCount(row: Row): Count {
    if TokensOf(row).Some? then TokensOf(row).value else Count(0.0, true)
  }

  /** The rows of the deduplicated calls. */
  function Firsts(located: seq<Located>): seq<Row> {
    if located == [] then []
    else
      var front, last := located[..|located| - 1], located[|located| - 1];
      if KeyOf(last) in Keys(front) then Firsts(front) else Firsts(front) + [last.row]
  }

  lemma {:induction false} FirstsAre(located: seq<Located>)
    ensures |Firsts(located)| == |Records(located)|
    ensures forall i | 0 <= i < |Firsts(located)| :: Records(located)[i].raw == Firsts(located)[i]
  {
    hide KeyOf, Disagrees;
    if located != [] {
      var front, last := located[..|located| - 1], located[|located| - 1];
      FirstsAre(front);
      assert located == front + [last];
      KeysHaveRows(front);
      forall i | 0 <= i < |Keys(front)|
        ensures FirstRow(located, Keys(front)[i]) == FirstRow(front, Keys(front)[i]) && Keys(front)[i] in Keys(front) {}
    }
  }

  lemma {:induction false} FirstsAreRows(located: seq<Located>)
    ensures forall row | row in Firsts(located) :: row in Rows(located)
    ensures Sum(WeightOf, Map(RowCount, Firsts(located))) <= Sum(WeightOf, Map(RowCount, Rows(located)))
  {
    hide KeyOf, RowCount, Keys;
    if located != [] {
      var front, last := located[..|located| - 1], located[|located| - 1];
      FirstsAreRows(front);
      assert Rows(located) == Rows(front) + [last.row];
      assert Map(RowCount, Rows(located)) == Map(RowCount, Rows(front)) + [RowCount(last.row)];
      assert Map(RowCount, Firsts(front) + [last.row]) == Map(RowCount, Firsts(front)) + [RowCount(last.row)];
      SumLast(WeightOf, Map(RowCount, Rows(front)), RowCount(last.row));
      SumLast(WeightOf, Map(RowCount, Firsts(front)), RowCount(last.row));
      assert 0.0 <= WeightOf(RowCount(last.row));
      hide Sum, Map, Rows;
    }
  }

  /** What an episode counts is what its row counts, or nothing. */
  lemma EpisodeCount(m: Merged, events: Events)
    ensures CountIn(EpisodeIn(OutcomeOf(m, events))) in {Count(0.0, true), RowCount(m.raw)}
  {
    hide Choose, Classify;
  }

  lemma {:induction false} LighterCounts(xs: seq<Count>, ys: seq<Count>)
    requires |xs| == |ys| && forall i | 0 <= i < |xs| :: xs[i] == Count(0.0, true) || xs[i] == ys[i]
    ensures Sum(WeightOf, xs) <= Sum(WeightOf, ys)
  {
    if xs != [] { LighterCounts(xs[1..], ys[1..]); }
  }

  /** When the counts of the rows add up exactly, so do those of the episodes. */
  lemma EpisodesAddExactly(located: seq<Located>, events: Events)
    requires Exactly(Map(RowCount, Rows(located)))
    ensures Exactly(Map(CountIn, Map(EpisodeIn, Outcomes(Records(located), events))))
  {
    var rows, firsts := Map(RowCount, Rows(located)), Map(RowCount, Firsts(located));
    var counts := Map(CountIn, Map(EpisodeIn, Outcomes(Records(located), events)));
    FirstsAre(located);
    FirstsAreRows(located);
    hide RowCount, Firsts, Records, Rows, OutcomeOf, Sum, IsWhole, CountIn, EpisodeIn, WeightOf;
    forall i | 0 <= i < |counts| ensures counts[i] == Count(0.0, true) || counts[i] == firsts[i] {
      EpisodeCount(Records(located)[i], events);
    }
    forall c | c in counts ensures c == Count(0.0, true) || c in rows {
      var i :| 0 <= i < |counts| && counts[i] == c;
      assert Firsts(located)[i] in Rows(located);
      var j :| 0 <= j < |Rows(located)| && Rows(located)[j] == Firsts(located)[i];
      assert rows[j] == firsts[i];
    }
    LighterCounts(counts, firsts);
    assert IsWhole(0.0) by { ZeroIsWhole(); }
  }

  lemma ZeroIsWhole()
    ensures IsWhole(0.0)
  {}

  /** Then the script's summary is the mathematical one. */
  lemma ScriptAuditIsExact(sum: Summation, plus: Addition, ledgers: seq<Ledger>, events: Events)
    requires AddsExactly(sum, plus) && Exactly(Map(RowCount, CodexRows(ledgers)))
    ensures ScriptAudit(sum, plus, ledgers, events) == AuditSummary(ledgers, events)
  {
    var outcomes := AuditOutcomes(ledgers, events);
    var episodes := Map(EpisodeIn, outcomes);
    EpisodesAddExactly(AllRows(ledgers), events);
    SortPermutes(Ids, episodes);
    MapPermutes(CountIn, episodes, SortBy(Ids, episodes));
    hide AuditOutcomes, SortBy, EpisodeIn, CountIn, Exactly, AddsExactly, ScriptSummary, BuildSummary;
    ExactlyPermutes(Map(CountIn, episodes), Map(CountIn, SortBy(Ids, episodes)));
    ScriptSummaryIsExact(sum, plus, SortBy(Ids, episodes));
  }

  /**
   * When the token counts of all rows are integers, or whole and together within the limit of a double, no reordering
   * changes the summary that is printed, or that there is none, if and only if the calls are settled.
   */
  lemma ScriptAuditIsSettled(sum: Summation, plus: Addition, a: seq<Ledger>, ea: Events)
    requires DistinctSources(a) && AddsExactly(sum, plus) && Exactly(Map(RowCount, CodexRows(a)))
    ensures (forall b, eb | Reorders(b, eb, a, ea) :: ScriptAudit(sum, plus, b, eb) == ScriptAudit(sum, plus, a, ea))
            <==> Settled(CodexRows(a), ea)
  {
    hide CodexRows, ScriptAudit, AuditSummary, AddsExactly, Exactly, SameAnnotations, RowCount, Settled;
    ScriptAuditIsExact(sum, plus, a, ea);
    forall b, eb | Reorders(b, eb, a, ea) ensures ScriptAudit(sum, plus, b, eb) == AuditSummary(b, eb) {
      MapPermutes(RowCount, CodexRows(a), CodexRows(b));
      ExactlyPermutes(Map(RowCount, CodexRows(a)), Map(RowCount, CodexRows(b)));
      ScriptAuditIsExact(sum, plus, b, eb);
    }
    SummaryIsSettled(a, ea);
  }

  // ----- Any way of adding ------------------------------------------------------------------------------------------

  /** Records of identified calls have ids of their own. */
  lemma IdentifiedApart(located: seq<Located>, events: Events)
    requires forall row | row in Rows(located) :: Identified(row)
    requires TypeError !in Outcomes(Records(located), events)
    ensures KeysApart(Ids, Map(EpisodeIn, Outcomes(Records(located), events)))
  {
    var outcomes := Outcomes(Records(located), events);
    KeysHaveRows(located);
    RowsMembers(located);
    forall i | 0 <= i < |outcomes|
      ensures KeyOfIds(EpisodeIn(outcomes[i]).ids) == Keys(located)[i]
    {
      assert outcomes[i] in outcomes && Keys(located)[i] in Keys(located);
      FirstRowIsThere(located, Keys(located)[i]);
      RecordIds(Records(located)[i], events);
    }
    hide Outcomes, Records, EpisodeIn;
  }

  function KeyOfIds(ids: Triple): Key {
    Canonical(ids.0, ids.1, ids.2)
  }

  lemma RecordIds(m: Merged, events: Events)
    requires Identified(m.raw) && OutcomeOf(m, events) != TypeError
    ensures KeyOfIds(EpisodeIn(OutcomeOf(m, events)).ids) == CanonicalOf(m.raw)
  {
    hide Choose, Classify;
  }

  /**
   * Over steady calls the printed summary, or that there is none, is the same in every order: however Python adds when
   * every row names its call, and with exact sums otherwise.
   */
  lemma SteadySummaryIgnoresOrder(sum: Summation, plus: Addition, a: seq<Ledger>, b: seq<Ledger>,
                                  ea: Events, eb: Events)
    requires DistinctSources(a) && AllSteady(CodexRows(a), ea) && Reorders(b, eb, a, ea)
    requires || (forall row | row in CodexRows(a) :: Identified(row))
             || (AddsExactly(sum, plus) && Exactly(Map(RowCount, CodexRows(a))))
    ensures ScriptAudit(sum, plus, a, ea) == ScriptAudit(sum, plus, b, eb)
  {
    AuditIgnoresOrder(a, ea);
    var (oa, ob) := (AuditOutcomes(a, ea), AuditOutcomes(b, eb));
    assert multiset(oa) == multiset(ob);
    if (forall row | row in CodexRows(a) :: Identified(row)) && TypeError !in oa { IdentifiedApart(AllRows(a), ea); }
    hide AuditOutcomes, ScriptSummary, AllSteady, DistinctSources, Identified, EpisodeIn, KeysApart, SameAnnotations;
    hide AddsExactly, Exactly, RowCount, CodexRows, SummaryFrom;
    SameMembers(oa, ob);
    MapPermutes(EpisodeIn, oa, ob);
    if forall row | row in CodexRows(a) :: Identified(row) {
      if TypeError !in oa {
        SortIgnoresOrder(Ids, Map(EpisodeIn, oa), Map(EpisodeIn, ob));
      }
    } else {
      MapPermutes(RowCount, CodexRows(a), CodexRows(b));
      ExactlyPermutes(Map(RowCount, CodexRows(a)), Map(RowCount, CodexRows(b)));
      ScriptAuditIsExact(sum, plus, a, ea);
      ScriptAuditIsExact(sum, plus, b, eb);
      SummaryFollows(oa, ob);
    }
  }
}
