/**
 * The calls of scripts/audit-codex-wakeups.py: what the audit makes of a call follows from its rows, in the order they
 * are read, whichever ledgers hold them.
 */
module AuditCalls {
  import opened Wrappers
  import opened Permutations
  import opened WakeupAudit
  import opened AuditSums

  function RowOf(l: Located): Row {
    l.row
  }

  function Rows(located: seq<Located>): seq<Row> {
    Map(RowOf, located)
  }

  /** Every row has a place of its own. */
  ghost predicate PlacedApart(located: seq<Located>) {
    forall i, j | 0 <= i < j < |located| ::
      located[i].source != located[j].source || located[i].line != located[j].line
  }

  ghost predicate DistinctSources(ledgers: seq<Ledger>) {
    forall i, j | 0 <= i < j < |ledgers| :: ledgers[i].source != ledgers[j].source
  }

  lemma {:induction false} LedgerRowsApart(source: string, rows: seq<Row>)
    ensures PlacedApart(LedgerRows(source, rows))
    ensures forall i | 0 <= i < |LedgerRows(source, rows)| ::
              LedgerRows(source, rows)[i].source == source && LedgerRows(source, rows)[i].line <= |rows|
  {
    if rows != [] { LedgerRowsApart(source, rows[..|rows| - 1]); }
  }

  /** Distinct ledgers place their rows apart. */
  lemma {:induction false} AllRowsApart(ledgers: seq<Ledger>)
    requires DistinctSources(ledgers)
    ensures PlacedApart(AllRows(ledgers))
    ensures forall i | 0 <= i < |AllRows(ledgers)| :: exists k | 0 <= k < |ledgers| ::
        ledgers[k].source == AllRows(ledgers)[i].source
  {
    if ledgers != [] {
      var front, last := ledgers[..|ledgers| - 1], ledgers[|ledgers| - 1];
      AllRowsApart(front);
      if last.rows.Some? { LedgerRowsApart(last.source, last.rows.value); }
      var before := AllRows(front);
      forall i | 0 <= i < |AllRows(ledgers)|
        ensures exists k | 0 <= k < |ledgers| :: ledgers[k].source == AllRows(ledgers)[i].source
        ensures i < |before| ==> AllRows(ledgers)[i].source != last.source
        ensures i >= |before| ==> AllRows(ledgers)[i].source == last.source
      {
        if i < |before| {
          assert AllRows(ledgers)[i] == before[i];
          var k :| 0 <= k < |front| && front[k].source == before[i].source;
          assert ledgers[k].source == before[i].source;
        } else {
          assert ledgers[|ledgers| - 1].source == AllRows(ledgers)[i].source;
        }
      }
    }
  }

  // ----- The rows of one call -----------------------------------------------------------------------------------

  function CanonicalOf(row: Row): Key {
    Canonical(row.runId, row.taskId, row.callId)
  }

  function IsRowOf(key: Key): Row -> bool {
    row => Identified(row) && CanonicalOf(row) == key
  }

  /** The rows of an identified call, in the order they are read. */
  function RowsOf(rows: seq<Row>, key: Key): seq<Row> {
    Keep(IsRowOf(key), rows)
  }

  /** Some row of the call is not `==` to another in its core fields. */
  predicate InConflict(call: seq<Row>) {
    exists i | 0 <= i < |call| :: !SameCore(call[i].core, call[0].core)
  }

  /** The outcome of a call: its first row stands for all. */
  function CallOutcome(call: seq<Row>, events: Events): Outcome {
    if call == [] then TypeError else RowOutcome(call[0], InConflict(call), events)
  }

  lemma {:induction false} FirstRowLeads(located: seq<Located>, key: Key)
    requires key.Canonical?
    ensures FirstRow(located, key) ==
            var call := RowsOf(Rows(located), key); if call == [] then None else Some(call[0])
  {
    if located != [] {
      var front, last := located[..|located| - 1], located[|located| - 1];
      FirstRowLeads(front, key);
      assert Rows(located) == Rows(front) + [last.row];
      KeepConcat(IsRowOf(key), Rows(front), [last.row]);
      assert [last.row][1..] == [];
    }
  }

  /** The dictionary's entry for an identified call is the outcome its rows determine. */
  lemma CanonicalEntry(located: seq<Located>, key: Key, events: Events)
    requires key.Canonical? && FirstRow(located, key).Some?
    ensures OutcomeOf(MergedFor(located, key), events) == CallOutcome(RowsOf(Rows(located), key), events)
  {
    hide *;
    FirstRowLeads(located, key);
    CallRowsAre(located, key);
    ConflictIsDisagreement(located, key);
    SameEntry(located, key, events);
  }

  lemma SameEntry(located: seq<Located>, key: Key, events: Events)
    requires FirstRow(located, key).Some?
    requires RowsOf(Rows(located), key) != [] && FirstRow(located, key).value == RowsOf(Rows(located), key)[0]
    requires Disagrees(located, key, FirstRow(located, key).value.core) <==> InConflict(RowsOf(Rows(located), key))
    ensures OutcomeOf(MergedFor(located, key), events) == CallOutcome(RowsOf(Rows(located), key), events)
  {
    hide RowOutcome, RowsOf, Rows, FirstRow, Disagrees, InConflict;
  }

  lemma CallRowsAre(located: seq<Located>, key: Key)
    requires key.Canonical?
    ensures forall row :: row in RowsOf(Rows(located), key) <==>
        exists l | l in located :: KeyOf(l) == key && l.row == row
  {
    RowsMembers(located);
    KeepMembers(IsRowOf(key), Rows(located));
    hide Rows, Keep;
  }

  lemma ConflictIsDisagreement(located: seq<Located>, key: Key)
    requires key.Canonical? && RowsOf(Rows(located), key) != []
    ensures Disagrees(located, key, RowsOf(Rows(located), key)[0].core) <==> InConflict(RowsOf(Rows(located), key))
  {
    hide SameCore, KeyOf, RowsOf, Rows;
    CallRowsAre(located, key);
    var call := RowsOf(Rows(located), key);
    if InConflict(call) {
      var i :| 0 <= i < |call| && !SameCore(call[i].core, call[0].core);
      assert call[i] in call;
    }
    if l :| l in located && KeyOf(l) == key && !SameCore(l.row.core, call[0].core) {
      assert l.row in call;
    }
  }

  lemma RowsMembers(located: seq<Located>)
    ensures forall l | l in located :: l.row in Rows(located)
    ensures forall row | row in Rows(located) :: exists l | l in located :: l.row == row
  {
    forall l | l in located ensures l.row in Rows(located) {
      var i :| 0 <= i < |located| && located[i] == l;
      assert Rows(located)[i] == l.row;
    }
    forall row | row in Rows(located) ensures exists l | l in located :: l.row == row {
      var i :| 0 <= i < |located| && Rows(located)[i] == row;
      assert located[i] in located;
    }
  }

  // ----- Episodes as a multiset -----------------------------------------------------------------------------------

  predicate IsCall(key: Key) {
    key.Canonical?
  }

  predicate IsPlace(key: Key) {
    key.Source?
  }

  predicate Unidentified(row: Row) {
    !Identified(row)
  }

  predicate UnidentifiedAt(l: Located) {
    !Identified(l.row)
  }

  /** The identified calls of some rows, in the order of their first rows. */
  function CallKeys(rows: seq<Row>): seq<Key> {
    if rows == [] then []
    else
      var front, last := CallKeys(rows[..|rows| - 1]), rows[|rows| - 1];
      if Unidentified(last) || CanonicalOf(last) in front then front else front + [CanonicalOf(last)]
  }

  lemma {:induction false} CallKeysAre(rows: seq<Row>)
    ensures forall i, j | 0 <= i < j < |CallKeys(rows)| :: CallKeys(rows)[i] != CallKeys(rows)[j]
    ensures forall key :: key in CallKeys(rows) <==>
        exists row | row in rows :: Identified(row) && CanonicalOf(row) == key
  {
    hide Identified, CanonicalOf;
    if rows != [] {
      var front, last := rows[..|rows| - 1], rows[|rows| - 1];
      CallKeysAre(front);
      assert rows == front + [last];
    }
  }

  lemma {:induction false} CallsAmongKeys(located: seq<Located>)
    ensures Keep(IsCall, Keys(located)) == CallKeys(Rows(located))
  {
    if located != [] {
      var front, last := located[..|located| - 1], located[|located| - 1];
      CallsAmongKeys(front);
      assert Rows(located)[..|Rows(located)| - 1] == Rows(front);
      KeepMembers(IsCall, Keys(front));
      KeepConcat(IsCall, Keys(front), [KeyOf(last)]);
      assert [KeyOf(last)][1..] == [];
    }
  }

  lemma {:induction false} PlacesAmongKeys(located: seq<Located>)
    requires PlacedApart(located)
    ensures Keep(IsPlace, Keys(located)) == Map(KeyOf, Keep(UnidentifiedAt, located))
  {
    if located != [] {
      var front, last := located[..|located| - 1], located[|located| - 1];
      assert located == front + [last];
      PlacesAmongKeys(front);
      KeysHaveRows(front);
      KeepConcat(IsPlace, Keys(front), [KeyOf(last)]);
      KeepConcat(UnidentifiedAt, front, [last]);
      assert [KeyOf(last)][1..] == [] && [last][1..] == [];
      if UnidentifiedAt(last) {
        FreshPlace(front, last);
      }
    }
  }

  lemma FreshPlace(front: seq<Located>, last: Located)
    requires PlacedApart(front + [last]) && UnidentifiedAt(last)
    ensures KeyOf(last) !in Keys(front)
  {
    KeysHaveRows(front);
    forall l | l in front ensures KeyOf(l) != KeyOf(last) {
      var i :| 0 <= i < |front| && front[i] == l;
      assert (front + [last])[i] == l && (front + [last])[|front|] == last;
    }
  }

  /** The outcome of the entry under a key. */
  function EntryOutcome(located: seq<Located>, key: Key, events: Events): Outcome {
    if FirstRow(located, key).Some? then OutcomeOf(MergedFor(located, key), events) else TypeError
  }

  lemma OutcomesByKey(located: seq<Located>, events: Events)
    ensures Outcomes(Records(located), events) == Map(key => EntryOutcome(located, key, events), Keys(located))
  {
    hide OutcomeOf, KeyOf;
    KeysHaveRows(located);
    assert forall i | 0 <= i < |Keys(located)| :: Keys(located)[i] in Keys(located);
  }

  /** A row without identity is a call of its own. */
  lemma PlaceEntry(located: seq<Located>, l: Located, events: Events)
    requires PlacedApart(located) && l in located && UnidentifiedAt(l)
    ensures EntryOutcome(located, KeyOf(l), events) == RowOutcome(l.row, false, events)
  {
    hide RowOutcome, CoreMeaning;
    KeysHaveRows(located);
    var i :| 0 <= i < |located| && located[i] == l;
    forall x | x in located && KeyOf(x) == KeyOf(l) ensures x == l {
      var j :| 0 <= j < |located| && located[j] == x;
    }
    FirstRowIsThere(located, KeyOf(l));
  }

  lemma {:induction false} FirstRowIsThere(located: seq<Located>, key: Key)
    requires FirstRow(located, key).Some?
    ensures exists l | l in located :: KeyOf(l) == key && l.row == FirstRow(located, key).value
  {
    if located != [] {
      var front, last := located[..|located| - 1], located[|located| - 1];
      assert located == front + [last];
      if FirstRow(front, key).Some? {
        FirstRowIsThere(front, key);
      } else {
        assert last in located;
      }
    }
  }

  /** The outcome of each identified call. */
  function OutcomeUnder(rows: seq<Row>, events: Events): Key -> Outcome {
    key => CallOutcome(RowsOf(rows, key), events)
  }

  /** The outcomes of the rows without identity. */
  function Unbound(rows: seq<Row>, events: Events): seq<Outcome> {
    Map(row => RowOutcome(row, false, events), Keep(Unidentified, rows))
  }

  /** These, and an outcome for each identified call. */
  function OutcomesWith(rows: seq<Row>, events: Events, outcome: Key -> Outcome): seq<Outcome> {
    Map(outcome, CallKeys(rows)) + Unbound(rows, events)
  }

  /** The outcomes that the rows determine. */
  function OutcomesOf(rows: seq<Row>, events: Events): seq<Outcome> {
    OutcomesWith(rows, events, OutcomeUnder(rows, events))
  }

  /** What the audit builds, as a multiset, follows from the codex rows alone, in the order they are read. */
  lemma OutcomesFollowFromRows(located: seq<Located>, events: Events)
    requires PlacedApart(located)
    ensures multiset(Outcomes(Records(located), events)) == multiset(OutcomesOf(Rows(located), events))
  {
    hide OutcomeOf, RowOutcome, CallOutcome, EntryOutcome, Keys, Keep, CallKeys, KeyOf;
    var entry := (key: Key) => EntryOutcome(located, key, events);
    OutcomesByKey(located, events);
    MapSplits(entry, IsCall, IsPlace, Keys(located));
    CallsAmongKeys(located);
    PlacesAmongKeys(located);
    CallEntries(located, events);
    PlaceEntries(located, events);
  }

  lemma CallEntries(located: seq<Located>, events: Events)
    ensures Map(key => EntryOutcome(located, key, events), CallKeys(Rows(located)))
         == Map(OutcomeUnder(Rows(located), events), CallKeys(Rows(located)))
  {
    hide OutcomeOf, CallOutcome, KeyOf, RowsOf;
    var keys := CallKeys(Rows(located));
    CallsAmongKeys(located);
    KeepMembers(IsCall, Keys(located));
    KeysHaveRows(located);
    forall i | 0 <= i < |keys|
      ensures EntryOutcome(located, keys[i], events) == CallOutcome(RowsOf(Rows(located), keys[i]), events)
    {
      assert keys[i] in keys;
      CanonicalEntry(located, keys[i], events);
    }
  }

  lemma PlaceEntries(located: seq<Located>, events: Events)
    requires PlacedApart(located)
    ensures Map(key => EntryOutcome(located, key, events), Map(KeyOf, Keep(UnidentifiedAt, located)))
         == Map(row => RowOutcome(row, false, events), Keep(Unidentified, Rows(located)))
  {
    hide EntryOutcome, RowOutcome, KeyOf;
    var bare := Keep(UnidentifiedAt, located);
    KeepMap(RowOf, Unidentified, UnidentifiedAt, located);
    KeepMembers(UnidentifiedAt, located);
    forall i | 0 <= i < |bare|
      ensures EntryOutcome(located, KeyOf(bare[i]), events) == RowOutcome(bare[i].row, false, events)
    {
      assert bare[i] in bare;
      PlaceEntry(located, bare[i], events);
    }
  }

  // ----- The whole audit ------------------------------------------------------------------------------------------

  /** What the audit makes of some ledgers and event logs. */
  function AuditOutcomes(ledgers: seq<Ledger>, events: Events): seq<Outcome> {
    Outcomes(Records(AllRows(ledgers)), events)
  }

  function CodexRows(ledgers: seq<Ledger>): seq<Row> {
    Rows(AllRows(ledgers))
  }

  /** The summary, or `None` when the audit raises. */
  function SummaryFrom(outcomes: seq<Outcome>): Option<Summary> {
    match Collected(outcomes)
    case None => None
    case Some(episodes) => Some(BuildSummary(episodes))
  }

  function AuditSummary(ledgers: seq<Ledger>, events: Events): Option<Summary> {
    SummaryFrom(AuditOutcomes(ledgers, events))
  }

  lemma AuditOutcomesAre(ledgers: seq<Ledger>, events: Events)
    ensures AuditOutcomes(ledgers, events) == Outcomes(Records(AllRows(ledgers)), events)
    ensures CodexRows(ledgers) == Rows(AllRows(ledgers))
  {}

  lemma BuiltFromRows(ledgers: seq<Ledger>, events: Events)
    requires DistinctSources(ledgers)
    ensures multiset(AuditOutcomes(ledgers, events)) == multiset(OutcomesOf(CodexRows(ledgers), events))
  {
    hide *;
    AllRowsApart(ledgers);
    OutcomesFollowFromRows(AllRows(ledgers), events);
    AuditOutcomesAre(ledgers, events);
  }
}
