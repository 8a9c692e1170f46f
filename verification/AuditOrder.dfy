/**
 * Everything that reordering ledgers, rows and event logs can make of the audit of scripts/audit-codex-wakeups.py: for
 * each call, independently of the others, what any of its rows and annotations leads to when it is read first.
 */
module AuditOrder {
  import opened Wrappers
  import opened Permutations
  import opened WakeupAudit
  import opened AuditSums
  import opened AuditCalls

  // ----- Steady calls -----------------------------------------------------------------------------------------------

  /** The same calls are annotated, each with the same annotations in some order. */
  ghost predicate SameAnnotations(a: Events, b: Events) {
    a.Keys == b.Keys && forall id | id in a :: multiset(a[id]) == multiset(b[id])
  }

  /** What checking can come to for a row: its own annotation is read first; otherwise any of the call's may be. */
  ghost function Choices(row: Row, events: Events): set<Choice> {
    if Candidates(row, events) == [] || !Unanimous(row, events) then {NoAnnotation}
    else if row.core.audit.Object? then {Check(row.core.audit.fields)}
    else set a | a in BoundTo(row, events) :: Check(a)
  }

  /** Some row of the call, with some annotation that may be read first for it, leads to the outcome. */
  ghost predicate MayCome(call: seq<Row>, events: Events, o: Outcome) {
    exists r, c | r in call && c in Choices(r, events) :: Judged(r, c, InConflict(call)) == o
  }

  /** Every row of the call, with every annotation that may be read first for it, leads to the same outcome. */
  ghost predicate Steady(call: seq<Row>, events: Events) {
    forall o, p | MayCome(call, events, o) && MayCome(call, events, p) :: o == p
  }

  lemma ChoiceIsPossible(row: Row, events: Events)
    ensures Choose(row, events) in Choices(row, events)
  {
    hide Check, Compared, Unanimous;
    AgreedIsUnanimous(Candidates(row, events));
    assert Unanimous(row, events) <==> Agreed(Candidates(row, events)) by { UnanimousIs(row, events); }
    hide Agreed;
    if !row.core.audit.Object? && BoundTo(row, events) != [] {
      assert Candidates(row, events) == BoundTo(row, events);
      assert BoundTo(row, events)[0] in BoundTo(row, events);
    }
  }

  lemma UnanimousIs(row: Row, events: Events)
    ensures Unanimous(row, events) <==> Agreed(Candidates(row, events))
  {
    hide Compared, Candidates, Agreed;
    AgreedIsUnanimous(Candidates(row, events));
  }

  lemma ChoicesIgnoreOrder(row: Row, a: Events, b: Events)
    requires SameAnnotations(a, b)
    ensures Choices(row, a) == Choices(row, b)
  {
    hide Check, Compared;
    SameMembers(BoundTo(row, a), BoundTo(row, b));
    assert forall x :: x in Candidates(row, a) <==> x in Embedded(row) || x in BoundTo(row, a);
    assert forall x :: x in Candidates(row, b) <==> x in Embedded(row) || x in BoundTo(row, b);
    assert |Candidates(row, a)| == |Candidates(row, b)| by {
      assert |BoundTo(row, a)| == |multiset(BoundTo(row, a))| && |BoundTo(row, b)| == |multiset(BoundTo(row, b))|;
    }
    hide Candidates, Embedded, BoundTo, SameAnnotations;
  }

  lemma SameMembers<T>(a: seq<T>, b: seq<T>)
    requires multiset(a) == multiset(b)
    ensures forall x :: x in a <==> x in b
  {
    forall x ensures x in a <==> x in b {
      assert x in a <==> x in multiset(a);
      assert x in b <==> x in multiset(b);
    }
  }

  /** Conflict is a matter of which rows a call has. */
  lemma ConflictIgnoresOrder(a: seq<Row>, b: seq<Row>)
    requires multiset(a) == multiset(b)
    ensures InConflict(a) <==> InConflict(b)
  {
    SameMembers(a, b);
    ConflictMeans(a);
    ConflictMeans(b);
    hide InConflict;
  }

  lemma ConflictMeans(call: seq<Row>)
    ensures InConflict(call) <==> exists r, s | r in call && s in call :: !SameCore(r.core, s.core)
  {
    hide CoreMeaning;
    if !InConflict(call) {
      forall r | r in call ensures SameCore(r.core, call[0].core) {
        var i :| 0 <= i < |call| && call[i] == r;
      }
    }
  }

  // ----- Reordering -------------------------------------------------------------------------------------------------

  /** The same codex rows and annotations, in any order and spread over any ledgers. */
  ghost predicate Reorders(b: seq<Ledger>, eb: Events, a: seq<Ledger>, ea: Events) {
    DistinctSources(b) && multiset(CodexRows(b)) == multiset(CodexRows(a)) && SameAnnotations(ea, eb)
  }

  ghost predicate AllSteady(rows: seq<Row>, events: Events) {
    forall key | key in CallKeys(rows) :: Steady(RowsOf(rows, key), events)
  }

  /** One outcome for each call that its rows and annotations may lead to. */
  ghost predicate Selects(rows: seq<Row>, events: Events, outcome: Key -> Outcome) {
    forall key | key in CallKeys(rows) :: MayCome(RowsOf(rows, key), events, outcome(key))
  }

  lemma UnboundIgnoresEvents(row: Row, a: Events, b: Events)
    requires Unidentified(row)
    ensures RowOutcome(row, false, a) == RowOutcome(row, false, b)
  {
    hide Check;
    assert Candidates(row, a) == Candidates(row, b);
  }

  lemma UnboundIgnoresOrder(a: seq<Row>, b: seq<Row>, ea: Events, eb: Events)
    requires multiset(a) == multiset(b)
    ensures multiset(Unbound(a, ea)) == multiset(Unbound(b, eb))
  {
    hide RowOutcome, Unidentified;
    KeepPermutes(Unidentified, a, b);
    MapPermutes(row => RowOutcome(row, false, eb), Keep(Unidentified, a), Keep(Unidentified, b));
    KeepMembers(Unidentified, a);
    var bare := Keep(Unidentified, a);
    forall i | 0 <= i < |bare| ensures RowOutcome(bare[i], false, ea) == RowOutcome(bare[i], false, eb) {
      assert bare[i] in bare;
      UnboundIgnoresEvents(bare[i], ea, eb);
    }
    assert Map(row => RowOutcome(row, false, ea), bare) == Map(row => RowOutcome(row, false, eb), bare);
  }

  lemma CallKeysPermute(a: seq<Row>, b: seq<Row>)
    requires multiset(a) == multiset(b)
    ensures multiset(CallKeys(a)) == multiset(CallKeys(b))
  {
    hide CallKeys, Identified, CanonicalOf;
    CallKeysAre(a);
    CallKeysAre(b);
    SameMembers(a, b);
    DistinctPermutes(CallKeys(a), CallKeys(b));
  }

  /** What a call comes to in one order may come of it in any other. */
  lemma OutcomeMayCome(a: seq<Row>, b: seq<Row>, ea: Events, eb: Events)
    requires multiset(a) == multiset(b) && SameAnnotations(ea, eb) && b != []
    ensures MayCome(a, ea, CallOutcome(b, eb))
  {
    hide Judged, Choose, Choices, SameAnnotations, InConflict;
    SameMembers(a, b);
    ConflictIgnoresOrder(a, b);
    ChoiceIsPossible(b[0], eb);
    ChoicesIgnoreOrder(b[0], ea, eb);
    assert b[0] in a;
  }

  /** The outcomes under any order are such a selection, next to those of the rows without identity. */
  lemma OrderSelects(a: seq<Row>, b: seq<Row>, ea: Events, eb: Events)
    requires multiset(a) == multiset(b) && SameAnnotations(ea, eb)
    ensures Selects(a, ea, OutcomeUnder(b, eb))
    ensures multiset(OutcomesOf(b, eb)) == multiset(OutcomesWith(a, ea, OutcomeUnder(b, eb)))
  {
    hide CallOutcome, SameAnnotations, CallKeys, MayCome, Unbound, OutcomeUnder;
    CallKeysPermute(a, b);
    UnboundIgnoresOrder(a, b, ea, eb);
    MapPermutes(OutcomeUnder(b, eb), CallKeys(a), CallKeys(b));
    forall key | key in CallKeys(a) ensures MayCome(RowsOf(a, key), ea, OutcomeUnder(b, eb)(key)) {
      CallIsThere(b, key, a);
      KeepPermutes(IsRowOf(key), a, b);
      OutcomeMayCome(RowsOf(a, key), RowsOf(b, key), ea, eb);
      assert OutcomeUnder(b, eb)(key) == CallOutcome(RowsOf(b, key), eb) by { UnderIs(b, eb, key); }
    }
  }

  lemma UnderIs(rows: seq<Row>, events: Events, key: Key)
    ensures OutcomeUnder(rows, events)(key) == CallOutcome(RowsOf(rows, key), events)
  {}

  lemma CallIsThere(b: seq<Row>, key: Key, a: seq<Row>)
    requires multiset(a) == multiset(b) && key in CallKeys(a)
    ensures RowsOf(b, key) != []
  {
    hide Identified, CanonicalOf, CallKeys;
    CallKeysAre(a);
    SameMembers(a, b);
    KeepMembers(IsRowOf(key), b);
    var row :| row in a && Identified(row) && CanonicalOf(row) == key;
    assert row in RowsOf(b, key);
  }

  // ----- Reading a row and an annotation first ----------------------------------------------------------------------

  function PutFirst<T>(xs: seq<T>, i: nat): seq<T>
    requires i < |xs|
  {
    [xs[i]] + Without(xs, i)
  }

  lemma PutFirstPermutes<T>(xs: seq<T>, i: nat)
    requires i < |xs|
    ensures multiset(PutFirst(xs, i)) == multiset(xs)
  {
    WithoutMultiset(xs, i);
  }

  /** Putting one row first changes no other call. */
  lemma OtherCallsStay(rows: seq<Row>, i: nat, key: Key)
    requires i < |rows|
    ensures !IsRowOf(key)(rows[i]) ==> RowsOf(PutFirst(rows, i), key) == RowsOf(rows, key)
    ensures IsRowOf(key)(rows[i]) ==>
        RowsOf(PutFirst(rows, i), key) != [] && RowsOf(PutFirst(rows, i), key)[0] == rows[i]
  {
    var p, before, after := IsRowOf(key), rows[..i], rows[i + 1..];
    assert rows == before + ([rows[i]] + after);
    KeepConcat(p, before, [rows[i]] + after);
    KeepConcat(p, before, after);
    KeepStep(p, rows[i], after);
    KeepStep(p, rows[i], before + after);
    hide Keep;
  }

  /** Without an annotation of its own, a row goes by the first annotation bound to its call. */
  lemma FirstBoundIsChecked(row: Row, events: Events)
    requires !row.core.audit.Object? && BoundTo(row, events) != [] && Unanimous(row, events)
    ensures Choose(row, events) == Check(BoundTo(row, events)[0])
  {
    hide Check, Compared, Agreed, Unanimous;
    UnanimousIs(row, events);
    assert Candidates(row, events) == BoundTo(row, events);
  }

  /** A choice that is possible but not made goes by an annotation that is read later. */
  lemma OtherChoice(row: Row, events: Events, c: Choice) returns (i: nat)
    requires c in Choices(row, events) && c != Choose(row, events)
    ensures !row.core.audit.Object? && Unanimous(row, events)
    ensures i < |BoundTo(row, events)| && Check(BoundTo(row, events)[i]) == c
  {
    hide Check, Compared, Unanimous;
    ChoiceIsPossible(row, events);
    hide Choose;
    assert !row.core.audit.Object? && Unanimous(row, events) && Candidates(row, events) != [];
    var a :| a in BoundTo(row, events) && Check(a) == c;
    i :| 0 <= i < |BoundTo(row, events)| && BoundTo(row, events)[i] == a;
  }

  /** Any possible choice is made under some order of the annotations of that call. */
  lemma ChoiceIsReached(row: Row, events: Events, c: Choice) returns (reordered: Events)
    requires Identified(row) && c in Choices(row, events)
    ensures SameAnnotations(events, reordered) && Choose(row, reordered) == c
    ensures forall id | id in events && id != IdentityOf(row) :: reordered[id] == events[id]
  {
    reordered := events;
    hide Choices, Choose, Check, Unanimous;
    if Choose(row, events) != c {
      var i := OtherChoice(row, events, c);
      var bound := BoundTo(row, events);
      PutFirstPermutes(bound, i);
      reordered := events[IdentityOf(row) := PutFirst(bound, i)];
      StillUnanimous(row, events, reordered);
      FirstBoundIsChecked(row, reordered);
    }
  }

  lemma StillUnanimous(row: Row, a: Events, b: Events)
    requires SameAnnotations(a, b) && Unanimous(row, a)
    ensures Unanimous(row, b)
  {
    hide Compared;
    SameMembers(BoundTo(row, a), BoundTo(row, b));
    assert forall x :: x in Candidates(row, a) <==> x in Embedded(row) || x in BoundTo(row, a);
    assert forall x :: x in Candidates(row, b) <==> x in Embedded(row) || x in BoundTo(row, b);
    hide Candidates, Embedded, BoundTo, SameAnnotations;
  }

  /** A call other than the reordered one comes out as before. */
  lemma OtherOutcomeStays(rows: seq<Row>, i: nat, k: Key, ea: Events, eb: Events)
    requires i < |rows| && Identified(rows[i]) && CanonicalOf(rows[i]) != k
    requires ea.Keys == eb.Keys && forall id | id in ea && id != IdentityOf(rows[i]) :: eb[id] == ea[id]
    ensures CallOutcome(RowsOf(PutFirst(rows, i), k), eb) == CallOutcome(RowsOf(rows, k), ea)
  {
    hide *;
    OtherCallsStay(rows, i, k);
    LeadsAsOther(rows, rows[i], k, ea, eb);
    assert !IsRowOf(k)(rows[i]) by { NotRowOf(rows[i], k); }
  }

  lemma NotRowOf(row: Row, k: Key)
    requires CanonicalOf(row) != k
    ensures !IsRowOf(k)(row)
  {}

  lemma LeadsAsOther(rows: seq<Row>, row: Row, k: Key, ea: Events, eb: Events)
    requires Identified(row) && CanonicalOf(row) != k
    requires ea.Keys == eb.Keys && forall id | id in ea && id != IdentityOf(row) :: eb[id] == ea[id]
    ensures CallOutcome(RowsOf(rows, k), eb) == CallOutcome(RowsOf(rows, k), ea)
  {
    KeepMembers(IsRowOf(k), rows);
    var call := RowsOf(rows, k);
    assert forall r | r in call :: Identified(r) && CanonicalOf(r) == k;
    hide RowsOf, RowOutcome, InConflict;
    if call != [] {
      assert call[0] in call;
      assert IdentityOf(call[0]) != IdentityOf(row);
      SameBound(call[0], InConflict(call), ea, eb);
    }
  }

  lemma SameBound(row: Row, conflicting: bool, a: Events, b: Events)
    requires BoundTo(row, a) == BoundTo(row, b)
    ensures RowOutcome(row, conflicting, a) == RowOutcome(row, conflicting, b)
  {
    hide Check, Agreed, Judged, BoundTo, Embedded;
  }

  /** The reordered call comes out as the row and the choice put first say. */
  lemma LeadingOutcome(rows: seq<Row>, i: nat, events: Events)
    requires i < |rows| && Identified(rows[i])
    ensures var (r, key) := (rows[i], CanonicalOf(rows[i]));
            CallOutcome(RowsOf(PutFirst(rows, i), key), events)
            == Judged(r, Choose(r, events), InConflict(RowsOf(rows, key)))
  {
    var key := CanonicalOf(rows[i]);
    OtherCallsStay(rows, i, key);
    PutFirstPermutes(rows, i);
    hide PutFirst, InConflict, Judged, Choose, Keep;
    KeepPermutes(IsRowOf(key), rows, PutFirst(rows, i));
    ConflictIgnoresOrder(RowsOf(rows, key), RowsOf(PutFirst(rows, i), key));
  }

  /** One call comes out as wanted, and the others as before. */
  lemma ArrangeOne(rows: seq<Row>, m: seq<Row>, events: Events, e: Events, key: Key, o: Outcome)
      returns (moved: seq<Row>, reordered: Events)
    requires multiset(m) == multiset(rows) && SameAnnotations(events, e) && MayCome(RowsOf(rows, key), events, o)
    ensures multiset(moved) == multiset(rows) && SameAnnotations(events, reordered)
    ensures CallOutcome(RowsOf(moved, key), reordered) == o
    ensures forall k | k != key :: CallOutcome(RowsOf(moved, k), reordered) == CallOutcome(RowsOf(m, k), e)
  {
    hide CallOutcome, Choices, Choose, Judged, InConflict, PutFirst;
    var r, c :| r in RowsOf(rows, key) && c in Choices(r, events) && Judged(r, c, InConflict(RowsOf(rows, key))) == o;
    KeepMembers(IsRowOf(key), rows);
    KeepPermutes(IsRowOf(key), rows, m);
    hide Keep;
    SameMembers(rows, m);
    var i :| 0 <= i < |m| && m[i] == r;
    ConflictIgnoresOrder(RowsOf(rows, key), RowsOf(m, key));
    ChoicesIgnoreOrder(r, events, e);
    reordered := ChoiceIsReached(r, e, c);
    StillTheSame(events, e, reordered);
    moved := PutFirst(m, i);
    PutFirstPermutes(m, i);
    LeadingOutcome(m, i, reordered);
    hide RowsOf, SameAnnotations;
    forall k | k != key ensures CallOutcome(RowsOf(moved, k), reordered) == CallOutcome(RowsOf(m, k), e) {
      OtherOutcomeStays(m, i, k, e, reordered);
    }
  }

  lemma StillTheSame(a: Events, b: Events, c: Events)
    requires SameAnnotations(a, b) && SameAnnotations(b, c)
    ensures SameAnnotations(a, c) && b.Keys == c.Keys
  {}

  /** For any calls, any outcomes that may come of them come about under one order. */
  lemma {:induction false} Arrange(rows: seq<Row>, events: Events, keys: seq<Key>, outcome: Key -> Outcome)
      returns (moved: seq<Row>, reordered: Events)
    requires forall key | key in keys :: MayCome(RowsOf(rows, key), events, outcome(key))
    ensures multiset(moved) == multiset(rows) && SameAnnotations(events, reordered)
    ensures forall key | key in keys :: CallOutcome(RowsOf(moved, key), reordered) == outcome(key)
  {
    hide CallOutcome, SameAnnotations, MayCome, RowsOf;
    if keys == [] {
      moved, reordered := rows, events;
      assert SameAnnotations(events, events) by { AsTheyAre(events); }
    } else {
      var front, last := keys[..|keys| - 1], keys[|keys| - 1];
      assert keys == front + [last];
      var m, e := Arrange(rows, events, front, outcome);
      moved, reordered := ArrangeOne(rows, m, events, e, last, outcome(last));
      forall key | key in front && key != last ensures CallOutcome(RowsOf(moved, key), reordered) == outcome(key) {}
    }
  }

  lemma AsTheyAre(events: Events)
    ensures SameAnnotations(events, events)
  {}

  /** One ledger can hold any codex rows in any order. */
  lemma OneLedger(rows: seq<Row>) returns (b: seq<Ledger>)
    requires forall row | row in rows :: row.isCodex
    ensures DistinctSources(b) && CodexRows(b) == rows
  {
    b := [Ledger("", Some(rows))];
    LedgerHasCodexRows("", rows);
    assert b[..0] == [];
    assert AllRows(b) == [] + LedgerRows("", rows);
  }

  lemma {:induction false} OnlyCodexRows(ledgers: seq<Ledger>)
    ensures forall l | l in AllRows(ledgers) :: l.row.isCodex
  {
    if ledgers != [] {
      var last := ledgers[|ledgers| - 1];
      OnlyCodexRows(ledgers[..|ledgers| - 1]);
      if last.rows.Some? { LedgerHasCodexRows(last.source, last.rows.value); }
    }
  }

  lemma {:induction false} LedgerHasCodexRows(source: string, rows: seq<Row>)
    ensures forall l | l in LedgerRows(source, rows) :: l.row.isCodex
    ensures (forall row | row in rows :: row.isCodex) ==> Rows(LedgerRows(source, rows)) == rows
  {
    if rows != [] {
      var last := |rows| - 1;
      LedgerHasCodexRows(source, rows[..last]);
      assert rows == rows[..last] + [rows[last]];
      assert rows[last] in rows;
    }
  }

  lemma DifferentOutcomes(x: Outcome, y: Outcome, rest: seq<Outcome>)
    requires x != y
    ensures multiset([x] + rest) != multiset([y] + rest)
  {
    assert multiset([x] + rest)[x] == multiset(rest)[x] + 1 && multiset([y] + rest)[x] == multiset(rest)[x];
  }

  /** Every selection of outcomes that the calls may come to is what the audit makes of some order. */
  lemma SelectionIsReached(a: seq<Ledger>, ea: Events, outcome: Key -> Outcome) returns (b: seq<Ledger>, eb: Events)
    requires Selects(CodexRows(a), ea, outcome)
    ensures Reorders(b, eb, a, ea)
    ensures multiset(AuditOutcomes(b, eb)) == multiset(OutcomesWith(CodexRows(a), ea, outcome))
  {
    var rows := CodexRows(a);
    RowsMembers(AllRows(a));
    OnlyCodexRows(a);
    assert forall row | row in rows :: row.isCodex;
    hide CodexRows, AllRows, MayCome, CallKeys, AuditOutcomes, CallOutcome, RowsOf, SameAnnotations, Unbound;
    var moved, reordered := Arrange(rows, ea, CallKeys(rows), outcome);
    SameMembers(rows, moved);
    eb := reordered;
    b := OneLedger(moved);
    BuiltFromRows(b, eb);
    CallKeysPermute(rows, moved);
    UnboundIgnoresOrder(moved, rows, eb, ea);
    MapPermutes(OutcomeUnder(moved, eb), CallKeys(moved), CallKeys(rows));
    assert Map(OutcomeUnder(moved, eb), CallKeys(rows)) == Map(outcome, CallKeys(rows));
  }

  /** And nothing else is. */
  lemma OrderIsSelection(a: seq<Ledger>, ea: Events, b: seq<Ledger>, eb: Events)
    requires Reorders(b, eb, a, ea)
    ensures Selects(CodexRows(a), ea, OutcomeUnder(CodexRows(b), eb))
    ensures multiset(AuditOutcomes(b, eb))
         == multiset(OutcomesWith(CodexRows(a), ea, OutcomeUnder(CodexRows(b), eb)))
  {
    hide CodexRows, AuditOutcomes, OutcomesOf, OutcomesWith, OutcomeUnder, Selects, SameAnnotations;
    BuiltFromRows(b, eb);
    OrderSelects(CodexRows(a), CodexRows(b), ea, eb);
  }

  // ----- Selections that differ in one call -------------------------------------------------------------------------

  function Instead(outcome: Key -> Outcome, key: Key, o: Outcome): Key -> Outcome {
    k => if k == key then o else outcome(k)
  }

  /** The outcomes of a selection but for one call. */
  function Others(rows: seq<Row>, events: Events, outcome: Key -> Outcome, key: Key): seq<Outcome> {
    Map(outcome, Keep(Except(key), CallKeys(rows))) + Unbound(rows, events)
  }

  lemma InsteadSelects(rows: seq<Row>, events: Events, outcome: Key -> Outcome, key: Key, o: Outcome)
    requires Selects(rows, events, outcome) && MayCome(RowsOf(rows, key), events, o)
    ensures Selects(rows, events, Instead(outcome, key, o))
  {
    hide MayCome, CallKeys, RowsOf;
  }

  lemma OneAndOthers(rows: seq<Row>, events: Events, outcome: Key -> Outcome, key: Key, o: Outcome)
    requires key in CallKeys(rows)
    ensures multiset(OutcomesWith(rows, events, Instead(outcome, key, o)))
         == multiset([o] + Others(rows, events, outcome, key))
  {
    hide Unbound, CallKeys, Keep;
    var keys, swapped := CallKeys(rows), Instead(outcome, key, o);
    CallKeysAre(rows);
    MapSplitsOne(swapped, keys, key);
    KeepMembers(Except(key), keys);
    var others := Keep(Except(key), keys);
    forall i | 0 <= i < |others| ensures swapped(others[i]) == outcome(others[i]) {
      assert others[i] in others;
    }
    assert Map(swapped, others) == Map(outcome, others);
  }

  // ----- When the order does not matter -----------------------------------------------------------------------------

  /**
   * Reordering ledger files, reordering rows, even moving rows between ledgers, and reordering the annotations of
   * each call never changes what the audit builds if and only if every call is steady.
   */
  lemma AuditIgnoresOrder(a: seq<Ledger>, ea: Events)
    requires DistinctSources(a)
    ensures (forall b, eb | Reorders(b, eb, a, ea) :: multiset(AuditOutcomes(b, eb)) == multiset(AuditOutcomes(a, ea)))
            <==> AllSteady(CodexRows(a), ea)
  {
    var rows := CodexRows(a);
    var now := OutcomeUnder(rows, ea);
    hide CodexRows, AuditOutcomes, OutcomesWith, DistinctSources, Others, OutcomeUnder, Instead;
    InItsOwnOrder(a, ea);
    OrderIsSelection(a, ea, a, ea);
    if AllSteady(rows, ea) {
      forall b, eb | Reorders(b, eb, a, ea) ensures multiset(AuditOutcomes(b, eb)) == multiset(AuditOutcomes(a, ea)) {
        OrderIsSelection(a, ea, b, eb);
        OneSelection(rows, ea, now, OutcomeUnder(CodexRows(b), eb));
      }
    } else {
      hide MayCome;
      var key :| key in CallKeys(rows) && !Steady(RowsOf(rows, key), ea);
      var o, p :| MayCome(RowsOf(rows, key), ea, o) && MayCome(RowsOf(rows, key), ea, p) && o != p;
      var b1, e1 := SwitchedCall(a, ea, now, key, o);
      var b2, e2 := SwitchedCall(a, ea, now, key, p);
      DifferentOutcomes(o, p, Others(rows, ea, now, key));
      hide Reorders, Steady, AllSteady, Selects;
      assert multiset(AuditOutcomes(b1, e1)) != multiset(AuditOutcomes(b2, e2));
    }
  }

  lemma InItsOwnOrder(a: seq<Ledger>, ea: Events)
    requires DistinctSources(a)
    ensures Reorders(a, ea, a, ea)
  {}

  lemma OneSelection(rows: seq<Row>, events: Events, f: Key -> Outcome, g: Key -> Outcome)
    requires AllSteady(rows, events) && Selects(rows, events, f) && Selects(rows, events, g)
    ensures OutcomesWith(rows, events, f) == OutcomesWith(rows, events, g)
  {
    hide MayCome, CallKeys, RowsOf, Unbound;
    var keys := CallKeys(rows);
    forall i | 0 <= i < |keys| ensures f(keys[i]) == g(keys[i]) {
      assert keys[i] in keys;
    }
    assert Map(f, keys) == Map(g, keys);
  }

  /** Under some order one call comes to another outcome that may come of it, and the others as selected. */
  lemma SwitchedCall(a: seq<Ledger>, ea: Events, outcome: Key -> Outcome, key: Key, o: Outcome)
      returns (b: seq<Ledger>, eb: Events)
    requires var rows := CodexRows(a);
             key in CallKeys(rows) && Selects(rows, ea, outcome) && MayCome(RowsOf(rows, key), ea, o)
    ensures Reorders(b, eb, a, ea)
    ensures multiset(AuditOutcomes(b, eb)) == multiset([o] + Others(CodexRows(a), ea, outcome, key))
  {
    hide *;
    InsteadSelects(CodexRows(a), ea, outcome, key, o);
    OneAndOthers(CodexRows(a), ea, outcome, key, o);
    b, eb := SelectionIsReached(a, ea, Instead(outcome, key, o));
  }
}
