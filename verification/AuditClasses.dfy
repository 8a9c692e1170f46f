/** Which calls scripts/audit-codex-wakeups.py counts as required, avoidable or indeterminate, in words. */
module AuditClasses {
  import opened Wrappers
  import opened JsonValues
  import opened Permutations
  import opened WakeupAudit
  import opened AuditSums
  import opened AuditCalls
  import opened AuditSettled

  const REQUIRED_WORDS: set<string> := {"required_freeze", "required_final_review", "required_semantic_escalation"}
  const AVOIDABLE_WORDS: set<string> := {
    "avoidable_by_deterministic_guard", "avoidable_by_owner_convergence", "avoidable_by_review_reuse"
  }
  const CLASS_WORDS: set<string> := REQUIRED_WORDS + AVOIDABLE_WORDS + {"indeterminate"}

  /** What the annotation names as the counterfactual of its call. */
  predicate Says(a: Annotation, words: set<string>) {
    Get(a, BookendCounterfactual).Text? && Get(a, BookendCounterfactual).s in words
  }

  /** An annotation reports no error exactly when each of its members is absent or of the right form, and its claims
      come with what they need. */
  lemma ValidExactly(a: Annotation)
    ensures AnnotationErrors(a) == [] <==>
              && (Get(a, ProximateTrigger).Null? || IsText(Get(a, ProximateTrigger), TRIGGERS))
              && (Get(a, RootCause).Null? || IsText(Get(a, RootCause), CAUSES))
              && (Get(a, BookendCounterfactual).Null? || Says(a, CLASS_WORDS))
              && (Get(a, ClassificationConfidence).Null?
                  || IsText(Get(a, ClassificationConfidence), DEFINITE + {"indeterminate"}))
              && (forall name | name in {PolicyRequired, UserTriggered, SemanticDecisionRequired} ::
                    Get(a, name).Null? || Get(a, name).Bool?)
              && (Get(a, Iteration).Null? || (Get(a, Iteration).Int? && Get(a, Iteration).n >= 1))
              && (Says(a, REQUIRED_WORDS + AVOIDABLE_WORDS) ==>
                    HasEvidence(a) && IsText(Get(a, ClassificationConfidence), DEFINITE))
              && !(Get(a, SemanticDecisionRequired) == Bool(true) && IsText(Get(a, RootCause), MECHANICAL_CAUSES))
              && !(Get(a, SemanticDecisionRequired) == Bool(false) && IsText(Get(a, RootCause), SEMANTIC_CAUSES))
  {
    NamedInWords(a);
    hide HasEvidence, IsText, Named, CounterfactualOf, Says, TRIGGERS, CAUSES, DEFINITE, MECHANICAL_CAUSES;
    hide SEMANTIC_CAUSES, REQUIRED_WORDS, AVOIDABLE_WORDS, CLASS_WORDS, Truthy;
  }

  lemma NamedInWords(a: Annotation)
    ensures CounterfactualOf(a).Some? <==> Says(a, CLASS_WORDS)
    ensures CounterfactualOf(a).Some? && IsRequired(CounterfactualOf(a).value) <==> Says(a, REQUIRED_WORDS)
    ensures CounterfactualOf(a).Some? && IsAvoidable(CounterfactualOf(a).value) <==> Says(a, AVOIDABLE_WORDS)
    ensures CounterfactualOf(a) == Some(Indeterminate) <==> Says(a, {"indeterminate"})
    ensures Get(a, BookendCounterfactual).Null? || CounterfactualOf(a).Some? ==>
              (Claims(a) <==> Says(a, REQUIRED_WORDS + AVOIDABLE_WORDS))
  {
    if Get(a, BookendCounterfactual).Text? { WordsNamed(Get(a, BookendCounterfactual).s); }
    hide Named, REQUIRED_WORDS, AVOIDABLE_WORDS, CLASS_WORDS;
  }

  lemma WordsNamed(s: string)
    ensures Named(s).Some? <==> s in CLASS_WORDS
    ensures Named(s).Some? && IsRequired(Named(s).value) <==> s in REQUIRED_WORDS
    ensures Named(s).Some? && IsAvoidable(Named(s).value) <==> s in AVOIDABLE_WORDS
    ensures Named(s) == Some(Indeterminate) <==> s == "indeterminate"
    ensures s in REQUIRED_WORDS + AVOIDABLE_WORDS ==> s != "" && Named(s) != Some(Indeterminate)
    ensures s in CLASS_WORDS && s !in REQUIRED_WORDS + AVOIDABLE_WORDS ==> s == "indeterminate"
  {}

  // ----- What is compared -------------------------------------------------------------------------------------------

  /** Duplicate rows agree exactly when every core field is `==` in both. */
  lemma RowsAgreeExactly(a: Core, b: Core)
    ensures SameCore(a, b) <==>
              && Same(a.stage, b.stage) && Same(a.inputTokens, b.inputTokens) && Same(a.audit, b.audit)
              && |a.rest| == |b.rest| && forall i | 0 <= i < |a.rest| :: Same(a.rest[i], b.rest[i])
  {
    SameUnfolds(List(a.rest), List(b.rest));
    hide MeaningOf;
  }

  /** Annotations agree exactly when they have the same members, `==` in both, leaving aside call id and source. */
  lemma AnnotationsAgreeExactly(x: Annotation, y: Annotation)
    ensures Compared(x) == Compared(y) <==>
              forall name | name != CallId && name != SourceRef ::
                (name in x <==> name in y) && Same(Get(x, name), Get(y, name))
  {
    var (a, b) := (x - {CallId, SourceRef}, y - {CallId, SourceRef});
    SameUnfolds(Object(a), Object(b));
    hide MeaningOf;
    if Compared(x) == Compared(y) {
      assert Same(Object(a), Object(b));
      forall name | name != CallId && name != SourceRef
        ensures (name in x <==> name in y) && Same(Get(x, name), Get(y, name))
      {
        assert name in a.Keys <==> name in b.Keys;
      }
    }
    if forall name | name != CallId && name != SourceRef ::
         (name in x <==> name in y) && Same(Get(x, name), Get(y, name)) {
      assert a.Keys == b.Keys;
      assert Same(Object(a), Object(b));
    }
  }

  /** The rows of the readable ledgers, in the order they are read. */
  function RowsRead(ledgers: seq<Ledger>): seq<Row> {
    if ledgers == [] then []
    else (if ledgers[0].rows.Some? then ledgers[0].rows.value else []) + RowsRead(ledgers[1..])
  }

  predicate FromCodex(row: Row) {
    row.isCodex
  }

  lemma {:induction false} RowsReadSnoc(ledgers: seq<Ledger>, last: Ledger)
    ensures RowsRead(ledgers + [last]) == RowsRead(ledgers) + (if last.rows.Some? then last.rows.value else [])
  {
    if ledgers == [] {
      assert [last][1..] == [] && ledgers + [last] == [last];
    } else {
      RowsReadSnoc(ledgers[1..], last);
      assert (ledgers + [last])[1..] == ledgers[1..] + [last];
    }
  }

  lemma {:induction false} LedgerKeepsCodex(source: string, rows: seq<Row>)
    ensures Rows(LedgerRows(source, rows)) == Keep(FromCodex, rows)
  {
    if rows != [] {
      var front, last := rows[..|rows| - 1], rows[|rows| - 1];
      LedgerKeepsCodex(source, front);
      assert rows == front + [last];
      KeepConcat(FromCodex, front, [last]);
      assert [last][1..] == [];
    }
  }

  /** What is audited are exactly the codex rows of the readable ledgers, in the order they are read. */
  lemma {:induction false} CodexRowsAre(ledgers: seq<Ledger>)
    ensures CodexRows(ledgers) == Keep(FromCodex, RowsRead(ledgers))
  {
    if ledgers != [] {
      var front, last := ledgers[..|ledgers| - 1], ledgers[|ledgers| - 1];
      CodexRowsAre(front);
      assert ledgers == front + [last];
      RowsReadSnoc(front, last);
      var rows := if last.rows.Some? then last.rows.value else [];
      KeepConcat(FromCodex, RowsRead(front), rows);
      LedgerAdds(front, last);
      hide Keep, RowsRead, LedgerRows, AllRows, Map;
    }
  }

  lemma LedgerAdds(front: seq<Ledger>, last: Ledger)
    ensures var rows := if last.rows.Some? then last.rows.value else [];
            CodexRows(front + [last]) == CodexRows(front) + Keep(FromCodex, rows)
  {
    var rows := if last.rows.Some? then last.rows.value else [];
    LedgerKeepsCodex(last.source, rows);
    EmptyKept();
    assert (front + [last])[..|front|] == front;
    hide Keep, LedgerRows;
    var added := if last.rows.Some? then LedgerRows(last.source, rows) else [];
    assert AllRows(front + [last]) == AllRows(front) + added;
    hide AllRows;
    assert Rows(AllRows(front) + added) == Rows(AllRows(front)) + Rows(added);
  }

  lemma EmptyKept()
    ensures Keep(FromCodex, []) == []
  {}

  // ----- One call ---------------------------------------------------------------------------------------------------

  /** The annotations of a call agree, and checking or using the first one raises. */
  ghost predicate Raised(m: Merged, events: Events) {
    && Candidates(m.raw, events) != [] && Unanimous(m.raw, events)
    && var a := Candidates(m.raw, events)[0]; RaisesInCheck(a) || (AnnotationErrors(a) == [] && RaisesInUse(a))
  }

  /** They agree, and the first one is valid, raises nothing, and names one of some classes. */
  ghost predicate Annotated(m: Merged, events: Events, words: set<string>) {
    && Candidates(m.raw, events) != [] && Unanimous(m.raw, events)
    && var a := Candidates(m.raw, events)[0];
       !RaisesInCheck(a) && AnnotationErrors(a) == [] && !RaisesInUse(a) && Says(a, words)
  }

  predicate InRequiredStage(m: Merged) {
    m.raw.core.stage == Text("intent-freeze") || m.raw.core.stage == Text("final-review")
  }

  /** A call whose rows agree is required by its annotation or, without a class in one, by its stage. */
  ghost predicate RequiredCall(m: Merged, events: Events) {
    && !m.conflicting
    && (Annotated(m, events, REQUIRED_WORDS) || (!Annotated(m, events, CLASS_WORDS) && InRequiredStage(m)))
  }

  ghost predicate AvoidableCall(m: Merged, events: Events) {
    !m.conflicting && Annotated(m, events, AVOIDABLE_WORDS)
  }

  ghost predicate IndeterminateCall(m: Merged, events: Events) {
    || m.conflicting || Annotated(m, events, {"indeterminate"})
    || (!Annotated(m, events, CLASS_WORDS) && !InRequiredStage(m))
  }

  predicate CountsTokens(m: Merged) {
    !m.conflicting && (m.raw.core.inputTokens.Int? || m.raw.core.inputTokens.Float?)
  }

  lemma ChoiceInWords(m: Merged, events: Events)
    ensures Choose(m.raw, events) == Raises <==> Raised(m, events)
    ensures forall words :: Annotated(m, events, words) <==>
              Choose(m.raw, events).Chosen? && Says(Choose(m.raw, events).a, words)
  {
    AgreedIsUnanimous(Candidates(m.raw, events));
    hide AnnotationErrors, RaisesInCheck, RaisesInUse, Compared, Candidates, Agreed, Says;
  }

  /**
   * What becomes of every call: the TypeError that its annotation raises, or an episode of one of the three classes,
   * with the tokens of its row when its rows agree and these are a finite number.
   */
  lemma ClassifiedExactly(m: Merged, events: Events)
    ensures var o := OutcomeOf(m, events);
            && (o == TypeError <==> Raised(m, events))
            && (o.Counted? ==>
                  && (IsRequired(o.episode.counterfactual) <==> RequiredCall(m, events))
                  && (IsAvoidable(o.episode.counterfactual) <==> AvoidableCall(m, events))
                  && (IsIndeterminate(o.episode.counterfactual) <==> IndeterminateCall(m, events))
                  && (o.episode.inputTokens.Some? <==> CountsTokens(m))
                  && (CountsTokens(m) ==>
                        o.episode.inputTokens.value
                        == Count(NumberOf(m.raw.core.inputTokens), m.raw.core.inputTokens.Int?)))
  {
    ChoiceInWords(m, events);
    var choice := Choose(m.raw, events);
    if choice.Chosen? { NamedInWords(choice.a); }
    hide Choose, Annotated, Raised, CounterfactualOf, Says, REQUIRED_WORDS, AVOIDABLE_WORDS, CLASS_WORDS, NumberOf;
    hide IdsOf;
  }

  /** The word that stands for a class. */
  function WordOf(c: Counterfactual): string {
    match c
    case RequiredFreeze => "required_freeze"
    case RequiredFinalReview => "required_final_review"
    case RequiredSemanticEscalation => "required_semantic_escalation"
    case AvoidableByGuard => "avoidable_by_deterministic_guard"
    case AvoidableByOwner => "avoidable_by_owner_convergence"
    case AvoidableByReuse => "avoidable_by_review_reuse"
    case Indeterminate => "indeterminate"
  }

  lemma NamedIsWord(s: string)
    requires Named(s).Some?
    ensures s == WordOf(Named(s).value)
  {
    match Named(s).value
    case RequiredFreeze => assert s == "required_freeze";
    case RequiredFinalReview => assert s == "required_final_review";
    case RequiredSemanticEscalation => assert s == "required_semantic_escalation";
    case AvoidableByGuard => assert s == "avoidable_by_deterministic_guard";
    case AvoidableByOwner => assert s == "avoidable_by_owner_convergence";
    case AvoidableByReuse => assert s == "avoidable_by_review_reuse";
    case Indeterminate => assert s == "indeterminate";
  }

  /** The exact class of an episode: the one its annotation names, or that of its stage when none does; and its ids,
      each
      as text or, when it is no text, as it is printed. */
  lemma EpisodeExactly(m: Merged, events: Events)
    requires OutcomeOf(m, events).Counted?
    ensures var (e, row) := (OutcomeOf(m, events).episode, m.raw);
            && (m.conflicting ==> e.counterfactual == Indeterminate)
            && (!m.conflicting && Annotated(m, events, CLASS_WORDS) ==>
                  Annotated(m, events, {WordOf(e.counterfactual)}))
            && (!m.conflicting && !Annotated(m, events, CLASS_WORDS) ==>
                  && (e.counterfactual == RequiredFreeze <==> row.core.stage == Text("intent-freeze"))
                  && (e.counterfactual == RequiredFinalReview <==> row.core.stage == Text("final-review"))
                  && (e.counterfactual == Indeterminate <==> !InRequiredStage(m)))
            && e.ids == (if row.runId != "" then row.runId else row.printed.0,
                         if row.taskId != "" then row.taskId else row.printed.1,
                         if row.callId != "" then row.callId else row.printed.2)
  {
    ChoiceInWords(m, events);
    var choice := Choose(m.raw, events);
    if choice.Chosen? {
      NamedInWords(choice.a);
      if CounterfactualOf(choice.a).Some? { NamedIsWord(Get(choice.a, BookendCounterfactual).s); }
    }
    assert "intent-freeze" != "final-review";
    hide Choose, Annotated, Raised, Named, WordOf, REQUIRED_WORDS, AVOIDABLE_WORDS, CLASS_WORDS, NumberOf;
  }

  // ----- The summary ------------------------------------------------------------------------------------------------

  function TokensIn(m: Merged): real {
    if CountsTokens(m) then NumberOf(m.raw.core.inputTokens) else 0.0
  }

  ghost function RequiredTokens(events: Events): Merged -> real {
    m => if RequiredCall(m, events) then TokensIn(m) else 0.0
  }

  ghost function AvoidableTokens(events: Events): Merged -> real {
    m => if AvoidableCall(m, events) then TokensIn(m) else 0.0
  }

  ghost function IndeterminateTokens(events: Events): Merged -> real {
    m => if IndeterminateCall(m, events) then TokensIn(m) else 0.0
  }

  lemma {:induction false} SumOver<A, B>(f: A -> B, g: B -> real, h: A -> real, xs: seq<A>)
    requires forall x | x in xs :: g(f(x)) == h(x)
    ensures Sum(g, Map(f, xs)) == Sum(h, xs)
  {
    if xs != [] {
      SumOver(f, g, h, xs[1..]);
      assert xs[0] in xs && Map(f, xs)[1..] == Map(f, xs[1..]);
    }
  }

  /**
   * The summary in terms of the calls: none when some call raises; otherwise each sum adds the tokens of its calls, and
   * the counts are complete when there is a call and every one counts tokens.
   */
  lemma SummaryCountsCalls(records: seq<Merged>, events: Events)
    ensures SummaryFrom(Outcomes(records, events)).None? <==> exists m | m in records :: Raised(m, events)
    ensures SummaryFrom(Outcomes(records, events)).Some? ==>
              var s := SummaryFrom(Outcomes(records, events)).value;
              var complete := records != [] && forall m | m in records :: CountsTokens(m);
              && s.required == Sum(RequiredTokens(events), records)
              && s.avoidable == Sum(AvoidableTokens(events), records)
              && s.indeterminate == Sum(IndeterminateTokens(events), records)
              && s.complete == complete
              && s.minimum == (if complete then Some(s.required) else None)
              && s.maximum == (if complete then Some(s.required + s.indeterminate) else None)
  {
    hide *;
    SummaryIs(Outcomes(records, events));
    NoneRaises(records, events);
    if TypeError !in Outcomes(records, events) {
      SumsCountCalls(records, events);
      TotalsHold(Outcomes(records, events));
    }
  }

  lemma TotalsHold(outcomes: seq<Outcome>)
    ensures var s := Totals(outcomes);
            && s.required == Sum(Adds(IsRequired), outcomes) && s.avoidable == Sum(Adds(IsAvoidable), outcomes)
            && s.indeterminate == Sum(Adds(IsIndeterminate), outcomes) && s.complete == Complete(outcomes)
            && s.minimum == (if s.complete then Some(s.required) else None)
            && s.maximum == (if s.complete then Some(s.required + s.indeterminate) else None)
  {
    hide Sum, Adds, Complete;
  }

  lemma NoneRaises(records: seq<Merged>, events: Events)
    ensures TypeError in Outcomes(records, events) <==> exists m | m in records :: Raised(m, events)
  {
    OutcomesAre(records, events);
    forall m ensures OutcomeOf(m, events) == TypeError <==> Raised(m, events) { ClassifiedExactly(m, events); }
    hide OutcomeOf, Raised, Outcomes;
  }

  lemma SumsCountCalls(records: seq<Merged>, events: Events)
    requires TypeError !in Outcomes(records, events)
    ensures var outcomes := Outcomes(records, events);
            && Sum(Adds(IsRequired), outcomes) == Sum(RequiredTokens(events), records)
            && Sum(Adds(IsAvoidable), outcomes) == Sum(AvoidableTokens(events), records)
            && Sum(Adds(IsIndeterminate), outcomes) == Sum(IndeterminateTokens(events), records)
            && (Complete(outcomes) <==> records != [] && forall m | m in records :: CountsTokens(m))
  {
    OutcomesAre(records, events);
    assert Outcomes(records, events) == Map(m => OutcomeOf(m, events), records);
    hide OutcomeOf, Sum, Adds, Known, RequiredTokens, AvoidableTokens, IndeterminateTokens, CountsTokens, Outcomes, Map;
    forall m | m in records
      ensures Adds(IsRequired)(OutcomeOf(m, events)) == RequiredTokens(events)(m)
      ensures Adds(IsAvoidable)(OutcomeOf(m, events)) == AvoidableTokens(events)(m)
      ensures Adds(IsIndeterminate)(OutcomeOf(m, events)) == IndeterminateTokens(events)(m)
      ensures Known(OutcomeOf(m, events)) <==> CountsTokens(m)
    {
      CallAdds(m, events);
    }
    SumOver(m => OutcomeOf(m, events), Adds(IsRequired), RequiredTokens(events), records);
    SumOver(m => OutcomeOf(m, events), Adds(IsAvoidable), AvoidableTokens(events), records);
    SumOver(m => OutcomeOf(m, events), Adds(IsIndeterminate), IndeterminateTokens(events), records);
  }

  lemma OutcomesAre(records: seq<Merged>, events: Events)
    ensures forall o :: o in Outcomes(records, events) <==> exists m | m in records :: OutcomeOf(m, events) == o
    ensures |Outcomes(records, events)| == |records|
  {
    hide OutcomeOf;
    var outcomes := Outcomes(records, events);
    forall m | m in records ensures OutcomeOf(m, events) in outcomes {
      var i :| 0 <= i < |records| && records[i] == m;
      assert outcomes[i] == OutcomeOf(m, events);
    }
    forall o | o in outcomes ensures exists m | m in records :: OutcomeOf(m, events) == o {
      var i :| 0 <= i < |outcomes| && outcomes[i] == o;
      assert records[i] in records;
    }
  }

  lemma CallAdds(m: Merged, events: Events)
    requires OutcomeOf(m, events) != TypeError
    ensures Adds(IsRequired)(OutcomeOf(m, events)) == RequiredTokens(events)(m)
    ensures Adds(IsAvoidable)(OutcomeOf(m, events)) == AvoidableTokens(events)(m)
    ensures Adds(IsIndeterminate)(OutcomeOf(m, events)) == IndeterminateTokens(events)(m)
    ensures Known(OutcomeOf(m, events)) <==> CountsTokens(m)
  {
    ClassifiedExactly(m, events);
    hide OutcomeOf, RequiredCall, AvoidableCall, IndeterminateCall, NumberOf, IsRequired, IsAvoidable, IsIndeterminate;
    var o := OutcomeOf(m, events);
    assert EpisodeIn(o) == o.episode;
    assert Tokens(o.episode) == TokensIn(m);
    AddsIs(IsRequired, o);
    AddsIs(IsAvoidable, o);
    AddsIs(IsIndeterminate, o);
  }

  lemma AddsIs(p: Counterfactual -> bool, o: Outcome)
    ensures Adds(p)(o) == if p(EpisodeIn(o).counterfactual) then Tokens(EpisodeIn(o)) else 0.0
  {}
}
