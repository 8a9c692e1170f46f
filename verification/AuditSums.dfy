/** The episodes that scripts/audit-codex-wakeups.py builds from its calls, and the sums of their tokens. */
module AuditSums {
  import opened Wrappers
  import opened JsonValues
  import opened Permutations
  import opened StableSort
  import opened WakeupAudit

  type Identity = Triple

  /** The call-bound annotations of the event logs, in the order they are read. */
  type Events = map<Identity, seq<Annotation>>

  function IdentityOf(row: Row): Identity {
    (row.runId, row.taskId, row.callId)
  }

  // ----- Choosing an annotation -------------------------------------------------------------------------------

  function Embedded(row: Row): seq<Annotation> {
    if row.core.audit.Object? then [row.core.audit.fields] else []
  }

  function BoundTo(row: Row, events: Events): seq<Annotation> {
    if Identified(row) && IdentityOf(row) in events then events[IdentityOf(row)] else []
  }

  function Candidates(row: Row, events: Events): seq<Annotation> {
    Embedded(row) + BoundTo(row, events)
  }

  /** All annotations are `==` in what is compared. */
  predicate Agreed(annotations: seq<Annotation>) {
    forall i | 0 < i < |annotations| :: Compared(annotations[i]) == Compared(annotations[0])
  }

  datatype Choice = Raises | NoAnnotation | Chosen(a: Annotation)

  /** What becomes of the annotation that is checked. */
  function Check(a: Annotation): Choice {
    if RaisesInCheck(a) then Raises
    else if AnnotationErrors(a) != [] then NoAnnotation
    else if RaisesInUse(a) then Raises
    else Chosen(a)
  }

  /** `_choose_annotation`: when all candidates agree, the first one read is checked and stands for all. */
  function Choose(row: Row, events: Events): Choice {
    var candidates := Candidates(row, events);
    if candidates == [] || !Agreed(candidates) then NoAnnotation else Check(candidates[0])
  }

  // ----- Episodes ---------------------------------------------------------------------------------------------

  /** `_classify` */
  function Classify(row: Row, choice: Choice): Counterfactual {
    if choice.Chosen? && CounterfactualOf(choice.a).Some? then CounterfactualOf(choice.a).value
    else if row.core.stage == Text("intent-freeze") then RequiredFreeze
    else if row.core.stage == Text("final-review") then RequiredFinalReview
    else Indeterminate
  }

  /** A number of tokens. */
  datatype Count = Count(value: real, isInt: bool)

  /** `_metric_value`: a finite number that is no boolean. */
  function TokensOf(row: Row): Option<Count> {
    var tokens := row.core.inputTokens;
    if tokens.Int? || tokens.Float? then Some(Count(NumberOf(tokens), tokens.Int?)) else None
  }

  /** The part of an episode that the sums use, and the texts of its ids, by which episodes are sorted. */
  datatype Episode = Episode(ids: Triple, counterfactual: Counterfactual, inputTokens: Option<Count>)

  function Shown(id: string, printed: string): string {
    if id != "" then id else printed
  }

  function IdsOf(row: Row): Triple {
    (Shown(row.runId, row.printed.0), Shown(row.taskId, row.printed.1), Shown(row.callId, row.printed.2))
  }

  /** What a call contributes: an episode, or a TypeError that ends the audit. */
  datatype Outcome = TypeError | Counted(episode: Episode)

  /** The outcome of a row, once an annotation is chosen for it. */
  function Judged(row: Row, choice: Choice, conflicting: bool): Outcome {
    if choice.Raises? then TypeError
    else if conflicting then Counted(Episode(IdsOf(row), Indeterminate, None))
    else Counted(Episode(IdsOf(row), Classify(row, choice), TokensOf(row)))
  }

  function RowOutcome(row: Row, conflicting: bool, events: Events): Outcome {
    Judged(row, Choose(row, events), conflicting)
  }

  function OutcomeOf(m: Merged, events: Events): Outcome {
    RowOutcome(m.raw, m.conflicting, events)
  }

  function Outcomes(records: seq<Merged>, events: Events): seq<Outcome> {
    Map(m => OutcomeOf(m, events), records)
  }

  function EpisodeIn(o: Outcome): Episode {
    if o.Counted? then o.episode else Episode(("", "", ""), Indeterminate, None)
  }

  function Ids(e: Episode): Triple {
    e.ids
  }

  /** The episodes sorted by their ids, unless some call raised. */
  function Collected(outcomes: seq<Outcome>): Option<seq<Episode>> {
    if TypeError in outcomes then None else Some(SortBy(Ids, Map(EpisodeIn, outcomes)))
  }

  /** `build_episodes`; `None` is the raised TypeError. */
  method BuildEpisodes(records: seq<Merged>, events: Events) returns (episodes: Option<seq<Episode>>)
    ensures episodes == Collected(Outcomes(records, events))
  {
    hide Choose, Classify;
    ghost var outcomes := Outcomes(records, events);
    var built: seq<Episode> := [];
    for index := 0 to |records|
      invariant |built| == index && forall i | 0 <= i < index :: outcomes[i] == Counted(built[i])
    {
      var wrapped := records[index];
      var annotation := Choose(wrapped.raw, events);
      if annotation.Raises? {
        assert outcomes[index] == TypeError && outcomes[index] in outcomes;
        return None;
      }
      var counterfactual, tokens := Indeterminate, None;
      if !wrapped.conflicting {
        counterfactual := Classify(wrapped.raw, annotation);
        tokens := TokensOf(wrapped.raw);
      }
      built := built + [Episode(IdsOf(wrapped.raw), counterfactual, tokens)];
    }
    assert TypeError !in outcomes;
    assert Map(EpisodeIn, outcomes) == built;
    episodes := Some(SortBy(Ids, built));
  }

  predicate IsRequired(c: Counterfactual) {
    c.RequiredFreeze? || c.RequiredFinalReview? || c.RequiredSemanticEscalation?
  }

  predicate IsAvoidable(c: Counterfactual) {
    c.AvoidableByGuard? || c.AvoidableByOwner? || c.AvoidableByReuse?
  }

  predicate IsIndeterminate(c: Counterfactual) {
    c.Indeterminate?
  }

  /** Any two candidates of the row are `==` in what is compared. */
  ghost predicate Unanimous(row: Row, events: Events) {
    forall x, y | x in Candidates(row, events) && y in Candidates(row, events) :: Compared(x) == Compared(y)
  }

  lemma AgreedIsUnanimous(annotations: seq<Annotation>)
    ensures Agreed(annotations) <==>
              forall x, y | x in annotations && y in annotations :: Compared(x) == Compared(y)
  {
    hide Compared;
    if Agreed(annotations) {
      forall x | x in annotations ensures Compared(x) == Compared(annotations[0]) {
        var i :| 0 <= i < |annotations| && annotations[i] == x;
      }
    }
  }

  /** An annotation is chosen exactly when the candidates are unanimous and the first one read is valid and usable. */
  lemma ChosenIsUnanimous(row: Row, events: Events, a: Annotation)
    ensures Choose(row, events) == Chosen(a) <==>
              && Candidates(row, events) != [] && Candidates(row, events)[0] == a && Unanimous(row, events)
              && !RaisesInCheck(a) && AnnotationErrors(a) == [] && !RaisesInUse(a)
  {
    hide AnnotationErrors, RaisesInCheck, RaisesInUse, Compared, Candidates, Agreed;
    AgreedIsUnanimous(Candidates(row, events));
  }

  /**
   * A call counts as avoidable exactly when its rows do not conflict, its annotations are unanimous, and the first
   * one read is valid and says so; such an annotation names evidence and a confidence.
   */
  lemma AvoidableIsEarned(m: Merged, events: Events)
    ensures OutcomeOf(m, events).Counted? && IsAvoidable(OutcomeOf(m, events).episode.counterfactual) <==>
            && !m.conflicting && Candidates(m.raw, events) != [] && Unanimous(m.raw, events)
            && var a := Candidates(m.raw, events)[0];
               && !RaisesInCheck(a) && AnnotationErrors(a) == [] && !RaisesInUse(a)
               && CounterfactualOf(a).Some? && IsAvoidable(CounterfactualOf(a).value)
    ensures forall a | AnnotationErrors(a) == [] && CounterfactualOf(a).Some? ::
              IsAvoidable(CounterfactualOf(a).value) ==> HasEvidence(a) && HasConfidence(a)
  {
    hide AnnotationErrors, RaisesInCheck, RaisesInUse, Unanimous, CounterfactualOf, Candidates, HasEvidence;
    hide HasConfidence, Agreed, Compared;
    var candidates := Candidates(m.raw, events);
    if candidates != [] { ChosenIsUnanimous(m.raw, events, candidates[0]); }
    forall a | AnnotationErrors(a) == [] && CounterfactualOf(a).Some? && IsAvoidable(CounterfactualOf(a).value)
      ensures HasEvidence(a) && HasConfidence(a)
    {
      ClaimsNeedEvidence(a);
    }
  }

  lemma ClaimsNeedEvidence(a: Annotation)
    requires AnnotationErrors(a) == [] && CounterfactualOf(a).Some? && !CounterfactualOf(a).value.Indeterminate?
    ensures HasEvidence(a) && HasConfidence(a)
  {
    assert Named("") == None;
    hide HasEvidence, HasConfidence, Named, TRIGGERS, CAUSES, DEFINITE, MECHANICAL_CAUSES, SEMANTIC_CAUSES;
    assert Claims(a);
    assert !HasEvidence(a) ==> RequiresEvidence in AnnotationErrors(a);
    assert !HasConfidence(a) ==> RequiresConfidence in AnnotationErrors(a);
  }

  // ----- Sums ---------------------------------------------------------------------------------------------------

  function Tokens(e: Episode): real {
    if e.inputTokens.Some? then e.inputTokens.value.value else 0.0
  }

  /** The episodes of a class whose tokens are known. */
  function KnownOf(p: Counterfactual -> bool, episodes: seq<Episode>): seq<Episode> {
    Keep((e: Episode) => p(e.counterfactual) && e.inputTokens.Some?, episodes)
  }

  function SumOf(p: Counterfactual -> bool, episodes: seq<Episode>): real {
    Sum(Tokens, KnownOf(p, episodes))
  }

  datatype Summary = Summary(
    required: real, avoidable: real, indeterminate: real, complete: bool, minimum: Option<real>, maximum: Option<real>)

  /** The conservative bound of `build_summary`. */
  function BuildSummary(episodes: seq<Episode>): Summary {
    var required := SumOf(IsRequired, episodes);
    var indeterminate := SumOf(IsIndeterminate, episodes);
    var complete := episodes != [] && forall e | e in episodes :: e.inputTokens.Some?;
    Summary(required, SumOf(IsAvoidable, episodes), indeterminate, complete,
            if complete then Some(required) else None, if complete then Some(required + indeterminate) else None)
  }

  lemma {:induction false} SumsSplit(episodes: seq<Episode>)
    ensures SumOf(IsRequired, episodes) + SumOf(IsAvoidable, episodes)
          + SumOf(IsIndeterminate, episodes) == Sum(Tokens, episodes)
  {
    if episodes != [] {
      SumsSplit(episodes[1..]);
      SumStep(IsRequired, episodes);
      SumStep(IsAvoidable, episodes);
      SumStep(IsIndeterminate, episodes);
    }
  }

  lemma SumStep(p: Counterfactual -> bool, episodes: seq<Episode>)
    requires episodes != []
    ensures SumOf(p, episodes) ==
        SumOf(p, episodes[1..]) + if p(episodes[0].counterfactual) then Tokens(episodes[0]) else 0.0
  {
    var q := (e: Episode) => p(e.counterfactual) && e.inputTokens.Some?;
    if q(episodes[0]) {
      assert ([episodes[0]] + Keep(q, episodes[1..]))[1..] == Keep(q, episodes[1..]);
    } else {
      assert [] + Keep(q, episodes[1..]) == Keep(q, episodes[1..]);
    }
  }

  /**
   * Every known input token is counted once as required, avoidable or indeterminate; when the counts are complete,
   * what may have to be retained and what is safely avoidable add up to the total.
   */
  lemma SummaryAddsUp(episodes: seq<Episode>)
    ensures var s := BuildSummary(episodes);
            && s.required + s.avoidable + s.indeterminate == Sum(Tokens, episodes)
            && (s.complete ==> s.maximum.Some? && s.maximum.value + s.avoidable == Sum(Tokens, episodes))
            && (!s.complete ==> s.minimum.None? && s.maximum.None?)
  {
    SumsSplit(episodes);
    hide SumOf;
  }

  /** A summary depends on the episodes only as a multiset. */
  lemma SummaryIgnoresOrder(a: seq<Episode>, b: seq<Episode>)
    requires multiset(a) == multiset(b)
    ensures BuildSummary(a) == BuildSummary(b)
  {
    SumIgnoresOrder(IsRequired, a, b);
    SumIgnoresOrder(IsAvoidable, a, b);
    SumIgnoresOrder(IsIndeterminate, a, b);
    CompleteIgnoresOrder(a, b);
    hide SumOf;
  }

  lemma CompleteIgnoresOrder(a: seq<Episode>, b: seq<Episode>)
    requires multiset(a) == multiset(b)
    ensures (a == [] <==> b == [])
        && ((forall e | e in a :: e.inputTokens.Some?) <==> (forall e | e in b :: e.inputTokens.Some?))
  {
    forall e ensures e in a <==> e in b {
      assert e in a <==> e in multiset(a);
      assert e in b <==> e in multiset(b);
    }
    assert |a| == |multiset(a)| && |b| == |multiset(b)|;
  }

  lemma SumIgnoresOrder(p: Counterfactual -> bool, a: seq<Episode>, b: seq<Episode>)
    requires multiset(a) == multiset(b)
    ensures SumOf(p, a) == SumOf(p, b)
  {
    var q := (e: Episode) => p(e.counterfactual) && e.inputTokens.Some?;
    KeepPermutes(q, a, b);
    SumPermutes(Tokens, Keep(q, a), Keep(q, b));
  }
}
