/**
 * A simple condition under which every call of the audit of scripts/audit-codex-wakeups.py is steady, in terms of the
 * kinds of JSON values.
 */
module AuditKinds {
  import opened Wrappers
  import opened JsonValues
  import opened Permutations
  import opened WakeupAudit
  import opened AuditSums
  import opened AuditCalls
  import opened AuditOrder
  import opened AuditSettled

  // ----- Kinds ------------------------------------------------------------------------------------------------------

  predicate IsNumber(j: Json) {
    j.Int? || j.Float?
  }

  /** The members whose kind matters are of the same kind: flags are booleans in both, iterations integers in both. */
  predicate SameKinds(x: Annotation, y: Annotation) {
    && Get(x, PolicyRequired).Bool? == Get(y, PolicyRequired).Bool?
    && Get(x, UserTriggered).Bool? == Get(y, UserTriggered).Bool?
    && Get(x, SemanticDecisionRequired).Bool? == Get(y, SemanticDecisionRequired).Bool?
    && Get(x, Iteration).Int? == Get(y, Iteration).Int?
  }

  /** Nothing in the annotation can raise a TypeError. */
  predicate Harmless(a: Annotation) {
    && !Unhashable(Get(a, ClassificationConfidence)) && !Unhashable(Get(a, RootCause))
    && var refs := Get(a, EvidenceRefs); refs.Null? || refs.Text? || Unhashable(refs)
  }

  ghost predicate AnnotationOf(call: seq<Row>, events: Events, a: Annotation) {
    exists row | row in call :: a in Candidates(row, events)
  }

  /**
   * Rows of the call that are `==` both count tokens or both do not, annotations of the call that are `==` are of the
   * same kinds, and when rows conflict no annotation can raise.
   */
  ghost predicate KindsAgree(call: seq<Row>, events: Events) {
    && (forall r, s | r in call && s in call && SameCore(r.core, s.core) ::
          IsNumber(r.core.inputTokens) == IsNumber(s.core.inputTokens))
    && (forall x, y | AnnotationOf(call, events, x) && AnnotationOf(call, events, y) && Compared(x) == Compared(y) ::
          SameKinds(x, y))
    && (InConflict(call) ==> forall x | AnnotationOf(call, events, x) :: Harmless(x))
  }

  // ----- Equal annotations are checked alike ------------------------------------------------------------------------

  lemma SameMembersCompared(x: Annotation, y: Annotation, name: Name)
    requires Compared(x) == Compared(y) && name != CallId && name != SourceRef
    ensures Same(Get(x, name), Get(y, name))
  {
    var (a, b) := (x - {CallId, SourceRef}, y - {CallId, SourceRef});
    SameMember(a, b, name);
    assert Get(a, name) == Get(x, name) && Get(b, name) == Get(y, name);
  }

  lemma SameCounterfactual(x: Annotation, y: Annotation)
    requires Compared(x) == Compared(y)
    ensures CounterfactualOf(x) == CounterfactualOf(y) && Claims(x) == Claims(y)
    ensures Get(x, BookendCounterfactual).Null? == Get(y, BookendCounterfactual).Null?
  {
    hide Compared, Named, Same;
    SameMembersCompared(x, y, BookendCounterfactual);
    SameReading(Get(x, BookendCounterfactual), Get(y, BookendCounterfactual), {});
  }

  lemma SameEvidence(x: Annotation, y: Annotation)
    requires Compared(x) == Compared(y)
    ensures HasEvidence(x) == HasEvidence(y) && RaisesInUse(x) == RaisesInUse(y)
  {
    hide Compared;
    SameMembersCompared(x, y, EvidenceRefs);
    var (a, b) := (Get(x, EvidenceRefs), Get(y, EvidenceRefs));
    SameReading(a, b, {});
    SameUnfolds(a, b);
    if a.List? {
      forall i | 0 <= i < |a.items| ensures a.items[i].Text? == b.items[i].Text?
          && (a.items[i].Text? ==> a.items[i] == b.items[i]) {
        SameReading(a.items[i], b.items[i], {});
      }
    }
    hide Same;
  }

  lemma SameWords(x: Annotation, y: Annotation, name: Name, words: set<string>)
    requires Compared(x) == Compared(y) && name != CallId && name != SourceRef
    ensures IsText(Get(x, name), words) == IsText(Get(y, name), words)
    ensures NullOr(Get(x, name), words) == NullOr(Get(y, name), words)
    ensures Unhashable(Get(x, name)) == Unhashable(Get(y, name))
  {
    SameMembersCompared(x, y, name);
    hide Compared, Same;
    SameReading(Get(x, name), Get(y, name), words);
  }

  lemma SameFlag(x: Annotation, y: Annotation, name: Name)
    requires Compared(x) == Compared(y) && name != CallId && name != SourceRef
    requires Get(x, name).Bool? == Get(y, name).Bool?
    ensures IsFlag(Get(x, name)) == IsFlag(Get(y, name))
    ensures forall b :: Get(x, name) == Bool(b) <==> Get(y, name) == Bool(b)
  {
    SameMembersCompared(x, y, name);
    hide Compared;
    SameUnfolds(Get(x, name), Get(y, name));
  }

  lemma SameIteration(x: Annotation, y: Annotation)
    requires Compared(x) == Compared(y) && Get(x, Iteration).Int? == Get(y, Iteration).Int?
    ensures IsIteration(Get(x, Iteration)) == IsIteration(Get(y, Iteration))
  {
    SameMembersCompared(x, y, Iteration);
    hide Compared;
    SameUnfolds(Get(x, Iteration), Get(y, Iteration));
  }

  /** Annotations that are `==` and of the same kinds have the same errors and raise alike. */
  lemma SameChecks(x: Annotation, y: Annotation)
    requires Compared(x) == Compared(y) && SameKinds(x, y)
    ensures AnnotationErrors(x) == AnnotationErrors(y) && RaisesInCheck(x) == RaisesInCheck(y)
  {
    hide *;
    SameParts(x, y);
    SameFlagKind(x, y);
    ErrorsFromParts(x, y);
    RaisesFromParts(x, y);
  }

  /** Everything the checks ask of two such annotations has the same answer. */
  ghost predicate AnsweredAlike(x: Annotation, y: Annotation) {
    && NullOr(Get(x, ProximateTrigger), TRIGGERS) == NullOr(Get(y, ProximateTrigger), TRIGGERS)
    && NullOr(Get(x, RootCause), CAUSES) == NullOr(Get(y, RootCause), CAUSES)
    && (Get(x, BookendCounterfactual).Null? || CounterfactualOf(x).Some?)
       == (Get(y, BookendCounterfactual).Null? || CounterfactualOf(y).Some?)
    && NullOr(Get(x, ClassificationConfidence), DEFINITE + {"indeterminate"})
       == NullOr(Get(y, ClassificationConfidence), DEFINITE + {"indeterminate"})
    && IsFlag(Get(x, PolicyRequired)) == IsFlag(Get(y, PolicyRequired))
    && IsFlag(Get(x, UserTriggered)) == IsFlag(Get(y, UserTriggered))
    && IsFlag(Get(x, SemanticDecisionRequired)) == IsFlag(Get(y, SemanticDecisionRequired))
    && IsIteration(Get(x, Iteration)) == IsIteration(Get(y, Iteration))
    && Claims(x) == Claims(y) && HasEvidence(x) == HasEvidence(y) && HasConfidence(x) == HasConfidence(y)
    && (Get(x, SemanticDecisionRequired) == Bool(true)) == (Get(y, SemanticDecisionRequired) == Bool(true))
    && (Get(x, SemanticDecisionRequired) == Bool(false)) == (Get(y, SemanticDecisionRequired) == Bool(false))
    && IsText(Get(x, RootCause), MECHANICAL_CAUSES) == IsText(Get(y, RootCause), MECHANICAL_CAUSES)
    && IsText(Get(x, RootCause), SEMANTIC_CAUSES) == IsText(Get(y, RootCause), SEMANTIC_CAUSES)
    && Unhashable(Get(x, RootCause)) == Unhashable(Get(y, RootCause))
    && Unhashable(Get(x, ClassificationConfidence)) == Unhashable(Get(y, ClassificationConfidence))
  }

  lemma SameParts(x: Annotation, y: Annotation)
    requires Compared(x) == Compared(y) && SameKinds(x, y)
    ensures AnsweredAlike(x, y)
  {
    hide Compared, Claims, CounterfactualOf, HasEvidence, IsText, NullOr, Unhashable, IsFlag, IsIteration, Get;
    hide TRIGGERS, CAUSES, MECHANICAL_CAUSES, SEMANTIC_CAUSES, DEFINITE;
    SameCounterfactual(x, y);
    SameEvidence(x, y);
    SameWords(x, y, ProximateTrigger, TRIGGERS);
    SameWords(x, y, RootCause, CAUSES);
    SameWords(x, y, RootCause, MECHANICAL_CAUSES);
    SameWords(x, y, RootCause, SEMANTIC_CAUSES);
    SameWords(x, y, ClassificationConfidence, DEFINITE);
    SameWords(x, y, ClassificationConfidence, DEFINITE + {"indeterminate"});
    SameFlag(x, y, PolicyRequired);
    SameFlag(x, y, UserTriggered);
    SameFlag(x, y, SemanticDecisionRequired);
    SameIteration(x, y);
  }

  lemma ErrorsFromParts(x: Annotation, y: Annotation)
    requires AnsweredAlike(x, y)
    ensures AnnotationErrors(x) == AnnotationErrors(y)
  {
    hide Claims, CounterfactualOf, HasEvidence, HasConfidence, IsText, NullOr, Unhashable, IsFlag, IsIteration, Get;
    hide TRIGGERS, CAUSES, MECHANICAL_CAUSES, SEMANTIC_CAUSES, DEFINITE;
  }

  lemma RaisesFromParts(x: Annotation, y: Annotation)
    requires AnsweredAlike(x, y)
    requires Get(x, SemanticDecisionRequired).Bool? == Get(y, SemanticDecisionRequired).Bool?
    ensures RaisesInCheck(x) == RaisesInCheck(y)
  {
    hide Claims, CounterfactualOf, HasEvidence, HasConfidence, IsText, NullOr, Unhashable, IsFlag, IsIteration, Get;
    hide TRIGGERS, CAUSES, MECHANICAL_CAUSES, SEMANTIC_CAUSES, DEFINITE;
  }

  lemma SameFlagKind(x: Annotation, y: Annotation)
    requires SameKinds(x, y)
    ensures Get(x, SemanticDecisionRequired).Bool? == Get(y, SemanticDecisionRequired).Bool?
  {}

  /** They come to the same choice, up to the annotation chosen, which names the same counterfactual. */
  lemma SameChoice(x: Annotation, y: Annotation)
    requires Compared(x) == Compared(y) && SameKinds(x, y)
    ensures Alike(Check(x), Check(y))
  {
    SameChecks(x, y);
    SameCounterfactual(x, y);
    SameEvidence(x, y);
    hide Compared, CounterfactualOf, RaisesInCheck, RaisesInUse, AnnotationErrors;
  }

  predicate Alike(c: Choice, d: Choice) {
    match c
    case Raises => d.Raises?
    case NoAnnotation => d.NoAnnotation?
    case Chosen(a) => d.Chosen? && CounterfactualOf(a) == CounterfactualOf(d.a)
  }

  // ----- Agreeing kinds make a call steady -------------------------------------------------------------------------

  lemma SameEmbedded(r: Row, s: Row)
    requires SameCore(r.core, s.core)
    ensures r.core.audit.Object? == s.core.audit.Object?
    ensures r.core.audit.Object? ==> Compared(r.core.audit.fields) == Compared(s.core.audit.fields)
  {
    SameUnfolds(r.core.audit, s.core.audit);
    if r.core.audit.Object? {
      var (x, y) := (r.core.audit.fields, s.core.audit.fields);
      var (a, b) := (x - {CallId, SourceRef}, y - {CallId, SourceRef});
      assert a.Keys == b.Keys;
      SameUnfolds(Object(a), Object(b));
    }
  }

  /** The outcomes are equal, but one may count an integer where the other counts the same number as a float. */
  predicate SameButKind(o: Outcome, p: Outcome) {
    o.Counted? == p.Counted?
    && (o.Counted? ==>
          && o.episode.counterfactual == p.episode.counterfactual
          && o.episode.inputTokens.Some? == p.episode.inputTokens.Some? && Tokens(o.episode) == Tokens(p.episode))
  }

  lemma SameJudgement(r: Row, s: Row, c: Choice, d: Choice)
    requires SameCore(r.core, s.core) && IsNumber(r.core.inputTokens) == IsNumber(s.core.inputTokens) && Alike(c, d)
    ensures SameButKind(Judged(r, c, false), Judged(s, d, false))
  {
    SameReading(r.core.stage, s.core.stage, {});
    SameUnfolds(r.core.inputTokens, s.core.inputTokens);
    hide CounterfactualOf, NumberOf;
  }

  /** What the choices for a row are, when its candidates are unanimous: the checks of some of its candidates. */
  lemma ChoicesAreChecks(row: Row, events: Events, c: Choice) returns (a: Annotation)
    requires c in Choices(row, events) && Candidates(row, events) != [] && Unanimous(row, events)
    ensures a in Candidates(row, events) && c == Check(a)
  {
    hide Check, Unanimous, Compared;
    if row.core.audit.Object? {
      a := row.core.audit.fields;
      assert Candidates(row, events)[0] == a;
    } else {
      a :| a in BoundTo(row, events) && c == Check(a);
    }
  }

  /** Rows of a call that are `==` have candidates that are `==`, one for one. */
  lemma SameCandidates(r: Row, s: Row, events: Events)
    requires SameCore(r.core, s.core) && Identified(r) && Identified(s) && CanonicalOf(r) == CanonicalOf(s)
    ensures |Candidates(r, events)| == |Candidates(s, events)|
    ensures forall i | 0 <= i < |Candidates(r, events)| ::
        Compared(Candidates(r, events)[i]) == Compared(Candidates(s, events)[i])
  {
    SameEmbedded(r, s);
    hide Compared, SameCore;
    assert BoundTo(r, events) == BoundTo(s, events);
    hide BoundTo;
  }

  lemma UnanimousTogether(r: Row, s: Row, events: Events)
    requires SameCore(r.core, s.core) && Identified(r) && Identified(s) && CanonicalOf(r) == CanonicalOf(s)
    ensures Unanimous(r, events) <==> Unanimous(s, events)
    ensures Candidates(r, events) == [] <==> Candidates(s, events) == []
    ensures Unanimous(r, events) ==> forall x, y | x in Candidates(r, events) && y in Candidates(s, events) ::
        Compared(x) == Compared(y)
  {
    SameCandidates(r, s, events);
    UnanimousIs(r, events);
    UnanimousIs(s, events);
    hide Compared, Candidates, SameCore, Unanimous;
    var (cr, cs) := (Candidates(r, events), Candidates(s, events));
    if Unanimous(r, events) {
      forall x, y | x in cr && y in cs ensures Compared(x) == Compared(y) {
        var i :| 0 <= i < |cr| && cr[i] == x;
        var j :| 0 <= j < |cs| && cs[j] == y;
      }
    }
  }

  lemma EqualRowsAgree(call: seq<Row>, events: Events, r: Row, s: Row, c: Choice, d: Choice)
    requires KindsAgree(call, events) && r in call && s in call && SameCore(r.core, s.core)
    requires Identified(r) && Identified(s) && CanonicalOf(r) == CanonicalOf(s)
    requires c in Choices(r, events) && d in Choices(s, events)
    ensures SameButKind(Judged(r, c, false), Judged(s, d, false))
  {
    hide Compared, SameCore, SameKinds, IsNumber, Check, Judged, Alike, SameButKind;
    UnanimousTogether(r, s, events);
    if Candidates(r, events) != [] && Unanimous(r, events) {
      var x := ChoicesAreChecks(r, events, c);
      var y := ChoicesAreChecks(s, events, d);
      hide Candidates, Choices, Unanimous;
      assert AnnotationOf(call, events, x) && AnnotationOf(call, events, y);
      assert Compared(x) == Compared(y);
      SameChoice(x, y);
    } else {
      assert c == NoAnnotation && d == NoAnnotation;
      assert Alike(c, d) by { NothingAlike(); }
    }
    SameJudgement(r, s, c, d);
  }

  lemma NothingAlike()
    ensures Alike(NoAnnotation, NoAnnotation)
  {}

  lemma HarmlessNeverRaises(a: Annotation)
    requires Harmless(a)
    ensures !Check(a).Raises?
  {
    hide AnnotationErrors;
  }

  lemma ConflictingRowsAgree(call: seq<Row>, events: Events, r: Row, c: Choice)
    requires KindsAgree(call, events) && InConflict(call) && r in call && c in Choices(r, events)
    ensures Judged(r, c, true) == Counted(Episode(IdsOf(r), Indeterminate, None))
  {
    hide Compared, SameCore, SameKinds, IsNumber, Check, Harmless;
    if Candidates(r, events) != [] && Unanimous(r, events) {
      var x := ChoicesAreChecks(r, events, c);
      assert AnnotationOf(call, events, x);
      HarmlessNeverRaises(x);
    }
  }

  /** When the kinds of a call's values agree, what may come of it differs at most in whether its tokens are a float. */
  lemma AgreeingKindsAgree(rows: seq<Row>, key: Key, events: Events, o: Outcome, p: Outcome)
    requires var call := RowsOf(rows, key);
             KindsAgree(call, events) && MayCome(call, events, o) && MayCome(call, events, p)
    ensures SameButKind(o, p)
  {
    var call := RowsOf(rows, key);
    KeepMembers(IsRowOf(key), rows);
    hide KindsAgree, Choices, Judged, InConflict, SameButKind, Identified, CanonicalOf, Keep;
    var r, c :| r in call && c in Choices(r, events) && Judged(r, c, InConflict(call)) == o;
    var s, d :| s in call && d in Choices(s, events) && Judged(s, d, InConflict(call)) == p;
    assert Identified(r) && Identified(s) && CanonicalOf(r) == CanonicalOf(s) == key;
    hide MayCome, RowsOf;
    RowsAgree(call, events, r, s, c, d);
  }

  lemma RowsAgree(call: seq<Row>, events: Events, r: Row, s: Row, c: Choice, d: Choice)
    requires KindsAgree(call, events) && r in call && s in call && c in Choices(r, events) && d in Choices(s, events)
    requires Identified(r) && Identified(s) && CanonicalOf(r) == CanonicalOf(s)
    ensures SameButKind(Judged(r, c, InConflict(call)), Judged(s, d, InConflict(call)))
  {
    ConflictMeans(call);
    hide KindsAgree, Choices, Judged, InConflict, SameCore, Identified, CanonicalOf;
    if InConflict(call) {
      ConflictingRowsAgree(call, events, r, c);
      ConflictingRowsAgree(call, events, s, d);
    } else {
      EqualRowsAgree(call, events, r, s, c, d);
    }
  }

  /** Rows of the call that are `==` count tokens alike: as integers, as floats or not at all. */
  ghost predicate CountsAgree(call: seq<Row>) {
    forall r, s | r in call && s in call && SameCore(r.core, s.core) ::
      && r.core.inputTokens.Int? == s.core.inputTokens.Int?
      && r.core.inputTokens.Float? == s.core.inputTokens.Float?
  }

  /** If the tokens agree in that as well, the call comes out the same in every order. */
  lemma AgreeingKindsAreSteady(rows: seq<Row>, key: Key, events: Events)
    requires KindsAgree(RowsOf(rows, key), events) && CountsAgree(RowsOf(rows, key))
    ensures Steady(RowsOf(rows, key), events)
  {
    var call := RowsOf(rows, key);
    KeepMembers(IsRowOf(key), rows);
    ConflictMeans(call);
    assert forall r | r in call :: Identified(r) && CanonicalOf(r) == key;
    forall o, p | MayCome(call, events, o) && MayCome(call, events, p) ensures o == p {
      AgreeingKindsAgree(rows, key, events, o, p);
      hide KindsAgree, Choices, InConflict, RowsOf, SameCore, Judged, Identified, CanonicalOf, SameButKind;
      var r, c :| r in call && c in Choices(r, events) && Judged(r, c, InConflict(call)) == o;
      var s, d :| s in call && d in Choices(s, events) && Judged(s, d, InConflict(call)) == p;
      assert !InConflict(call) ==> SameCore(r.core, s.core);
      OnlyKindsDiffer(r, s, c, d, InConflict(call));
    }
  }

  lemma OnlyKindsDiffer(r: Row, s: Row, c: Choice, d: Choice, conflicting: bool)
    requires SameButKind(Judged(r, c, conflicting), Judged(s, d, conflicting))
    requires Identified(r) && Identified(s) && CanonicalOf(r) == CanonicalOf(s)
    requires conflicting || (r.core.inputTokens.Int? == s.core.inputTokens.Int?
                             && r.core.inputTokens.Float? == s.core.inputTokens.Float?)
    ensures Judged(r, c, conflicting) == Judged(s, d, conflicting)
  {
    hide Classify, NumberOf;
  }

  lemma SameButKindAdds(o: Outcome, p: Outcome)
    requires SameButKind(o, p)
    ensures (o == TypeError <==> p == TypeError) && (Known(o) <==> Known(p))
    ensures Adds(IsRequired)(o) == Adds(IsRequired)(p) && Adds(IsAvoidable)(o) == Adds(IsAvoidable)(p)
    ensures Adds(IsIndeterminate)(o) == Adds(IsIndeterminate)(p)
  {
    assert EpisodeIn(o).counterfactual == EpisodeIn(p).counterfactual && Tokens(EpisodeIn(o)) == Tokens(EpisodeIn(p));
  }

  /** When the kinds agree in every call, the calls are settled. */
  lemma AgreeingKindsAreSettled(rows: seq<Row>, events: Events)
    requires forall key | key in CallKeys(rows) :: KindsAgree(RowsOf(rows, key), events)
    ensures Settled(rows, events)
  {
    hide CallKeys, RowsOf, KindsAgree, MayCome, Unbound, Adds, Known;
    if forall key | key in CallKeys(rows) :: !AlwaysRaises(RowsOf(rows, key), events) {
      forall key | key in CallKeys(rows)
        ensures AddsTheSame(RowsOf(rows, key), events)
        ensures NeverKnown(RowsOf(rows, key), events) || AlwaysKnown(RowsOf(rows, key), events)
      {
        forall o, p | MayCome(RowsOf(rows, key), events, o) && MayCome(RowsOf(rows, key), events, p)
          ensures o == TypeError <==> p == TypeError
          ensures Known(o) <==> Known(p)
          ensures Adds(IsRequired)(o) == Adds(IsRequired)(p) && Adds(IsAvoidable)(o) == Adds(IsAvoidable)(p)
          ensures Adds(IsIndeterminate)(o) == Adds(IsIndeterminate)(p)
        {
          AgreeingKindsAgree(rows, key, events, o, p);
          SameButKindAdds(o, p);
        }
        assert !AlwaysRaises(RowsOf(rows, key), events);
      }
    }
  }

  /** So the summary of such inputs does not depend on reading order. */
  lemma AgreeingKindsIgnoreOrder(a: seq<Ledger>, b: seq<Ledger>, ea: Events, eb: Events)
    requires DistinctSources(a) && Reorders(b, eb, a, ea)
    requires forall key | key in CallKeys(CodexRows(a)) :: KindsAgree(RowsOf(CodexRows(a), key), ea)
    ensures AuditSummary(a, ea) == AuditSummary(b, eb)
  {
    hide KindsAgree, Settled, RowsOf, CodexRows, Reorders, AuditSummary, CallKeys;
    AgreeingKindsAreSettled(CodexRows(a), ea);
    SummaryIsSettled(a, ea);
  }
}
