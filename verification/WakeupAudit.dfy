/**
 * The conservative wake-up audit of scripts/audit-codex-wakeups.py: deduplicating usage rows, choosing and
 * validating annotations, classifying calls and adding up their input tokens.
 */
module WakeupAudit {
  import opened Wrappers
  import opened JsonValues

  // ----- Annotations ----------------------------------------------------------------------------------------

  datatype Counterfactual =
    | RequiredFreeze | RequiredFinalReview | RequiredSemanticEscalation
    | AvoidableByGuard | AvoidableByOwner | AvoidableByReuse | Indeterminate

  /** The members of an `audit_v1` object. */
  type Annotation = map<Name, Json>

  const TRIGGERS: set<string> := {
    "task-created", "builder-started", "builder-progress", "builder-complete", "validation-complete",
    "validation-failed", "timeout", "transport-failure", "session-resume-failure", "scope-violation",
    "report-missing", "review-revise", "human-change", "high-risk-boundary"
  }
  const SEMANTIC_CAUSES: set<string> :=
    {"semantic-uncertainty", "architecture-decision", "contract-conflict", "user-requirement-change"}
  const MECHANICAL_CAUSES: set<string> :=
    {"mechanical-failure", "transport-runtime", "evidence-gap", "implementation-defect"}
  const CAUSES: set<string> := SEMANTIC_CAUSES + MECHANICAL_CAUSES + {"policy-mandated-review", "unknown"}
  const DEFINITE: set<string> := {"deterministic", "policy-derived", "human-reviewed"}

  function Named(s: string): Option<Counterfactual> {
    if s == "required_freeze" then Some(RequiredFreeze)
    else if s == "required_final_review" then Some(RequiredFinalReview)
    else if s == "required_semantic_escalation" then Some(RequiredSemanticEscalation)
    else if s == "avoidable_by_deterministic_guard" then Some(AvoidableByGuard)
    else if s == "avoidable_by_owner_convergence" then Some(AvoidableByOwner)
    else if s == "avoidable_by_review_reuse" then Some(AvoidableByReuse)
    else if s == "indeterminate" then Some(Indeterminate)
    else None
  }

  function CounterfactualOf(a: Annotation): Option<Counterfactual> {
    var value := Get(a, BookendCounterfactual);
    if value.Text? then Named(value.s) else None
  }

  /** A non-empty list of non-empty strings. */
  predicate HasEvidence(a: Annotation) {
    var refs := Get(a, EvidenceRefs);
    refs.List? && refs.items != [] && forall i | 0 <= i < |refs.items| :: refs.items[i].Text? && refs.items[i].s != ""
  }

  predicate HasConfidence(a: Annotation) {
    IsText(Get(a, ClassificationConfidence), DEFINITE)
  }

  /** The annotation names a counterfactual other than "indeterminate". */
  predicate Claims(a: Annotation) {
    Truthy(Get(a, BookendCounterfactual)) && CounterfactualOf(a) != Some(Indeterminate)
  }

  predicate IsFlag(j: Json) {
    j.Null? || j.Bool?
  }

  predicate IsIteration(j: Json) {
    j.Null? || (j.Int? && j.n >= 1)
  }

  /** Whether checking or using the annotation raises a TypeError: a list or an object is looked up in a set, or the
      evidence of an annotation without claim is not iterable. */
  predicate RaisesInCheck(a: Annotation) {
    || (Claims(a) && Unhashable(Get(a, ClassificationConfidence)))
    || (Get(a, SemanticDecisionRequired).Bool? && Unhashable(Get(a, RootCause)))
  }

  predicate RaisesInUse(a: Annotation) {
    var refs := Get(a, EvidenceRefs);
    Truthy(refs) && !refs.Text? && !Unhashable(refs)
  }

  datatype AnnotationError =
    | InvalidTrigger | InvalidCause | InvalidCounterfactual | InvalidConfidence | InvalidFlag | InvalidIteration
    | RequiresEvidence | RequiresConfidence | SemanticMechanical | SyntacticSemantic

  predicate NullOr(j: Json, words: set<string>) {
    j.Null? || IsText(j, words)
  }

  /** `_valid_annotation`, when it does not raise. */
  function AnnotationErrors(a: Annotation): seq<AnnotationError> {
    (if NullOr(Get(a, ProximateTrigger), TRIGGERS) then [] else [InvalidTrigger])
    + (if NullOr(Get(a, RootCause), CAUSES) then [] else [InvalidCause])
    + (if Get(a, BookendCounterfactual).Null? || CounterfactualOf(a).Some? then [] else [InvalidCounterfactual])
    + (if NullOr(Get(a, ClassificationConfidence), DEFINITE + {"indeterminate"}) then [] else [InvalidConfidence])
    + (if IsFlag(Get(a, PolicyRequired)) && IsFlag(Get(a, UserTriggered)) && IsFlag(Get(a, SemanticDecisionRequired))
       then [] else [InvalidFlag])
    + (if IsIteration(Get(a, Iteration)) then [] else [InvalidIteration])
    + (if Claims(a) && !HasEvidence(a) then [RequiresEvidence] else [])
    + (if Claims(a) && !HasConfidence(a) then [RequiresConfidence] else [])
    + (if Get(a, SemanticDecisionRequired) == Bool(true) && IsText(Get(a, RootCause), MECHANICAL_CAUSES)
       then [SemanticMechanical] else [])
    + (if Get(a, SemanticDecisionRequired) == Bool(false) && IsText(Get(a, RootCause), SEMANTIC_CAUSES)
       then [SyntacticSemantic] else [])
  }

  /** What is compared of an annotation: everything but its call id and its source. */
  function Compared(a: Annotation): Meaning {
    MeaningOf(Object(a - {CallId, SourceRef}))
  }

  // ----- Usage rows -----------------------------------------------------------------------------------------

  /** `CORE_USAGE_FIELDS`, in which duplicate rows must agree; `rest` holds the eight that no sum depends on. */
  datatype Core = Core(stage: Json, inputTokens: Json, audit: Json, rest: seq<Json>)

  /** The core fields up to `==`. */
  function CoreMeaning(core: Core): (Meaning, Meaning, Meaning, Meaning) {
    (MeaningOf(core.stage), MeaningOf(core.inputTokens), MeaningOf(core.audit), MeaningOf(List(core.rest)))
  }

  /** Two rows agree when all core fields are `==`. */
  predicate SameCore(a: Core, b: Core) {
    CoreMeaning(a) == CoreMeaning(b)
  }

  /** A usage row; identifiers are "" when they are missing or not strings, and `printed` holds the texts of the values
      that stand there instead. `rest` is everything else. */
  datatype Row = Row(
    isCodex: bool, runId: string, taskId: string, callId: string, printed: (string, string, string), core: Core,
    rest: string)

  /** A usage ledger in file order; `None` when it cannot be read or holds a malformed line. */
  datatype Ledger = Ledger(source: string, rows: Option<seq<Row>>)

  datatype Key = Canonical(runId: string, taskId: string, callId: string) | Source(source: string, line: nat)

  predicate Identified(row: Row) {
    row.runId != "" && row.taskId != "" && row.callId != ""
  }

  /** A codex row with its place. */
  datatype Located = Located(source: string, line: nat, row: Row)

  /** `_identity` */
  function KeyOf(l: Located): Key {
    if Identified(l.row) then Canonical(l.row.runId, l.row.taskId, l.row.callId) else Source(l.source, l.line)
  }

  /** The codex rows of a ledger from a line on. */
  function LedgerRows(source: string, rows: seq<Row>): seq<Located> {
    if rows == [] then []
    else
      var last := |rows| - 1;
      LedgerRows(source, rows[..last]) + (if rows[last].isCodex then [Located(source, last + 1, rows[last])] else [])
  }

  /** All codex rows of the readable ledgers, in the order the loops visit them. */
  function AllRows(ledgers: seq<Ledger>): seq<Located> {
    if ledgers == [] then []
    else
      var last := ledgers[|ledgers| - 1];
      AllRows(ledgers[..|ledgers| - 1]) + (if last.rows.Some? then LedgerRows(last.source, last.rows.value) else [])
  }

  // ----- Deduplication --------------------------------------------------------------------------------------

  /** A deduplicated call: the first row seen, and whether a later one disagrees with it. */
  datatype Merged = Merged(raw: Row, conflicting: bool)

  function Keys(located: seq<Located>): seq<Key> {
    if located == [] then []
    else
      var front, key := Keys(located[..|located| - 1]), KeyOf(located[|located| - 1]);
      if key in front then front else front + [key]
  }

  /** The first row with a key. */
  function FirstRow(located: seq<Located>, key: Key): Option<Row> {
    if located == [] then None
    else
      match FirstRow(located[..|located| - 1], key)
      case Some(row) => Some(row)
      case None => if KeyOf(located[|located| - 1]) == key then Some(located[|located| - 1].row) else None
  }

  predicate Disagrees(located: seq<Located>, key: Key, core: Core) {
    exists l | l in located :: KeyOf(l) == key && !SameCore(l.row.core, core)
  }

  function MergedFor(located: seq<Located>, key: Key): Merged
    requires FirstRow(located, key).Some?
  {
    var raw := FirstRow(located, key).value;
    Merged(raw, Disagrees(located, key, raw.core))
  }

  lemma {:induction false} KeysHaveRows(located: seq<Located>)
    ensures forall key :: key in Keys(located) <==> FirstRow(located, key).Some?
    ensures forall key :: key in Keys(located) <==> exists l | l in located :: KeyOf(l) == key
    ensures forall i, j | 0 <= i < j < |Keys(located)| :: Keys(located)[i] != Keys(located)[j]
  {
    hide KeyOf;
    if located != [] {
      var front, last := located[..|located| - 1], located[|located| - 1];
      KeysHaveRows(front);
      assert located == front + [last];
    }
  }

  /** The deduplicated calls in the order of their first rows. */
  function Records(located: seq<Located>): (r: seq<Merged>)
    ensures |r| == |Keys(located)|
  {
    KeysHaveRows(located);
    assert forall i | 0 <= i < |Keys(located)| :: Keys(located)[i] in Keys(located);
    seq(|Keys(located)|, i requires 0 <= i < |Keys(located)| => MergedFor(located, Keys(located)[i]))
  }

  /** The dictionary of the loading loop: its keys in insertion order and the entry under each. */
  ghost predicate Loaded(located: seq<Located>, order: seq<Key>, merged: map<Key, Merged>) {
    && order == Keys(located)
    && (forall key :: key in merged <==> key in order)
    && (forall key | key in merged :: FirstRow(located, key).Some? && merged[key] == MergedFor(located, key))
  }

  /** One row of the loading loop: `_identity`, then `_merge_usage` or a new entry. */
  method LoadRow(ghost located: seq<Located>, order: seq<Key>, merged: map<Key, Merged>, l: Located)
    returns (order': seq<Key>, merged': map<Key, Merged>)
    requires Loaded(located, order, merged)
    ensures Loaded(located + [l], order', merged')
  {
    hide KeyOf;
    var key := KeyOf(l);
    KeysHaveRows(located);
    assert (located + [l])[..|located|] == located;
    if key in merged {
      order' := order;
      var current := merged[key];
      if SameCore(current.raw.core, l.row.core) {
        merged' := merged;
      } else {
        merged' := merged[key := current.(conflicting := true)];
      }
    } else {
      UnseenAgrees(located, key, l.row.core);
      order' := order + [key];
      merged' := merged[key := Merged(l.row, false)];
    }
    forall k | k in merged' ensures FirstRow(located + [l], k).Some? && merged'[k] == MergedFor(located + [l], k) {
      RowAdded(located, l, k);
      hide FirstRow, Disagrees;
    }
  }

  /** What one more row means for one key. */
  lemma RowAdded(located: seq<Located>, l: Located, key: Key)
    ensures FirstRow(located + [l], key) ==
            if FirstRow(located, key).Some? then FirstRow(located, key)
            else if KeyOf(l) == key then Some(l.row) else None
    ensures forall core :: Disagrees(located + [l], key, core) <==>
                             Disagrees(located, key, core) || (KeyOf(l) == key && !SameCore(l.row.core, core))
  {
    hide KeyOf;
    assert (located + [l])[..|located|] == located;
    assert forall x :: x in located + [l] <==> x in located || x == l;
  }

  lemma UnseenAgrees(located: seq<Located>, key: Key, core: Core)
    requires FirstRow(located, key).None?
    ensures !Disagrees(located, key, core)
  {
    KeysHaveRows(located);
  }

  /** `load_usage_records` */
  method LoadUsageRecords(ledgers: seq<Ledger>) returns (records: seq<Merged>)
    ensures records == Records(AllRows(ledgers))
  {
    hide Loaded, KeyOf;
    var order: seq<Key>, merged: map<Key, Merged> := [], map[];
    assert Loaded([], [], map[]) by { EmptyLoaded(); }
    for index := 0 to |ledgers|
      invariant Loaded(AllRows(ledgers[..index]), order, merged)
    {
      var ledger := ledgers[index];
      assert ledgers[..index + 1][..index] == ledgers[..index];
      ghost var before := AllRows(ledgers[..index]);
      if ledger.rows.Some? {
        var rows := ledger.rows.value;
        assert before + LedgerRows(ledger.source, rows[..0]) == before;
        for line := 0 to |rows|
          invariant Loaded(before + LedgerRows(ledger.source, rows[..line]), order, merged)
        {
          assert rows[..line + 1][..line] == rows[..line];
          ghost var visited := LedgerRows(ledger.source, rows[..line]);
          if rows[line].isCodex {
            var l := Located(ledger.source, line + 1, rows[line]);
            order, merged := LoadRow(before + visited, order, merged, l);
            assert before + visited + [l] == before + (visited + [l]);
          } else {
            assert visited + [] == visited;
          }
        }
        assert rows[..|rows|] == rows;
      } else {
        assert before + [] == before;
      }
    }
    assert ledgers[..|ledgers|] == ledgers;
    records := ListRecords(AllRows(ledgers), order, merged);
  }

  lemma EmptyLoaded()
    ensures Loaded([], [], map[])
  {}

  /** `list(merged.values())` */
  method ListRecords(ghost located: seq<Located>, order: seq<Key>, merged: map<Key, Merged>)
      returns (records: seq<Merged>)
    requires Loaded(located, order, merged)
    ensures records == Records(located)
  {
    hide KeyOf;
    records := [];
    for index := 0 to |order|
      invariant |records| == index && forall i | 0 <= i < index :: order[i] in merged && records[i] == merged[order[i]]
    {
      assert order[index] in order;
      records := records + [merged[order[index]]];
    }
  }
}
