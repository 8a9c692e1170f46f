/**
 * The Acceptance Graph of scripts/acceptance_graph.py: building a graph from a Workflow State and an
 * evidence store, and validating one.
 *
 * Documents are typed values here, so the schema checks on field names and JSON types have no counterpart.
 * A digest is an arbitrary function of the document it identifies; see `Hashes`.
 */
module AcceptanceGraph {
  import opened Wrappers
  import opened Strings
  import opened Ordering

  // ----- Evidence objects ------------------------------------------------------------------------------

  datatype Kind =
    | DiffHunk | TestDefinition | TestResult | CompilerError | RuntimeError | AcceptanceRecord | OtherKind

  /** The JSON object an evidence object holds. `status` and `outcome` are `None` when the key is absent. */
  datatype Payload = Payload(
    analysisMethod: string, evidenceQuality: string,
    status: Option<string>, outcome: Option<string>, semanticGuarantee: bool)

  /** `path` is "" for an object without a repository path; `payload` is `None` when it is not an object. */
  datatype EvidenceObject = EvidenceObject(kind: Kind, path: string, payload: Option<Payload>)

  /** The objects that `load_object` can load. */
  type Store = map<string, EvidenceObject>

  datatype Assessment = Supporting | Contradictory | LexicalCandidate | Neutral

  const PASS_VALUES := {"pass", "passed", "supported", "satisfied", "success", "succeeded"}
  const FAIL_VALUES := {"fail", "failed", "error", "errored", "rejected", "contradictory"}

  predicate IsLexical(payload: Payload) {
    Contains(Lower(payload.analysisMethod), "lexical") || payload.evidenceQuality == "bounded-lexical-candidate"
  }

  /** The status of an object or, when it has none, its outcome, in lower case; "" when it has neither. */
  function ReportedValue(payload: Payload): string {
    Lower(
      match payload.status
      case Some(status) => status
      case None => if payload.outcome.Some? then payload.outcome.value else "")
  }

  function AssessEvidence(obj: EvidenceObject): Assessment {
    if obj.kind in {CompilerError, RuntimeError} then Contradictory
    else if obj.payload.None? then Neutral
    else
      var payload := obj.payload.value;
      var value := ReportedValue(payload);
      if IsLexical(payload) then LexicalCandidate
      else if value in FAIL_VALUES then Contradictory
      else if value in PASS_VALUES
              && (obj.kind in {TestResult, AcceptanceRecord} || payload.semanticGuarantee) then Supporting
      else Neutral
  }

  predicate Reports(payload: Payload, values: set<string>) {
    (payload.status.Some? || payload.outcome.Some?) && ReportedValue(payload) in values
  }

  /** Evidence contradicts exactly when it is an error or reports a failure, and supports exactly when it reports a
      pass in a record that vouches for it; a lexical match by itself does neither. */
  lemma AssessmentMeans(obj: EvidenceObject)
    ensures var assessed := AssessEvidence(obj);
            var judged := obj.payload.Some? && !IsLexical(obj.payload.value);
            && (assessed == Contradictory <==>
                  obj.kind.CompilerError? || obj.kind.RuntimeError?
                      || (judged && Reports(obj.payload.value, FAIL_VALUES)))
            && (assessed == Supporting <==>
                  && !obj.kind.CompilerError? && !obj.kind.RuntimeError? && judged
                  && Reports(obj.payload.value, PASS_VALUES)
                  && (obj.kind.TestResult? || obj.kind.AcceptanceRecord? || obj.payload.value.semanticGuarantee))
  {
    assert PASS_VALUES !! FAIL_VALUES by { hide Lower, Contains; }
    assert "" !in PASS_VALUES && "" !in FAIL_VALUES;
    assert Lower("") == "";
    hide Lower, Contains, PASS_VALUES, FAIL_VALUES;
  }

  // ----- Workflow State ---------------------------------------------------------------------------------

  datatype AcceptanceStatus = Pending | Satisfied | Failed | Blocked | Unknown
  datatype DecisionStatus = Accepted | Frozen

  datatype Acceptance = Acceptance(description: string, status: AcceptanceStatus, evidenceRefs: seq<string>)
  datatype Decision = Decision(id: string, statement: string, status: DecisionStatus, evidenceRefs: seq<string>)

  datatype WorkflowState = WorkflowState(
    stateId: string, repositoryStateHash: string, taskId: string,
    acceptedDecisions: seq<Decision>, evidenceRefs: seq<string>, acceptance: map<string, Acceptance>)

  predicate ValidStrings(xs: seq<string>, hashes: bool) {
    Distinct(xs) && forall x | x in xs :: x != "" && (hashes ==> IsDigest(x))
  }

  lemma SortedIsValid(s: set<string>, hashes: bool)
    requires forall x | x in s :: x != "" && (hashes ==> IsDigest(x))
    ensures ValidStrings(Sorted(s), hashes)
  {
    hide IsDigest, Sorted;
    SortedDistinct(s);
  }

  predicate DecisionIdsValid(ids: seq<string>) {
    Distinct(ids) && "" !in ids
  }

  function DecisionIds(decisions: seq<Decision>): (ids: seq<string>)
    ensures |ids| == |decisions|
    ensures forall i | 0 <= i < |ids| :: ids[i] == decisions[i].id
  {
    seq(|decisions|, i requires 0 <= i < |decisions| => decisions[i].id)
  }

  /** The part of `validate_state` that concerns the modelled fields. */
  predicate ValidState(state: WorkflowState) {
    && IsDigest(state.stateId) && IsDigest(state.repositoryStateHash) && Strip(state.taskId) != ""
    && DecisionIdsValid(DecisionIds(state.acceptedDecisions))
    && ValidStrings(state.evidenceRefs, true)
    && (forall d | d in state.acceptedDecisions ::
          Strip(d.id) != "" && Strip(d.statement) != "" && ValidStrings(d.evidenceRefs, true)
          && SetOf(d.evidenceRefs) <= SetOf(state.evidenceRefs))
    && (forall id | id in state.acceptance ::
          && id != "" && Strip(state.acceptance[id].description) != ""
          && ValidStrings(state.acceptance[id].evidenceRefs, true)
          && SetOf(state.acceptance[id].evidenceRefs) <= SetOf(state.evidenceRefs))
  }

  // ----- Graphs -----------------------------------------------------------------------------------------

  datatype GraphStatus = Supported | Unsupported | Contradicted | Reopened

  datatype Item = Item(
    id: string, description: string, stateStatus: AcceptanceStatus, graphStatus: GraphStatus,
    decisionRefs: seq<string>, implementationRefs: seq<string>, testRefs: seq<string>,
    resultRefs: seq<string>, otherRefs: seq<string>, contradictoryRefs: seq<string>,
    evidencePaths: seq<string>, unverifiedClaims: seq<string>)
  {
    function EvidenceRefs(): set<string> {
      SetOf(implementationRefs) + SetOf(testRefs) + SetOf(resultRefs) + SetOf(otherRefs)
    }
  }

  datatype DecisionRecord = DecisionRecord(
    id: string, status: DecisionStatus, evidenceRefs: seq<string>, decisionHash: string)

  datatype Graph = Graph(
    schemaVersion: int, graphId: string, stateId: string, repositoryStateHash: string, taskId: string,
    items: seq<Item>, decisions: seq<DecisionRecord>, frozenDecisions: seq<string>,
    newDiffRefs: seq<string>, changedPaths: seq<string>, reopened: seq<string>)

  /** Digests as functions of content: SHA-256 over canonical JSON, whose internals are not modelled. */
  datatype Hashes = Hashes(decision: Decision -> string, graph: Graph -> string, item: Item -> string)

  ghost predicate Sound(h: Hashes) {
    && (forall d :: IsDigest(h.decision(d)))
    && (forall g :: IsDigest(h.graph(g)))
    && (forall a, b :: h.item(a) == h.item(b) ==> a == b)
  }

  /** `hash_document(graph, "graph_id")` */
  function GraphHash(h: Hashes, g: Graph): string {
    h.graph(g.(graphId := ""))
  }

  function ItemIds(items: seq<Item>): (ids: seq<string>)
    ensures |ids| == |items|
    ensures forall i | 0 <= i < |ids| :: ids[i] == items[i].id
  {
    seq(|items|, i requires 0 <= i < |items| => items[i].id)
  }

  function RecordIds(records: seq<DecisionRecord>): (ids: seq<string>)
    ensures |ids| == |records|
    ensures forall i | 0 <= i < |ids| :: ids[i] == records[i].id
  {
    seq(|records|, i requires 0 <= i < |records| => records[i].id)
  }

  function IdsWithStatus(items: seq<Item>, status: GraphStatus): set<string> {
    set item | item in items && item.graphStatus == status :: item.id
  }

  predicate RecordOk(record: DecisionRecord) {
    ValidStrings(record.evidenceRefs, false) && IsDigest(record.decisionHash)
  }

  predicate ItemListsOk(item: Item) {
    && ValidStrings(item.decisionRefs, false) && ValidStrings(item.evidencePaths, false)
    && ValidStrings(item.unverifiedClaims, false)
    && ValidStrings(item.implementationRefs, true) && ValidStrings(item.testRefs, true)
    && ValidStrings(item.resultRefs, true) && ValidStrings(item.otherRefs, true)
    && ValidStrings(item.contradictoryRefs, true)
  }

  predicate ItemOk(item: Item) {
    && item.description != ""
    && ItemListsOk(item)
    && (item.graphStatus == Supported ==> item.EvidenceRefs() != {})
    && SetOf(item.contradictoryRefs) <= item.EvidenceRefs()
  }

  function FrozenIds(records: seq<DecisionRecord>): set<string> {
    set r | r in records && r.status == Frozen :: r.id
  }

  /** What `validate_graph` demands of a graph: it reports no error exactly when this holds. */
  predicate GraphOk(h: Hashes, g: Graph) {
    && g.schemaVersion == 1
    && IsDigest(g.graphId) && IsDigest(g.stateId)
    && g.repositoryStateHash != "" && g.taskId != ""
    && (forall r | r in g.decisions :: RecordOk(r))
    && DecisionIdsValid(RecordIds(g.decisions))
    && (forall item | item in g.items :: ItemOk(item))
    && DecisionIdsValid(ItemIds(g.items))
    && ValidStrings(g.frozenDecisions, false) && ValidStrings(g.changedPaths, false)
    && ValidStrings(g.reopened, false) && ValidStrings(g.newDiffRefs, true)
    && SetOf(g.frozenDecisions) == FrozenIds(g.decisions)
    && g.reopened == Sorted(IdsWithStatus(g.items, Reopened))
    && g.graphId == GraphHash(h, g)
  }

  /** The messages of `validate_graph`, one constructor for each. */
  datatype Problem =
    | SchemaVersion | GraphIdFormat | StateIdFormat | EmptyRepositoryHash | EmptyTaskId
    | DecisionRefs(index: nat) | DecisionHashFormat(index: nat) | DecisionIdList
    | Description(index: nat) | ItemLists(index: nat) | SupportedWithoutEvidence(index: nat)
    | StrayContradiction(index: nat) | AcceptanceIdList
    | FrozenList | ChangedPathList | ReopenedList | DiffRefList
    | FrozenMismatch | ReopenedMismatch | GraphIdMismatch

  method ValidateDecisions(g: Graph) returns (errors: seq<Problem>)
    ensures errors == [] <==>
            (forall r | r in g.decisions :: RecordOk(r)) && DecisionIdsValid(RecordIds(g.decisions))
  {
    errors := [];
    var ids: seq<string> := [];
    for index := 0 to |g.decisions|
      invariant ids == RecordIds(g.decisions)[..index]
      invariant errors == [] <==> forall i | 0 <= i < index :: RecordOk(g.decisions[i])
    {
      var decision := g.decisions[index];
      ids := ids + [decision.id];
      if !ValidStrings(decision.evidenceRefs, false) { errors := errors + [DecisionRefs(index)]; }
      if !IsDigest(decision.decisionHash) { errors := errors + [DecisionHashFormat(index)]; }
    }
    assert ids == RecordIds(g.decisions);
    if !Distinct(ids) || "" in ids { errors := errors + [DecisionIdList]; }
  }

  method ValidateItems(g: Graph) returns (errors: seq<Problem>)
    ensures errors == [] <==>
            (forall item | item in g.items :: ItemOk(item)) && DecisionIdsValid(ItemIds(g.items))
  {
    hide ItemListsOk, Item.EvidenceRefs, SetOf, Distinct;
    errors := [];
    var ids: seq<string> := [];
    for index := 0 to |g.items|
      invariant ids == ItemIds(g.items)[..index]
      invariant errors == [] <==> forall i | 0 <= i < index :: ItemOk(g.items[i])
    {
      var item := g.items[index];
      ids := ids + [item.id];
      if item.description == "" { errors := errors + [Description(index)]; }
      if !ItemListsOk(item) { errors := errors + [ItemLists(index)]; }
      if item.graphStatus == Supported && item.EvidenceRefs() == {} {
        errors := errors + [SupportedWithoutEvidence(index)];
      }
      if !(SetOf(item.contradictoryRefs) <= item.EvidenceRefs()) {
        errors := errors + [StrayContradiction(index)];
      }
    }
    assert ids == ItemIds(g.items);
    if !Distinct(ids) || "" in ids { errors := errors + [AcceptanceIdList]; }
  }

  method ValidateGraph(h: Hashes, g: Graph) returns (errors: seq<Problem>)
    ensures errors == [] <==> GraphOk(h, g)
  {
    hide ValidStrings, IsDigest, GraphHash, Sorted, RecordOk, ItemOk, DecisionIdsValid, FrozenIds, IdsWithStatus, SetOf;
    errors := [];
    if g.schemaVersion != 1 { errors := errors + [SchemaVersion]; }
    if !IsDigest(g.graphId) { errors := errors + [GraphIdFormat]; }
    if !IsDigest(g.stateId) { errors := errors + [StateIdFormat]; }
    if g.repositoryStateHash == "" { errors := errors + [EmptyRepositoryHash]; }
    if g.taskId == "" { errors := errors + [EmptyTaskId]; }
    ghost var named := errors == [];
    var decisionErrors := ValidateDecisions(g);
    var itemErrors := ValidateItems(g);
    errors := errors + decisionErrors + itemErrors;
    assert errors == [] <==> named && decisionErrors == [] && itemErrors == [];
    if !ValidStrings(g.frozenDecisions, false) { errors := errors + [FrozenList]; }
    if !ValidStrings(g.changedPaths, false) { errors := errors + [ChangedPathList]; }
    if !ValidStrings(g.reopened, false) { errors := errors + [ReopenedList]; }
    if !ValidStrings(g.newDiffRefs, true) { errors := errors + [DiffRefList]; }
    if SetOf(g.frozenDecisions) != FrozenIds(g.decisions) { errors := errors + [FrozenMismatch]; }
    if g.reopened != Sorted(IdsWithStatus(g.items, Reopened)) { errors := errors + [ReopenedMismatch]; }
    if g.graphId != GraphHash(h, g) { errors := errors + [GraphIdMismatch]; }
  }
}
