/** What each graph of scripts/acceptance_graph.py records, in terms of the Workflow State and the evidence store. */
module GraphContents {
  import opened Wrappers
  import opened Strings
  import opened Ordering
  import opened AcceptanceGraph
  import opened GraphBuilder
  import opened GraphGuarantees
  import opened GraphHistory

  // ----- What the inputs say -----------------------------------------------------------------------------------------

  /** The acceptance entry rests on evidence with a certain assessment. */
  predicate Rests(inputs: Inputs, id: string, assessment: Assessment)
    requires id in inputs.state.acceptance
  {
    exists ref | ref in inputs.state.acceptance[id].evidenceRefs ::
      ref in inputs.store && AssessEvidence(inputs.store[ref]) == assessment
  }

  /** The acceptance entry rests on evidence from a certain file. */
  predicate RestsOn(inputs: Inputs, id: string, path: string)
    requires id in inputs.state.acceptance
  {
    path != "" && exists ref | ref in inputs.state.acceptance[id].evidenceRefs ::
      ref in inputs.store && inputs.store[ref].path == path
  }

  predicate Named(inputs: Inputs, ref: string) {
    exists id | id in inputs.state.acceptance :: ref in inputs.state.acceptance[id].evidenceRefs
  }

  /** An acceptance entry names the evidence, and no item of the previous graph did. */
  predicate Linked(inputs: Inputs, ref: string) {
    && Named(inputs, ref)
    && !(inputs.previous.Some? && exists item | item in inputs.previous.value.items ::
           ref in item.implementationRefs || ref in item.testRefs || ref in item.resultRefs || ref in item.otherRefs)
  }

  /** The caller names the diff hunk, or an acceptance entry does for the first time. */
  predicate NewDiff(inputs: Inputs, ref: string) {
    ref in inputs.newDiffRefs || (Linked(inputs, ref) && ref in inputs.store && inputs.store[ref].kind.DiffHunk?)
  }

  /** The caller names the path as changed, or a new diff hunk changes it. */
  ghost predicate Changes(inputs: Inputs, path: string) {
    || path in inputs.changedPaths
    || (path != "" && exists ref :: NewDiff(inputs, ref) && ref in inputs.store && inputs.store[ref].path == path)
  }

  /** A path that a supported item of the previous graph rested on is changed. */
  ghost predicate Undermined(inputs: Inputs, id: string) {
    inputs.previous.Some?
    && exists prior, path, changed | prior in inputs.previous.value.items && path in prior.evidencePaths ::
         && prior.id == id && prior.graphStatus == Supported
         && Changes(inputs, changed) && PathsOverlap(path, changed)
  }

  // ----- The inputs of the builder, in these words -----------------------------------------------------------------

  lemma NewDiffIs(inputs: Inputs, ref: string)
    ensures ref in inputs.DiffRefs() <==> NewDiff(inputs, ref)
  {
    LinkedIs(inputs, ref);
    hide Inputs.NewlyLinked, Linked;
  }

  lemma LinkedIs(inputs: Inputs, ref: string)
    ensures ref in inputs.NewlyLinked() <==> Linked(inputs, ref)
  {
    if inputs.previous.Some? {
      forall item | item in inputs.previous.value.items
        ensures ref in item.EvidenceRefs() <==> ref in item.implementationRefs || ref in item.testRefs
                                                || ref in item.resultRefs || ref in item.otherRefs
      {}
      hide Item.EvidenceRefs;
    }
  }

  lemma ChangesIs(inputs: Inputs, path: string)
    ensures path in inputs.ImpactPaths() <==> Changes(inputs, path)
  {
    forall ref ensures ref in inputs.DiffRefs() <==> NewDiff(inputs, ref) { NewDiffIs(inputs, ref); }
    hide NewDiff, Inputs.DiffRefs;
  }

  lemma UnderminedIs(h: Hashes, inputs: Inputs, id: string)
    requires inputs.previous.Some? ==> GraphOk(h, inputs.previous.value)
    ensures inputs.Invalidated(id) <==> Undermined(inputs, id)
  {
    InvalidatedMeans(h, inputs, id);
    forall path ensures path in inputs.ImpactPaths() <==> Changes(inputs, path) { ChangesIs(inputs, path); }
    hide Inputs.Invalidated, Inputs.ImpactPaths, Changes, PathsOverlap, GraphOk;
  }

  lemma AssessedIs(inputs: Inputs, id: string, assessment: Assessment)
    requires id in inputs.state.acceptance
    ensures inputs.Assessed(inputs.Refs(id), assessment) != {} <==> Rests(inputs, id, assessment)
  {
    hide AssessEvidence;
    var refs := inputs.state.acceptance[id].evidenceRefs;
    if ref :| ref in refs && ref in inputs.store && AssessEvidence(inputs.store[ref]) == assessment {
      assert ref in inputs.Assessed(inputs.Refs(id), assessment);
    }
  }

  // ----- Items ------------------------------------------------------------------------------------------------------

  lemma ItemIsBuilt(h: Hashes, inputs: Inputs, item: Item)
    requires inputs.Refusal(h).None? && item in GraphOf(h, inputs).items
    ensures item.id in inputs.state.acceptance && item == inputs.ItemOf(item.id)
    ensures inputs.Loadable(inputs.Refs(item.id))
    ensures inputs.previous.Some? ==> GraphOk(h, inputs.previous.value)
  {
    RefusalFacts(h, inputs);
    BuiltItemsAreValid(inputs);
    GraphHasItems(h, inputs);
    hide *;
    LoadableFor(inputs, item.id);
  }

  /** A graph has one item for each acceptance entry, sorted by id, and all the evidence it names could be loaded. */
  lemma OneItemEach(h: Hashes, inputs: Inputs)
    requires inputs.Refusal(h).None?
    ensures var items := GraphOf(h, inputs).items;
            && Sorts(ItemIds(items))
            && forall id :: id in inputs.state.acceptance <==> exists item | item in items :: item.id == id
    ensures forall id, ref | id in inputs.state.acceptance && ref in inputs.state.acceptance[id].evidenceRefs ::
              IsDigest(ref) && ref in inputs.store
  {
    RefusalFacts(h, inputs);
    BuiltItemsAreValid(inputs);
    GraphHasItems(h, inputs);
    SortedSorts(inputs.state.acceptance.Keys);
    hide Inputs.ItemOf, Inputs.ItemsOf, ItemOk, ValidState, GraphOf, Inputs.AllLoadable, GraphOk, IsDigest;
    hide Sorted, Sorts;
    hide Inputs.Refusal;
    forall id | id in inputs.state.acceptance
      ensures inputs.ItemOf(id).id == id && inputs.Loadable(inputs.Refs(id))
    {
      ItemHasItsId(inputs, id);
      LoadableFor(inputs, id);
    }
  }

  /**
   * What an item records of its acceptance entry, from the state and the store alone: the entry's words, its evidence
   * paths, the contradicting evidence, and the decisions that share evidence with it.
   */
  lemma ItemRecords(h: Hashes, inputs: Inputs, item: Item)
    requires inputs.Refusal(h).None? && item in GraphOf(h, inputs).items
    ensures item.id in inputs.state.acceptance
    ensures var source := inputs.state.acceptance[item.id];
            && item.description == source.description && item.stateStatus == source.status
            && (forall path :: path in item.evidencePaths <==> RestsOn(inputs, item.id, path))
            && (forall ref :: ref in item.contradictoryRefs <==>
                  ref in source.evidenceRefs && ref in inputs.store
                  && AssessEvidence(inputs.store[ref]) == Contradictory)
            && (forall name :: name in item.decisionRefs <==>
                  exists d, ref | d in inputs.state.acceptedDecisions && ref in d.evidenceRefs ::
                    d.id == name && ref in source.evidenceRefs)
  {
    ItemIsBuilt(h, inputs, item);
    hide Inputs.Refusal, GraphOf, GraphOk, AssessEvidence, Inputs.Status, Inputs.Claims, Inputs.OfKinds;
    hide IsDigest, Sorted;
    hide Inputs.DecisionRefs;
    forall name ensures name in inputs.DecisionRefs(item.id) <==>
                        exists d, ref | d in inputs.state.acceptedDecisions && ref in d.evidenceRefs ::
                          d.id == name && ref in inputs.state.acceptance[item.id].evidenceRefs
    {
      SharedEvidence(inputs, item.id, name);
    }
  }

  lemma SharedEvidence(inputs: Inputs, id: string, name: string)
    requires id in inputs.state.acceptance
    ensures name in inputs.DecisionRefs(id) <==>
            exists d, ref | d in inputs.state.acceptedDecisions && ref in d.evidenceRefs ::
              d.id == name && ref in inputs.state.acceptance[id].evidenceRefs
  {
    if d :| d in inputs.state.acceptedDecisions && d.id == name && SetOf(d.evidenceRefs) * inputs.Refs(id) != {} {
      var ref :| ref in SetOf(d.evidenceRefs) * inputs.Refs(id);
      assert ref in d.evidenceRefs;
    }
    if d, ref :| d in inputs.state.acceptedDecisions && ref in d.evidenceRefs
                 && d.id == name && ref in inputs.state.acceptance[id].evidenceRefs {
      assert ref in SetOf(d.evidenceRefs) * inputs.Refs(id);
    }
  }

  /** Each piece of evidence is in the list for its kind and in no other. */
  lemma EvidenceByKind(h: Hashes, inputs: Inputs, item: Item, ref: string)
    requires inputs.Refusal(h).None? && item in GraphOf(h, inputs).items
    ensures item.id in inputs.state.acceptance
    ensures var named := ref in inputs.state.acceptance[item.id].evidenceRefs && ref in inputs.store;
            && (ref in item.implementationRefs <==> named && inputs.store[ref].kind.DiffHunk?)
            && (ref in item.testRefs <==> named && inputs.store[ref].kind.TestDefinition?)
            && (ref in item.resultRefs <==>
                  && named
                  && (var kind := inputs.store[ref].kind;
                      kind.TestResult? || kind.CompilerError? || kind.RuntimeError?))
            && (ref in item.otherRefs <==>
                  named && (inputs.store[ref].kind.AcceptanceRecord? || inputs.store[ref].kind.OtherKind?))
  {
    ItemIsBuilt(h, inputs, item);
    ListedByKind(inputs, item.id, ref);
    hide *;
  }

  lemma ListedByKind(inputs: Inputs, id: string, ref: string)
    requires id in inputs.state.acceptance && inputs.Loadable(inputs.Refs(id))
    ensures var (item, refs) := (inputs.ItemOf(id), inputs.state.acceptance[id].evidenceRefs);
            var kind := if ref in inputs.store then inputs.store[ref].kind else OtherKind;
            && (ref in refs ==> ref in inputs.store)
            && (ref in item.implementationRefs <==> ref in refs && kind.DiffHunk?)
            && (ref in item.testRefs <==> ref in refs && kind.TestDefinition?)
            && (ref in item.resultRefs <==>
                  ref in refs && (kind.TestResult? || kind.CompilerError? || kind.RuntimeError?))
            && (ref in item.otherRefs <==> ref in refs && (kind.AcceptanceRecord? || kind.OtherKind?))
  {
    hide Inputs.Status, Inputs.Claims, Inputs.DecisionRefs, IsDigest, Sorted, Inputs.Paths, Inputs.Assessed;
  }

  /**
   * The status of every item: reopened when what it rested on is changed; otherwise contradicted when some evidence
   * contradicts it, supported when it is claimed satisfied and some evidence supports it, and unsupported else.
   */
  lemma StatusExactly(h: Hashes, inputs: Inputs, item: Item)
    requires inputs.Refusal(h).None? && item in GraphOf(h, inputs).items
    ensures item.id in inputs.state.acceptance
    ensures var (undermined, contradicted) :=
              (Undermined(inputs, item.id), Rests(inputs, item.id, Contradictory));
            var supported := inputs.state.acceptance[item.id].status == Satisfied && Rests(inputs, item.id, Supporting);
            && (item.graphStatus == Reopened <==> undermined)
            && (item.graphStatus == Contradicted <==> !undermined && contradicted)
            && (item.graphStatus == Supported <==> !undermined && !contradicted && supported)
            && (item.graphStatus == Unsupported <==> !undermined && !contradicted && !supported)
  {
    ItemIsBuilt(h, inputs, item);
    ItemHasItsId(inputs, item.id);
    UnderminedIs(h, inputs, item.id);
    AssessedIs(inputs, item.id, Contradictory);
    AssessedIs(inputs, item.id, Supporting);
    hide Inputs.Refusal, GraphOf, GraphOk, Inputs.ItemOf, Inputs.Invalidated, Inputs.Assessed, Inputs.Refs, Rests;
    hide Undermined;
  }

  /** What an item says against itself. */
  lemma ClaimsExactly(h: Hashes, inputs: Inputs, item: Item)
    requires inputs.Refusal(h).None? && item in GraphOf(h, inputs).items
    ensures item.id in inputs.state.acceptance
    ensures var source := inputs.state.acceptance[item.id];
            var supported := Rests(inputs, item.id, Supporting);
            forall claim :: claim in item.unverifiedClaims <==>
              || (claim == "satisfied-without-immutable-evidence"
                  && source.status == Satisfied && source.evidenceRefs == [])
              || (claim == "no-deterministic-or-semantic-support" && source.status == Satisfied && !supported)
              || (claim == "bounded-lexical-candidate-cannot-satisfy-acceptance"
                  && Rests(inputs, item.id, LexicalCandidate) && !supported)
              || (claim == "contradictory-evidence-present" && Rests(inputs, item.id, Contradictory))
              || (claim == "accepted-evidence-path-changed" && item.graphStatus == Reopened)
  {
    ItemIsBuilt(h, inputs, item);
    inputs.ReopenedWhenInvalidated(item.id);
    AssessedIs(inputs, item.id, Contradictory);
    AssessedIs(inputs, item.id, Supporting);
    AssessedIs(inputs, item.id, LexicalCandidate);
    EmptyRefs(inputs, item.id);
    ClaimsListed(inputs, item.id);
    hide *;
    forall claim {
      ClaimIs(inputs, item.id, claim);
    }
  }

  lemma ClaimsListed(inputs: Inputs, id: string)
    requires id in inputs.state.acceptance
    ensures forall claim :: claim in inputs.ItemOf(id).unverifiedClaims <==> claim in inputs.Claims(id)
  {
    hide Inputs.Status, Inputs.Claims, Inputs.DecisionRefs, Sorted, Inputs.Paths, Inputs.Assessed, Inputs.OfKinds;
  }

  lemma ClaimIs(inputs: Inputs, id: string, claim: string)
    requires id in inputs.state.acceptance
    ensures var satisfied := inputs.state.acceptance[id].status == Satisfied;
            var unsupported := inputs.Assessed(inputs.Refs(id), Supporting) == {};
            claim in inputs.Claims(id) <==>
            || (claim == "satisfied-without-immutable-evidence" && satisfied && inputs.Refs(id) == {})
            || (claim == "no-deterministic-or-semantic-support" && satisfied && unsupported)
            || (claim == "bounded-lexical-candidate-cannot-satisfy-acceptance"
                && inputs.Assessed(inputs.Refs(id), LexicalCandidate) != {} && unsupported)
            || (claim == "contradictory-evidence-present" && inputs.Assessed(inputs.Refs(id), Contradictory) != {})
            || (claim == "accepted-evidence-path-changed" && inputs.Invalidated(id))
  {
    hide Inputs.Assessed, Inputs.Refs, Inputs.Invalidated;
  }

  lemma EmptyRefs(inputs: Inputs, id: string)
    requires id in inputs.state.acceptance
    ensures inputs.Refs(id) == {} <==> inputs.state.acceptance[id].evidenceRefs == []
  {
    var refs := inputs.state.acceptance[id].evidenceRefs;
    if refs != [] { assert refs[0] in inputs.Refs(id); }
  }

  lemma ItemIsSorted(h: Hashes, inputs: Inputs, item: Item)
    requires inputs.Refusal(h).None? && item in GraphOf(h, inputs).items
    ensures Sorts(item.decisionRefs) && Sorts(item.implementationRefs) && Sorts(item.testRefs)
    ensures Sorts(item.resultRefs) && Sorts(item.otherRefs) && Sorts(item.contradictoryRefs)
    ensures Sorts(item.evidencePaths) && Sorts(item.unverifiedClaims)
  {
    ItemIsBuilt(h, inputs, item);
    forall s ensures Sorts(Sorted(s)) { SortedSorts(s); }
    hide Inputs.Refusal, GraphOf, GraphOk, Sorted, Sorts, Inputs.Status, Inputs.Claims, Inputs.DecisionRefs;
    hide Inputs.Paths, Inputs.Assessed, Inputs.OfKinds, Inputs.Refs, Inputs.Loadable;
  }

  // ----- The rest of the graph -------------------------------------------------------------------------------------

  lemma DraftShape(h: Hashes, inputs: Inputs)
    ensures var g := GraphOf(h, inputs);
            && g.schemaVersion == 1 && g.stateId == inputs.state.stateId && g.taskId == inputs.state.taskId
            && g.repositoryStateHash == inputs.state.repositoryStateHash
            && g.decisions == inputs.Records(h) && g.frozenDecisions == Sorted(inputs.Frozen())
            && g.newDiffRefs == Sorted(inputs.DiffRefs()) && g.changedPaths == Sorted(inputs.ImpactPaths())
            && g.reopened == Sorted(inputs.InvalidatedIds())
  {
    hide Inputs.ItemsOf, Inputs.Records, Inputs.Frozen, Sorted, Inputs.DiffRefs, Inputs.ImpactPaths;
    hide Inputs.InvalidatedIds, GraphHash;
  }

  /** The other lists of a graph: what is new, changed, reopened and frozen. */
  lemma GraphRecords(h: Hashes, inputs: Inputs)
    requires inputs.Refusal(h).None?
    ensures var (g, state) := (GraphOf(h, inputs), inputs.state);
            && g.schemaVersion == 1 && g.stateId == state.stateId && g.taskId == state.taskId
            && g.repositoryStateHash == state.repositoryStateHash
            && (forall ref :: ref in g.newDiffRefs <==> NewDiff(inputs, ref))
            && (forall path :: path in g.changedPaths <==> Changes(inputs, path))
            && (forall id :: id in g.reopened <==> id in state.acceptance && Undermined(inputs, id))
            && (forall id :: id in g.frozenDecisions <==>
                  exists d | d in state.acceptedDecisions :: d.id == id && d.status.Frozen?)
            && Sorts(g.newDiffRefs) && Sorts(g.changedPaths) && Sorts(g.reopened) && Sorts(g.frozenDecisions)
  {
    RefusalFacts(h, inputs);
    DraftShape(h, inputs);
    forall s ensures Sorts(Sorted(s)) { SortedSorts(s); }
    hide Inputs.Refusal, GraphOf, GraphOk, ValidState, Sorted, Sorts, Inputs.Records, Inputs.Loadable;
    hide Inputs.AllLoadable, Inputs.ImpactPaths, Inputs.DiffRefs, Inputs.Invalidated, NewDiff, Changes, Undermined;
    forall ref ensures ref in inputs.DiffRefs() <==> NewDiff(inputs, ref) { NewDiffIs(inputs, ref); }
    forall path ensures path in inputs.ImpactPaths() <==> Changes(inputs, path) { ChangesIs(inputs, path); }
    forall id ensures inputs.Invalidated(id) <==> Undermined(inputs, id) { UnderminedIs(h, inputs, id); }
  }

  ghost predicate RecordOf(h: Hashes, r: DecisionRecord, d: Decision) {
    && r.id == d.id && r.status == d.status && r.decisionHash == h.decision(d)
    && Sorts(r.evidenceRefs) && forall ref :: ref in r.evidenceRefs <==> ref in d.evidenceRefs
  }

  ghost predicate RecordsOf(h: Hashes, records: seq<DecisionRecord>, decisions: seq<Decision>) {
    && (forall d | d in decisions :: exists r | r in records :: RecordOf(h, r, d))
    && (forall r | r in records :: exists d | d in decisions :: RecordOf(h, r, d))
  }

  /** A graph records each decision of the state once, sorted by id, with its sorted evidence and its digest. */
  lemma DecisionsRecorded(h: Hashes, inputs: Inputs)
    requires inputs.Refusal(h).None?
    ensures var (g, decisions) := (GraphOf(h, inputs), inputs.state.acceptedDecisions);
            Sorts(RecordIds(g.decisions)) && |g.decisions| == |decisions| && RecordsOf(h, g.decisions, decisions)
  {
    RefusalFacts(h, inputs);
    DraftShape(h, inputs);
    StateIdsAreUnique(inputs);
    hide Inputs.Refusal, GraphOf, GraphOk, ValidState, Inputs.AllLoadable, Inputs.Loadable;
    RecordsAre(h, inputs);
    RecordOrder(h, inputs);
    hide *;
  }

  lemma RecordOrder(h: Hashes, inputs: Inputs)
    requires Unique(DecisionIds(inputs.state.acceptedDecisions))
    ensures RecordIds(inputs.Records(h)) == inputs.DecisionOrder()
    ensures Sorts(inputs.DecisionOrder()) && |inputs.DecisionOrder()| == |inputs.state.acceptedDecisions|
  {
    var ids := DecisionIds(inputs.state.acceptedDecisions);
    SortedSorts(SetOf(ids));
    SortedAscends(SetOf(ids));
    SetOfSize(ids);
    hide Sorted, Sorts, Unique;
  }

  lemma RecordsAre(h: Hashes, inputs: Inputs)
    requires Unique(DecisionIds(inputs.state.acceptedDecisions))
    ensures RecordsOf(h, inputs.Records(h), inputs.state.acceptedDecisions)
  {
    var (records, decisions, ids) := (inputs.Records(h), inputs.state.acceptedDecisions, inputs.DecisionOrder());
    hide Inputs.Records, Inputs.DecisionOrder, Inputs.RecordFor, Unique, RecordOf, DecisionIds;
    forall d | d in decisions ensures exists r | r in records :: RecordOf(h, r, d) {
      RecordIsOf(h, inputs, d);
      var i :| 0 <= i < |ids| && ids[i] == d.id;
      assert records[i] in records;
    }
    forall r | r in records ensures exists d | d in decisions :: RecordOf(h, r, d) {
      var i :| 0 <= i < |records| && records[i] == r;
      RecordIsOf(h, inputs, inputs.FindDecision(ids[i]));
    }
  }

  lemma RecordIsOf(h: Hashes, inputs: Inputs, d: Decision)
    requires d in inputs.state.acceptedDecisions && Unique(DecisionIds(inputs.state.acceptedDecisions))
    ensures d.id in inputs.DecisionOrder() && d.id in DecisionIds(inputs.state.acceptedDecisions)
    ensures RecordOf(h, inputs.RecordFor(h, d.id), d)
  {
    DecisionFound(inputs, d);
    SortedSorts(SetOf(d.evidenceRefs));
    hide FirstIndex, Sorted, Sorts, Inputs.FindDecision;
  }

  // ----- Refusals --------------------------------------------------------------------------------------------------

  predicate Loads(inputs: Inputs, ref: string) {
    IsDigest(ref) && ref in inputs.store
  }

  /** The state and the previous graph are valid, and belong to the same task. */
  predicate Begins(h: Hashes, inputs: Inputs) {
    && ValidState(inputs.state)
    && (inputs.previous.Some? ==>
          GraphOk(h, inputs.previous.value) && inputs.previous.value.taskId == inputs.state.taskId)
  }

  /** What the builder refuses, and with which error: the first demand that is not met. */
  lemma BuildRefusesExactly(h: Hashes, inputs: Inputs)
    ensures var (r, previous) := (inputs.Refusal(h), inputs.previous);
            var loads := forall ref :: Linked(inputs, ref) || ref in inputs.newDiffRefs ==> Loads(inputs, ref);
            var hunks := forall ref | ref in inputs.newDiffRefs && ref in inputs.store ::
                           inputs.store[ref].kind.DiffHunk?;
            var safe := forall path :: Changes(inputs, path) ==> IsSafePath(path);
            var all := forall ref :: Named(inputs, ref) ==> Loads(inputs, ref);
            && (r == Some(InvalidState) <==> !ValidState(inputs.state))
            && (r == Some(InvalidPrevious) <==>
                  ValidState(inputs.state) && previous.Some? && !GraphOk(h, previous.value))
            && (r == Some(DifferentTask) <==>
                  ValidState(inputs.state) && previous.Some? && GraphOk(h, previous.value)
                  && previous.value.taskId != inputs.state.taskId)
            && (r == Some(UnloadableEvidence) <==> Begins(h, inputs) && (!loads || (hunks && safe && !all)))
            && (r == Some(NotADiffHunk) <==> Begins(h, inputs) && loads && !hunks)
            && (r == Some(UnsafePath) <==> Begins(h, inputs) && loads && hunks && !safe)
            && (r == None <==> Begins(h, inputs) && loads && hunks && safe && all)
  {
    DemandsAre(inputs);
    AllLoadableIs(inputs);
    hide ValidState, GraphOk, Inputs.AllLoadable, Inputs.Loadable, Inputs.NewlyLinked, Inputs.DiffRefs;
    hide Inputs.ImpactPaths;
    hide Linked, Named, Changes, IsSafePath, Loads;
  }

  lemma DemandsAre(inputs: Inputs)
    ensures inputs.Loadable(inputs.NewlyLinked()) && inputs.Loadable(inputs.DiffRefs()) <==>
            forall ref :: Linked(inputs, ref) || ref in inputs.newDiffRefs ==> Loads(inputs, ref)
    ensures inputs.Loadable(inputs.DiffRefs()) ==>
              ((exists ref | ref in inputs.DiffRefs() :: inputs.store[ref].kind != DiffHunk) <==>
               !forall ref | ref in inputs.newDiffRefs && ref in inputs.store :: inputs.store[ref].kind.DiffHunk?)
    ensures (exists path | path in inputs.ImpactPaths() :: !IsSafePath(path)) <==>
            !forall path :: Changes(inputs, path) ==> IsSafePath(path)
  {
    forall ref
      ensures ref in inputs.NewlyLinked() <==> Linked(inputs, ref)
      ensures ref in inputs.DiffRefs() <==> NewDiff(inputs, ref)
    {
      LinkedIs(inputs, ref);
      NewDiffIs(inputs, ref);
    }
    forall path ensures path in inputs.ImpactPaths() <==> Changes(inputs, path) { ChangesIs(inputs, path); }
    hide Linked, Changes, IsSafePath, IsDigest, Inputs.NewlyLinked, Inputs.DiffRefs, Inputs.ImpactPaths;
  }

  lemma AllLoadableIs(inputs: Inputs)
    ensures inputs.AllLoadable(inputs.Ids()) <==> forall ref :: Named(inputs, ref) ==> Loads(inputs, ref)
  {
    hide Sorted, IsDigest, Inputs.AllLoadable;
    if inputs.AllLoadable(inputs.Ids()) {
      forall id | id in inputs.state.acceptance ensures inputs.Loadable(inputs.Refs(id)) { LoadableFor(inputs, id); }
    }
    if forall ref :: Named(inputs, ref) ==> Loads(inputs, ref) {
      forall id | id in inputs.state.acceptance ensures inputs.Loadable(inputs.Refs(id)) {
        forall ref | ref in inputs.Refs(id) ensures Loads(inputs, ref) { assert Named(inputs, ref); }
      }
      LoadableTogether(inputs, inputs.Ids());
    }
  }

  lemma {:induction false} LoadableTogether(inputs: Inputs, ids: seq<string>)
    requires forall id | id in ids :: id in inputs.state.acceptance && inputs.Loadable(inputs.Refs(id))
    ensures inputs.AllLoadable(ids)
  {
    hide Inputs.Loadable, Inputs.Refs;
    if ids != [] { LoadableTogether(inputs, ids[..|ids| - 1]); }
  }

  // ----- Two builds ------------------------------------------------------------------------------------------------

  /**
   * The law of reopening over successive builds: an item is reopened exactly when it was supported in the build before
   * and a file that its evidence came from, in the state and store of that build, is touched by a change.
   */
  lemma ReopenedAfterSupport(h: Hashes, builds: seq<Inputs>, n: nat, id: string)
    requires BuildHistory(h, builds) && 0 < n < |builds|
    ensures id in GraphOf(h, builds[n]).reopened <==>
            && id in builds[n].state.acceptance && id in builds[n - 1].state.acceptance
            && !Undermined(builds[n - 1], id) && !Rests(builds[n - 1], id, Contradictory)
            && builds[n - 1].state.acceptance[id].status == Satisfied && Rests(builds[n - 1], id, Supporting)
            && exists path, changed :: RestsOn(builds[n - 1], id, path) && Changes(builds[n], changed)
                                       && PathsOverlap(path, changed)
  {
    var (before, now) := (builds[n - 1], builds[n]);
    assert now.previous == Some(GraphOf(h, before));
    GraphRecords(h, now);
    OneItemEach(h, before);
    var items := GraphOf(h, before).items;
    forall item | item in items
      ensures item.id in before.state.acceptance
      ensures forall path :: path in item.evidencePaths <==> RestsOn(before, item.id, path)
      ensures item.graphStatus == Supported <==>
              && !Undermined(before, item.id) && !Rests(before, item.id, Contradictory)
              && before.state.acceptance[item.id].status == Satisfied && Rests(before, item.id, Supporting)
    {
      ItemRecords(h, before, item);
      StatusExactly(h, before, item);
    }
    hide GraphOf, Inputs.Refusal, Rests, RestsOn, Changes, PathsOverlap, Sorts, ItemIds, IsDigest;
    if id in builds[n - 1].state.acceptance {
      var item :| item in items && item.id == id;
    }
  }
}
