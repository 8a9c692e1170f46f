/** What holds of every graph that `build_graph` returns. */
module GraphGuarantees {
  import opened Wrappers
  import opened Strings
  import opened Ordering
  import opened AcceptanceGraph
  import opened GraphBuilder

  /** The four evidence lists of an item partition the references of its acceptance entry. */
  lemma EvidenceIsPartitioned(inputs: Inputs, id: string)
    requires id in inputs.state.acceptance && inputs.Loadable(inputs.Refs(id))
    ensures var item := inputs.ItemOf(id);
            var (a, b, c, d) := (SetOf(item.implementationRefs), SetOf(item.testRefs),
                                 SetOf(item.resultRefs), SetOf(item.otherRefs));
            && a + b + c + d == item.EvidenceRefs() == inputs.Refs(id)
            && a !! b && a !! c && a !! d && b !! c && b !! d && c !! d
    ensures SetOf(inputs.ItemOf(id).contradictoryRefs) <= inputs.Refs(id)
  {
    hide Inputs.Status, Inputs.Claims, Inputs.DecisionRefs, Inputs.Paths, Sorted, Inputs.Refs, IsDigest, AssessEvidence;
    var refs := inputs.Refs(id);
    var implementation := inputs.OfKinds(refs, {DiffHunk});
    var tests := inputs.OfKinds(refs, {TestDefinition});
    var results := inputs.OfKinds(refs, {TestResult, CompilerError, RuntimeError});
    SortedDistinct(implementation);
    SortedDistinct(tests);
    SortedDistinct(results);
    SortedDistinct(refs - (implementation + tests + results));
    SortedDistinct(inputs.Assessed(refs, Contradictory));
  }

  lemma RefsAreDigests(inputs: Inputs, id: string)
    requires ValidState(inputs.state) && id in inputs.state.acceptance
    ensures forall ref | ref in inputs.Refs(id) :: ref != "" && IsDigest(ref)
  {
    hide IsDigest;
  }

  lemma ClaimsAreNamed(inputs: Inputs, id: string)
    requires id in inputs.state.acceptance
    ensures "" !in inputs.Claims(id)
  {
    hide Inputs.Invalidated, Inputs.Assessed, Inputs.Refs;
  }

  lemma LabelsAreValid(inputs: Inputs, id: string)
    requires ValidState(inputs.state) && id in inputs.state.acceptance
    ensures ValidStrings(Sorted(inputs.DecisionRefs(id)), false)
    ensures ValidStrings(Sorted(inputs.Paths(inputs.Refs(id))), false)
    ensures ValidStrings(Sorted(inputs.Claims(id)), false)
  {
    assert forall d | d in inputs.state.acceptedDecisions :: d.id != "";
    ClaimsAreNamed(inputs, id);
    hide Inputs.Claims, Sorted, Inputs.Refs, ValidStrings, ValidState;
    SortedIsValid(inputs.DecisionRefs(id), false);
    SortedIsValid(inputs.Paths(inputs.Refs(id)), false);
    SortedIsValid(inputs.Claims(id), false);
  }

  lemma ItemListsAreValid(inputs: Inputs, id: string)
    requires ValidState(inputs.state) && id in inputs.state.acceptance
    ensures ItemListsOk(inputs.ItemOf(id))
  {
    RefsAreDigests(inputs, id);
    LabelsAreValid(inputs, id);
    hide Inputs.Status, Sorted, IsDigest, AssessEvidence, Inputs.Refs, ValidStrings, ValidState;
    hide Inputs.Claims, Inputs.Paths, Inputs.DecisionRefs;
    var refs := inputs.Refs(id);
    SortedIsValid(inputs.OfKinds(refs, {DiffHunk}), true);
    SortedIsValid(inputs.OfKinds(refs, {TestDefinition}), true);
    SortedIsValid(inputs.OfKinds(refs, {TestResult, CompilerError, RuntimeError}), true);
    SortedIsValid(refs - (inputs.OfKinds(refs, {DiffHunk}) + inputs.OfKinds(refs, {TestDefinition})
                          + inputs.OfKinds(refs, {TestResult, CompilerError, RuntimeError})), true);
    SortedIsValid(inputs.Assessed(refs, Contradictory), true);
  }

  lemma BuiltItemIsValid(inputs: Inputs, id: string)
    requires ValidState(inputs.state) && id in inputs.state.acceptance && inputs.Loadable(inputs.Refs(id))
    ensures ItemOk(inputs.ItemOf(id))
  {
    EvidenceIsPartitioned(inputs, id);
    ItemListsAreValid(inputs, id);
    hide ItemListsOk, Sorted, Inputs.Claims, Inputs.DecisionRefs, Inputs.Paths, Inputs.Invalidated, AssessEvidence;
    hide IsDigest, Inputs.Refs;
  }

  lemma BuiltRecordIsValid(h: Hashes, inputs: Inputs, id: string)
    requires Sound(h) && ValidState(inputs.state) && id in DecisionIds(inputs.state.acceptedDecisions)
    ensures RecordOk(inputs.RecordFor(h, id))
  {
    hide Sorted, IsDigest, Distinct;
    SortedIsValid(SetOf(inputs.FindDecision(id).evidenceRefs), false);
  }

  lemma {:induction false} ItemAt(inputs: Inputs, ids: seq<string>, i: nat)
    requires (forall id | id in ids :: id in inputs.state.acceptance) && i < |ids|
    ensures inputs.ItemsOf(ids)[i] == inputs.ItemOf(ids[i])
  {
    hide Inputs.ItemOf;
    if i < |ids| - 1 {
      ItemAt(inputs, ids[..|ids| - 1], i);
    }
  }

  lemma {:induction false} LoadableAt(inputs: Inputs, ids: seq<string>, i: nat)
    requires (forall id | id in ids :: id in inputs.state.acceptance) && i < |ids| && inputs.AllLoadable(ids)
    ensures inputs.Loadable(inputs.Refs(ids[i]))
  {
    hide Inputs.Loadable, Inputs.Refs;
    if i < |ids| - 1 {
      LoadableAt(inputs, ids[..|ids| - 1], i);
    }
  }

  /** The items of a built graph are the items of the acceptance ids, one each, in sorted order. */
  lemma BuiltItemsAreValid(inputs: Inputs)
    requires ValidState(inputs.state) && inputs.AllLoadable(inputs.Ids())
    ensures ItemIds(inputs.ItemsOf(inputs.Ids())) == inputs.Ids()
    ensures forall item | item in inputs.ItemsOf(inputs.Ids()) :: ItemOk(item)
    ensures forall id | id in inputs.state.acceptance :: inputs.ItemOf(id) in inputs.ItemsOf(inputs.Ids())
    ensures forall item | item in inputs.ItemsOf(inputs.Ids()) ::
              item.id in inputs.state.acceptance && item == inputs.ItemOf(item.id)
  {
    hide ValidState, ItemOk, Inputs.Loadable, Inputs.Refs, Inputs.ItemOf, Inputs.ItemsOf, Inputs.AllLoadable, Sorted;
    var ids := inputs.Ids();
    var items := inputs.ItemsOf(ids);
    forall i | 0 <= i < |ids|
      ensures items[i] == inputs.ItemOf(ids[i]) && ItemOk(items[i]) && items[i].id == ids[i]
    {
      ItemAt(inputs, ids, i);
      LoadableAt(inputs, ids, i);
      BuiltItemIsValid(inputs, ids[i]);
      ItemHasItsId(inputs, ids[i]);
    }
    assert ItemIds(items) == ids;
    forall id | id in inputs.state.acceptance ensures inputs.ItemOf(id) in items {
      assert id in ids;
      var i :| 0 <= i < |ids| && ids[i] == id;
      assert items[i] in items;
    }
  }

  lemma ItemHasItsId(inputs: Inputs, id: string)
    requires id in inputs.state.acceptance
    ensures inputs.ItemOf(id).id == id && inputs.ItemOf(id).graphStatus == inputs.Status(id)
  {
    hide Inputs.Status, Inputs.Claims, Inputs.DecisionRefs, Inputs.Paths, Sorted;
  }

  /** The reopened list of a built graph names exactly the items whose status is reopened. */
  lemma ReopenedListMatches(inputs: Inputs)
    requires ValidState(inputs.state) && inputs.AllLoadable(inputs.Ids())
    ensures IdsWithStatus(inputs.ItemsOf(inputs.Ids()), Reopened) == inputs.InvalidatedIds()
  {
    BuiltItemsAreValid(inputs);
    hide ValidState, Sorted, ItemOk, Inputs.ItemsOf, Inputs.AllLoadable, ItemIds, Inputs.ItemOf, Inputs.Invalidated;
    forall id | id in inputs.state.acceptance
      ensures inputs.ItemOf(id).id == id && (inputs.ItemOf(id).graphStatus == Reopened <==> inputs.Invalidated(id))
    {
      inputs.ReopenedWhenInvalidated(id);
      ItemHasItsId(inputs, id);
    }
  }

  lemma DecisionListsMatch(h: Hashes, inputs: Inputs)
    requires Sound(h) && ValidState(inputs.state)
    ensures DecisionIdsValid(RecordIds(inputs.Records(h)))
    ensures forall r | r in inputs.Records(h) :: RecordOk(r)
    ensures FrozenIds(inputs.Records(h)) == inputs.Frozen()
  {
    var decisions := inputs.state.acceptedDecisions;
    var ids := inputs.DecisionOrder();
    var records := inputs.Records(h);
    assert RecordIds(records) == ids;
    SortedDistinct(SetOf(DecisionIds(decisions)));
    forall r | r in records ensures RecordOk(r) {
      var i :| 0 <= i < |records| && records[i] == r;
      BuiltRecordIsValid(h, inputs, ids[i]);
    }
    FrozenMatches(h, inputs);
  }

  lemma RecordIdentity(h: Hashes, inputs: Inputs, d: Decision)
    requires d in inputs.state.acceptedDecisions && Unique(DecisionIds(inputs.state.acceptedDecisions))
    ensures d.id in inputs.DecisionOrder() && d.id in DecisionIds(inputs.state.acceptedDecisions)
    ensures inputs.RecordFor(h, d.id).id == d.id && inputs.RecordFor(h, d.id).status == d.status
  {
    DecisionFound(inputs, d);
    hide FirstIndex;
  }

  lemma StateIdsAreUnique(inputs: Inputs)
    requires ValidState(inputs.state)
    ensures Unique(DecisionIds(inputs.state.acceptedDecisions))
  {
    hide ValidStrings, Unique;
    SetOfSize(DecisionIds(inputs.state.acceptedDecisions));
  }

  lemma FrozenMatches(h: Hashes, inputs: Inputs)
    requires ValidState(inputs.state)
    ensures FrozenIds(inputs.Records(h)) == inputs.Frozen()
  {
    var decisions := inputs.state.acceptedDecisions;
    var ids := inputs.DecisionOrder();
    var records := inputs.Records(h);
    StateIdsAreUnique(inputs);
    hide Sorted, ValidState, Distinct, DecisionIds, Inputs.RecordFor, Inputs.DecisionOrder, Inputs.Records, Unique;
    forall r | r in records ensures r.status == DecisionStatus.Frozen ==> r.id in inputs.Frozen() {
      var i :| 0 <= i < |records| && records[i] == r;
      RecordIdentity(h, inputs, inputs.FindDecision(ids[i]));
    }
    forall d | d in decisions && d.status == DecisionStatus.Frozen ensures d.id in FrozenIds(records) {
      RecordIdentity(h, inputs, d);
      var i :| 0 <= i < |ids| && ids[i] == d.id;
      assert records[i] in records;
    }
  }

  lemma DecisionFound(inputs: Inputs, d: Decision)
    requires d in inputs.state.acceptedDecisions && Unique(DecisionIds(inputs.state.acceptedDecisions))
    ensures d.id in DecisionIds(inputs.state.acceptedDecisions) && inputs.FindDecision(d.id) == d
  {
    var decisions := inputs.state.acceptedDecisions;
    var ids := DecisionIds(decisions);
    var i :| 0 <= i < |decisions| && decisions[i] == d;
    assert ids[i] == d.id;
    assert ids[FirstIndex(ids, d.id)] == ids[i];
  }

  /**
   * Every graph `build_graph` returns passes `validate_graph` without an error, so the validation that
   * scripts/build-acceptance-graph.py runs on its own output never fails.
   */
  lemma BuiltGraphIsValid(h: Hashes, inputs: Inputs)
    requires Sound(h) && inputs.Refusal(h).None?
    ensures GraphOk(h, GraphOf(h, inputs))
  {
    RefusalFacts(h, inputs);
    BuiltItemsAreValid(inputs);
    ReopenedListMatches(inputs);
    DecisionListsMatch(h, inputs);
    SortedDistinct(inputs.state.acceptance.Keys);
    SortedDistinct(inputs.Frozen());
    IdListsAreValid(inputs);
    HeaderIsValid(inputs);
    hide ValidState, Inputs.Refusal, Sorted, ItemOk, RecordOk, ItemIds, RecordIds, FrozenIds, IdsWithStatus;
    hide Inputs.Frozen, Inputs.InvalidatedIds, Inputs.ItemsOf, Inputs.Records, Inputs.DiffRefs, Inputs.ImpactPaths;
    hide Inputs.AllLoadable, IsDigest, ValidStrings, Distinct;
  }

  lemma HeaderIsValid(inputs: Inputs)
    requires ValidState(inputs.state)
    ensures inputs.state.taskId != "" && IsDigest(inputs.state.stateId) && inputs.state.repositoryStateHash != ""
  {
    hide ValidStrings, DecisionIdsValid;
  }

  lemma RefusalFacts(h: Hashes, inputs: Inputs)
    requires inputs.Refusal(h).None?
    ensures ValidState(inputs.state) && inputs.AllLoadable(inputs.Ids()) && inputs.Loadable(inputs.DiffRefs())
    ensures inputs.previous.Some? ==>
        GraphOk(h, inputs.previous.value) && inputs.previous.value.taskId == inputs.state.taskId
    ensures forall path | path in inputs.ImpactPaths() :: IsSafePath(path)
  {
    hide ValidState, GraphOk, IsSafePath, Inputs.AllLoadable, Inputs.Loadable, Inputs.DiffRefs, Inputs.ImpactPaths;
  }

  lemma IdListsAreValid(inputs: Inputs)
    requires ValidState(inputs.state) && inputs.Loadable(inputs.DiffRefs())
    requires forall path | path in inputs.ImpactPaths() :: IsSafePath(path)
    ensures ValidStrings(Sorted(inputs.Frozen()), false) && ValidStrings(Sorted(inputs.InvalidatedIds()), false)
    ensures ValidStrings(Sorted(inputs.ImpactPaths()), false) && ValidStrings(Sorted(inputs.DiffRefs()), true)
    ensures DecisionIdsValid(inputs.Ids())
  {
    assert "" !in inputs.ImpactPaths() by { assert !IsSafePath(""); }
    assert forall ref | ref in inputs.DiffRefs() :: IsDigest(ref) && ref != "";
    assert forall d | d in inputs.state.acceptedDecisions :: d.id != "";
    assert forall id | id in inputs.state.acceptance :: id != "";
    hide IsSafePath, IsDigest, Sorted, Inputs.DiffRefs, Inputs.ImpactPaths, Inputs.Invalidated, ValidState;
    SortedIsValid(inputs.Frozen(), false);
    SortedIsValid(inputs.InvalidatedIds(), false);
    SortedIsValid(inputs.ImpactPaths(), false);
    SortedIsValid(inputs.DiffRefs(), true);
    SortedDistinct(inputs.state.acceptance.Keys);
  }

  /**
   * `supported` is earned: the acceptance entry claims satisfaction, some evidence object supports it, none
   * contradicts it, nothing it rested on was touched, and the item carries no unverified claim.
   */
  lemma SupportedIsJustified(h: Hashes, inputs: Inputs, item: Item)
    requires inputs.Refusal(h).None? && item in GraphOf(h, inputs).items && item.graphStatus == Supported
    ensures item.id in inputs.state.acceptance && inputs.state.acceptance[item.id].status == Satisfied
    ensures exists ref | ref in item.EvidenceRefs() ::
        ref in inputs.store && AssessEvidence(inputs.store[ref]) == Supporting
    ensures forall ref | ref in item.EvidenceRefs() ::
        ref in inputs.store && AssessEvidence(inputs.store[ref]) != Contradictory
    ensures item.contradictoryRefs == [] && item.unverifiedClaims == []
    ensures !inputs.Invalidated(item.id)
  {
    RefusalFacts(h, inputs);
    BuiltItemsAreValid(inputs);
    hide ValidState, Inputs.Refusal, ItemOk, Inputs.Invalidated, Inputs.ItemsOf, ItemIds, GraphHash;
    LoadableFor(inputs, item.id);
    EvidenceIsPartitioned(inputs, item.id);
    ItemHasItsId(inputs, item.id);
    hide Item.EvidenceRefs, Inputs.ItemOf, Inputs.AllLoadable, Inputs.Refs, AssessEvidence, IsDigest, Inputs.Status;
    hide Inputs.Loadable, Inputs.Assessed;
    SupportedFacts(inputs, item.id);
  }

  lemma LoadableFor(inputs: Inputs, id: string)
    requires id in inputs.state.acceptance && inputs.AllLoadable(inputs.Ids())
    ensures inputs.Loadable(inputs.Refs(id))
  {
    hide Inputs.Loadable, Inputs.Refs, Sorted;
    assert id in inputs.Ids();
    var i :| 0 <= i < |inputs.Ids()| && inputs.Ids()[i] == id;
    LoadableAt(inputs, inputs.Ids(), i);
  }

  lemma SupportedFacts(inputs: Inputs, id: string)
    requires id in inputs.state.acceptance && inputs.Status(id) == Supported && inputs.Loadable(inputs.Refs(id))
    ensures inputs.state.acceptance[id].status == Satisfied && !inputs.Invalidated(id)
    ensures exists ref | ref in inputs.Refs(id) ::
        ref in inputs.store && AssessEvidence(inputs.store[ref]) == Supporting
    ensures forall ref | ref in inputs.Refs(id) ::
        ref in inputs.store && AssessEvidence(inputs.store[ref]) != Contradictory
    ensures inputs.ItemOf(id).unverifiedClaims == [] && inputs.ItemOf(id).contradictoryRefs == []
  {
    hide Inputs.Invalidated, AssessEvidence, Inputs.DecisionRefs, Inputs.Paths, Inputs.OfKinds;
    assert inputs.Claims(id) == {};
    var supporting, contradictory := inputs.Assessed(inputs.Refs(id), Supporting),
        inputs.Assessed(inputs.Refs(id), Contradictory);
    assert supporting != {} && contradictory == {};
    assert inputs.ItemOf(id).unverifiedClaims == [] && inputs.ItemOf(id).contradictoryRefs == [];
    var ref :| ref in supporting;
    hide Inputs.Status, Inputs.ItemOf, Inputs.Refs, Sorted;
    forall ref | ref in inputs.Refs(id) ensures AssessEvidence(inputs.store[ref]) != Contradictory {
      assert ref !in contradictory;
    }
  }

  /**
   * An item is reopened exactly when the previous graph had it as supported and one of the paths it rested on
   * overlaps an impact path; otherwise its status ignores the previous graph.
   */
  lemma ReopenedExactly(h: Hashes, inputs: Inputs, id: string)
    requires inputs.Refusal(h).None?
    ensures id in GraphOf(h, inputs).reopened <==>
            && id in inputs.state.acceptance && inputs.previous.Some?
            && exists prior, path, changed | prior in inputs.previous.value.items && path in prior.evidencePaths
                && changed in inputs.ImpactPaths() ::
                 prior.id == id && prior.graphStatus == Supported && PathsOverlap(path, changed)
  {
    RefusalFacts(h, inputs);
    ReopenedListHolds(h, inputs, id);
    hide GraphOf, Inputs.Refusal, GraphOk, ValidState, Inputs.ImpactPaths, PathsOverlap, Lookup, Inputs.Invalidated;
    hide Inputs.AllLoadable, Inputs.Loadable, IsSafePath;
    InvalidatedMeans(h, inputs, id);
  }

  lemma ReopenedListHolds(h: Hashes, inputs: Inputs, id: string)
    ensures id in GraphOf(h, inputs).reopened <==> id in inputs.InvalidatedIds()
  {
    hide Inputs.ItemsOf, Inputs.Records, Inputs.Frozen, Inputs.DiffRefs, Inputs.ImpactPaths, GraphHash;
    hide Inputs.InvalidatedIds;
  }

  lemma InvalidatedMeans(h: Hashes, inputs: Inputs, id: string)
    requires inputs.previous.Some? ==> GraphOk(h, inputs.previous.value)
    ensures inputs.Invalidated(id) <==>
            && inputs.previous.Some?
            && exists prior, path, changed | prior in inputs.previous.value.items && path in prior.evidencePaths
                && changed in inputs.ImpactPaths() ::
                 prior.id == id && prior.graphStatus == Supported && PathsOverlap(path, changed)
  {
    hide GraphOk, Inputs.ImpactPaths, PathsOverlap, Lookup;
    if inputs.previous.Some? {
      PriorItemsAreUnique(h, inputs);
    }
  }

  lemma PriorItemsAreUnique(h: Hashes, inputs: Inputs)
    requires inputs.previous.Some? && GraphOk(h, inputs.previous.value)
    ensures forall prior | prior in inputs.previous.value.items :: inputs.Prior(prior.id) == Some(prior)
  {
    var items := inputs.previous.value.items;
    SetOfSize(ItemIds(items));
    assert Unique(ItemIds(items));
    hide GraphOk, Unique, Lookup;
    forall prior | prior in items ensures inputs.Prior(prior.id) == Some(prior) {
      LookupFinds(items, prior);
    }
  }

  /**
   * A diff hunk that some acceptance item newly refers to counts as impact without the caller naming it: it
   * reopens every previously supported item that rested on an overlapping path.
   */
  lemma NewlyLinkedDiffReopens(h: Hashes, inputs: Inputs, linking: string, ref: string, prior: Item, path: string)
    requires inputs.Refusal(h).None? && inputs.previous.Some?
    requires linking in inputs.state.acceptance && ref in inputs.state.acceptance[linking].evidenceRefs
    requires forall item | item in inputs.previous.value.items :: ref !in item.EvidenceRefs()
    requires ref in inputs.store && inputs.store[ref].kind == DiffHunk && inputs.store[ref].path != ""
    requires prior in inputs.previous.value.items && prior.graphStatus == Supported
        && prior.id in inputs.state.acceptance
    requires path in prior.evidencePaths && PathsOverlap(path, inputs.store[ref].path)
    ensures prior.id in GraphOf(h, inputs).reopened
    ensures inputs.store[ref].path in GraphOf(h, inputs).changedPaths
  {
    hide PathsOverlap, Inputs.Refusal;
    assert ref in inputs.DiffRefs();
    assert inputs.store[ref].path in inputs.ImpactPaths();
    hide Inputs.ImpactPaths, Inputs.DiffRefs;
    ReopenedExactly(h, inputs, prior.id);
  }
}
