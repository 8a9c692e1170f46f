/** `build_graph` of scripts/acceptance_graph.py. */
module GraphBuilder {
  import opened Wrappers
  import opened Strings
  import opened Ordering
  import opened AcceptanceGraph

  /** `_paths_overlap` */
  predicate PathsOverlap(left: string, right: string) {
    var l, r := Normalised(left), Normalised(right);
    l == r || r + "/" <= l || l + "/" <= r
  }

  function Normalised(path: string): string {
    RStripChar(ReplaceChar(path, '\\', '/'), '/')
  }

  function Components(path: string): seq<string> {
    Split(Normalised(path), '/')
  }

  /** Two paths overlap exactly when one names an ancestor of the other, component by component. */
  lemma PathsOverlapIsAncestry(left: string, right: string)
    ensures PathsOverlap(left, right) <==>
            Components(left) <= Components(right) || Components(right) <= Components(left)
  {
    PrefixIsAncestry(Normalised(left), Normalised(right), '/');
    PrefixIsAncestry(Normalised(right), Normalised(left), '/');
  }

  /** `is_safe_repo_path_pattern` */
  predicate IsSafePath(path: string) {
    var normalized := ReplaceChar(path, '\\', '/');
    && path != ""
    && !("/" <= normalized)
    && !(|normalized| >= 3 && IsLetter(normalized[0]) && normalized[1] == ':' && normalized[2] == '/')
    && ".." !in Split(normalized, '/')
  }

  predicate IsLetter(c: char) {
    'A' <= c <= 'Z' || 'a' <= c <= 'z'
  }

  /** The last item with an id, as the dictionary built from the list holds it. */
  function Lookup(items: seq<Item>, id: string): (r: Option<Item>)
    ensures r.Some? ==> r.value in items && r.value.id == id
    ensures r.None? ==> forall item | item in items :: item.id != id
  {
    if items == [] then None
    else
      var last := items[|items| - 1];
      if last.id == id then Some(last) else Lookup(items[..|items| - 1], id)
  }

  /** With unique ids the dictionary finds each item under its own id. */
  lemma {:induction false} LookupFinds(items: seq<Item>, item: Item)
    requires item in items && Unique(ItemIds(items))
    ensures Lookup(items, item.id) == Some(item)
  {
    var last := |items| - 1;
    if items[last] != item {
      assert item in items[..last] by {
        var i :| 0 <= i < |items| && items[i] == item;
        assert items[..last][i] == item;
      }
      assert items[last].id != item.id by {
        var i :| 0 <= i < |items| && items[i] == item;
        assert ItemIds(items)[i] != ItemIds(items)[last];
      }
      assert Unique(ItemIds(items[..last])) by {
        assert ItemIds(items[..last]) == ItemIds(items)[..last];
      }
      LookupFinds(items[..last], item);
    }
  }

  datatype Inputs = Inputs(
    state: WorkflowState, store: Store, previous: Option<Graph>, newDiffRefs: seq<string>, changedPaths: seq<string>)
  {
    function PriorRefs(): set<string> {
      match previous
      case None => {}
      case Some(g) => set item, ref | item in g.items && ref in item.EvidenceRefs() :: ref
    }

    function AcceptanceRefs(): set<string> {
      set id, ref | id in state.acceptance && ref in state.acceptance[id].evidenceRefs :: ref
    }

    function NewlyLinked(): set<string> {
      AcceptanceRefs() - PriorRefs()
    }

    /** Diff hunks an acceptance item newly refers to, and the ones the caller names. */
    function DiffRefs(): set<string> {
      SetOf(newDiffRefs) + OfKinds(NewlyLinked(), {DiffHunk})
    }

    function ImpactPaths(): set<string> {
      SetOf(changedPaths) + Paths(DiffRefs())
    }

    predicate Loadable(refs: set<string>) {
      forall ref | ref in refs :: IsDigest(ref) && ref in store
    }

    function OfKinds(refs: set<string>, kinds: set<Kind>): set<string> {
      set ref | ref in refs && ref in store && store[ref].kind in kinds
    }

    function Assessed(refs: set<string>, assessment: Assessment): set<string> {
      set ref | ref in refs && ref in store && AssessEvidence(store[ref]) == assessment
    }

    function Paths(refs: set<string>): set<string> {
      set ref | ref in refs && ref in store && store[ref].path != "" :: store[ref].path
    }

    function Prior(id: string): Option<Item> {
      if previous.None? then None else Lookup(previous.value.items, id)
    }

    /** A previously supported item is invalidated when a path it rested on is touched. */
    predicate Invalidated(id: string) {
      var prior := Prior(id);
      && prior.Some? && prior.value.graphStatus == Supported
      && exists path, changed | path in prior.value.evidencePaths && changed in ImpactPaths() ::
           PathsOverlap(path, changed)
    }

    function Refs(id: string): set<string>
      requires id in state.acceptance
    {
      SetOf(state.acceptance[id].evidenceRefs)
    }

    function Status(id: string): GraphStatus
      requires id in state.acceptance
    {
      if Invalidated(id) then Reopened
      else if Assessed(Refs(id), Contradictory) != {} then Contradicted
      else if state.acceptance[id].status == Satisfied && Assessed(Refs(id), Supporting) != {} then Supported
      else Unsupported
    }

    function Claims(id: string): set<string>
      requires id in state.acceptance
    {
      var satisfied := state.acceptance[id].status == Satisfied;
      var unsupported := Assessed(Refs(id), Supporting) == {};
      (if satisfied && Refs(id) == {} then {"satisfied-without-immutable-evidence"} else {})
      + (if satisfied && unsupported then {"no-deterministic-or-semantic-support"} else {})
      + (if Assessed(Refs(id), LexicalCandidate) != {} && unsupported
         then {"bounded-lexical-candidate-cannot-satisfy-acceptance"} else {})
      + (if Assessed(Refs(id), Contradictory) != {} then {"contradictory-evidence-present"} else {})
      + (if Invalidated(id) then {"accepted-evidence-path-changed"} else {})
    }

    function DecisionRefs(id: string): set<string>
      requires id in state.acceptance
    {
      set d | d in state.acceptedDecisions && SetOf(d.evidenceRefs) * Refs(id) != {} :: d.id
    }

    function ItemOf(id: string): Item
      requires id in state.acceptance
    {
      var source := state.acceptance[id];
      var implementation := OfKinds(Refs(id), {DiffHunk});
      var tests := OfKinds(Refs(id), {TestDefinition});
      var results := OfKinds(Refs(id), {TestResult, CompilerError, RuntimeError});
      Item(id, source.description, source.status, Status(id),
           Sorted(DecisionRefs(id)), Sorted(implementation), Sorted(tests), Sorted(results),
           Sorted(Refs(id) - (implementation + tests + results)),
           Sorted(Assessed(Refs(id), Contradictory)), Sorted(Paths(Refs(id))), Sorted(Claims(id)))
    }

    lemma ReopenedWhenInvalidated(id: string)
      requires id in state.acceptance
      ensures ItemOf(id).graphStatus == Reopened <==> Invalidated(id)
    {
      hide Invalidated, Assessed, OfKinds, Paths, Claims, DecisionRefs, Sorted, Refs;
    }

    function Ids(): (ids: seq<string>)
      ensures forall id | id in ids :: id in state.acceptance
    {
      Sorted(state.acceptance.Keys)
    }

    function ItemsOf(ids: seq<string>): (items: seq<Item>)
      requires forall id | id in ids :: id in state.acceptance
      ensures |items| == |ids|
    {
      if ids == [] then []
      else ItemsOf(ids[..|ids| - 1]) + [ItemOf(ids[|ids| - 1])]
    }

    predicate AllLoadable(ids: seq<string>)
      requires forall id | id in ids :: id in state.acceptance
    {
      ids == [] || (AllLoadable(ids[..|ids| - 1]) && Loadable(Refs(ids[|ids| - 1])))
    }

    /** The decision with a given id; ids are unique in a valid Workflow State. */
    function FindDecision(id: string): (d: Decision)
      requires id in DecisionIds(state.acceptedDecisions)
      ensures d in state.acceptedDecisions && d.id == id
    {
      var i := FirstIndex(DecisionIds(state.acceptedDecisions), id);
      state.acceptedDecisions[i]
    }

    function RecordFor(h: Hashes, id: string): DecisionRecord
      requires id in DecisionIds(state.acceptedDecisions)
    {
      var d := FindDecision(id);
      DecisionRecord(d.id, d.status, Sorted(SetOf(d.evidenceRefs)), h.decision(d))
    }

    function DecisionOrder(): (ids: seq<string>)
      ensures forall i | 0 <= i < |ids| :: ids[i] in DecisionIds(state.acceptedDecisions)
    {
      var ids := Sorted(SetOf(DecisionIds(state.acceptedDecisions)));
      assert forall i | 0 <= i < |ids| :: ids[i] in ids;
      ids
    }

    /** One record for each decision, in the order of their ids. */
    function Records(h: Hashes): (records: seq<DecisionRecord>)
      ensures |records| == |DecisionOrder()|
      ensures forall i | 0 <= i < |records| :: records[i] == RecordFor(h, DecisionOrder()[i])
    {
      var ids := DecisionOrder();
      seq(|ids|, i requires 0 <= i < |ids| => RecordFor(h, ids[i]))
    }

    function Frozen(): set<string> {
      set d | d in state.acceptedDecisions && d.status == DecisionStatus.Frozen :: d.id
    }

    function InvalidatedIds(): set<string> {
      set id | id in state.acceptance && Invalidated(id)
    }

    /** The graph before its own id is computed. */
    function Draft(h: Hashes): Graph {
      Graph(1, "", state.stateId, state.repositoryStateHash, state.taskId, ItemsOf(Ids()), Records(h),
            Sorted(Frozen()), Sorted(DiffRefs()), Sorted(ImpactPaths()), Sorted(InvalidatedIds()))
    }

    /** Why `build_graph` raises, in the order of its checks. */
    function Refusal(h: Hashes): Option<BuildError> {
      if !ValidState(state) then Some(InvalidState)
      else if previous.Some? && !GraphOk(h, previous.value) then Some(InvalidPrevious)
      else if previous.Some? && previous.value.taskId != state.taskId then Some(DifferentTask)
      else if !Loadable(NewlyLinked()) then Some(UnloadableEvidence)
      else if !Loadable(DiffRefs()) then Some(UnloadableEvidence)
      else if exists ref | ref in DiffRefs() :: store[ref].kind != DiffHunk then Some(NotADiffHunk)
      else if exists path | path in ImpactPaths() :: !IsSafePath(path) then Some(UnsafePath)
      else if !AllLoadable(Ids()) then Some(UnloadableEvidence)
      else None
    }
  }

  datatype BuildError =
    | InvalidState | InvalidPrevious | DifferentTask | UnloadableEvidence | NotADiffHunk | UnsafePath

  function FirstIndex(xs: seq<string>, x: string): (i: nat)
    requires x in xs
    ensures i < |xs| && xs[i] == x && x !in xs[..i]
  {
    if xs[0] == x then 0 else 1 + FirstIndex(xs[1..], x)
  }

  /** The graph `build_graph` returns when it does not raise. */
  function GraphOf(h: Hashes, inputs: Inputs): Graph {
    var draft := inputs.Draft(h);
    draft.(graphId := GraphHash(h, draft))
  }

  /** The loop of `build_graph` over the acceptance ids; `None` when evidence cannot be loaded. */
  method BuildItems(inputs: Inputs) returns (loaded: bool, items: seq<Item>, reopened: seq<string>)
    ensures loaded <==> inputs.AllLoadable(inputs.Ids())
    ensures loaded ==> items == inputs.ItemsOf(inputs.Ids()) && reopened == Sorted(inputs.InvalidatedIds())
  {
    hide Inputs.ItemOf, Inputs.Invalidated, Inputs.Loadable, Inputs.Refs, Sorted;
    var ids := inputs.Ids();
    ghost var invalidated := (id: string) => inputs.Invalidated(id);
    items, reopened := [], [];
    loaded := true;
    for index := 0 to |ids|
      invariant items == inputs.ItemsOf(ids[..index])
      invariant loaded == inputs.AllLoadable(ids[..index])
      invariant reopened == Filter(ids[..index], invalidated)
    {
      var id := ids[index];
      assert ids[..index + 1][..index] == ids[..index];
      if !inputs.Loadable(inputs.Refs(id)) { loaded := false; }
      var item := inputs.ItemOf(id);
      inputs.ReopenedWhenInvalidated(id);
      if item.graphStatus == Reopened { reopened := reopened + [id]; }
      items := items + [item];
    }
    assert ids[..|ids|] == ids;
    SortedAscends(inputs.state.acceptance.Keys);
    FilterSorted(ids, invalidated);
    SortedAscends(inputs.InvalidatedIds());
    SortedUnique(reopened, Sorted(inputs.InvalidatedIds()));
  }

  /**
   * `build_graph`. A valid Workflow State registers all the evidence its acceptance items name, so the check
   * that repeats this inside the loop of the script cannot fire and is not written out.
   */
  method BuildGraph(h: Hashes, inputs: Inputs) returns (r: Result<Graph, BuildError>)
    ensures r == (match inputs.Refusal(h) case None => Ok(GraphOf(h, inputs)) case Some(e) => Err(e))
  {
    hide GraphOk, ValidState, Sorted, Inputs.ImpactPaths, Inputs.ItemsOf, Inputs.AllLoadable;
    hide Inputs.Records, Inputs.Frozen, Inputs.InvalidatedIds, Inputs.DiffRefs, Inputs.NewlyLinked, IsSafePath;
    if !ValidState(inputs.state) { return Err(InvalidState); }
    if inputs.previous.Some? {
      var errors := ValidateGraph(h, inputs.previous.value);
      if errors != [] { return Err(InvalidPrevious); }
      if inputs.previous.value.taskId != inputs.state.taskId { return Err(DifferentTask); }
    }
    if !inputs.Loadable(inputs.NewlyLinked()) || !inputs.Loadable(inputs.DiffRefs()) {
      return Err(UnloadableEvidence);
    }
    if exists ref | ref in inputs.DiffRefs() :: inputs.store[ref].kind != DiffHunk { return Err(NotADiffHunk); }
    if exists path | path in inputs.ImpactPaths() :: !IsSafePath(path) { return Err(UnsafePath); }
    var loaded, items, reopened := BuildItems(inputs);
    if !loaded { return Err(UnloadableEvidence); }
    var graph := Graph(1, "", inputs.state.stateId, inputs.state.repositoryStateHash, inputs.state.taskId, items,
                       inputs.Records(h), Sorted(inputs.Frozen()), Sorted(inputs.DiffRefs()),
                       Sorted(inputs.ImpactPaths()), reopened);
    assert graph == inputs.Draft(h);
    r := Ok(graph.(graphId := GraphHash(h, graph)));
  }
}
