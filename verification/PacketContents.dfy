/** What a delta packet of scripts/acceptance_graph.py holds and omits, in terms of the graphs and the receipt. */
module PacketContents {
  import opened Wrappers
  import opened Strings
  import opened Ordering
  import opened AcceptanceGraph
  import opened GraphBuilder
  import opened DeltaReview
  import opened ReviewRounds
  import opened Selections

  /** The reviewer asked to see the item again. */
  predicate AskedAgain(inputs: PacketInputs, id: string) {
    inputs.receipt.Some? && (id in inputs.receipt.value.conditional || id in inputs.receipt.value.rejected)
  }

  /** The very same item was in the previous graph and was accepted. */
  predicate AlreadyAccepted(inputs: PacketInputs, item: Item) {
    && inputs.previous.Some? && item in inputs.previous.value.items
    && inputs.receipt.Some? && item.id in inputs.receipt.value.accepted
  }

  /** What the reviewer has to see: in revision mode what fails or was asked for again, in review mode everything else
      as well that was not accepted just as it is. */
  predicate MustShow(inputs: PacketInputs, item: Item) {
    || item.graphStatus != Supported || AskedAgain(inputs, item.id)
    || (inputs.mode == Review && !AlreadyAccepted(inputs, item))
  }

  lemma IncludesMustShow(h: ReviewHashes, inputs: PacketInputs, item: Item)
    requires SoundReview(h) && inputs.Refusal(h).None?
    ensures inputs.Includes(h.graph, item) <==> MustShow(inputs, item)
  {
    ModeIsKnown(h, inputs);
    PriorItem(h, inputs, item);
    hide PacketInputs.Refusal, PacketInputs.Prior;
    IncludesWhen(h.graph, inputs, item);
  }

  lemma IncludesWhen(h: Hashes, inputs: PacketInputs, item: Item)
    requires Sound(h) && !inputs.mode.Other?
    ensures var accepted := inputs.receipt.Some? && item.id in inputs.receipt.value.accepted;
            inputs.Includes(h, item) <==>
            || item.graphStatus != Supported || AskedAgain(inputs, item.id)
            || (inputs.mode == Review && !(inputs.Prior(item.id) == Some(item) && accepted))
  {
    hide PacketInputs.Prior, IsDigest;
  }

  /** The previous graph holds the item exactly when it finds it unchanged under its id. */
  lemma PriorItem(h: ReviewHashes, inputs: PacketInputs, item: Item)
    requires inputs.Refusal(h).None?
    ensures inputs.previous.Some? && item in inputs.previous.value.items <==> inputs.Prior(item.id) == Some(item)
  {
    if inputs.previous.Some? {
      PriorGraphIsValid(h, inputs);
      SetOfSize(ItemIds(inputs.previous.value.items));
      UniqueItems(h.graph, inputs.previous.value);
      hide GraphOk, Lookup, PacketInputs.Refusal, ItemIds;
      if item in inputs.previous.value.items { LookupFinds(inputs.previous.value.items, item); }
    }
  }

  lemma UniqueItems(h: Hashes, g: Graph)
    requires GraphOk(h, g)
    ensures Unique(ItemIds(g.items)) && Unique(RecordIds(g.decisions))
  {
    SetOfSize(ItemIds(g.items));
    SetOfSize(RecordIds(g.decisions));
    hide Unique, ValidStrings, IsDigest, ItemIds, RecordIds;
  }

  function ShownIn(inputs: PacketInputs): Item -> bool {
    item => MustShow(inputs, item)
  }

  lemma {:induction false} SelectedListed(h: ReviewHashes, inputs: PacketInputs, items: seq<Item>)
    requires SoundReview(h) && inputs.Refusal(h).None?
    ensures Lists(inputs.Selected(h.graph, items), items, ShownIn(inputs))
  {
    hide Lists, MustShow, PacketInputs.Refusal, PacketInputs.Includes;
    if items == [] {
      NothingListed(ShownIn(inputs));
    } else {
      var front, last := items[..|items| - 1], items[|items| - 1];
      SelectedListed(h, inputs, front);
      IncludesMustShow(h, inputs, last);
      ListsSnoc(inputs.Selected(h.graph, front), front, ShownIn(inputs), last);
      assert front + [last] == items;
    }
  }

  /**
   * A packet shows, in the order of the graph, exactly the items that the reviewer has to see, and omits exactly the
   * others; for every mode, previous graph and receipt that the builder accepts.
   */
  lemma ShowsExactly(h: ReviewHashes, inputs: PacketInputs)
    requires SoundReview(h) && inputs.Refusal(h).None?
    ensures var p := PacketOf(h, inputs);
            && Lists(p.items, inputs.graph.items, ShownIn(inputs))
            && forall id :: id in p.omitted <==>
                 exists item | item in inputs.graph.items :: item.id == id && !MustShow(inputs, item)
  {
    PacketContents(h, inputs);
    SelectedListed(h, inputs, inputs.graph.items);
    OmittedMembers(inputs, h.graph, inputs.graph.items);
    forall item ensures inputs.Includes(h.graph, item) <==> MustShow(inputs, item) {
      IncludesMustShow(h, inputs, item);
    }
    hide Lists, MustShow, PacketInputs.Refusal, PacketInputs.Includes, PacketOf, PacketInputs.Selected;
    hide PacketInputs.Omitted;
  }

  /** In revision mode an item is omitted exactly when it is supported and the reviewer neither conditioned nor
      rejected it. */
  lemma RevisionOmitsExactly(h: ReviewHashes, inputs: PacketInputs, id: string)
    requires SoundReview(h) && inputs.Refusal(h).None? && inputs.mode == Revision
    ensures id in PacketOf(h, inputs).omitted <==>
            && (exists item | item in inputs.graph.items :: item.id == id && item.graphStatus == Supported)
            && !(inputs.receipt.Some?
                 && (id in inputs.receipt.value.conditional || id in inputs.receipt.value.rejected))
  {
    ShowsExactly(h, inputs);
    hide PacketInputs.Refusal, PacketOf, Lists;
  }

  /** In review mode it is omitted exactly when it is supported, the very same in the previous graph,
      accepted there, and
      neither conditioned nor rejected. */
  lemma ReviewOmitsExactly(h: ReviewHashes, inputs: PacketInputs, id: string)
    requires SoundReview(h) && inputs.Refusal(h).None? && inputs.mode == Review
    ensures id in PacketOf(h, inputs).omitted <==>
            && inputs.previous.Some? && inputs.receipt.Some? && id in inputs.receipt.value.accepted
            && id !in inputs.receipt.value.conditional && id !in inputs.receipt.value.rejected
            && exists item | item in inputs.graph.items ::
                 item.id == id && item.graphStatus == Supported && item in inputs.previous.value.items
  {
    ShowsExactly(h, inputs);
    hide PacketInputs.Refusal, PacketOf, Lists;
  }

  // ----- The other lists --------------------------------------------------------------------------------------------

  lemma {:induction false} HashFound(records: seq<DecisionRecord>, r: DecisionRecord)
    requires r in records && Unique(RecordIds(records))
    ensures HashOf(records, r.id) == Some(r.decisionHash)
  {
    var last := |records| - 1;
    if records[last] != r {
      var i :| 0 <= i < |records| && records[i] == r;
      assert RecordIds(records)[i] != RecordIds(records)[last];
      assert RecordIds(records[..last]) == RecordIds(records)[..last];
      assert records[..last][i] == r;
      HashFound(records[..last], r);
    }
  }

  lemma {:induction false} HashMissing(records: seq<DecisionRecord>, id: string)
    requires forall r | r in records :: r.id != id
    ensures HashOf(records, id) == None
  {
    if records != [] {
      assert records[|records| - 1] in records;
      HashMissing(records[..|records| - 1], id);
    }
  }

  /** A decision of a graph with some id and digest. */
  predicate Decided(records: seq<DecisionRecord>, id: string, digest: string) {
    exists r | r in records :: r.id == id && r.decisionHash == digest
  }

  lemma HashExactly(records: seq<DecisionRecord>, id: string)
    requires Unique(RecordIds(records))
    ensures id in SetOf(RecordIds(records)) <==> exists r | r in records :: r.id == id
    ensures forall digest :: HashOf(records, id) == Some(digest) <==> Decided(records, id, digest)
  {
    var ids := RecordIds(records);
    if r :| r in records && r.id == id {
      HashFound(records, r);
      var i :| 0 <= i < |records| && records[i] == r;
      assert ids[i] == id;
      forall s | s in records && s.id == id ensures s == r {
        HashFound(records, s);
        var j :| 0 <= j < |records| && records[j] == s;
        assert ids[j] == ids[i];
      }
    } else {
      HashMissing(records, id);
    }
  }

  /** A decision counts as changed exactly when one of the graphs has it under a digest that the other has not. */
  lemma ChangedExactly(current: seq<DecisionRecord>, prior: seq<DecisionRecord>, id: string)
    requires Unique(RecordIds(current)) && Unique(RecordIds(prior))
    ensures id in ChangedDecisions(current, prior) <==>
            exists digest :: Decided(current, id, digest) != Decided(prior, id, digest)
  {
    HashExactly(current, id);
    HashExactly(prior, id);
    hide RecordIds, Unique, HashOf, Decided;
    var (a, b) := (HashOf(current, id), HashOf(prior, id));
    if a != b {
      if a.Some? {
        assert Decided(current, id, a.value) != Decided(prior, id, a.value);
      } else {
        assert Decided(current, id, b.value) != Decided(prior, id, b.value);
      }
    }
    DecidedNamed(current, id);
    DecidedNamed(prior, id);
  }

  lemma DecidedNamed(records: seq<DecisionRecord>, id: string)
    ensures (exists digest :: Decided(records, id, digest)) <==> exists r | r in records :: r.id == id
  {
    if r :| r in records && r.id == id { assert Decided(records, id, r.decisionHash); }
  }

  /**
   * The lists that come with the items of a packet,
       each sorted and without repeats: by status among the items it shows,
   * the contradictions in these, the decisions whose digests differ, and the diff hunks and tests the previous graph
   * does not name.
   */
  lemma ListsExactly(h: ReviewHashes, inputs: PacketInputs)
    requires inputs.Refusal(h).None?
    ensures var (p, graph) := (PacketOf(h, inputs), inputs.graph);
            var before := if inputs.previous.Some? then inputs.previous.value.items else [];
            && p.schemaVersion == 1 && p.mode == inputs.mode && p.stateId == graph.stateId && p.graphId == graph.graphId
            && (forall id :: id in p.unsupported <==>
                  exists item | item in p.items :: item.id == id && item.graphStatus == Unsupported)
            && (forall id :: id in p.reopened <==>
                  exists item | item in p.items :: item.id == id && item.graphStatus == Reopened)
            && (forall ref :: ref in p.contradictory <==>
                  exists item | item in p.items :: ref in item.contradictoryRefs)
            && (forall ref :: ref in p.newDiffRefs <==>
                  ref in graph.newDiffRefs && !(inputs.previous.Some? && ref in inputs.previous.value.newDiffRefs))
            && (forall ref :: ref in p.newTestRefs <==>
                  && (exists item | item in graph.items :: ref in item.testRefs || ref in item.resultRefs)
                  && !(exists item | item in before :: ref in item.testRefs || ref in item.resultRefs))
  {
    PacketShape(h, inputs);
    hide PacketOf, PacketInputs.Refusal, Sorted, PacketInputs.Omitted, ChangedDecisions, HashOf;
    TestRefsAre(inputs.graph.items);
    if inputs.previous.Some? { TestRefsAre(inputs.previous.value.items); }
    hide TestRefs;
  }

  lemma TestRefsAre(items: seq<Item>)
    ensures forall ref :: ref in TestRefs(items) <==>
                            exists item | item in items :: ref in item.testRefs || ref in item.resultRefs
  {
    forall ref | ref in TestRefs(items) ensures exists item | item in items :: ref in item.testRefs + item.resultRefs {}
    forall ref, item | item in items && (ref in item.testRefs || ref in item.resultRefs)
      ensures ref in TestRefs(items)
    {
      assert ref in item.testRefs + item.resultRefs;
    }
  }

  lemma DecisionListExactly(h: ReviewHashes, inputs: PacketInputs, id: string)
    requires inputs.Refusal(h).None?
    ensures var before := if inputs.previous.Some? then inputs.previous.value.decisions else [];
            id in PacketOf(h, inputs).changedDecisions <==>
            exists digest :: Decided(inputs.graph.decisions, id, digest) != Decided(before, id, digest)
  {
    PacketShape(h, inputs);
    GraphIdsAreUnique(h, inputs);
    UniqueItems(h.graph, inputs.graph);
    if inputs.previous.Some? {
      PriorGraphIsValid(h, inputs);
      UniqueItems(h.graph, inputs.previous.value);
    }
    hide PacketOf, PacketInputs.Refusal, Sorted, PacketInputs.Omitted, ChangedDecisions, HashOf, GraphOk, Decided;
    hide ItemIds;
    assert Unique(RecordIds(inputs.PriorDecisions())) by { assert RecordIds([]) == []; }
    ChangedExactly(inputs.graph.decisions, inputs.PriorDecisions(), id);
  }

  lemma PacketIsSorted(h: ReviewHashes, inputs: PacketInputs)
    ensures var p := PacketOf(h, inputs);
            && Sorts(p.unsupported) && Sorts(p.reopened) && Sorts(p.contradictory) && Sorts(p.changedDecisions)
            && Sorts(p.newDiffRefs) && Sorts(p.newTestRefs) && Sorts(p.omitted)
  {
    PacketShape(h, inputs);
    hide PacketOf, Sorted, Sorts, PacketInputs.Omitted, ChangedDecisions, IdsWithStatus, ContradictoryRefs, TestRefs;
    hide PacketInputs.PriorDiffRefs, PacketInputs.PriorTestRefs, SetOf;
    forall s ensures Sorts(Sorted(s)) { SortedSorts(s); }
  }

  /** What the builder refuses, and with which error: the first demand that is not met. */
  lemma RefusesExactly(h: ReviewHashes, inputs: PacketInputs)
    ensures var r := inputs.Refusal(h);
            var graphs := GraphOk(h.graph, inputs.graph) && inputs.mode in {Review, Revision};
            var (previous, receipt) := (inputs.previous, inputs.receipt);
            var prior := previous.None? || (GraphOk(h.graph, previous.value)
                                            && previous.value.taskId == inputs.graph.taskId);
            && (r == Some(PacketError.InvalidGraph) <==> !GraphOk(h.graph, inputs.graph))
            && (r == Some(BadMode) <==> GraphOk(h.graph, inputs.graph) && inputs.mode !in {Review, Revision})
            && (r == Some(PacketError.InvalidPrevious) <==>
                  graphs && previous.Some? && !GraphOk(h.graph, previous.value))
            && (r == Some(PacketError.DifferentTask) <==>
                  graphs && previous.Some? && GraphOk(h.graph, previous.value)
                  && previous.value.taskId != inputs.graph.taskId)
            && (r == Some(ReceiptWithoutPrevious) <==> graphs && previous.None? && receipt.Some?)
            && (r == Some(InvalidReceipt) <==>
                  graphs && prior && previous.Some? && receipt.Some?
                  && !ReceiptOk(h, receipt.value, previous.value, None))
            && (r == None <==>
                  && graphs && prior
                  && (receipt.None? || (previous.Some? && ReceiptOk(h, receipt.value, previous.value, None))))
  {
    hide GraphOk, ReceiptOk;
  }
}
