/** `build_delta_packet` of scripts/acceptance_graph.py, and review rounds that follow one another. */
module ReviewRounds {
  import opened Wrappers
  import opened Strings
  import opened Ordering
  import opened AcceptanceGraph
  import opened GraphBuilder
  import opened DeltaReview

  datatype PacketError =
    | InvalidGraph | BadMode | InvalidPrevious | DifferentTask | ReceiptWithoutPrevious | InvalidReceipt

  function HashOf(records: seq<DecisionRecord>, id: string): Option<string> {
    if records == [] then None
    else if records[|records| - 1].id == id then Some(records[|records| - 1].decisionHash)
    else HashOf(records[..|records| - 1], id)
  }

  /** `_changed_decision_ids` */
  function ChangedDecisions(current: seq<DecisionRecord>, prior: seq<DecisionRecord>): set<string> {
    set id | id in SetOf(RecordIds(current)) + SetOf(RecordIds(prior)) && HashOf(current, id) != HashOf(prior, id)
  }

  datatype PacketInputs = PacketInputs(graph: Graph, previous: Option<Graph>, receipt: Option<Receipt>, mode: Mode)
  {
    function Accepted(): set<string> {
      if receipt.Some? then SetOf(receipt.value.accepted) else {}
    }

    function Retry(): set<string> {
      if receipt.Some? then SetOf(receipt.value.conditional) + SetOf(receipt.value.rejected) else {}
    }

    function Prior(id: string): Option<Item> {
      if previous.None? then None else Lookup(previous.value.items, id)
    }

    /** Whether an item goes into the packet; a change shows in its fingerprint. */
    predicate Includes(h: Hashes, item: Item) {
      var failing := item.graphStatus != Supported;
      var changed := Prior(item.id).None? || h.item(Prior(item.id).value) != h.item(item);
      if mode == Revision then failing || item.id in Retry()
      else failing || changed || item.id !in Accepted() || item.id in Retry()
    }

    function Selected(h: Hashes, items: seq<Item>): seq<Item> {
      if items == [] then []
      else
        var last := items[|items| - 1];
        Selected(h, items[..|items| - 1]) + (if Includes(h, last) then [last] else [])
    }

    function Omitted(h: Hashes, items: seq<Item>): seq<string> {
      if items == [] then []
      else
        var last := items[|items| - 1];
        Omitted(h, items[..|items| - 1]) + (if Includes(h, last) then [] else [last.id])
    }

    function PriorDiffRefs(): set<string> {
      if previous.Some? then SetOf(previous.value.newDiffRefs) else {}
    }

    function PriorTestRefs(): set<string> {
      if previous.Some? then TestRefs(previous.value.items) else {}
    }

    function PriorDecisions(): seq<DecisionRecord> {
      if previous.Some? then previous.value.decisions else []
    }

    function Draft(h: Hashes): Packet {
      var selected := Selected(h, graph.items);
      Packet(1, "", mode, graph.stateId, graph.graphId, selected,
             Sorted(IdsWithStatus(selected, Unsupported)), Sorted(ContradictoryRefs(selected)),
             Sorted(IdsWithStatus(selected, Reopened)), Sorted(ChangedDecisions(graph.decisions, PriorDecisions())),
             Sorted(SetOf(graph.newDiffRefs) - PriorDiffRefs()), Sorted(TestRefs(graph.items) - PriorTestRefs()),
             Sorted(SetOf(Omitted(h, graph.items))))
    }

    /** Why `build_delta_packet` raises, in the order of its checks. */
    function Refusal(h: ReviewHashes): Option<PacketError> {
      if !GraphOk(h.graph, graph) then Some(PacketError.InvalidGraph)
      else if mode.Other? then Some(BadMode)
      else if previous.Some? && !GraphOk(h.graph, previous.value) then Some(PacketError.InvalidPrevious)
      else if previous.Some? && previous.value.taskId != graph.taskId then Some(PacketError.DifferentTask)
      else if receipt.Some? && previous.None? then Some(ReceiptWithoutPrevious)
      else if receipt.Some? && !ReceiptOk(h, receipt.value, previous.value, None) then Some(InvalidReceipt)
      else None
    }
  }

  /** The packet `build_delta_packet` returns when it does not raise. */
  function PacketOf(h: ReviewHashes, inputs: PacketInputs): Packet {
    var draft := inputs.Draft(h.graph);
    draft.(packetId := PacketHash(h, draft))
  }

  method BuildDeltaPacket(h: ReviewHashes, inputs: PacketInputs) returns (r: Result<Packet, PacketError>)
    ensures r == match inputs.Refusal(h) case None => Ok(PacketOf(h, inputs)) case Some(e) => Err(e)
  {
    hide GraphOk, ReceiptOk, Sorted, PacketHash, IdsWithStatus, ContradictoryRefs, TestRefs, ChangedDecisions;
    hide PacketInputs.Includes, PacketInputs.PriorDiffRefs, PacketInputs.PriorTestRefs, PacketInputs.PriorDecisions;
    var errors := ValidateGraph(h.graph, inputs.graph);
    if errors != [] { return Err(PacketError.InvalidGraph); }
    if inputs.mode.Other? { return Err(BadMode); }
    if inputs.previous.Some? {
      var previousErrors := ValidateGraph(h.graph, inputs.previous.value);
      if previousErrors != [] { return Err(PacketError.InvalidPrevious); }
      if inputs.previous.value.taskId != inputs.graph.taskId { return Err(PacketError.DifferentTask); }
    }
    if inputs.receipt.Some? {
      if inputs.previous.None? { return Err(ReceiptWithoutPrevious); }
      var receiptErrors := ValidateReceipt(h, inputs.receipt.value, inputs.previous.value, None);
      if receiptErrors != [] { return Err(InvalidReceipt); }
    }
    var items := inputs.graph.items;
    var selected: seq<Item>, omitted: seq<string> := [], [];
    for index := 0 to |items|
      invariant selected == inputs.Selected(h.graph, items[..index])
      invariant omitted == inputs.Omitted(h.graph, items[..index])
    {
      assert items[..index + 1][..index] == items[..index];
      if inputs.Includes(h.graph, items[index]) {
        selected := selected + [items[index]];
      } else {
        omitted := omitted + [items[index].id];
      }
    }
    assert items[..|items|] == items;
    var packet := Packet(
      1, "", inputs.mode, inputs.graph.stateId, inputs.graph.graphId, selected,
      Sorted(IdsWithStatus(selected, Unsupported)), Sorted(ContradictoryRefs(selected)),
      Sorted(IdsWithStatus(selected, Reopened)),
      Sorted(ChangedDecisions(inputs.graph.decisions, inputs.PriorDecisions())),
      Sorted(SetOf(inputs.graph.newDiffRefs) - inputs.PriorDiffRefs()),
      Sorted(TestRefs(items) - inputs.PriorTestRefs()), Sorted(SetOf(omitted)));
    r := Ok(packet.(packetId := PacketHash(h, packet)));
  }

  // ----- Packets are valid and partition the graph ---------------------------------------------------------

  lemma {:induction false} SelectionSplits(inputs: PacketInputs, h: Hashes, items: seq<Item>)
    requires Unique(ItemIds(items))
    ensures forall item :: item in inputs.Selected(h, items) <==> item in items && inputs.Includes(h, item)
    ensures forall id :: id in inputs.Omitted(h, items) <==>
              exists item | item in items :: item.id == id && !inputs.Includes(h, item)
    ensures Unique(ItemIds(inputs.Selected(h, items)))
  {
    hide PacketInputs.Includes;
    OmittedMembers(inputs, h, items);
    if items != [] {
      var front, last := items[..|items| - 1], items[|items| - 1];
      assert items == front + [last];
      assert ItemIds(items) == ItemIds(front) + [last.id];
      SelectionSplits(inputs, h, front);
      hide PacketInputs.Omitted;
      var kept := inputs.Selected(h, front);
      forall i | 0 <= i < |kept| ensures ItemIds(kept)[i] != last.id {
        assert kept[i] in front;
        var j :| 0 <= j < |front| && front[j] == kept[i];
        assert ItemIds(items)[j] == kept[i].id;
      }
    }
  }

  lemma {:induction false} OmittedMembers(inputs: PacketInputs, h: Hashes, items: seq<Item>)
    ensures forall id :: id in inputs.Omitted(h, items) <==>
              exists item | item in items :: item.id == id && !inputs.Includes(h, item)
  {
    hide PacketInputs.Includes;
    if items != [] {
      var front, last := items[..|items| - 1], items[|items| - 1];
      assert items == front + [last];
      OmittedMembers(inputs, h, front);
    }
  }

  /** In either mode every graph item is either in the packet or in its omitted list, never in both. */
  lemma PacketPartitionsGraph(h: ReviewHashes, inputs: PacketInputs)
    requires inputs.Refusal(h).None?
    ensures var p := PacketOf(h, inputs);
            && SetOf(ItemIds(p.items)) + SetOf(p.omitted) == SetOf(ItemIds(inputs.graph.items))
            && SetOf(ItemIds(p.items)) !! SetOf(p.omitted)
  {
    hide *;
    var p := PacketOf(h, inputs);
    var included, omitted, all := SetOf(ItemIds(p.items)), SetOf(p.omitted), SetOf(ItemIds(inputs.graph.items));
    forall id ensures (id in all <==> id in included || id in omitted) && !(id in included && id in omitted) {
      IdIsPlacedOnce(h, inputs, id);
    }
  }

  lemma IdIsPlacedOnce(h: ReviewHashes, inputs: PacketInputs, id: string)
    requires inputs.Refusal(h).None?
    ensures var p := PacketOf(h, inputs);
            && (id in SetOf(ItemIds(inputs.graph.items)) <==> id in SetOf(ItemIds(p.items)) || id in SetOf(p.omitted))
            && !(id in SetOf(ItemIds(p.items)) && id in SetOf(p.omitted))
  {
    var items := inputs.graph.items;
    GraphIdsAreUnique(h, inputs);
    SelectionSplits(inputs, h.graph, items);
    PacketContents(h, inputs);
    IdMembership(items, id);
    IdMembership(PacketOf(h, inputs).items, id);
    UniqueById(items);
    hide *;
  }

  lemma PacketContents(h: ReviewHashes, inputs: PacketInputs)
    ensures PacketOf(h, inputs).items == inputs.Selected(h.graph, inputs.graph.items)
    ensures forall id :: id in PacketOf(h, inputs).omitted <==> id in inputs.Omitted(h.graph, inputs.graph.items)
  {
    hide PacketInputs.Selected, PacketInputs.Omitted, IdsWithStatus, ContradictoryRefs, TestRefs;
    hide ChangedDecisions, PacketHash;
    hide PacketInputs.PriorDiffRefs, PacketInputs.PriorTestRefs, PacketInputs.PriorDecisions;
  }

  lemma GraphIdsAreUnique(h: ReviewHashes, inputs: PacketInputs)
    requires inputs.Refusal(h).None?
    ensures GraphOk(h.graph, inputs.graph) && Unique(ItemIds(inputs.graph.items))
  {
    SetOfSize(ItemIds(inputs.graph.items));
    hide ReceiptOk, Unique;
  }

  lemma IdMembership(items: seq<Item>, id: string)
    ensures id in SetOf(ItemIds(items)) <==> exists item | item in items :: item.id == id
  {
    var ids := ItemIds(items);
    if id in ids {
      var i :| 0 <= i < |ids| && ids[i] == id;
      assert items[i] in items;
    }
    if item :| item in items && item.id == id {
      var i :| 0 <= i < |items| && items[i] == item;
      assert ids[i] == id;
    }
  }

  lemma UniqueById(items: seq<Item>)
    requires Unique(ItemIds(items))
    ensures forall a, b | a in items && b in items && a.id == b.id :: a == b
  {
    forall a, b | a in items && b in items && a.id == b.id ensures a == b {
      var i :| 0 <= i < |items| && items[i] == a;
      var j :| 0 <= j < |items| && items[j] == b;
      assert ItemIds(items)[i] == ItemIds(items)[j];
    }
  }

  lemma PacketItemsAreGraphItems(h: ReviewHashes, inputs: PacketInputs)
    requires inputs.Refusal(h).None?
    ensures var p := PacketOf(h, inputs);
            Unique(ItemIds(p.items)) && forall item | item in p.items :: item in inputs.graph.items
  {
    GraphIdsAreUnique(h, inputs);
    SelectionSplits(inputs, h.graph, inputs.graph.items);
    PacketContents(h, inputs);
    hide *;
  }

  lemma PacketIsFaithful(h: ReviewHashes, inputs: PacketInputs)
    requires inputs.Refusal(h).None?
    ensures Faithful(PacketOf(h, inputs).items, inputs.graph)
  {
    var p := PacketOf(h, inputs);
    PacketItemsAreGraphItems(h, inputs);
    GraphIdsAreUnique(h, inputs);
    SetOfSize(ItemIds(p.items));
    hide *;
    forall item | item in p.items ensures Lookup(inputs.graph.items, item.id) == Some(item) {
      LookupFinds(inputs.graph.items, item);
    }
    assert Faithful(p.items, inputs.graph) by {
      FaithfulIntro(p.items, inputs.graph);
    }
  }

  lemma FaithfulIntro(items: seq<Item>, graph: Graph)
    requires (forall item | item in items :: Lookup(graph.items, item.id) == Some(item)) && Distinct(ItemIds(items))
    ensures Faithful(items, graph)
  {
    hide Lookup, Distinct, ItemIds;
  }

  /** What a valid graph says about the strings its items hold. */
  lemma GraphStrings(h: Hashes, g: Graph)
    requires GraphOk(h, g)
    ensures "" !in ItemIds(g.items) && "" !in RecordIds(g.decisions)
    ensures forall ref | ref in g.newDiffRefs :: ref != "" && IsDigest(ref)
    ensures forall ref | ref in TestRefs(g.items) :: ref != "" && IsDigest(ref)
    ensures forall item, ref | item in g.items && ref in item.contradictoryRefs :: ref != "" && IsDigest(ref)
  {
    hide IsDigest, Distinct, ItemIds, RecordIds, Sorted;
  }

  lemma PacketShape(h: ReviewHashes, inputs: PacketInputs)
    ensures var p := PacketOf(h, inputs);
            && p.schemaVersion == 1 && p.mode == inputs.mode
            && p.stateId == inputs.graph.stateId && p.graphId == inputs.graph.graphId
            && p.unsupported == Sorted(IdsWithStatus(p.items, Unsupported))
            && p.contradictory == Sorted(ContradictoryRefs(p.items))
            && p.reopened == Sorted(IdsWithStatus(p.items, Reopened))
            && p.changedDecisions == Sorted(ChangedDecisions(inputs.graph.decisions, inputs.PriorDecisions()))
            && p.newDiffRefs == Sorted(SetOf(inputs.graph.newDiffRefs) - inputs.PriorDiffRefs())
            && p.newTestRefs == Sorted(TestRefs(inputs.graph.items) - inputs.PriorTestRefs())
            && p.omitted == Sorted(SetOf(inputs.Omitted(h.graph, inputs.graph.items)))
            && p.packetId == PacketHash(h, p)
  {
    hide Sorted, PacketInputs.Selected, PacketInputs.Omitted, IdsWithStatus, ContradictoryRefs, TestRefs;
    hide ChangedDecisions;
    hide PacketInputs.PriorDiffRefs, PacketInputs.PriorTestRefs, PacketInputs.PriorDecisions;
  }

  /** No id the packet lists is empty: each is an item or decision id of one of the two valid graphs. */
  lemma PacketIdsAreNamed(h: ReviewHashes, inputs: PacketInputs)
    requires inputs.Refusal(h).None?
    ensures forall status :: "" !in IdsWithStatus(PacketOf(h, inputs).items, status)
    ensures "" !in PacketOf(h, inputs).omitted
    ensures "" !in ChangedDecisions(inputs.graph.decisions, inputs.PriorDecisions())
  {
    GraphIdsAreUnique(h, inputs);
    GraphStrings(h.graph, inputs.graph);
    if inputs.previous.Some? {
      PriorGraphIsValid(h, inputs);
      GraphStrings(h.graph, inputs.previous.value);
    }
    PacketPartitionsGraph(h, inputs);
    assert "" !in SetOf(ItemIds(PacketOf(h, inputs).items));
    IdMembership(PacketOf(h, inputs).items, "");
    hide PacketOf, GraphOk, PacketInputs.Refusal, HashOf, ItemIds, TestRefs, IsDigest;
  }

  lemma PriorGraphIsValid(h: ReviewHashes, inputs: PacketInputs)
    requires inputs.Refusal(h).None? && inputs.previous.Some?
    ensures GraphOk(h.graph, inputs.previous.value)
  {
    hide GraphOk, ReceiptOk;
  }

  lemma PacketListsAreValid(h: ReviewHashes, inputs: PacketInputs)
    requires inputs.Refusal(h).None?
    ensures PacketListsOk(PacketOf(h, inputs))
  {
    var p := PacketOf(h, inputs);
    PacketShape(h, inputs);
    PacketIdsAreNamed(h, inputs);
    PacketItemsAreGraphItems(h, inputs);
    GraphIdsAreUnique(h, inputs);
    GraphStrings(h.graph, inputs.graph);
    hide PacketOf, GraphOk, PacketInputs.Refusal, ItemIds, TestRefs, IsDigest, Sorted, ValidStrings, IdsWithStatus;
    hide ChangedDecisions, PacketInputs.Omitted, PacketInputs.PriorDiffRefs, PacketInputs.PriorTestRefs, Unique;
    hide PacketInputs.PriorDecisions;
    SortedIsValid(IdsWithStatus(p.items, Unsupported), false);
    SortedIsValid(IdsWithStatus(p.items, Reopened), false);
    SortedIsValid(ChangedDecisions(inputs.graph.decisions, inputs.PriorDecisions()), false);
    SortedIsValid(SetOf(inputs.Omitted(h.graph, inputs.graph.items)), false);
    SortedIsValid(ContradictoryRefs(p.items), true);
    SortedIsValid(SetOf(inputs.graph.newDiffRefs) - inputs.PriorDiffRefs(), true);
    SortedIsValid(TestRefs(inputs.graph.items) - inputs.PriorTestRefs(), true);
  }

  /** In either mode `build_delta_packet` returns a packet that `validate_delta_packet` accepts for its graph. */
  lemma BuiltPacketIsValid(h: ReviewHashes, inputs: PacketInputs)
    requires SoundReview(h) && inputs.Refusal(h).None?
    ensures PacketOk(h, PacketOf(h, inputs), inputs.graph)
  {
    hide PacketOf, PacketInputs.Refusal, Faithful, PacketListsOk, ItemIds, Sorted, IsDigest, PacketHash, IdsWithStatus;
    hide ContradictoryRefs, TestRefs, PacketInputs.Omitted, ChangedDecisions, GraphOk;
    hide PacketInputs.PriorDiffRefs, PacketInputs.PriorTestRefs, PacketInputs.PriorDecisions;
    PacketShape(h, inputs);
    PacketListsAreValid(h, inputs);
    PacketIsFaithful(h, inputs);
    PacketPartitionsGraph(h, inputs);
    ModeIsKnown(h, inputs);
    PacketHashIsDigest(h, PacketOf(h, inputs));
  }

  lemma ModeIsKnown(h: ReviewHashes, inputs: PacketInputs)
    requires inputs.Refusal(h).None?
    ensures !inputs.mode.Other?
  {
    hide GraphOk, ReceiptOk;
  }

  lemma PacketHashIsDigest(h: ReviewHashes, p: Packet)
    requires SoundReview(h)
    ensures IsDigest(PacketHash(h, p))
  {
    hide IsDigest;
  }

  // ----- Omissions --------------------------------------------------------------------------------------------

  /**
   * In review mode an item is omitted only when it is supported, unchanged since the previous graph, and
   * accepted by a receipt that is valid on that graph, where it therefore was supported as well.
   */
  lemma OmissionIsJustified(h: ReviewHashes, inputs: PacketInputs, id: string)
    requires SoundReview(h) && inputs.Refusal(h).None? && inputs.mode == Review
    requires id in PacketOf(h, inputs).omitted
    ensures inputs.previous.Some? && inputs.receipt.Some?
    ensures ReceiptOk(h, inputs.receipt.value, inputs.previous.value, None)
    ensures id in inputs.receipt.value.accepted
    ensures id !in inputs.receipt.value.conditional && id !in inputs.receipt.value.rejected
    ensures exists item | item in inputs.graph.items ::
              item.id == id && item.graphStatus == Supported && item in inputs.previous.value.items
    ensures IsSupported(inputs.previous.value, id)
  {
    var item := OmittedItem(h, inputs, id);
    ReceiptIsChecked(h, inputs);
    hide PacketOf, GraphOk, ReceiptOk, PacketInputs.Refusal, Lookup, IsDigest;
  }

  lemma OmittedItem(h: ReviewHashes, inputs: PacketInputs, id: string) returns (item: Item)
    requires inputs.Refusal(h).None? && id in PacketOf(h, inputs).omitted
    ensures item in inputs.graph.items && item.id == id && !inputs.Includes(h.graph, item)
  {
    GraphIdsAreUnique(h, inputs);
    SelectionSplits(inputs, h.graph, inputs.graph.items);
    PacketContents(h, inputs);
    hide *;
    item :| item in inputs.graph.items && item.id == id && !inputs.Includes(h.graph, item);
  }

  lemma ReceiptIsChecked(h: ReviewHashes, inputs: PacketInputs)
    requires inputs.Refusal(h).None? && inputs.receipt.Some?
    ensures inputs.previous.Some? && ReceiptOk(h, inputs.receipt.value, inputs.previous.value, None)
    ensures forall id | id in inputs.receipt.value.accepted :: IsSupported(inputs.previous.value, id)
  {
    hide GraphOk, IsSupported, ReceiptListsOk, IsDigest, Disjoint;
  }

  // ----- Successive rounds ------------------------------------------------------------------------------------

  /** One review round: the graph reviewed, the packet shown to the reviewer and the receipt returned for it. */
  datatype Round = Round(graph: Graph, packet: Packet, receipt: Receipt)

  /**
   * A review history: every receipt is validated against its packet, and each later packet is built in review
   * mode from the previous round's graph and receipt. Nothing is assumed about how the first packet was built.
   */
  ghost predicate History(h: ReviewHashes, rounds: seq<Round>) {
    && (forall n | 0 <= n < |rounds| :: ReceiptOk(h, rounds[n].receipt, rounds[n].graph, Some(rounds[n].packet)))
    && (forall n | 0 < n < |rounds| :: BuildsOn(h, rounds[n], rounds[n - 1]))
  }

  ghost predicate BuildsOn(h: ReviewHashes, round: Round, prior: Round) {
    && Following(round, prior).Refusal(h).None?
    && round.packet == PacketOf(h, Following(round, prior))
  }

  function Following(round: Round, prior: Round): PacketInputs {
    PacketInputs(round.graph, Some(prior.graph), Some(prior.receipt), Review)
  }

  /**
   * Every omission rests on the round just before: there the very same item was in the packet, supported, and
   * accepted by the reviewer.
   */
  lemma OmittedWasJustReviewed(h: ReviewHashes, rounds: seq<Round>, n: nat, id: string)
    requires SoundReview(h) && History(h, rounds) && 0 < n < |rounds| && id in rounds[n].packet.omitted
    ensures id in rounds[n - 1].receipt.accepted
    ensures exists item | item in rounds[n - 1].packet.items ::
              item.id == id && item.graphStatus == Supported && item in rounds[n].graph.items
  {
    hide PacketOf, GraphOk, PacketOk, ReceiptOk, PacketInputs.Refusal, Lookup;
    var prior := rounds[n - 1];
    var inputs := Following(rounds[n], prior);
    assert BuildsOn(h, rounds[n], prior);
    OmissionIsJustified(h, inputs, id);
    var item :| item in inputs.graph.items && item.id == id && item.graphStatus == Supported
        && item in prior.graph.items;
    AcceptedWasShown(h, prior, item);
  }

  lemma AcceptedWasShown(h: ReviewHashes, round: Round, item: Item)
    requires ReceiptOk(h, round.receipt, round.graph, Some(round.packet))
    requires item in round.graph.items && item.id in round.receipt.accepted
    ensures item in round.packet.items
  {
    assert item.id in round.receipt.Classified();
    assert Faithful(round.packet.items, round.graph) && item.id in SetOf(ItemIds(round.packet.items));
    assert DecisionIdsValid(ItemIds(round.graph.items));
    hide ReceiptOk, PacketOk, GraphOk, Lookup, ItemIds, Faithful;
    SetOfSize(ItemIds(round.graph.items));
    IdMembership(round.packet.items, item.id);
    var shown :| shown in round.packet.items && shown.id == item.id;
    ShownIsGraphItem(round.packet.items, round.graph, shown);
    LookupFinds(round.graph.items, item);
  }

  lemma ShownIsGraphItem(items: seq<Item>, graph: Graph, shown: Item)
    requires Faithful(items, graph) && shown in items
    ensures Lookup(graph.items, shown.id) == Some(shown)
  {
    hide Lookup, ItemIds;
  }

  /** No acceptance item is omitted in two consecutive rounds. */
  lemma NeverOmittedTwice(h: ReviewHashes, rounds: seq<Round>, n: nat, id: string)
    requires SoundReview(h) && History(h, rounds) && 0 < n < |rounds|
    ensures !(id in rounds[n].packet.omitted && id in rounds[n - 1].packet.omitted)
  {
    hide PacketOf, PacketInputs.Refusal, Lookup, GraphOk, PacketOk, ReceiptOk;
    if id in rounds[n].packet.omitted {
      OmittedWasJustReviewed(h, rounds, n, id);
      IdMembership(rounds[n - 1].packet.items, id);
      ShownIsNotOmitted(h, rounds[n - 1], id);
    }
  }

  lemma ShownIsNotOmitted(h: ReviewHashes, round: Round, id: string)
    requires ReceiptOk(h, round.receipt, round.graph, Some(round.packet)) && id in SetOf(ItemIds(round.packet.items))
    ensures id !in round.packet.omitted
    ensures id in round.receipt.Classified()
  {
    hide GraphOk, Lookup, ItemIds, IsDigest, PacketListsOk, Faithful, IdsWithStatus, ContradictoryRefs;
    hide TestRefs, Sorted;
    assert PacketOk(h, round.packet, round.graph);
    assert DerivedListsOk(round.packet, round.graph);
  }

  /** An item that is in the graphs of two consecutive rounds is classified by the reviewer in one of them. */
  lemma ClassifiedWithinTwoRounds(h: ReviewHashes, rounds: seq<Round>, n: nat, id: string)
    requires SoundReview(h) && History(h, rounds) && 0 < n < |rounds|
    requires id in ItemIds(rounds[n].graph.items)
    ensures id in rounds[n - 1].receipt.Classified() || id in rounds[n].receipt.Classified()
  {
    hide PacketOf, PacketInputs.Refusal, Lookup, GraphOk, PacketOk, ReceiptOk, ItemIds;
    assert BuildsOn(h, rounds[n], rounds[n - 1]);
    PacketPartitionsGraph(h, Following(rounds[n], rounds[n - 1]));
    if id in rounds[n].packet.omitted {
      OmittedWasJustReviewed(h, rounds, n, id);
    } else {
      ShownIsNotOmitted(h, rounds[n], id);
    }
  }
}
