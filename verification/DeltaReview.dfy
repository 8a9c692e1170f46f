/** Delta review packets and review receipts of scripts/acceptance_graph.py, and their validators. */
module DeltaReview {
  import opened Wrappers
  import opened Strings
  import opened Ordering
  import opened AcceptanceGraph
  import opened GraphBuilder

  /** `Other` is any mode string the scripts do not know. */
  datatype Mode = Review | Revision | Other(name: string)

  datatype Packet = Packet(
    schemaVersion: int, packetId: string, mode: Mode, stateId: string, graphId: string, items: seq<Item>,
    unsupported: seq<string>, contradictory: seq<string>, reopened: seq<string>, changedDecisions: seq<string>,
    newDiffRefs: seq<string>, newTestRefs: seq<string>, omitted: seq<string>)

  datatype Receipt = Receipt(
    schemaVersion: int, reviewId: string, boundStateId: string, boundGraphId: string, reviewer: string,
    accepted: seq<string>, conditional: seq<string>, rejected: seq<string>,
    frozenConfirmed: seq<string>, newQuestions: seq<string>)
  {
    function Classified(): set<string> {
      SetOf(accepted) + SetOf(conditional) + SetOf(rejected)
    }
  }

  datatype ReviewHashes = ReviewHashes(graph: Hashes, packet: Packet -> string, receipt: Receipt -> string)

  ghost predicate SoundReview(h: ReviewHashes) {
    Sound(h.graph) && forall p :: IsDigest(h.packet(p))
  }

  function PacketHash(h: ReviewHashes, p: Packet): string {
    h.packet(p.(packetId := ""))
  }

  function ReceiptHash(h: ReviewHashes, r: Receipt): string {
    h.receipt(r.(reviewId := ""))
  }

  function ContradictoryRefs(items: seq<Item>): set<string> {
    set item, ref | item in items && ref in item.contradictoryRefs :: ref
  }

  function TestRefs(items: seq<Item>): set<string> {
    set item, ref | item in items && ref in item.testRefs + item.resultRefs :: ref
  }

  /** Each packet item is the graph's own item of that id, and no id appears twice. */
  predicate Faithful(items: seq<Item>, graph: Graph) {
    && (forall item | item in items :: Lookup(graph.items, item.id) == Some(item))
    && Distinct(ItemIds(items))
  }

  predicate PacketListsOk(p: Packet) {
    && ValidStrings(p.unsupported, false) && ValidStrings(p.reopened, false)
    && ValidStrings(p.changedDecisions, false) && ValidStrings(p.omitted, false)
    && ValidStrings(p.contradictory, true) && ValidStrings(p.newDiffRefs, true) && ValidStrings(p.newTestRefs, true)
  }

  /** The lists of a packet that follow from its items and its graph. */
  predicate DerivedListsOk(p: Packet, graph: Graph) {
    && p.unsupported == Sorted(IdsWithStatus(p.items, Unsupported))
    && p.contradictory == Sorted(ContradictoryRefs(p.items))
    && p.reopened == Sorted(IdsWithStatus(p.items, Reopened))
    && SetOf(p.newDiffRefs) <= SetOf(graph.newDiffRefs)
    && SetOf(p.newTestRefs) <= TestRefs(graph.items)
    && SetOf(p.omitted) !! SetOf(ItemIds(p.items))
  }

  /** What `validate_delta_packet` demands of a packet for a graph. */
  predicate PacketOk(h: ReviewHashes, p: Packet, graph: Graph) {
    && p.schemaVersion == 1 && !p.mode.Other?
    && p.stateId == graph.stateId && p.graphId == graph.graphId
    && Faithful(p.items, graph)
    && PacketListsOk(p)
    && DerivedListsOk(p, graph)
    && IsDigest(p.packetId) && p.packetId == PacketHash(h, p)
  }

  datatype PacketProblem =
    | VersionOrMode | Binding | AlteredItem | DuplicateItems | BadList
    | UnsupportedList | ContradictoryList | ReopenedList | StrayDiffRef | StrayTestRef | OmittedOverlap
    | PacketIdFormat | PacketIdMismatch

  /** The first packet item that is not the graph's own, if any: the loop stops there with one error. */
  method CheckItems(items: seq<Item>, graph: Graph) returns (altered: bool)
    ensures !altered <==> forall item | item in items :: Lookup(graph.items, item.id) == Some(item)
  {
    hide Lookup;
    altered := false;
    for index := 0 to |items|
      invariant forall i | 0 <= i < index :: Lookup(graph.items, items[i].id) == Some(items[i])
    {
      if Lookup(graph.items, items[index].id) != Some(items[index]) { return true; }
    }
  }

  method CheckDerivedLists(p: Packet, graph: Graph) returns (errors: seq<PacketProblem>)
    ensures errors == [] <==> DerivedListsOk(p, graph)
  {
    hide Sorted, IdsWithStatus, ContradictoryRefs, TestRefs, SetOf, ItemIds;
    errors := [];
    if p.unsupported != Sorted(IdsWithStatus(p.items, Unsupported)) { errors := errors + [UnsupportedList]; }
    if p.contradictory != Sorted(ContradictoryRefs(p.items)) { errors := errors + [ContradictoryList]; }
    if p.reopened != Sorted(IdsWithStatus(p.items, Reopened)) { errors := errors + [PacketProblem.ReopenedList]; }
    if !(SetOf(p.newDiffRefs) <= SetOf(graph.newDiffRefs)) { errors := errors + [StrayDiffRef]; }
    if !(SetOf(p.newTestRefs) <= TestRefs(graph.items)) { errors := errors + [StrayTestRef]; }
    if !(SetOf(p.omitted) !! SetOf(ItemIds(p.items))) { errors := errors + [OmittedOverlap]; }
  }

  method ValidateDeltaPacket(h: ReviewHashes, p: Packet, graph: Graph) returns (errors: seq<PacketProblem>)
    ensures errors == [] <==> PacketOk(h, p, graph)
  {
    hide Lookup, IsDigest, Distinct, PacketListsOk, PacketHash, DerivedListsOk, ItemIds;
    errors := [];
    if p.schemaVersion != 1 || p.mode.Other? { errors := errors + [VersionOrMode]; }
    if p.stateId != graph.stateId || p.graphId != graph.graphId { errors := errors + [Binding]; }
    var altered := CheckItems(p.items, graph);
    if altered { errors := errors + [AlteredItem]; }
    if !Distinct(ItemIds(p.items)) { errors := errors + [DuplicateItems]; }
    if !PacketListsOk(p) { errors := errors + [BadList]; }
    var derivedErrors := CheckDerivedLists(p, graph);
    errors := errors + derivedErrors;
    if !IsDigest(p.packetId) {
      errors := errors + [PacketIdFormat];
    } else if p.packetId != PacketHash(h, p) {
      errors := errors + [PacketIdMismatch];
    }
  }

  // ----- Receipts ---------------------------------------------------------------------------------------

  predicate ReceiptListsOk(r: Receipt) {
    && ValidStrings(r.accepted, false) && ValidStrings(r.conditional, false) && ValidStrings(r.rejected, false)
    && ValidStrings(r.frozenConfirmed, false) && ValidStrings(r.newQuestions, false)
  }

  predicate Disjoint(r: Receipt) {
    && SetOf(r.accepted) !! SetOf(r.conditional) && SetOf(r.accepted) !! SetOf(r.rejected)
    && SetOf(r.conditional) !! SetOf(r.rejected)
  }

  predicate IsSupported(graph: Graph, id: string) {
    var item := Lookup(graph.items, id);
    item.Some? && item.value.graphStatus == Supported
  }

  /** What `validate_receipt` demands of a receipt for a graph and, when given, the reviewed packet. */
  predicate ReceiptOk(h: ReviewHashes, r: Receipt, graph: Graph, packet: Option<Packet>) {
    && GraphOk(h.graph, graph)
    && r.schemaVersion == 1 && r.boundStateId == graph.stateId && r.boundGraphId == graph.graphId
    && r.reviewer != ""
    && ReceiptListsOk(r) && Disjoint(r)
    && r.Classified() <= SetOf(ItemIds(graph.items))
    && (forall id | id in r.accepted :: IsSupported(graph, id))
    && SetOf(r.frozenConfirmed) <= SetOf(graph.frozenDecisions)
    && (packet.Some? ==> PacketOk(h, packet.value, graph) && r.Classified() == SetOf(ItemIds(packet.value.items)))
    && IsDigest(r.reviewId) && r.reviewId == ReceiptHash(h, r)
  }

  datatype ReceiptProblem =
    | InvalidGraph | ReceiptVersion | StateBinding | GraphBinding | EmptyReviewer | ReceiptList | Overlap
    | UnknownId | UnsupportedAccepted(id: string) | NotFrozen | PacketErrors | WrongClassification
    | ReviewIdFormat | ReviewIdMismatch

  /** The loop over `accepted`: ids that are in the graph but not supported there. */
  method CheckAccepted(r: Receipt, graph: Graph) returns (errors: seq<ReceiptProblem>)
    ensures errors == [] <==> forall id | id in r.accepted :: Lookup(graph.items, id).None? || IsSupported(graph, id)
  {
    hide Lookup;
    errors := [];
    for index := 0 to |r.accepted|
      invariant errors == [] <==> forall i | 0 <= i < index ::
                  Lookup(graph.items, r.accepted[i]).None? || IsSupported(graph, r.accepted[i])
    {
      var id := r.accepted[index];
      var item := Lookup(graph.items, id);
      if item.Some? && item.value.graphStatus != Supported { errors := errors + [UnsupportedAccepted(id)]; }
    }
  }

  /** An id is listed in a graph exactly when the dictionary finds it. */
  lemma KnownIds(items: seq<Item>, id: string)
    ensures id in SetOf(ItemIds(items)) <==> Lookup(items, id).Some?
  {
    var ids := ItemIds(items);
    if id in ids {
      var i :| 0 <= i < |ids| && ids[i] == id;
      assert items[i] in items && items[i].id == id;
    }
    var found := Lookup(items, id);
    if found.Some? {
      var i :| 0 <= i < |items| && items[i] == found.value;
      assert ids[i] == id;
    }
    hide Lookup;
  }

  method ValidateReceipt(h: ReviewHashes, r: Receipt, graph: Graph, packet: Option<Packet>)
    returns (errors: seq<ReceiptProblem>)
    ensures errors == [] <==> ReceiptOk(h, r, graph, packet)
  {
    hide GraphOk, PacketOk, Lookup, IsDigest, Disjoint, ReceiptListsOk, ReceiptHash, Receipt.Classified, ItemIds, SetOf;
    var graphErrors := ValidateGraph(h.graph, graph);
    if graphErrors != [] { return [InvalidGraph]; }
    errors := [];
    if r.schemaVersion != 1 { errors := errors + [ReceiptVersion]; }
    if r.boundStateId != graph.stateId { errors := errors + [StateBinding]; }
    if r.boundGraphId != graph.graphId { errors := errors + [GraphBinding]; }
    if r.reviewer == "" { errors := errors + [EmptyReviewer]; }
    if !ReceiptListsOk(r) { errors := errors + [ReceiptList]; }
    if !Disjoint(r) { errors := errors + [Overlap]; }
    var classified := r.Classified();
    if !(classified <= SetOf(ItemIds(graph.items))) { errors := errors + [UnknownId]; }
    var acceptedErrors := CheckAccepted(r, graph);
    errors := errors + acceptedErrors;
    AcceptedAreKnown(r, graph);
    if !(SetOf(r.frozenConfirmed) <= SetOf(graph.frozenDecisions)) { errors := errors + [NotFrozen]; }
    if packet.Some? {
      var packetErrors := ValidateDeltaPacket(h, packet.value, graph);
      if packetErrors != [] { errors := errors + [PacketErrors]; }
      if classified != SetOf(ItemIds(packet.value.items)) { errors := errors + [WrongClassification]; }
    }
    if !IsDigest(r.reviewId) {
      errors := errors + [ReviewIdFormat];
    } else if r.reviewId != ReceiptHash(h, r) {
      errors := errors + [ReviewIdMismatch];
    }
  }

  lemma AcceptedAreKnown(r: Receipt, graph: Graph)
    ensures r.Classified() <= SetOf(ItemIds(graph.items)) ==>
              forall id | id in r.accepted :: Lookup(graph.items, id).Some?
    ensures forall id :: IsSupported(graph, id) ==> Lookup(graph.items, id).Some?
  {
    hide Lookup, ItemIds;
    forall id | id in r.accepted ensures id in r.Classified() {}
    forall id ensures id in SetOf(ItemIds(graph.items)) <==> Lookup(graph.items, id).Some? {
      KnownIds(graph.items, id);
    }
  }
}
