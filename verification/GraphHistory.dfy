/** What reopening guarantees over successive builds of the graph, and over the review rounds built on them. */
module GraphHistory {
  import opened Wrappers
  import opened Ordering
  import opened AcceptanceGraph
  import opened GraphBuilder
  import opened GraphGuarantees
  import opened DeltaReview
  import opened ReviewRounds

  /** Successive builds: each takes the graph before it as its previous graph. */
  ghost predicate BuildHistory(h: Hashes, builds: seq<Inputs>) {
    && (forall n | 0 <= n < |builds| :: builds[n].Refusal(h).None?)
    && (forall n | 0 < n < |builds| :: builds[n].previous == Some(GraphOf(h, builds[n - 1])))
  }

  /** In a valid graph the reopened list and the statuses of the items agree. */
  lemma ReopenedItems(h: Hashes, g: Graph, item: Item)
    requires GraphOk(h, g) && item in g.items
    ensures item.id in g.reopened <==> item.graphStatus == Reopened
  {
    hide GraphOk, Sorted, ItemIds, SetOf, Distinct;
    ReopenedListIs(h, g);
    SetOfSize(ItemIds(g.items));
    if item.id in g.reopened {
      var other :| other in g.items && other.graphStatus == Reopened && other.id == item.id;
      var i :| 0 <= i < |g.items| && g.items[i] == item;
      var j :| 0 <= j < |g.items| && g.items[j] == other;
      assert ItemIds(g.items)[i] == ItemIds(g.items)[j];
    }
  }

  lemma ReopenedListIs(h: Hashes, g: Graph)
    requires GraphOk(h, g)
    ensures Distinct(ItemIds(g.items))
    ensures forall id :: id in g.reopened <==> id in IdsWithStatus(g.items, Reopened)
  {
    hide ItemOk, RecordOk, ItemIds, RecordIds, ValidStrings, GraphHash, Distinct, SetOf, FrozenIds, IdsWithStatus;
  }

  /** Reopening lasts for one build: it always hits an item that was supported just before. */
  lemma NeverReopenedTwice(h: Hashes, builds: seq<Inputs>, n: nat, id: string)
    requires BuildHistory(h, builds) && 0 < n < |builds| && id in GraphOf(h, builds[n]).reopened
    ensures id !in GraphOf(h, builds[n - 1]).reopened
    ensures exists item | item in GraphOf(h, builds[n - 1]).items :: item.id == id && item.graphStatus == Supported
  {
    hide GraphOf, Inputs.Refusal, Inputs.ImpactPaths, PathsOverlap, GraphOk;
    ReopenedExactly(h, builds[n], id);
    PreviousIsValid(h, builds[n]);
    var before := GraphOf(h, builds[n - 1]);
    assert builds[n].previous == Some(before);
    var item :| item in before.items && item.id == id && item.graphStatus == Supported;
    ReopenedItems(h, before, item);
  }

  lemma PreviousIsValid(h: Hashes, inputs: Inputs)
    requires inputs.Refusal(h).None? && inputs.previous.Some?
    ensures GraphOk(h, inputs.previous.value)
  {
    hide GraphOk, ValidState, Inputs.Loadable, Inputs.AllLoadable;
  }

  /** In the build after it was reopened an item is judged on its evidence alone: it is supported again exactly when
      it is claimed satisfied, something supports it and nothing contradicts it, whatever paths changed. */
  lemma ReopenedIsJudgedAfresh(h: Hashes, builds: seq<Inputs>, n: nat, id: string)
    requires BuildHistory(h, builds) && 0 < n < |builds|
    requires id in GraphOf(h, builds[n - 1]).reopened && id in builds[n].state.acceptance
    ensures var inputs := builds[n];
            inputs.ItemOf(id) in GraphOf(h, inputs).items
            && (inputs.ItemOf(id).graphStatus == Supported <==>
                  && inputs.state.acceptance[id].status == Satisfied
                  && inputs.Assessed(inputs.Refs(id), Supporting) != {}
                  && inputs.Assessed(inputs.Refs(id), Contradictory) == {})
  {
    var inputs := builds[n];
    RefusalFacts(h, inputs);
    BuiltItemsAreValid(inputs);
    GraphHasItems(h, inputs);
    hide GraphOf, Inputs.Refusal, Inputs.ImpactPaths, GraphOk, PathsOverlap, ValidState, Inputs.AllLoadable;
    hide ItemOk, Sorted;
    hide Inputs.ItemsOf;
    if id in GraphOf(h, inputs).reopened { NeverReopenedTwice(h, builds, n, id); }
    ReopenedListHolds(h, inputs, id);
    assert !inputs.Invalidated(id);
    hide Inputs.Invalidated, Inputs.Assessed, Inputs.Refs, Inputs.Claims, Inputs.Paths, Inputs.DecisionRefs;
    hide Inputs.OfKinds;
  }

  lemma GraphHasItems(h: Hashes, inputs: Inputs)
    ensures GraphOf(h, inputs).items == inputs.ItemsOf(inputs.Ids())
  {
    hide Inputs.ItemsOf, Inputs.Records, Sorted, Inputs.DiffRefs, Inputs.ImpactPaths;
  }

  // ----- Review of reopened items ----------------------------------------------------------------------------------

  /** A reopened item is classified by the reviewer in its round, if that packet was built here, and again in the next
      one, even when it is supported again by then. */
  lemma ReopenedIsReviewedTwice(h: ReviewHashes, rounds: seq<Round>, n: nat, id: string)
    requires SoundReview(h) && History(h, rounds) && n < |rounds| && id in rounds[n].graph.reopened
    ensures n > 0 ==> id in rounds[n].receipt.Classified()
    ensures n + 1 < |rounds| && id in ItemIds(rounds[n + 1].graph.items) ==> id in rounds[n + 1].receipt.Classified()
  {
    hide PacketOf, PacketInputs.Refusal, Lookup, ItemIds, GraphOk, Receipt.Classified;
    assert ReceiptOk(h, rounds[n].receipt, rounds[n].graph, Some(rounds[n].packet));
    assert GraphOk(h.graph, rounds[n].graph);
    hide ReceiptOk, PacketOk;
    ReopenedIsItem(h.graph, rounds[n].graph, id);
    if n > 0 {
      BuiltPacketShows(h, rounds, n, id);
    }
    if n + 1 < |rounds| && id in ItemIds(rounds[n + 1].graph.items) {
      BuiltPacketShows(h, rounds, n + 1, id);
    }
  }

  lemma ReopenedIsItem(h: Hashes, g: Graph, id: string)
    requires GraphOk(h, g) && id in g.reopened
    ensures id in ItemIds(g.items)
    ensures forall item | item in g.items && item.id == id :: item.graphStatus == Reopened
  {
    hide GraphOk, Sorted, ItemIds;
    ReopenedListIs(h, g);
    forall item | item in g.items && item.id == id ensures item.graphStatus == Reopened {
      ReopenedItems(h, g, item);
    }
    var item :| item in g.items && item.id == id;
    var i :| 0 <= i < |g.items| && g.items[i] == item;
    assert ItemIds(g.items)[i] == id;
  }

  /** A packet built here shows an item that is reopened in its graph or was reopened in the graph before. */
  lemma BuiltPacketShows(h: ReviewHashes, rounds: seq<Round>, n: nat, id: string)
    requires SoundReview(h) && History(h, rounds) && 0 < n < |rounds| && id in ItemIds(rounds[n].graph.items)
    requires forall item | item in rounds[n].graph.items && item.id == id && item in rounds[n - 1].graph.items ::
               item.graphStatus != Supported
    ensures id in rounds[n].receipt.Classified()
  {
    hide PacketOf, PacketInputs.Refusal, Lookup, GraphOk, PacketOk, ReceiptOk, ItemIds;
    var inputs := Following(rounds[n], rounds[n - 1]);
    assert BuildsOn(h, rounds[n], rounds[n - 1]);
    PacketPartitionsGraph(h, inputs);
    if id in rounds[n].packet.omitted {
      OmissionIsJustified(h, inputs, id);
    } else {
      ShownIsNotOmitted(h, rounds[n], id);
    }
  }
}
