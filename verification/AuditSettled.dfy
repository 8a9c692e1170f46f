/** When the summary of scripts/audit-codex-wakeups.py does not depend on the order of reading. */
module AuditSettled {
  import opened Wrappers
  import opened Permutations
  import opened StableSort
  import opened WakeupAudit
  import opened AuditSums
  import opened AuditCalls
  import opened AuditOrder

  // ----- The summary of some outcomes -------------------------------------------------------------------------------

  /** The summary depends on the outcomes only as a multiset. */
  lemma SummaryFollows(a: seq<Outcome>, b: seq<Outcome>)
    requires multiset(a) == multiset(b)
    ensures SummaryFrom(a) == SummaryFrom(b)
  {
    SameMembers(a, b);
    MapPermutes(EpisodeIn, a, b);
    var (ea, eb) := (Map(EpisodeIn, a), Map(EpisodeIn, b));
    SortPermutes(Ids, ea);
    SortPermutes(Ids, eb);
    hide BuildSummary, SortBy;
    SummaryIgnoresOrder(SortBy(Ids, ea), SortBy(Ids, eb));
  }

  /** What an outcome adds to the sum of a class. */
  function Adds(p: Counterfactual -> bool): Outcome -> real {
    o => if p(EpisodeIn(o).counterfactual) then Tokens(EpisodeIn(o)) else 0.0
  }

  predicate Known(o: Outcome) {
    o.Counted? && o.episode.inputTokens.Some?
  }

  predicate Complete(outcomes: seq<Outcome>) {
    outcomes != [] && forall o | o in outcomes :: Known(o)
  }

  /** Sums and completeness in terms of the outcomes. */
  function Totals(outcomes: seq<Outcome>): Summary {
    var (r, i) := (Sum(Adds(IsRequired), outcomes), Sum(Adds(IsIndeterminate), outcomes));
    var complete := Complete(outcomes);
    Summary(r, Sum(Adds(IsAvoidable), outcomes), i, complete, if complete then Some(r) else None,
            if complete then Some(r + i) else None)
  }

  lemma SummaryIs(outcomes: seq<Outcome>)
    ensures SummaryFrom(outcomes) == if TypeError in outcomes then None else Some(Totals(outcomes))
  {
    hide *;
    CollectedSummary(outcomes);
    if TypeError !in outcomes { TotalsAre(outcomes); }
  }

  lemma TotalsAre(outcomes: seq<Outcome>)
    requires TypeError !in outcomes
    ensures BuildSummary(Map(EpisodeIn, outcomes)) == Totals(outcomes)
  {
    SumIs(IsRequired, outcomes);
    SumIs(IsAvoidable, outcomes);
    SumIs(IsIndeterminate, outcomes);
    CompleteIs(outcomes);
    hide Sum, SumOf, Adds, Complete, Map, EpisodeIn;
  }

  lemma CollectedSummary(outcomes: seq<Outcome>)
    ensures SummaryFrom(outcomes)
         == if TypeError in outcomes then None else Some(BuildSummary(Map(EpisodeIn, outcomes)))
  {
    var episodes := Map(EpisodeIn, outcomes);
    SortPermutes(Ids, episodes);
    hide SortBy, BuildSummary;
    SummaryIgnoresOrder(SortBy(Ids, episodes), episodes);
  }

  lemma {:induction false} SumIs(p: Counterfactual -> bool, outcomes: seq<Outcome>)
    ensures SumOf(p, Map(EpisodeIn, outcomes)) == Sum(Adds(p), outcomes)
  {
    if outcomes != [] {
      SumIs(p, outcomes[1..]);
      SumStep(p, Map(EpisodeIn, outcomes));
      assert Map(EpisodeIn, outcomes)[1..] == Map(EpisodeIn, outcomes[1..]);
    }
  }

  lemma CompleteIs(outcomes: seq<Outcome>)
    requires TypeError !in outcomes
    ensures var episodes := Map(EpisodeIn, outcomes);
            (episodes != [] && forall e | e in episodes :: e.inputTokens.Some?) <==> Complete(outcomes)
  {
    var episodes := Map(EpisodeIn, outcomes);
    if forall e | e in episodes :: e.inputTokens.Some? {
      forall o | o in outcomes ensures Known(o) {
        var i :| 0 <= i < |outcomes| && outcomes[i] == o;
        assert episodes[i] in episodes && o != TypeError;
      }
    }
    if forall o | o in outcomes :: Known(o) {
      forall e | e in episodes ensures e.inputTokens.Some? {
        var i :| 0 <= i < |episodes| && episodes[i] == e;
        assert outcomes[i] in outcomes;
      }
    }
  }

  // ----- Settled calls ----------------------------------------------------------------------------------------------

  /** Whichever row and annotation is read first, the call raises. */
  ghost predicate AlwaysRaises(call: seq<Row>, events: Events) {
    forall o | MayCome(call, events, o) :: o == TypeError
  }

  /** Whichever is read first, the call raises nothing and adds the same to each sum. */
  ghost predicate AddsTheSame(call: seq<Row>, events: Events) {
    && !MayCome(call, events, TypeError)
    && forall o, p | MayCome(call, events, o) && MayCome(call, events, p) ::
         && Adds(IsRequired)(o) == Adds(IsRequired)(p) && Adds(IsAvoidable)(o) == Adds(IsAvoidable)(p)
         && Adds(IsIndeterminate)(o) == Adds(IsIndeterminate)(p)
  }

  ghost predicate AlwaysKnown(call: seq<Row>, events: Events) {
    forall o | MayCome(call, events, o) :: Known(o)
  }

  ghost predicate NeverKnown(call: seq<Row>, events: Events) {
    forall o | MayCome(call, events, o) :: !Known(o)
  }

  /**
   * Some row or call raises in every order; or none ever does, every call adds the same to each sum in every order,
   * and either some tokens are missing in every order or none ever are.
   */
  ghost predicate Settled(rows: seq<Row>, events: Events) {
    || TypeError in Unbound(rows, events)
    || (exists key | key in CallKeys(rows) :: AlwaysRaises(RowsOf(rows, key), events))
    || ((forall key | key in CallKeys(rows) :: AddsTheSame(RowsOf(rows, key), events))
        && (|| (exists o | o in Unbound(rows, events) :: !Known(o))
            || (exists key | key in CallKeys(rows) :: NeverKnown(RowsOf(rows, key), events))
            || (forall key | key in CallKeys(rows) :: AlwaysKnown(RowsOf(rows, key), events))))
  }

  ghost predicate SelectionsAgree(rows: seq<Row>, events: Events) {
    forall f, g | Selects(rows, events, f) && Selects(rows, events, g) ::
      SummaryFrom(OutcomesWith(rows, events, f)) == SummaryFrom(OutcomesWith(rows, events, g))
  }

  // ----- Settled calls give one summary -----------------------------------------------------------------------------

  lemma {:induction false} SumPointwise<A>(f: A -> real, xs: seq<A>, ys: seq<A>)
    requires |xs| == |ys| && forall i | 0 <= i < |xs| :: f(xs[i]) == f(ys[i])
    ensures Sum(f, xs) == Sum(f, ys)
  {
    if xs != [] { SumPointwise(f, xs[1..], ys[1..]); }
  }

  lemma SelectedIsMember(rows: seq<Row>, events: Events, f: Key -> Outcome, key: Key)
    requires key in CallKeys(rows)
    ensures f(key) in OutcomesWith(rows, events, f)
  {
    hide CallKeys, Unbound;
    var keys := CallKeys(rows);
    var i :| 0 <= i < |keys| && keys[i] == key;
    assert OutcomesWith(rows, events, f)[i] == f(key);
  }

  lemma MemberIsSelected(rows: seq<Row>, events: Events, f: Key -> Outcome, o: Outcome)
    ensures o in OutcomesWith(rows, events, f) <==>
            o in Unbound(rows, events) || exists key | key in CallKeys(rows) :: f(key) == o
  {
    hide CallKeys, Unbound;
    var keys := CallKeys(rows);
    if o in Map(f, keys) {
      var i :| 0 <= i < |keys| && Map(f, keys)[i] == o;
      assert keys[i] in keys;
    }
    forall key | key in keys && f(key) == o ensures o in OutcomesWith(rows, events, f) {
      SelectedIsMember(rows, events, f, key);
    }
  }

  lemma SameSums(rows: seq<Row>, events: Events, f: Key -> Outcome, g: Key -> Outcome)
    requires Selects(rows, events, f) && Selects(rows, events, g)
    requires forall key | key in CallKeys(rows) :: AddsTheSame(RowsOf(rows, key), events)
    ensures Sum(Adds(IsRequired), OutcomesWith(rows, events, f)) == Sum(Adds(IsRequired), OutcomesWith(rows, events, g))
    ensures Sum(Adds(IsAvoidable), OutcomesWith(rows, events, f))
         == Sum(Adds(IsAvoidable), OutcomesWith(rows, events, g))
    ensures Sum(Adds(IsIndeterminate), OutcomesWith(rows, events, f))
         == Sum(Adds(IsIndeterminate), OutcomesWith(rows, events, g))
  {
    hide MayCome, CallKeys, RowsOf, Unbound, Adds, Sum;
    var keys, xs, ys := CallKeys(rows), OutcomesWith(rows, events, f), OutcomesWith(rows, events, g);
    forall i | 0 <= i < |xs|
      ensures Adds(IsRequired)(xs[i]) == Adds(IsRequired)(ys[i])
      ensures Adds(IsAvoidable)(xs[i]) == Adds(IsAvoidable)(ys[i])
      ensures Adds(IsIndeterminate)(xs[i]) == Adds(IsIndeterminate)(ys[i])
    {
      if i < |keys| {
        assert keys[i] in keys && xs[i] == f(keys[i]) && ys[i] == g(keys[i]);
        assert AddsTheSame(RowsOf(rows, keys[i]), events);
      }
    }
    SumPointwise(Adds(IsRequired), xs, ys);
    SumPointwise(Adds(IsAvoidable), xs, ys);
    SumPointwise(Adds(IsIndeterminate), xs, ys);
  }

  lemma SettledAgree(rows: seq<Row>, events: Events, f: Key -> Outcome, g: Key -> Outcome)
    requires Settled(rows, events) && Selects(rows, events, f) && Selects(rows, events, g)
    ensures SummaryFrom(OutcomesWith(rows, events, f)) == SummaryFrom(OutcomesWith(rows, events, g))
  {
    var xs, ys := OutcomesWith(rows, events, f), OutcomesWith(rows, events, g);
    hide SummaryFrom, OutcomesWith, MayCome, CallKeys, RowsOf, Unbound, Known, Sum, Adds;
    SummaryIs(xs);
    SummaryIs(ys);
    assert forall o :: o in xs <==> o in Unbound(rows, events) || exists key | key in CallKeys(rows) :: f(key) == o by {
      forall o { MemberIsSelected(rows, events, f, o); }
    }
    assert forall o :: o in ys <==> o in Unbound(rows, events) || exists key | key in CallKeys(rows) :: g(key) == o by {
      forall o { MemberIsSelected(rows, events, g, o); }
    }
    if TypeError in Unbound(rows, events) {
    } else if key :| key in CallKeys(rows) && AlwaysRaises(RowsOf(rows, key), events) {
      assert f(key) == TypeError && g(key) == TypeError;
    } else {
      SameSums(rows, events, f, g);
      SameCompleteness(rows, events, f, g);
    }
  }

  lemma SameCompleteness(rows: seq<Row>, events: Events, f: Key -> Outcome, g: Key -> Outcome)
    requires Selects(rows, events, f) && Selects(rows, events, g)
    requires || (exists o | o in Unbound(rows, events) :: !Known(o))
             || (exists key | key in CallKeys(rows) :: NeverKnown(RowsOf(rows, key), events))
             || (forall key | key in CallKeys(rows) :: AlwaysKnown(RowsOf(rows, key), events))
    ensures Complete(OutcomesWith(rows, events, f)) <==> Complete(OutcomesWith(rows, events, g))
  {
    CompleteWhen(rows, events, f);
    CompleteWhen(rows, events, g);
    hide OutcomesWith, MayCome, CallKeys, RowsOf, Unbound, Known, Complete;
  }

  lemma CompleteWhen(rows: seq<Row>, events: Events, f: Key -> Outcome)
    ensures Complete(OutcomesWith(rows, events, f)) <==>
            && (CallKeys(rows) != [] || Unbound(rows, events) != [])
            && (forall o | o in Unbound(rows, events) :: Known(o))
                && (forall key | key in CallKeys(rows) :: Known(f(key)))
  {
    hide CallKeys, Unbound, Known;
    forall o { MemberIsSelected(rows, events, f, o); }
    assert |OutcomesWith(rows, events, f)| == |CallKeys(rows)| + |Unbound(rows, events)|;
  }

  // ----- One summary means settled calls ----------------------------------------------------------------------------

  /** Outcomes with some property can be selected at once when each call may come to one. */
  lemma {:induction false} SelectWhere(rows: seq<Row>, events: Events, keys: seq<Key>, p: Outcome -> bool)
      returns (f: Key -> Outcome)
    requires forall key | key in keys :: exists o :: MayCome(RowsOf(rows, key), events, o) && p(o)
    ensures forall key | key in keys :: MayCome(RowsOf(rows, key), events, f(key)) && p(f(key))
  {
    hide MayCome, RowsOf;
    f := key => TypeError;
    if keys != [] {
      var front, last := keys[..|keys| - 1], keys[|keys| - 1];
      assert keys == front + [last];
      forall key | key in front ensures exists o :: MayCome(RowsOf(rows, key), events, o) && p(o) {
        assert key in keys;
      }
      var g := SelectWhere(rows, events, front, p);
      var o :| MayCome(RowsOf(rows, last), events, o) && p(o);
      f := Instead(g, last, o);
    }
  }

  /** When no call has to raise, none may. */
  lemma NoneRaises(rows: seq<Row>, events: Events, f: Key -> Outcome, key: Key)
    requires SelectionsAgree(rows, events) && Selects(rows, events, f) && key in CallKeys(rows)
    requires TypeError !in OutcomesWith(rows, events, f)
    ensures !MayCome(RowsOf(rows, key), events, TypeError)
  {
    if MayCome(RowsOf(rows, key), events, TypeError) {
      var g := Instead(f, key, TypeError);
      hide MayCome, CallKeys, RowsOf, OutcomesWith, Selects;
      InsteadSelects(rows, events, f, key, TypeError);
      SelectedIsMember(rows, events, g, key);
      hide BuildSummary;
    }
  }

  /** Selections that differ in one call have sums that differ by what it adds. */
  lemma OneCallShows(rows: seq<Row>, events: Events, f: Key -> Outcome, key: Key, o: Outcome, p: Outcome)
    requires SelectionsAgree(rows, events) && Selects(rows, events, f) && key in CallKeys(rows)
    requires TypeError !in OutcomesWith(rows, events, f) && o.Counted? && p.Counted?
    requires MayCome(RowsOf(rows, key), events, o) && MayCome(RowsOf(rows, key), events, p)
    ensures Adds(IsRequired)(o) == Adds(IsRequired)(p) && Adds(IsAvoidable)(o) == Adds(IsAvoidable)(p)
    ensures Adds(IsIndeterminate)(o) == Adds(IsIndeterminate)(p)
  {
    var others := Others(rows, events, f, key);
    OthersAreSelected(rows, events, f, key);
    hide MayCome, CallKeys, RowsOf, OutcomesWith, Selects, SummaryFrom, Others, Adds, Instead;
    InsteadSelects(rows, events, f, key, o);
    InsteadSelects(rows, events, f, key, p);
    OneAndOthers(rows, events, f, key, o);
    OneAndOthers(rows, events, f, key, p);
    SummaryFollows(OutcomesWith(rows, events, Instead(f, key, o)), [o] + others);
    SummaryFollows(OutcomesWith(rows, events, Instead(f, key, p)), [p] + others);
    SummaryIs([o] + others);
    SummaryIs([p] + others);
    hide Complete;
    assert ([o] + others)[1..] == others && ([p] + others)[1..] == others;
  }

  lemma OthersAreSelected(rows: seq<Row>, events: Events, f: Key -> Outcome, key: Key)
    ensures forall o | o in Others(rows, events, f, key) :: o in OutcomesWith(rows, events, f)
  {
    hide CallKeys, Unbound;
    KeepMembers(Except(key), CallKeys(rows));
    var others := Keep(Except(key), CallKeys(rows));
    forall o | o in Map(f, others) ensures o in OutcomesWith(rows, events, f) {
      var i :| 0 <= i < |others| && Map(f, others)[i] == o;
      assert others[i] in others;
      SelectedIsMember(rows, events, f, others[i]);
    }
  }

  /** When all tokens can be known at once, none may be missing. */
  lemma NoneMissing(rows: seq<Row>, events: Events, f: Key -> Outcome, key: Key, o: Outcome)
    requires SelectionsAgree(rows, events) && Selects(rows, events, f) && key in CallKeys(rows)
    requires forall k | k in CallKeys(rows) :: Known(f(k))
    requires forall x | x in Unbound(rows, events) :: Known(x)
    requires MayCome(RowsOf(rows, key), events, o)
    ensures Known(o)
  {
    var g := Instead(f, key, o);
    assert g(key) == o;
    hide MayCome, RowsOf, OutcomesWith, Selects, SummaryFrom, CallKeys, Unbound;
    InsteadSelects(rows, events, f, key, o);
    CompleteWhen(rows, events, f);
    CompleteWhen(rows, events, g);
    SummaryIs(OutcomesWith(rows, events, f));
    SummaryIs(OutcomesWith(rows, events, g));
    assert TypeError !in OutcomesWith(rows, events, f);
    hide Sum, Adds, Known, Complete;
  }

  lemma AgreeingAreSettled(rows: seq<Row>, events: Events)
    requires SelectionsAgree(rows, events)
    ensures Settled(rows, events)
  {
    hide MayCome, CallKeys, RowsOf, Unbound, OutcomesWith, SummaryFrom, Adds;
    if TypeError !in Unbound(rows, events)
       && forall key | key in CallKeys(rows) :: !AlwaysRaises(RowsOf(rows, key), events) {
      forall key | key in CallKeys(rows) ensures exists o :: MayCome(RowsOf(rows, key), events, o) && IsCounted(o) {
        assert !AlwaysRaises(RowsOf(rows, key), events);
      }
      var f := SelectWhere(rows, events, CallKeys(rows), IsCounted);
      MemberIsSelected(rows, events, f, TypeError);
      forall key | key in CallKeys(rows) ensures AddsTheSame(RowsOf(rows, key), events) {
        NoneRaises(rows, events, f, key);
        forall o, p | MayCome(RowsOf(rows, key), events, o) && MayCome(RowsOf(rows, key), events, p)
          ensures Adds(IsRequired)(o) == Adds(IsRequired)(p) && Adds(IsAvoidable)(o) == Adds(IsAvoidable)(p)
          ensures Adds(IsIndeterminate)(o) == Adds(IsIndeterminate)(p)
        {
          OneCallShows(rows, events, f, key, o, p);
        }
      }
      AgreeingAreKnown(rows, events);
    }
  }

  predicate IsCounted(o: Outcome) {
    o.Counted?
  }

  lemma AgreeingAreKnown(rows: seq<Row>, events: Events)
    requires SelectionsAgree(rows, events)
    ensures || (exists o | o in Unbound(rows, events) :: !Known(o))
            || (exists key | key in CallKeys(rows) :: NeverKnown(RowsOf(rows, key), events))
            || (forall key | key in CallKeys(rows) :: AlwaysKnown(RowsOf(rows, key), events))
  {
    hide MayCome, CallKeys, RowsOf, Unbound, Known;
    if (forall o | o in Unbound(rows, events) :: Known(o))
       && forall key | key in CallKeys(rows) :: !NeverKnown(RowsOf(rows, key), events) {
      forall key | key in CallKeys(rows) ensures exists o :: MayCome(RowsOf(rows, key), events, o) && Known(o) {
        assert !NeverKnown(RowsOf(rows, key), events);
      }
      var f := SelectWhere(rows, events, CallKeys(rows), Known);
      hide SelectionsAgree;
      forall key | key in CallKeys(rows) ensures AlwaysKnown(RowsOf(rows, key), events) {
        forall o | MayCome(RowsOf(rows, key), events, o) ensures Known(o) {
          NoneMissing(rows, events, f, key, o);
        }
      }
    }
  }

  /** The summary, or that there is none, is the same in every order of reading if and only if the calls are settled. */
  lemma SummaryIsSettled(a: seq<Ledger>, ea: Events)
    requires DistinctSources(a)
    ensures (forall b, eb | Reorders(b, eb, a, ea) :: AuditSummary(b, eb) == AuditSummary(a, ea))
            <==> Settled(CodexRows(a), ea)
  {
    var rows := CodexRows(a);
    var now := OutcomeUnder(rows, ea);
    hide CodexRows, AuditOutcomes, OutcomesWith, DistinctSources, OutcomeUnder, Settled, SummaryFrom, Reorders, Selects;
    InItsOwnOrder(a, ea);
    OrderIsSelection(a, ea, a, ea);
    SummaryFollows(AuditOutcomes(a, ea), OutcomesWith(rows, ea, now));
    if Settled(rows, ea) {
      forall b, eb | Reorders(b, eb, a, ea) ensures AuditSummary(b, eb) == AuditSummary(a, ea) {
        OrderIsSelection(a, ea, b, eb);
        SummaryFollows(AuditOutcomes(b, eb), OutcomesWith(rows, ea, OutcomeUnder(CodexRows(b), eb)));
        SettledAgree(rows, ea, now, OutcomeUnder(CodexRows(b), eb));
      }
    }
    if forall b, eb | Reorders(b, eb, a, ea) :: AuditSummary(b, eb) == AuditSummary(a, ea) {
      forall f | Selects(rows, ea, f) ensures SummaryFrom(OutcomesWith(rows, ea, f)) == AuditSummary(a, ea) {
        var b, eb := SelectionIsReached(a, ea, f);
        SummaryFollows(AuditOutcomes(b, eb), OutcomesWith(rows, ea, f));
      }
      AgreeingAreSettled(rows, ea);
    }
  }
}
