/** Inputs on which the order of reading shows in the audit of scripts/audit-codex-wakeups.py. */
module AuditExamples {
  import opened Wrappers
  import opened JsonValues
  import opened Permutations
  import opened StableSort
  import opened WakeupAudit
  import opened AuditSums
  import opened AuditCalls
  import opened AuditOrder
  import opened AuditSettled
  import opened AuditKinds
  import opened AuditRounding
  import opened AuditScript

  /** A row of the one call the examples are about, or of one that does not name its call. */
  function Example(callId: string, tokens: Json): Row {
    Row(true, "r", "t", callId, ("", "", ""), Core(Null, tokens, Null, []), "")
  }

  /** Its episode. */
  function Bare(callId: string, tokens: Option<Count>): Episode {
    Episode(("r", "t", callId), Indeterminate, tokens)
  }

  function OneLog(rows: seq<Row>): seq<Ledger> {
    [Ledger("l", Some(rows))]
  }

  lemma OneLogRows(rows: seq<Row>)
    requires forall row | row in rows :: row.isCodex
    ensures DistinctSources(OneLog(rows)) && CodexRows(OneLog(rows)) == rows
  {
    LedgerHasCodexRows("l", rows);
    assert OneLog(rows)[..0] == [];
    assert AllRows(OneLog(rows)) == [] + LedgerRows("l", rows);
  }

  /** Rows of one call make one outcome. */
  lemma OneCallOutcome(rows: seq<Row>, key: Key, events: Events)
    requires rows != [] && forall row | row in rows :: row.isCodex && IsRowOf(key)(row)
    ensures AuditOutcomes(OneLog(rows), events) == [CallOutcome(rows, events)]
  {
    hide *;
    OneLogRows(rows);
    BuiltFromRows(OneLog(rows), events);
    OneCallOutcomes(rows, key, events);
    OnlyElement(AuditOutcomes(OneLog(rows), events), CallOutcome(rows, events));
  }

  lemma OneCallOutcomes(rows: seq<Row>, key: Key, events: Events)
    requires rows != [] && forall row | row in rows :: IsRowOf(key)(row)
    ensures multiset(OutcomesOf(rows, events)) == multiset{CallOutcome(rows, events)}
  {
    KeepAll(IsRowOf(key), rows);
    KeepNone(Unidentified, rows);
    OneCallKey(rows, key);
    hide CallOutcome, Keep, CallKeys, RowOutcome;
    assert OutcomesOf(rows, events) == [CallOutcome(rows, events)];
  }

  lemma OneCallKey(rows: seq<Row>, key: Key)
    requires rows != [] && forall row | row in rows :: IsRowOf(key)(row)
    ensures CallKeys(rows) == [key]
  {
    CallKeysAre(rows);
    var keys := CallKeys(rows);
    assert rows[0] in rows && Identified(rows[0]) && CanonicalOf(rows[0]) == key;
    assert key in keys;
    forall k | k in keys ensures k == key {
      var row :| row in rows && Identified(row) && CanonicalOf(row) == k;
      assert IsRowOf(key)(row);
    }
    hide CallKeys;
    DistinctPermutes(keys, [key]);
    OnlyElement(keys, key);
  }

  /** A row without annotation and stage counts its tokens, if they are a number, as indeterminate. */
  lemma BareOutcome(callId: string, tokens: Json, events: Events)
    requires events == map[]
    ensures RowOutcome(Example(callId, tokens), false, events)
         == Counted(Bare(callId, if IsNumber(tokens) then Some(Count(NumberOf(tokens), tokens.Int?)) else None))
  {
    assert Candidates(Example(callId, tokens), events) == [];
  }

  /** Two readings of one token count, `1` and `true`: folded as equal, and the first one read decides. */
  lemma MixedCountsDependOnOrder()
    ensures var (one, yes) := (Example("c", Int(1)), Example("c", Bool(true)));
            && SameCore(one.core, yes.core)
            && AuditSummary(OneLog([one, yes]), map[]) == Some(Summary(0.0, 0.0, 1.0, true, Some(0.0), Some(1.0)))
            && AuditSummary(OneLog([yes, one]), map[]) == Some(Summary(0.0, 0.0, 0.0, false, None, None))
  {
    var (one, yes) := (Example("c", Int(1)), Example("c", Bool(true)));
    var key := Canonical("r", "t", "c");
    CountsAreSame();
    hide SameCore, CoreMeaning;
    assert SameCore(yes.core, one.core) && SameCore(one.core, one.core) && SameCore(yes.core, yes.core)
        by { SameEitherWay(one.core, yes.core); }
    OneCallOutcome([one, yes], key, map[]);
    OneCallOutcome([yes, one], key, map[]);
    BareOutcome("c", Int(1), map[]);
    BareOutcome("c", Bool(true), map[]);
    hide RowOutcome, AuditOutcomes;
    assert !InConflict([one, yes]) && !InConflict([yes, one]);
    OneEpisode(OneLog([one, yes]), Bare("c", Some(Count(1.0, true))), map[]);
    OneEpisode(OneLog([yes, one]), Bare("c", None), map[]);
  }

  lemma CountsAreSame()
    ensures SameCore(Example("c", Int(1)).core, Example("c", Bool(true)).core)
  {}

  lemma SameEitherWay(a: Core, b: Core)
    requires SameCore(a, b)
    ensures SameCore(b, a) && SameCore(a, a) && SameCore(b, b)
  {
    hide CoreMeaning;
  }

  /** The summary over one indeterminate episode. */
  lemma OneEpisode(ledgers: seq<Ledger>, e: Episode, events: Events)
    requires AuditOutcomes(ledgers, events) == [Counted(e)] && e.counterfactual == Indeterminate
    ensures AuditSummary(ledgers, events)
         == Some(if e.inputTokens.Some? then Summary(0.0, 0.0, Tokens(e), true, Some(0.0), Some(Tokens(e)))
                 else Summary(0.0, 0.0, 0.0, false, None, None))
  {
    hide AuditOutcomes;
    CollectedSummary([Counted(e)]);
    assert Map(EpisodeIn, [Counted(e)]) == [e];
    assert [e][1..] == [];
    KnownOfOne(IsRequired, e);
    KnownOfOne(IsAvoidable, e);
    KnownOfOne(IsIndeterminate, e);
    assert Sum(Tokens, [e]) == Tokens(e) && Sum(Tokens, []) == 0.0;
    hide KnownOf, SummaryFrom;
  }

  lemma KnownOfOne(p: Counterfactual -> bool, e: Episode)
    ensures KnownOf(p, [e]) == if p(e.counterfactual) && e.inputTokens.Some? then [e] else []
  {
    var q := (x: Episode) => p(x.counterfactual) && x.inputTokens.Some?;
    KeepStep(q, e, []);
    assert [e] + [] == [e];
  }

  function Claim(iteration: Json): Annotation {
    map[
      BookendCounterfactual := Text("required_freeze"), ClassificationConfidence := Text("deterministic"),
      EvidenceRefs := List([Text("e")]), Iteration := iteration
    ]
  }

  /** The claim is valid but for its iteration. */
  lemma ClaimIsChecked(iteration: Json)
    ensures Check(Claim(iteration)) == if IsIteration(iteration) then Chosen(Claim(iteration)) else NoAnnotation
    ensures CounterfactualOf(Claim(iteration)) == Some(RequiredFreeze)
  {
    hide Named, DEFINITE, MECHANICAL_CAUSES, SEMANTIC_CAUSES, CAUSES, TRIGGERS;
    ClaimWords(iteration);
    hide CounterfactualOf, HasConfidence;
  }

  lemma ClaimWords(iteration: Json)
    ensures var a := Claim(iteration);
            && CounterfactualOf(a) == Some(RequiredFreeze) && HasConfidence(a)
            && NullOr(Get(a, ClassificationConfidence), DEFINITE + {"indeterminate"})
  {}

  /** An annotation whose iteration is `1` in one event and `1.0` in another: equal, but only the first is valid. */
  lemma MixedIterationsDependOnOrder()
    ensures var (whole, float) := (Claim(Int(1)), Claim(Float(1.0)));
            var rows := [Example("c", Int(1))];
            && Compared(whole) == Compared(float)
            && AuditOutcomes(OneLog(rows), map[("r", "t", "c") := [whole, float]])
               == [Counted(Bare("c", Some(Count(1.0, true))).(counterfactual := RequiredFreeze))]
            && AuditOutcomes(OneLog(rows), map[("r", "t", "c") := [float, whole]])
               == [Counted(Bare("c", Some(Count(1.0, true))))]
  {
    hide AuditOutcomes, Compared, Check, Claim, CounterfactualOf, OneLog, Example;
    ClaimsCompare();
    ClaimIsChecked(Int(1));
    ClaimIsChecked(Float(1.0));
    ClaimedCall(Claim(Int(1)), Claim(Float(1.0)));
    ClaimedCall(Claim(Float(1.0)), Claim(Int(1)));
  }

  lemma ClaimedCall(first: Annotation, second: Annotation)
    requires Compared(first) == Compared(second) && !Check(first).Raises?
    requires Check(first).Chosen? ==> CounterfactualOf(Check(first).a) == Some(RequiredFreeze)
    ensures AuditOutcomes(OneLog([Example("c", Int(1))]), map[("r", "t", "c") := [first, second]])
         == [Counted(Bare("c", Some(Count(1.0, true))).(
                 counterfactual := if Check(first).Chosen? then RequiredFreeze else Indeterminate))]
  {
    ClaimedOutcome(first, second);
    hide AuditOutcomes, Compared, Check, CounterfactualOf, RowOutcome;
    OneCallOutcome([Example("c", Int(1))], Canonical("r", "t", "c"), map[("r", "t", "c") := [first, second]]);
  }

  lemma ClaimsCompare()
    ensures Compared(Claim(Int(1))) == Compared(Claim(Float(1.0)))
  {
    var (a, b) := (Claim(Int(1)) - {CallId, SourceRef}, Claim(Float(1.0)) - {CallId, SourceRef});
    assert a.Keys == b.Keys;
    SameUnfolds(Object(a), Object(b));
  }

  lemma ClaimedOutcome(first: Annotation, second: Annotation)
    requires Compared(first) == Compared(second) && !Check(first).Raises?
    requires Check(first).Chosen? ==> CounterfactualOf(Check(first).a) == Some(RequiredFreeze)
    ensures RowOutcome(Example("c", Int(1)), false, map[("r", "t", "c") := [first, second]])
         == Counted(Bare("c", Some(Count(1.0, true))).(
                counterfactual := if Check(first).Chosen? then RequiredFreeze else Indeterminate))
  {
    hide Compared, Check, CounterfactualOf;
    var events := map[("r", "t", "c") := [first, second]];
    assert Candidates(Example("c", Int(1)), events) == [first, second];
  }

  // ----- Floats -----------------------------------------------------------------------------------------------------

  /** Rows that do not name their calls are calls of their own, in the order they are read. */
  lemma BareOutcomes(rows: seq<Row>, events: Events)
    requires forall row | row in rows :: row.isCodex && Unidentified(row)
    ensures AuditOutcomes(OneLog(rows), events) == Map(row => RowOutcome(row, false, events), rows)
  {
    var located := AllRows(OneLog(rows));
    OneLogRows(rows);
    AllRowsApart(OneLog(rows));
    RowsMembers(located);
    hide OneLog, AllRows, RowOutcome, Unidentified;
    KeepAll(Unidentified, rows);
    UnidentifiedOutcomes(located, events);
  }

  lemma UnidentifiedOutcomes(located: seq<Located>, events: Events)
    requires PlacedApart(located) && forall l | l in located :: UnidentifiedAt(l)
    ensures Outcomes(Records(located), events)
         == Map(row => RowOutcome(row, false, events), Keep(Unidentified, Rows(located)))
  {
    KeysHaveRows(located);
    forall key | key in Keys(located) ensures IsPlace(key) {
      var l :| l in located && KeyOf(l) == key;
      assert UnidentifiedAt(l);
    }
    hide KeyOf, EntryOutcome, RowOutcome, Rows, Outcomes, UnidentifiedAt, Unidentified, IsPlace;
    KeepAll(IsPlace, Keys(located));
    PlacesAmongKeys(located);
    OutcomesByKey(located, events);
    PlaceEntries(located, events);
  }

  /** A row without call id that counts a float, and its episode. */
  function FloatRow(x: real): Row {
    Example("", Float(x))
  }

  function FloatEpisode(x: real): Episode {
    Bare("", Some(Count(x, false)))
  }

  function Floats(x: real, y: real, z: real): seq<Row> {
    [FloatRow(x), FloatRow(y), FloatRow(z)]
  }

  function ThreeAdded(round: real -> real, x: real, y: real, z: real): real {
    round(round(round(round(round(round(0.0) + round(x))) + round(y))) + round(z))
  }

  /** The summary printed for three rows that count floats and do not name their calls. */
  lemma FloatsSummary(round: real -> real, x: real, y: real, z: real)
    ensures var sum := ThreeAdded(round, x, y, z);
            ScriptAudit(PlainSum(round), Plus(round), OneLog(Floats(x, y, z)), map[])
            == Some(Summary(0.0, 0.0, sum, true, Some(0.0), Some(round(round(0.0) + round(sum)))))
  {
    var episodes := [FloatEpisode(x), FloatEpisode(y), FloatEpisode(z)];
    hide AuditOutcomes, ScriptSummary, Floats, FloatEpisode, OneLog, ThreeAdded, SortBy;
    FloatsOutcomes(x, y, z);
    CountedAreCollected(episodes);
    FloatsSorted(x, y, z);
    SortedStays(Ids, episodes);
    FloatsScript(round, x, y, z);
  }

  lemma CountedAreCollected(episodes: seq<Episode>)
    ensures Collected(Map(Counting, episodes)) == Some(SortBy(Ids, episodes))
  {
    assert Map(EpisodeIn, Map(Counting, episodes)) == episodes;
    hide SortBy;
  }

  lemma FloatsSorted(x: real, y: real, z: real)
    ensures Ascends(Ids, [FloatEpisode(x), FloatEpisode(y), FloatEpisode(z)])
  {
    assert Before(("r", "t", ""), ("r", "t", ""));
  }

  function Counting(e: Episode): Outcome {
    Counted(e)
  }

  lemma FloatsOutcomes(x: real, y: real, z: real)
    ensures AuditOutcomes(OneLog(Floats(x, y, z)), map[])
         == Map(Counting, [FloatEpisode(x), FloatEpisode(y), FloatEpisode(z)])
  {
    FloatOutcome(x);
    FloatOutcome(y);
    FloatOutcome(z);
    hide AuditOutcomes, RowOutcome, FloatRow, FloatEpisode, OneLog, Unidentified;
    BareOutcomes(Floats(x, y, z), map[]);
  }

  lemma FloatOutcome(x: real)
    ensures FloatRow(x).isCodex && Unidentified(FloatRow(x))
    ensures RowOutcome(FloatRow(x), false, map[]) == Counting(FloatEpisode(x))
  {
    BareOutcome("", Float(x), map[]);
    hide RowOutcome;
  }

  lemma FloatsScript(round: real -> real, x: real, y: real, z: real)
    ensures var episodes := [FloatEpisode(x), FloatEpisode(y), FloatEpisode(z)];
            var sum := ThreeAdded(round, x, y, z);
            ScriptSummary(PlainSum(round), Plus(round), episodes)
            == Summary(0.0, 0.0, sum, true, Some(0.0), Some(round(round(0.0) + round(sum))))
  {
    var e, f, g := FloatEpisode(x), FloatEpisode(y), FloatEpisode(z);
    CountsOfThree(IsRequired, e, f, g);
    CountsOfThree(IsAvoidable, e, f, g);
    CountsOfThree(IsIndeterminate, e, f, g);
    AccumulatedThree(round, x, y, z);
    hide CountsOf, Accumulated, ThreeAdded;
  }

  lemma CountsOfThree(p: Counterfactual -> bool, e: Episode, f: Episode, g: Episode)
    requires e.inputTokens.Some? && f.inputTokens.Some? && g.inputTokens.Some?
    requires p(e.counterfactual) == p(f.counterfactual) == p(g.counterfactual)
    ensures CountsOf(p, [e, f, g]) == if p(e.counterfactual) then [CountIn(e), CountIn(f), CountIn(g)] else []
  {
    assert [e, f, g] == [e] + ([f] + ([g] + []));
    CountsStep(p, e, [f] + ([g] + []));
    CountsStep(p, f, [g] + []);
    CountsStep(p, g, []);
    assert CountsOf(p, []) == [];
    hide CountsOf, CountIn;
  }

  lemma AccumulatedThree(round: real -> real, x: real, y: real, z: real)
    ensures Accumulated(round, [Count(x, false), Count(y, false), Count(z, false)]) ==
        Count(ThreeAdded(round, x, y, z), false)
    ensures Accumulated(round, []) == Count(0.0, true)
  {
    AccumulatedStep(round, [], Count(x, false));
    AccumulatedStep(round, [Count(x, false)], Count(y, false));
    AccumulatedStep(round, [Count(x, false), Count(y, false)], Count(z, false));
    assert [] + [Count(x, false)] == [Count(x, false)];
    assert [Count(x, false)] + [Count(y, false)] == [Count(x, false), Count(y, false)];
    assert [Count(x, false), Count(y, false)] + [Count(z, false)] ==
        [Count(x, false), Count(y, false), Count(z, false)];
  }

  /**
   * Three rows that count floats and do not name their calls are sorted alike,
       so they are accumulated as they are read:
   * two orders give two sums when rounding goes to the nearest double and half-way to the even one.
   */
  lemma FloatSumsDependOnOrder(round: real -> real)
    requires KeepsIntegers(round)
    requires round(9007199254740993.0) == 9007199254740992.0 && round(9007199254740994.0) == 9007199254740994.0
    ensures var big := 9007199254740992.0;
            var (a, b) := (OneLog(Floats(big, 1.0, 1.0)), OneLog(Floats(1.0, 1.0, big)));
            && DistinctSources(a) && AllSteady(CodexRows(a), map[]) && Reorders(b, map[], a, map[])
            && ScriptAudit(PlainSum(round), Plus(round), a, map[])
               == Some(Summary(0.0, 0.0, big, true, Some(0.0), Some(big)))
            && ScriptAudit(PlainSum(round), Plus(round), b, map[])
               == Some(Summary(0.0, 0.0, big + 2.0, true, Some(0.0), Some(big + 2.0)))
  {
    var big := 9007199254740992.0;
    hide *;
    FloatsReorder(big);
    FloatsRounded(round);
    FloatsSummary(round, big, 1.0, 1.0);
    FloatsSummary(round, 1.0, 1.0, big);
  }

  lemma FloatsRounded(round: real -> real)
    requires KeepsIntegers(round)
    requires round(9007199254740993.0) == 9007199254740992.0 && round(9007199254740994.0) == 9007199254740994.0
    ensures var big := 9007199254740992.0;
            && ThreeAdded(round, big, 1.0, 1.0) == big && ThreeAdded(round, 1.0, 1.0, big) == big + 2.0
            && round(round(0.0) + round(big)) == big && round(round(0.0) + round(big + 2.0)) == big + 2.0
  {
    assert round(0.0) == 0.0 && round(1.0) == 1.0 && round(2.0) == 2.0
        && round(9007199254740992.0) == 9007199254740992.0;
  }

  lemma FloatsReorder(big: real)
    ensures var (a, b) := (OneLog(Floats(big, 1.0, 1.0)), OneLog(Floats(1.0, 1.0, big)));
            DistinctSources(a) && AllSteady(CodexRows(a), map[]) && Reorders(b, map[], a, map[])
  {
    var (xs, ys) := (Floats(big, 1.0, 1.0), Floats(1.0, 1.0, big));
    FloatOutcome(big);
    FloatOutcome(1.0);
    hide OneLog, CodexRows, CallKeys, FloatRow, RowOutcome, Identified, Steady, DistinctSources;
    OneLogRows(xs);
    OneLogRows(ys);
    CallKeysAre(xs);
    assert multiset(xs) == multiset(ys);
  }
}
