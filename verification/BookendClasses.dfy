/** What an executor's result and a verdict file say in words, and what scripts/bookend-task.py takes them for. */
module BookendClasses {
  import opened Wrappers
  import opened Strings
  import opened Bookend
  import opened BookendSupervisor

  /** The states an executor may claim. */
  const CLAIMS: set<string> := {
    "done_candidate", "semantic_blocked", "epoch_expired", "checkpoint_trigger", "runtime_blocked",
    "authority_blocked", "budget_exhausted"
  }

  lemma ClaimedBy(name: string)
    ensures Claimed(name) == Some(DoneCandidate) <==> name == "done_candidate"
    ensures Claimed(name) == Some(SemanticBlock) <==> name == "semantic_blocked"
    ensures Claimed(name) == Some(EpochExpired) <==> name == "epoch_expired"
    ensures Claimed(name) == Some(CheckpointTrigger) <==> name == "checkpoint_trigger"
    ensures Claimed(name) == Some(RuntimeBlock) <==> name == "runtime_blocked"
    ensures Claimed(name) == Some(AuthorityBlock) <==> name == "authority_blocked"
    ensures Claimed(name) == Some(BudgetExhaust) <==> name == "budget_exhausted"
    ensures Claimed(name) == None <==> name !in CLAIMS
  {}

  /**
   * The class of every result: the state it claims, unless it claims a candidate without a pass; without a claim a
   * semantic failure comes first, then a missing authority, then a pass. Output that is no JSON object is a failure.
   */
  lemma ClassifiedExactly(input: EpochInput)
    ensures var r := ResultOf(input);
            var claim := ReplaceChar(Lower(Strip(r.bookendState)), '-', '_');
            var failure := Lower(Strip(r.failureStatus));
            var semantic := failure in
                {"semantic-blocked", "semantic_blocked", "contract-conflict", "semantic-decision-required"};
            var authority := input.exitCode == 75 || failure == "needs-host-execution";
            var passed := r.status == "completed" && r.acceptanceStatus == "passed";
            var silent := claim !in CLAIMS;
            && (OutcomeOf(input) == DoneCandidate <==>
                  passed && (claim == "done_candidate" || (silent && !semantic && !authority)))
            && (OutcomeOf(input) == SemanticBlock <==> claim == "semantic_blocked" || (silent && semantic))
            && (OutcomeOf(input) == AuthorityBlock <==>
                  claim == "authority_blocked" || (silent && !semantic && authority))
            && (OutcomeOf(input) == RuntimeBlock <==>
                  || claim == "runtime_blocked" || (claim == "done_candidate" && !passed)
                  || (silent && !semantic && !authority && !passed))
            && (OutcomeOf(input) == EpochExpired <==> claim == "epoch_expired")
            && (OutcomeOf(input) == CheckpointTrigger <==> claim == "checkpoint_trigger")
            && (OutcomeOf(input) == BudgetExhaust <==> claim == "budget_exhausted")
  {
    var r := ResultOf(input);
    ClaimedBy(ReplaceChar(Lower(Strip(r.bookendState)), '-', '_'));
    hide Claimed, CLAIMS, Lower, Strip, ReplaceChar, ResultOf;
  }

  /** Output that is not one JSON object counts as a runtime failure. */
  lemma UnreadableIsFailure(input: EpochInput)
    requires input.output.None?
    ensures OutcomeOf(input) == RuntimeBlock && ResultOf(input).productWorktree == ""
    ensures ResultOf(input).error == "no-json-result" && !ResultOf(input).continuationSafe
  {
    FailureClaim();
    ClassifiedExactly(input);
    hide Lower, Strip, ReplaceChar;
  }

  lemma FailureClaim()
    ensures ReplaceChar(Lower(Strip("runtime_blocked")), '-', '_') == "runtime_blocked"
  {
    PlainWord("runtime_blocked");
  }

  lemma PlainWord(s: string)
    requires s != "" && !IsSpace(s[0]) && !IsSpace(s[|s| - 1])
    requires forall c | c in s :: c != '-' && !('A' <= c <= 'Z')
    ensures ReplaceChar(Lower(Strip(s)), '-', '_') == s
  {
    hide Strip, IsSpace;
    Unstripped(s);
    forall i | 0 <= i < |s| ensures Lower(s)[i] == s[i] {
      assert s[i] in s;
    }
    assert Lower(s) == s;
    forall i | 0 <= i < |s| ensures ReplaceChar(s, '-', '_')[i] == s[i] {
      assert s[i] in s;
    }
  }

  lemma Unstripped(s: string)
    requires s != "" && !IsSpace(s[0]) && !IsSpace(s[|s| - 1])
    ensures Strip(s) == s
  {}

  // ----- Verdicts ---------------------------------------------------------------------------------------------------

  /** The action of a verdict is its text, in any letter case and with outer white space. */
  lemma ActionMeans(v: Verdict)
    ensures ActionOf(v) == Accept <==> Lower(Strip(v.action)) == "accept"
    ensures ActionOf(v) == Revise <==> Lower(Strip(v.action)) == "revise"
    ensures ActionOf(v) == Resume <==> Lower(Strip(v.action)) == "continue"
    ensures ActionOf(v) == ResumeWithGuidance <==> Lower(Strip(v.action)) == "continue_with_guidance"
    ensures ActionOf(v) == Halt <==> Lower(Strip(v.action)) == "stop"
  {
    hide Lower, Strip;
  }

  const REVIEW_WORDS: set<string> := {"accept", "revise"}
  const CHECKPOINT_WORDS: set<string> := {"continue", "continue_with_guidance", "stop"}

  /** A poll finds a verdict for this task and contract with one of the awaited words. */
  predicate Addressed(config: Config, words: set<string>, poll: Option<Verdict>) {
    && poll.Some? && poll.value.taskId == config.taskId && poll.value.contractHash == config.contractHash
    && Lower(Strip(poll.value.action)) in words
  }

  /** It is the first such verdict. */
  ghost predicate Answers(config: Config, words: set<string>, polls: seq<Option<Verdict>>, v: Verdict) {
    exists i | 0 <= i < |polls| ::
      && polls[i] == Some(v) && Addressed(config, words, polls[i])
      && forall k | 0 <= k < i :: !Addressed(config, words, polls[k])
  }

  lemma MatchesInWords(config: Config, poll: Option<Verdict>)
    ensures Matches(config, REVIEW_ACTIONS, poll) <==> Addressed(config, REVIEW_WORDS, poll)
    ensures Matches(config, CHECKPOINT_ACTIONS, poll) <==> Addressed(config, CHECKPOINT_WORDS, poll)
  {
    hide ActionOf, Lower, Strip, REVIEW_ACTIONS, CHECKPOINT_ACTIONS, REVIEW_WORDS, CHECKPOINT_WORDS;
    if poll.Some? {
      ActionMeans(poll.value);
      WordsAre(ActionOf(poll.value), Lower(Strip(poll.value.action)));
    }
  }

  lemma WordsAre(action: Action, word: string)
    requires action == Accept <==> word == "accept"
    requires action == Revise <==> word == "revise"
    requires action == Resume <==> word == "continue"
    requires action == ResumeWithGuidance <==> word == "continue_with_guidance"
    requires action == Halt <==> word == "stop"
    ensures action in REVIEW_ACTIONS <==> word in REVIEW_WORDS
    ensures action in CHECKPOINT_ACTIONS <==> word in CHECKPOINT_WORDS
  {}

  /** Both waits return the first verdict for this task and contract that says an awaited word. */
  lemma AwaitInWords(config: Config, polls: seq<Option<Verdict>>, v: Verdict)
    ensures Await(config, REVIEW_ACTIONS, polls) == Some(v) <==> Answers(config, REVIEW_WORDS, polls, v)
    ensures Await(config, CHECKPOINT_ACTIONS, polls) == Some(v) <==> Answers(config, CHECKPOINT_WORDS, polls, v)
  {
    AwaitFindsFirst(config, REVIEW_ACTIONS, polls);
    AwaitFindsFirst(config, CHECKPOINT_ACTIONS, polls);
    forall i | 0 <= i < |polls|
      ensures Matches(config, REVIEW_ACTIONS, polls[i]) <==> Addressed(config, REVIEW_WORDS, polls[i])
      ensures Matches(config, CHECKPOINT_ACTIONS, polls[i]) <==> Addressed(config, CHECKPOINT_WORDS, polls[i])
    {
      MatchesInWords(config, polls[i]);
    }
    hide Matches, Addressed, Await, REVIEW_ACTIONS, CHECKPOINT_ACTIONS, REVIEW_WORDS, CHECKPOINT_WORDS;
  }
}
