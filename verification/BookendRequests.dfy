/**
 * The review requests a supervised run emits: what keeps them valid, when they are rejected at once, and how the
 * waits for their verdicts end.
 */
module BookendRequests {
  import opened Wrappers
  import opened Strings
  import opened Bookend
  import opened BookendTrace
  import opened BookendReview
  import opened BookendSupervisor

  /** The world in which an epoch's candidate is projected. */
  function Projected(p: Platform, w: World, epoch: int, input: EpochInput): World {
    var executed := Execute(p, w, epoch, input);
    Update(executed, executed.rec, Projecting)
  }

  /** Every executed epoch has its result recorded and on disk. */
  lemma ResultIsRecorded(p: Platform, w: World, epoch: int, input: EpochInput)
    ensures var x := Projected(p, w, epoch, input);
            && x.rec.config == w.rec.config && x.rec.lastResult == Some(Control(EpochResult(epoch)))
            && Control(EpochResult(epoch)) in x.files
            && forall path | path != Control(EpochResult(epoch)) ::
                 (path in x.files <==> path in input.files)
                     && (path in input.files ==> x.files[path] == input.files[path])
  {
    hide Log;
  }

  /**
   * A review request of a supervised epoch is accepted later exactly when the contract, as the executor left it,
   * still matched, and contract, result, projection, capsule and diff all have the bytes they had at emission.
   */
  lemma SupervisedRequestStands(p: Platform, w: World, epoch: int, input: EpochInput, diff: Path, kind: WakeKind,
      files: Files)
    requires Sound(p) && ForReview(kind) && BuildProjection(p, Projected(p, w, epoch, input), Some(diff)).Ok?
    ensures var x := Projected(p, w, epoch, input);
            var built := BuildProjection(p, x, Some(diff)).value;
            var (frozen, result) := (Control(FrozenTask), Control(EpochResult(epoch)));
            RequestOk(p, files, w.rec.config, WakeFor(p, built, kind)) <==>
            && frozen in input.files && p.sha(input.files[frozen]) == w.rec.config.contractHash
            && Holds(files, frozen, input.files[frozen]) && Holds(files, result, x.files[result])
            && Holds(files, Control(ProjectionFile), built.files[Control(ProjectionFile)])
            && Holds(files, Control(CapsuleFile), built.files[Control(CapsuleFile)])
            && Holds(files, diff, x.files[diff])
  {
    hide *;
    ResultIsRecorded(p, w, epoch, input);
    BuildKeeps(p, Projected(p, w, epoch, input), diff);
    RequestIsValidWhileArtifactsStand(p, Projected(p, w, epoch, input), diff, kind, files);
  }

  /** Projecting a diff leaves every file but the projection and the capsule. */
  lemma BuildKeeps(p: Platform, x: World, diff: Path)
    requires BuildProjection(p, x, Some(diff)).Ok?
    ensures var built := BuildProjection(p, x, Some(diff)).value;
            && Control(ProjectionFile) in built.files && Control(CapsuleFile) in built.files && diff in x.files
            && forall path | path in x.files && path !in {Control(ProjectionFile), Control(CapsuleFile)} ::
                 path in built.files && built.files[path] == x.files[path]
  {
    hide Log, ProjectionFor, ArtifactRef;
  }

  /**
   * Right after its emission a review request is accepted exactly when the executor left the contract as it was and
   * the projection, capsule and request, which are written after the diff is read, left the diff as it was.
   */
  lemma RequestIsValidAtOnce(p: Platform, w: World, epoch: int, input: EpochInput, diff: Path, kind: WakeKind)
    requires Sound(p) && ForReview(kind) && BuildProjection(p, Projected(p, w, epoch, input), Some(diff)).Ok?
    ensures var x := Projected(p, w, epoch, input);
            var built := BuildProjection(p, x, Some(diff)).value;
            var files := EmitWake(p, built, kind).files;
            && (RequestOk(p, files, w.rec.config, WakeFor(p, built, kind)) <==>
                  && Control(FrozenTask) in input.files
                  && p.sha(input.files[Control(FrozenTask)]) == w.rec.config.contractHash
                  && files[diff] == x.files[diff])
            && (diff !in {Control(ProjectionFile), Control(CapsuleFile), Control(WakeRequestFile)} ==>
                  files[diff] == x.files[diff])
  {
    hide *;
    var x := Projected(p, w, epoch, input);
    var files := EmitWake(p, BuildProjection(p, x, Some(diff)).value, kind).files;
    ResultIsRecorded(p, w, epoch, input);
    EmissionKeeps(p, x, diff, kind);
    SupervisedRequestStands(p, w, epoch, input, diff, kind, files);
    HoldsMeans(files, diff, x.files[diff]);
    if Control(FrozenTask) in input.files {
      HoldsMeans(files, Control(FrozenTask), input.files[Control(FrozenTask)]);
    }
  }

  lemma HoldsMeans(files: Files, path: Path, content: Bytes)
    ensures Holds(files, path, content) <==> path in files && files[path] == content
  {}

  /** Projecting and requesting a review write three files and leave all others. */
  lemma EmissionKeeps(p: Platform, x: World, diff: Path, kind: WakeKind)
    requires BuildProjection(p, x, Some(diff)).Ok?
    ensures var built := BuildProjection(p, x, Some(diff)).value;
            var files := EmitWake(p, built, kind).files;
            && Control(ProjectionFile) in built.files && Control(CapsuleFile) in built.files
            && Holds(files, Control(ProjectionFile), built.files[Control(ProjectionFile)])
            && Holds(files, Control(CapsuleFile), built.files[Control(CapsuleFile)])
            && diff in x.files && diff in files
            && forall path | path in x.files
                && path !in {Control(ProjectionFile), Control(CapsuleFile), Control(WakeRequestFile)} ::
                 Holds(files, path, x.files[path])
  {
    hide Log, ProjectionFor, ArtifactRef, WakeFor;
  }

  // ----- Requests rejected at once -------------------------------------------------------------------------------

  /** One wake request went out, the review request on disk, and its validation rejects it. */
  ghost predicate EndsRejected(p: Platform, config: Config, w: World) {
    && Wakes(w.trace) == 1 && w.rec.reviewRequest == Some(Control(WakeRequestFile))
        && Control(WakeRequestFile) in w.files
    && exists request :: p.load(w.files[Control(WakeRequestFile)]) == Some(WakeDoc(request))
                         && ForReview(request.kind) && !RequestOk(p, w.files, config, request)
  }

  predicate IsRequest(p: Platform, content: Bytes) {
    p.load(content).Some? && p.load(content).value.WakeDoc?
  }

  /** A run of one epoch that stops there. */
  lemma OneEpochRun(p: Platform, config: Config, files: Files, env: int -> EpochInput)
    requires config.maxEpochs == 1 && Control(FrozenTask) in files
    requires p.sha(files[Control(FrozenTask)]) == config.contractHash
    ensures var start := Submission(config, files);
            var s := AfterResult(p, Execute(p, start, 1, env(1)), 1, 1, env(1));
            s.Stop? ==> Supervise(p, start, Some(config.baseSha), env) == s.w
  {
    hide Execute, AfterResult, Log;
  }

  /** A candidate whose review nobody answers ends the run. */
  lemma UnansweredReviewStops(p: Platform, w: World, input: EpochInput)
    requires input.reviewPolls == [] && OutcomeOf(input) == DoneCandidate
    ensures AfterResult(p, w, 1, 1, input) == AfterCandidate(p, w, 1, input) && AfterCandidate(p, w, 1, input).Stop?
  {
    hide BuildProjection, RequestReview, Update, Note, OutcomeOf, ActionOf, Certify, Write;
  }

  lemma ProjectedIs(p: Platform, w: World, input: EpochInput)
    ensures Projected(p, w, 1, input) == Update(Execute(p, w, 1, input), Execute(p, w, 1, input).rec, Projecting)
  {
    hide Execute, Update;
  }

  lemma FreshEpoch(p: Platform, config: Config, files: Files, input: EpochInput)
    ensures var x := Projected(p, Submission(config, files), 1, input); x.rec.revisionCount == 0 && Wakes(x.trace) == 0
  {}

  /** What an unanswered first review leaves behind: one wake request, on disk as it was emitted. */
  lemma ReviewOf(p: Platform, x: World, diff: Path, executed: World, input: EpochInput)
    requires Sound(p) && x == Update(executed, executed.rec, Projecting) && input.diff == Some(diff)
        && input.reviewPolls == []
    requires BuildProjection(p, x, Some(diff)).Ok? && x.rec.revisionCount == 0 && Wakes(x.trace) == 0
    ensures var w := AfterCandidate(p, executed, 1, input).w;
            var built := BuildProjection(p, x, Some(diff)).value;
            var request := WakeFor(p, built, FinalReview);
            && Wakes(w.trace) == 1 && w.rec.reviewRequest == Some(Control(WakeRequestFile))
            && w.files == EmitWake(p, built, FinalReview).files && Control(WakeRequestFile) in w.files
            && p.load(w.files[Control(WakeRequestFile)]) == Some(WakeDoc(request)) && ForReview(request.kind)
  {
    hide Wakes, Log, ProjectionFor, ArtifactRef, ProjectedDiff, Revised, ActionOf;
    var request := WakeFor(p, BuildProjection(p, x, Some(diff)).value, FinalReview);
    assert p.load(p.dump(WakeDoc(request))) == Some(WakeDoc(request));
  }

  /**
   * A supervised run whose only epoch ends in a candidate that nobody reviews: the one request it emits is rejected
   * from the start if and only if the executor did not leave the contract as it was, or asking changed the diff.
   */
  lemma UnansweredRequestIsRejected(p: Platform, config: Config, files: Files, env: int -> EpochInput)
    requires Sound(p) && config.maxEpochs == 1 && OutcomeOf(env(1)) == DoneCandidate && env(1).reviewPolls == []
    requires Control(FrozenTask) in files && p.sha(files[Control(FrozenTask)]) == config.contractHash
    requires env(1).diff.Some?
        && BuildProjection(p, Projected(p, Submission(config, files), 1, env(1)), env(1).diff).Ok?
    ensures var w := Supervise(p, Submission(config, files), Some(config.baseSha), env);
            var (left, diff) := (env(1).files, env(1).diff.value);
            var x := Projected(p, Submission(config, files), 1, env(1));
            && diff in w.files && diff in x.files && Control(WakeRequestFile) in w.files
            && IsRequest(p, w.files[Control(WakeRequestFile)])
            && (EndsRejected(p, config, w) <==>
                  !(&& Control(FrozenTask) in left && p.sha(left[Control(FrozenTask)]) == config.contractHash
                    && w.files[diff] == x.files[diff]))
  {
    var start, input := Submission(config, files), env(1);
    var x, diff := Projected(p, start, 1, input), input.diff.value;
    var executed := Execute(p, start, 1, input);
    FreshEpoch(p, config, files, input);
    hide *;
    OneEpochRun(p, config, files, env);
    UnansweredReviewStops(p, executed, input);
    ProjectedIs(p, start, input);
    EmissionKeeps(p, x, diff, FinalReview);
    ReviewOf(p, x, diff, executed, input);
    RequestIsValidAtOnce(p, start, 1, input, diff, FinalReview);
    SubmittedConfig(config, files);
    OneRequest(p, config, AfterCandidate(p, executed, 1, input).w,
        WakeFor(p, BuildProjection(p, x, Some(diff)).value, FinalReview));
  }

  lemma SubmittedConfig(config: Config, files: Files)
    ensures Submission(config, files).rec.config == config
  {}

  lemma OneRequest(p: Platform, config: Config, w: World, request: WakeRequest)
    requires Wakes(w.trace) == 1 && w.rec.reviewRequest == Some(Control(WakeRequestFile))
    requires Control(WakeRequestFile) in w.files && ForReview(request.kind)
    requires p.load(w.files[Control(WakeRequestFile)]) == Some(WakeDoc(request))
    ensures IsRequest(p, w.files[Control(WakeRequestFile)])
    ensures EndsRejected(p, config, w) <==> !RequestOk(p, w.files, config, request)
  {
    hide RequestOk, Wakes;
  }

  /** What an executor prints for a completed run whose acceptance passed. */
  const PASSED: ExecResult := ExecResult("completed", "passed", "", "", "", "", false, None, "", None, "")

  /** It leaves some files, one of them its diff, and nobody reviews them. */
  function Passing(files: Files, diff: Path): EpochInput {
    EpochInput(0, Some(PASSED), files, Some(diff), Ok(""), [], [])
  }

  lemma PassedIsCandidate(files: Files, diff: Path)
    ensures OutcomeOf(Passing(files, diff)) == DoneCandidate && Passing(files, diff).reviewPolls == []
  {
    hide Strip, Lower, Claimed, ReplaceChar, ClassifyResult, SEMANTIC_FAILURES;
    EmptyTexts();
    CandidateExactly(0, PASSED);
  }

  lemma EmptyTexts()
    ensures Lower(Strip("")) == "" && ReplaceChar("", '-', '_') == "" && Claimed("") == None
    ensures "" !in SEMANTIC_FAILURES && "" != "needs-host-execution"
  {
    assert Claimed("") == None by { NothingClaimed(""); }
    assert "" !in SEMANTIC_FAILURES by { NoFailureNamed(""); }
    hide Claimed, SEMANTIC_FAILURES;
    assert Strip("") == "";
  }

  lemma NothingClaimed(name: string)
    requires |name| == 0
    ensures Claimed(name) == None
  {}

  lemma NoFailureNamed(name: string)
    requires |name| == 0
    ensures name !in SEMANTIC_FAILURES
  {}

  lemma PassingIsProjected(p: Platform, w: World, files: Files, diff: Path)
    requires diff in files && files[diff] != [] && diff != Control(EpochResult(1))
    ensures BuildProjection(p, Projected(p, w, 1, Passing(files, diff)), Some(diff)).Ok?
    ensures Projected(p, w, 1, Passing(files, diff)).files[diff] == files[diff]
  {
    ResultIsRecorded(p, w, 1, Passing(files, diff));
    hide Projected, Write, ProjectionFor, ArtifactRef;
  }

  const DIFF: Path := External("diff")

  /** The executor leaves a one-byte diff, and another text in the place of the frozen task. */
  lemma RewrittenContractIsRejected(p: Platform, config: Config, files: Files, rewritten: Bytes, env: int -> EpochInput)
    requires Sound(p) && config.maxEpochs == 1
    requires env(1) == Passing(files[Control(FrozenTask) := rewritten][DIFF := [0]], DIFF)
    requires Control(FrozenTask) in files && p.sha(files[Control(FrozenTask)]) == config.contractHash
    requires rewritten != files[Control(FrozenTask)]
    ensures EndsRejected(p, config, Supervise(p, Submission(config, files), Some(config.baseSha), env))
  {
    var left := files[Control(FrozenTask) := rewritten][DIFF := [0]];
    assert left[DIFF] == [0] && left[Control(FrozenTask)] == rewritten;
    assert p.sha(rewritten) != config.contractHash;
    PassedIsCandidate(left, DIFF);
    PassingIsProjected(p, Submission(config, files), left, DIFF);
    assert env(1).diff == Some(DIFF) && env(1).files == left;
    hide *;
    UnansweredRequestIsRejected(p, config, files, env);
  }

  /** The executor leaves the contract alone, and as its diff a text that is no request, where the request will go. */
  lemma OverwrittenDiffIsRejected(p: Platform, config: Config, files: Files, content: Bytes, env: int -> EpochInput)
    requires Sound(p) && config.maxEpochs == 1
    requires env(1) == Passing(files[Control(WakeRequestFile) := content], Control(WakeRequestFile))
    requires Control(FrozenTask) in files && p.sha(files[Control(FrozenTask)]) == config.contractHash
    requires content != [] && !IsRequest(p, content)
    ensures EndsRejected(p, config, Supervise(p, Submission(config, files), Some(config.baseSha), env))
  {
    var left, diff := files[Control(WakeRequestFile) := content], Control(WakeRequestFile);
    assert env(1).diff == Some(diff);
    PassedIsCandidate(left, diff);
    PassingIsProjected(p, Submission(config, files), left, diff);
    hide *;
    UnansweredRequestIsRejected(p, config, files, env);
  }

  // ----- Waits without an answer -----------------------------------------------------------------------------------

  /** A checkpoint or a review that no poll answers ends the run blocked, with the owner's lease suspended. */
  lemma TimeoutsBlock(p: Platform, w: World, epoch: int, input: EpochInput)
    ensures (forall i | 0 <= i < |input.checkpointPolls| ::
               !Matches(w.rec.config, CHECKPOINT_ACTIONS, input.checkpointPolls[i])) ==>
              var s := AfterCheckpointVerdict(p, w, input);
              s.Stop? && s.w.rec.phase == RuntimeBlocked && s.w.rec.blocker == CheckpointTimeout
                  && s.w.rec.lease == Suspended
    ensures (forall i | 0 <= i < |input.reviewPolls| ::
               !Matches(w.rec.config, REVIEW_ACTIONS, input.reviewPolls[i])) ==>
              var s := AfterReview(p, w, epoch, input);
              s.Stop? && s.w.rec.phase == RuntimeBlocked && s.w.rec.blocker == ReviewTimeout
                  && s.w.rec.lease == Suspended
  {
    AwaitFindsFirst(w.rec.config, CHECKPOINT_ACTIONS, input.checkpointPolls);
    AwaitFindsFirst(w.rec.config, REVIEW_ACTIONS, input.reviewPolls);
    hide Matches, Await, ActionOf, Log, Revised;
  }
}
