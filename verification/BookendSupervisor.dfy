/**
 * The supervisor of scripts/bookend-task.py: classification of an executor result, receipt checks, verdict
 * waits and the epoch loop, as functions on worlds. `BookendController` holds the class that updates its fields.
 */
module BookendSupervisor {
  import opened Wrappers
  import opened Strings
  import J = JsonValues
  import opened Bookend
  import opened BookendTrace
  import opened BookendReview

  // ----- Classification -----------------------------------------------------------------------------------

  datatype Outcome =
    | DoneCandidate | SemanticBlock | EpochExpired | CheckpointTrigger | RuntimeBlock | AuthorityBlock | BudgetExhaust

  /** The outcomes an executor may claim by name. */
  function Claimed(name: string): Option<Outcome> {
    if name == "done_candidate" then Some(DoneCandidate)
    else if name == "semantic_blocked" then Some(SemanticBlock)
    else if name == "epoch_expired" then Some(EpochExpired)
    else if name == "checkpoint_trigger" then Some(CheckpointTrigger)
    else if name == "runtime_blocked" then Some(RuntimeBlock)
    else if name == "authority_blocked" then Some(AuthorityBlock)
    else if name == "budget_exhausted" then Some(BudgetExhaust)
    else None
  }

  const SEMANTIC_FAILURES :=
    {"semantic-blocked", "semantic_blocked", "contract-conflict", "semantic-decision-required"}

  predicate Passed(result: ExecResult) {
    result.status == "completed" && result.acceptanceStatus == "passed"
  }

  /** `classify_result` */
  function ClassifyResult(exitCode: int, result: ExecResult): Outcome {
    var failure := Lower(Strip(result.failureStatus));
    Resolve(Claimed(ReplaceChar(Lower(Strip(result.bookendState)), '-', '_')),
            failure in SEMANTIC_FAILURES, exitCode == 75 || failure == "needs-host-execution", Passed(result))
  }

  /** The order in which the evidence of a result counts. */
  function Resolve(claimed: Option<Outcome>, semantic: bool, authority: bool, passed: bool): Outcome {
    if claimed.Some? then
      if claimed.value == DoneCandidate && !passed then RuntimeBlock else claimed.value
    else if semantic then SemanticBlock
    else if authority then AuthorityBlock
    else if passed then DoneCandidate
    else RuntimeBlock
  }

  /** A result is a candidate exactly when the run completed with its acceptance passed and it either claims to be
      one, or claims nothing and reports neither a semantic nor an authority failure. */
  lemma CandidateExactly(exitCode: int, result: ExecResult)
    ensures var failure := Lower(Strip(result.failureStatus));
            var claimed := Claimed(ReplaceChar(Lower(Strip(result.bookendState)), '-', '_'));
            ClassifyResult(exitCode, result) == DoneCandidate <==>
              && result.status == "completed" && result.acceptanceStatus == "passed"
              && (claimed == Some(DoneCandidate)
                  || (claimed.None? && failure !in SEMANTIC_FAILURES
                      && exitCode != 75 && failure != "needs-host-execution"))
  {
    hide Claimed, Lower, Strip, ReplaceChar;
  }

  /** The result recorded for an epoch: unparsable executor output becomes a runtime failure. */
  function ResultOf(input: EpochInput): ExecResult {
    match input.output
    case Some(result) => result
    case None => ExecResult("failed", "", "runtime_blocked", "", "no-json-result", "", false, None, "", None, "")
  }

  function OutcomeOf(input: EpochInput): Outcome {
    ClassifyResult(input.exitCode, ResultOf(input))
  }

  // ----- Receipts ------------------------------------------------------------------------------------------

  /** `validate_continuation_receipt` */
  function CheckContinuation(p: Platform, files: Files, config: Config, result: ExecResult, epoch: int): ReceiptCheck {
    if result.continuationReceipt.None? then Missing
    else if result.continuationReceipt.value !in files then Unreadable
    else
      var content := files[result.continuationReceipt.value];
      if result.continuationSha == "" || p.sha(content) != result.continuationSha then HashMismatch
      else
        match p.load(content)
        case None => NotJson
        case Some(ContinuationDoc(c)) =>
          if !J.Same(c.schemaVersion, J.Int(1)) || !J.Same(c.taskId, J.Text(config.taskId))
             || !J.Same(c.contractHash, J.Text(config.contractHash)) || !J.Same(c.epoch, J.Int(epoch))
             || !J.Same(c.owner, J.Text("claude"))
             || !J.Same(c.priorGrantRevoked, J.Bool(true)) || !J.Same(c.noActiveWriter, J.Bool(true)) then FieldMismatch
          else if !IsDigest(c.stableStateHash) then BadStateHash
          else Verified
        case Some(_) => FieldMismatch
  }

  /** `validate_semantic_block_receipt` */
  function CheckSemanticBlock(p: Platform, files: Files, config: Config, result: ExecResult, epoch: int): ReceiptCheck {
    if result.semanticReceipt.None? then Missing
    else if result.semanticReceipt.value !in files then Unreadable
    else
      var content := files[result.semanticReceipt.value];
      if p.sha(content) != result.semanticSha then HashMismatch
      else
        match p.load(content)
        case None => NotJson
        case Some(SemanticDoc(s)) =>
          if !J.Same(s.schemaVersion, J.Int(1)) || !J.Same(s.taskId, J.Text(config.taskId))
             || !J.Same(s.contractHash, J.Text(config.contractHash))
                 || !J.Same(s.epoch, J.Int(epoch)) then FieldMismatch
          else if Strip(s.decisionRequired) == "" then NoDecision
          else if !s.blockingAcceptance.List? || s.blockingAcceptance.items == [] then NoBlockingAcceptance
          else if s.executionFailureOnly != J.Bool(false) then ExecutionFailure
          else Verified
        case Some(_) => FieldMismatch
  }

  function ConvergenceFor(config: Config, epoch: int, worktree: string, stateHash: string): Document {
    ConvergenceDoc(ConvergenceReceipt(config.taskId, config.contractHash, epoch, worktree, stateHash))
  }

  /** Certifies the recorded product worktree, if any: the path of the new receipt, or why there is none. */
  function Certify(p: Platform, w: World, epoch: int, input: EpochInput): Result<(World, Option<Path>), Blocker> {
    if w.rec.productWorktree == "" then Ok((w, None))
    else
      match input.worktree
      case Err(reason) => Err(WorktreeRejected(reason))
      case Ok(stateHash) =>
        var path := Control(ConvergenceReceiptFile(epoch));
        Ok((Write(p, w, path, ConvergenceFor(w.rec.config, epoch, w.rec.productWorktree, stateHash)), Some(path)))
  }

  // ----- Verdicts ------------------------------------------------------------------------------------------

  datatype Action = Accept | Revise | Resume | ResumeWithGuidance | Halt | NoAction

  function ActionOf(verdict: Verdict): Action {
    var action := Lower(Strip(verdict.action));
    if action == "accept" then Accept
    else if action == "revise" then Revise
    else if action == "continue" then Resume
    else if action == "continue_with_guidance" then ResumeWithGuidance
    else if action == "stop" then Halt
    else NoAction
  }

  const REVIEW_ACTIONS: set<Action> := {Accept, Revise}
  const CHECKPOINT_ACTIONS: set<Action> := {Resume, ResumeWithGuidance, Halt}

  /** Whether a poll finds a verdict for this task and contract with one of the awaited actions. */
  predicate Matches(config: Config, actions: set<Action>, poll: Option<Verdict>) {
    && poll.Some? && poll.value.taskId == config.taskId && poll.value.contractHash == config.contractHash
    && ActionOf(poll.value) in actions
  }

  /** The first matching verdict; `None` when the waiting time runs out. */
  function Await(config: Config, actions: set<Action>, polls: seq<Option<Verdict>>): Option<Verdict> {
    if polls == [] then None
    else if Matches(config, actions, polls[0]) then polls[0]
    else Await(config, actions, polls[1..])
  }

  /** A wait ends with the first poll that matches, and times out exactly when none does. */
  lemma {:induction false} AwaitFindsFirst(config: Config, actions: set<Action>, polls: seq<Option<Verdict>>)
    ensures var r := Await(config, actions, polls);
            && (r.None? <==> forall i | 0 <= i < |polls| :: !Matches(config, actions, polls[i]))
            && (r.Some? ==> Matches(config, actions, r) && exists i | 0 <= i < |polls| ::
                  polls[i] == r && forall k | 0 <= k < i :: !Matches(config, actions, polls[k]))
  {
    if polls != [] && !Matches(config, actions, polls[0]) {
      AwaitFindsFirst(config, actions, polls[1..]);
      hide Matches;
      var r, rest := Await(config, actions, polls[1..]), polls[1..];
      if r.Some? {
        var i :| 0 <= i < |rest| && rest[i] == r && forall k | 0 <= k < i :: !Matches(config, actions, rest[k]);
        assert polls[i + 1] == r;
        forall k | 0 <= k < i + 1 ensures !Matches(config, actions, polls[k]) {
          assert k > 0 ==> polls[k] == rest[k - 1];
        }
      }
    } else if polls != [] {
      hide Matches;
      assert polls[0] == Await(config, actions, polls);
    }
  }

  // ----- Submission ----------------------------------------------------------------------------------------

  /** The record `create_task` persists. */
  function Initial(config: Config): Record {
    Record(config, Submitted, false, false, 0, NotIssued, Assigned, 0, 0, "", None, None, None, None, None, None, None,
           None, NoRecovery, NoBlocker)
  }

  /** A submitted task before its supervisor starts. */
  function Submission(config: Config, files: Files): World {
    World(Initial(config), files, Log(Start, Persisted(Initial(config))))
  }

  // ----- One epoch ------------------------------------------------------------------------------------------

  /** An epoch either lets the loop go on or ends the supervision. */
  datatype Step = Next(w: World) | Stop(w: World)

  function Blocked(w: World, phase: Phase, blocker: Blocker): Step {
    Stop(Update(w, w.rec.(blocker := blocker, lease := Suspended), phase))
  }

  function ExecutorBlocker(result: ExecResult): Blocker {
    if result.error != "" then ExecutorReason(result.error)
    else if result.failureStatus != "" then ExecutorReason(result.failureStatus)
    else DidNotConverge
  }

  function AuthorityBlocker(result: ExecResult): Blocker {
    if result.error != "" || result.failureStatus != "" then ExecutorBlocker(result) else AuthorityRequired
  }

  /** Grants the epoch, runs the executor and revokes the grant again. */
  function Execute(p: Platform, w: World, epoch: int, input: EpochInput): World {
    var w1 := Update(w, w.rec.(epoch := epoch, grant := Issued(epoch), lease := Active), Converging);
    var w2 := World(w1.rec, input.files, Log(w1.trace, Ran(epoch, input)));
    var path := Control(EpochResult(epoch));
    var result := ResultOf(input);
    var w3 := Write(p, w2, path, ResultDoc(result));
    Update(w3, w3.rec.(lastResult := Some(path), grant := Revoked(epoch),
                       productWorktree := if result.productWorktree != "" then result.productWorktree
                                          else w3.rec.productWorktree), Classifying)
  }

  function AfterExpiry(p: Platform, w: World, epoch: int, limit: int, input: EpochInput): Step {
    var check := CheckContinuation(p, w.files, w.rec.config, ResultOf(input), epoch);
    if check != Verified then Blocked(w, RuntimeBlocked, ReceiptRejected(check))
    else if epoch < limit then
      Next(Update(w, w.rec.(recovery := SameOwner, continuationReceipt := ResultOf(input).continuationReceipt),
          Recovering))
    else Blocked(w, BudgetExhausted, EpochsExhausted)
  }

  /** The review wake request over a projection, up to the wait for its verdict. */
  function RequestReview(p: Platform, w: World): World {
    var woken := EmitWake(p, w, if w.rec.revisionCount > 0 then DeltaReview else FinalReview);
    Update(woken, woken.rec.(reviewRequest := Some(Control(WakeRequestFile)), lease := Paused), RevisionPending)
  }

  function WriteReviewReceipt(p: Platform, w: World, verdict: Verdict): World {
    Write(p, w, Control(ReviewReceiptFile(w.rec.revisionCount)),
          ReviewReceiptDoc(ReviewReceipt(w.rec.config.taskId, w.rec.config.contractHash, w.rec.revisionCount,
              verdict.acceptedIds)))
  }

  function AfterReview(p: Platform, w: World, epoch: int, input: EpochInput): Step {
    match Await(w.rec.config, REVIEW_ACTIONS, input.reviewPolls)
    case None => Blocked(Note(w, VerdictTimeout), RuntimeBlocked, ReviewTimeout)
    case Some(verdict) =>
      var read := Note(w, VerdictRead(verdict));
      var receiptPath := Some(Control(ReviewReceiptFile(w.rec.revisionCount)));
      if ActionOf(verdict) == Accept then
        var accepted := WriteReviewReceipt(p, read, verdict);
        Stop(Update(accepted, accepted.rec.(reviewReceipt := receiptPath, lease := Released), ReviewReady))
      else if w.rec.revisionCount >= w.rec.config.maxRevisionRounds then
        Blocked(read, RuntimeBlocked, RevisionsExhausted)
      else Revised(p, WriteReviewReceipt(p, read, verdict), epoch, input, verdict)
  }

  function Revised(p: Platform, w: World, epoch: int, input: EpochInput, verdict: Verdict): Step {
    match Certify(p, w, epoch, input)
    case Err(blocker) => Blocked(w, RuntimeBlocked, blocker)
    case Ok((certified, receipt)) =>
      var next := w.rec.revisionCount + 1;
      var delta := Control(RevisionDeltaFile(next));
      var w1 := Write(p, certified, delta, TextDoc(verdict.delta));
      Next(Update(w1, w1.rec.(recovery := RevisionContinue, revisionCount := next, revisionDelta := Some(delta),
                              reviewReceipt := Some(Control(ReviewReceiptFile(w.rec.revisionCount))),
                              convergenceReceipt := receipt), Recovering))
  }

  function AfterCandidate(p: Platform, w: World, epoch: int, input: EpochInput): Step {
    var w1 := Update(w, w.rec, Projecting);
    match BuildProjection(p, w1, input.diff)
    case Err(blocker) => Blocked(w1, RuntimeBlocked, blocker)
    case Ok(built) => AfterReview(p, RequestReview(p, built), epoch, input)
  }

  function AfterSemanticBlock(p: Platform, w: World, epoch: int, input: EpochInput): Step {
    var check := CheckSemanticBlock(p, w.files, w.rec.config, ResultOf(input), epoch);
    if check != Verified then Blocked(w, RuntimeBlocked, ReceiptRejected(check))
    else
      var woken := EmitWake(p, w, SemanticEscalation);
      Stop(Update(woken, woken.rec.(reviewRequest := Some(Control(WakeRequestFile)), lease := Suspended),
          SemanticBlocked))
  }

  function EmitCheckpoint(p: Platform, w: World, receipt: Option<Path>): World {
    var request := CheckpointRequest(
      w.rec.config.taskId, w.rec.config.contractHash, w.rec.epoch, ArtifactRef(p, w.files, Control(FrozenTask)),
      if receipt.Some? then ArtifactRef(p, w.files, receipt.value) else None);
    Note(Write(p, w, Control(CheckpointRequestFile), CheckpointDoc(request)), Emitted(CheckpointReview))
  }

  /** The checkpoint wake request, up to the wait for its verdict. */
  function RequestCheckpoint(p: Platform, w: World, receipt: Option<Path>): World {
    var woken := EmitCheckpoint(p, w, receipt);
    Update(woken, woken.rec.(checkpointCount := woken.rec.checkpointCount + 1, lease := Paused,
                             checkpointRequest := Some(Control(CheckpointRequestFile)),
                             convergenceReceipt := receipt), CheckpointReady)
  }

  function AfterCheckpoint(p: Platform, w: World, epoch: int, input: EpochInput): Step {
    match Certify(p, w, epoch, input)
    case Err(blocker) => Blocked(w, RuntimeBlocked, blocker)
    case Ok((certified, receipt)) =>
      if w.rec.checkpointCount < w.rec.config.maxCheckpoints then
        AfterCheckpointVerdict(p, RequestCheckpoint(p, certified, receipt), input)
      else
        Next(Update(certified, certified.rec.(recovery := WindowContinue, convergenceReceipt := receipt), Recovering))
  }

  function AfterCheckpointVerdict(p: Platform, w: World, input: EpochInput): Step {
    match Await(w.rec.config, CHECKPOINT_ACTIONS, input.checkpointPolls)
    case None => Blocked(Note(w, VerdictTimeout), RuntimeBlocked, CheckpointTimeout)
    case Some(verdict) =>
      var read := Note(w, VerdictRead(verdict));
      if ActionOf(verdict) == Halt then Blocked(read, RuntimeBlocked, CheckpointStop)
      else
        var guided := verdict.guidance != "" && ActionOf(verdict) == ResumeWithGuidance;
        var w1 := if guided then Write(p, read, Control(GuidanceFile), TextDoc(verdict.guidance)) else read;
        Next(Update(w1, w1.rec.(recovery := CheckpointResume,
                                checkpointGuidance := if guided then Some(Control(GuidanceFile)) else None),
                                    Recovering))
  }

  function AfterFailure(p: Platform, w: World, epoch: int, limit: int, input: EpochInput): Step {
    var blocker := ExecutorBlocker(ResultOf(input));
    if epoch < limit then
      match Certify(p, w, epoch, input)
      case Err(rejected) => Blocked(w, RuntimeBlocked, rejected)
      case Ok((certified, receipt)) =>
        Next(Update(certified, certified.rec.(recovery := ConvergenceContinue, convergenceReceipt := receipt,
                                              blocker := blocker), Recovering))
    else Blocked(w, RuntimeBlocked, blocker)
  }

  /** What follows the classification of an epoch's result. */
  function AfterResult(p: Platform, w: World, epoch: int, limit: int, input: EpochInput): Step {
    match OutcomeOf(input)
    case EpochExpired =>
      if ResultOf(input).continuationSafe then AfterExpiry(p, w, epoch, limit, input)
      else AfterFailure(p, w, epoch, limit, input)
    case DoneCandidate => AfterCandidate(p, w, epoch, input)
    case SemanticBlock => AfterSemanticBlock(p, w, epoch, input)
    case AuthorityBlock => Blocked(w, AuthorityBlocked, AuthorityBlocker(ResultOf(input)))
    case BudgetExhaust => Stop(Update(w, w.rec.(lease := Suspended), BudgetExhausted))
    case CheckpointTrigger => AfterCheckpoint(p, w, epoch, input)
    case RuntimeBlock => AfterFailure(p, w, epoch, limit, input)
  }

  /** The epochs from `epoch` on; `env` is whatever happens outside in each of them. */
  function RunEpochs(p: Platform, w: World, epoch: int, limit: int, env: int -> EpochInput): World
    decreases limit - epoch
  {
    if epoch > limit then Update(w, w.rec.(lease := Suspended), BudgetExhausted)
    else
      match AfterResult(p, Execute(p, w, epoch, env(epoch)), epoch, limit, env(epoch))
      case Stop(w') => w'
      case Next(w') => RunEpochs(p, w', epoch + 1, limit, env)
  }

  /** `supervise` as `cmd_supervise` runs it; `head` is the source commit, `None` when git cannot tell. */
  function Supervise(p: Platform, w: World, head: Option<string>, env: int -> EpochInput): World
    requires Control(FrozenTask) in w.files
  {
    if p.sha(w.files[Control(FrozenTask)]) != w.rec.config.contractHash then
      Update(w, w.rec.(blocker := FrozenHashMismatch), RuntimeBlocked)
    else if head.None? then Update(w, w.rec.(blocker := HeadUnreadable), RuntimeBlocked)
    else if head.value != w.rec.config.baseSha then Update(w, w.rec.(blocker := HeadChanged), RuntimeBlocked)
    else RunEpochs(p, w, 1, w.rec.config.maxEpochs, env)
  }
}
