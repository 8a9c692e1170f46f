/**
 * The controller as an object: the durable record and the files are fields that its methods update, and the
 * trace records what they did. Every method is proved equal to its function in `BookendSupervisor`.
 */
module BookendController {
  import opened Wrappers
  import opened Bookend
  import opened BookendTrace
  import opened BookendReview
  import opened BookendSupervisor
  import opened BookendRuns
  import opened BookendEvidence
  import opened BookendAcceptance
  import opened BookendProgress

  class Controller {
    const platform: Platform
    var rec: Record
    var files: Files
    ghost var trace: Trace

    ghost function Now(): World
      reads this
    {
      World(rec, files, trace)
    }

    /** The controller of a submitted task, as `create_task` leaves it. */
    constructor (platform: Platform, config: Config, files: Files)
      ensures this.platform == platform && Now() == Submission(config, files)
    {
      this.platform := platform;
      this.rec := Initial(config);
      this.files := files;
      this.trace := Then(Start, Persisted(Initial(config)));
    }

    method UpdateState(updated: Record, phase: Phase)
      modifies this
      ensures Now() == Update(old(Now()), updated, phase)
    {
      rec := updated.(phase := phase, terminal := IsTerminal(phase), wakeRequired := WakesCodex(phase));
      trace := Then(trace, Persisted(rec));
    }

    method WriteDocument(file: ControlFile, doc: Document)
      modifies this
      ensures Now() == Write(platform, old(Now()), Control(file), doc)
    {
      files := files[Control(file) := platform.dump(doc)];
      trace := Then(trace, Wrote(Control(file), doc));
    }

    method AppendEvent(e: Effect)
      modifies `trace
      ensures Now() == Note(old(Now()), e)
    {
      trace := Then(trace, e);
    }

    method Block(phase: Phase, blocker: Blocker)
      modifies this
      ensures Stop(Now()) == Blocked(old(Now()), phase, blocker)
    {
      UpdateState(rec.(blocker := blocker, lease := Suspended), phase);
    }

    method RunEpoch(epoch: int, input: EpochInput)
      modifies this
      ensures Now() == Execute(platform, old(Now()), epoch, input)
    {
      hide ResultOf;
      UpdateState(rec.(epoch := epoch, grant := Issued(epoch), lease := Active), Converging);
      files := input.files;
      AppendEvent(Ran(epoch, input));
      var result := ResultOf(input);
      WriteDocument(EpochResult(epoch), ResultDoc(result));
      var updated := rec.(lastResult := Some(Control(EpochResult(epoch))), grant := Revoked(epoch));
      if result.productWorktree != "" {
        updated := updated.(productWorktree := result.productWorktree);
      }
      UpdateState(updated, Classifying);
    }

    /** `generate_convergence_receipt` for the recorded product worktree. */
    method CertifyWorktree(epoch: int, input: EpochInput) returns (r: Result<Option<Path>, Blocker>)
      modifies this
      ensures match Certify(platform, old(Now()), epoch, input)
              case Ok((w, receipt)) => r == Ok(receipt) && Now() == w
              case Err(blocker) => r == Err(blocker) && Now() == old(Now())
    {
      if rec.productWorktree == "" { return Ok(None); }
      match input.worktree {
        case Err(reason) => r := Err(WorktreeRejected(reason));
        case Ok(stateHash) =>
          WriteDocument(ConvergenceReceiptFile(epoch),
              ConvergenceFor(rec.config, epoch, rec.productWorktree, stateHash));
          r := Ok(Some(Control(ConvergenceReceiptFile(epoch))));
      }
    }

    /** The polling loop of the two verdict waits. */
    method WaitForVerdict(actions: set<Action>, polls: seq<Option<Verdict>>) returns (verdict: Option<Verdict>)
      ensures verdict == Await(rec.config, actions, polls)
    {
      hide ActionOf;
      for index := 0 to |polls|
        invariant Await(rec.config, actions, polls) == Await(rec.config, actions, polls[index..])
      {
        assert polls[index..][1..] == polls[index + 1..];
        if Matches(rec.config, actions, polls[index]) { return polls[index]; }
      }
      verdict := None;
    }

    method Project(diff: Option<Path>) returns (r: Result<(), Blocker>)
      modifies this
      ensures match BuildProjection(platform, old(Now()), diff)
              case Ok(w) => r == Ok(()) && Now() == w
              case Err(blocker) => r == Err(blocker) && Now() == old(Now())
    {
      if diff.None? || diff.value !in files { return Err(NoDiff); }
      if |files[diff.value]| == 0 { return Err(EmptyDiff); }
      var size := |files[diff.value]|;
      var projection := Projection(
        rec.config.taskId, ArtifactRef(platform, files, Control(FrozenTask)), rec.config.contractHash,
        rec.config.baseSha, ArtifactRef(platform, files, diff.value),
        [Segment(Int(0), Int(size), SemanticFrontier)], true, 0);
      WriteDocument(ProjectionFile, ProjectionDoc(projection));
      var capsule := Capsule(rec.config.taskId, rec.config.contractHash, rec.config.baseSha,
                             ArtifactRef(platform, files, Control(ProjectionFile)), projection.diff);
      WriteDocument(CapsuleFile, CapsuleDoc(capsule));
      r := Ok(());
    }

    method EmitWakeRequest(kind: WakeKind)
      modifies this
      ensures Now() == EmitWake(platform, old(Now()), kind)
    {
      WriteDocument(WakeRequestFile, WakeDoc(WakeFor(platform, World(rec, files, Start), kind)));
      AppendEvent(Emitted(kind));
    }

    method SaveReviewReceipt(verdict: Verdict)
      modifies this
      ensures Now() == WriteReviewReceipt(platform, old(Now()), verdict)
    {
      WriteDocument(ReviewReceiptFile(rec.revisionCount),
                    ReviewReceiptDoc(ReviewReceipt(rec.config.taskId, rec.config.contractHash, rec.revisionCount,
                        verdict.acceptedIds)));
    }

    /** Each of the following returns whether the supervision ends. */
    method HandleExpiry(epoch: int, limit: int, input: EpochInput) returns (stop: bool)
      modifies this
      ensures AfterExpiry(platform, old(Now()), epoch, limit, input) == if stop then Stop(Now()) else Next(Now())
    {
      hide CheckContinuation, ResultOf;
      stop := true;
      var check := CheckContinuation(platform, files, rec.config, ResultOf(input), epoch);
      if check != Verified {
        Block(RuntimeBlocked, ReceiptRejected(check));
      } else if epoch < limit {
        UpdateState(rec.(recovery := SameOwner, continuationReceipt := ResultOf(input).continuationReceipt),
            Recovering);
        stop := false;
      } else {
        Block(BudgetExhausted, EpochsExhausted);
      }
    }

    method HandleRevision(epoch: int, input: EpochInput, verdict: Verdict) returns (stop: bool)
      modifies this
      ensures Revised(platform, old(Now()), epoch, input, verdict) == if stop then Stop(Now()) else Next(Now())
    {
      var round := rec.revisionCount;
      var certified := CertifyWorktree(epoch, input);
      match certified {
        case Err(blocker) =>
          Block(RuntimeBlocked, blocker);
          stop := true;
        case Ok(receipt) =>
          WriteDocument(RevisionDeltaFile(round + 1), TextDoc(verdict.delta));
          UpdateState(rec.(recovery := RevisionContinue, revisionCount := round + 1,
                           revisionDelta := Some(Control(RevisionDeltaFile(round + 1))),
                           reviewReceipt := Some(Control(ReviewReceiptFile(round))), convergenceReceipt := receipt),
                  Recovering);
          stop := false;
      }
    }

    method HandleReview(epoch: int, input: EpochInput) returns (stop: bool)
      modifies this
      ensures AfterReview(platform, old(Now()), epoch, input) == if stop then Stop(Now()) else Next(Now())
    {
      hide ActionOf, Await, Revised;
      stop := true;
      var answer := WaitForVerdict(REVIEW_ACTIONS, input.reviewPolls);
      match answer {
        case None =>
          AppendEvent(VerdictTimeout);
          Block(RuntimeBlocked, ReviewTimeout);
        case Some(verdict) =>
          AppendEvent(VerdictRead(verdict));
          if ActionOf(verdict) == Accept {
            SaveReviewReceipt(verdict);
            UpdateState(rec.(reviewReceipt := Some(Control(ReviewReceiptFile(rec.revisionCount))),
                             lease := Released), ReviewReady);
          } else if rec.revisionCount >= rec.config.maxRevisionRounds {
            Block(RuntimeBlocked, RevisionsExhausted);
          } else {
            SaveReviewReceipt(verdict);
            stop := HandleRevision(epoch, input, verdict);
          }
      }
    }

    method HandleCandidate(epoch: int, input: EpochInput) returns (stop: bool)
      modifies this
      ensures AfterCandidate(platform, old(Now()), epoch, input) == if stop then Stop(Now()) else Next(Now())
    {
      hide BuildProjection, EmitWake, AfterReview;
      UpdateState(rec, Projecting);
      var projected := Project(input.diff);
      match projected {
        case Err(blocker) =>
          Block(RuntimeBlocked, blocker);
          stop := true;
        case Ok(_) =>
          EmitWakeRequest(if rec.revisionCount > 0 then DeltaReview else FinalReview);
          UpdateState(rec.(reviewRequest := Some(Control(WakeRequestFile)), lease := Paused), RevisionPending);
          stop := HandleReview(epoch, input);
      }
    }

    method HandleSemanticBlock(epoch: int, input: EpochInput)
      modifies this
      ensures Stop(Now()) == AfterSemanticBlock(platform, old(Now()), epoch, input)
    {
      hide CheckSemanticBlock, ResultOf, EmitWake;
      var check := CheckSemanticBlock(platform, files, rec.config, ResultOf(input), epoch);
      if check != Verified {
        Block(RuntimeBlocked, ReceiptRejected(check));
      } else {
        EmitWakeRequest(SemanticEscalation);
        UpdateState(rec.(reviewRequest := Some(Control(WakeRequestFile)), lease := Suspended), SemanticBlocked);
      }
    }

    method HandleCheckpointVerdict(input: EpochInput) returns (stop: bool)
      modifies this
      ensures AfterCheckpointVerdict(platform, old(Now()), input) == if stop then Stop(Now()) else Next(Now())
    {
      hide ActionOf, Await;
      stop := true;
      var answer := WaitForVerdict(CHECKPOINT_ACTIONS, input.checkpointPolls);
      match answer {
        case None =>
          AppendEvent(VerdictTimeout);
          Block(RuntimeBlocked, CheckpointTimeout);
        case Some(verdict) =>
          AppendEvent(VerdictRead(verdict));
          if ActionOf(verdict) == Halt {
            Block(RuntimeBlocked, CheckpointStop);
          } else {
            var guidance: Option<Path> := None;
            if verdict.guidance != "" && ActionOf(verdict) == ResumeWithGuidance {
              WriteDocument(GuidanceFile, TextDoc(verdict.guidance));
              guidance := Some(Control(GuidanceFile));
            }
            UpdateState(rec.(recovery := CheckpointResume, checkpointGuidance := guidance), Recovering);
            stop := false;
          }
      }
    }

    method HandleCheckpoint(epoch: int, input: EpochInput) returns (stop: bool)
      modifies this
      ensures AfterCheckpoint(platform, old(Now()), epoch, input) == if stop then Stop(Now()) else Next(Now())
    {
      hide AfterCheckpointVerdict, ArtifactRef;
      var count := rec.checkpointCount;
      var certified := CertifyWorktree(epoch, input);
      match certified {
        case Err(blocker) =>
          Block(RuntimeBlocked, blocker);
          stop := true;
        case Ok(receipt) =>
          if count < rec.config.maxCheckpoints {
            var request := CheckpointRequest(
              rec.config.taskId, rec.config.contractHash, rec.epoch, ArtifactRef(platform, files, Control(FrozenTask)),
              if receipt.Some? then ArtifactRef(platform, files, receipt.value) else None);
            WriteDocument(CheckpointRequestFile, CheckpointDoc(request));
            AppendEvent(Emitted(CheckpointReview));
            UpdateState(rec.(checkpointCount := count + 1, lease := Paused, convergenceReceipt := receipt,
                             checkpointRequest := Some(Control(CheckpointRequestFile))), CheckpointReady);
            stop := HandleCheckpointVerdict(input);
          } else {
            UpdateState(rec.(recovery := WindowContinue, convergenceReceipt := receipt), Recovering);
            stop := false;
          }
      }
    }

    method HandleFailure(epoch: int, limit: int, input: EpochInput) returns (stop: bool)
      modifies this
      ensures AfterFailure(platform, old(Now()), epoch, limit, input) == if stop then Stop(Now()) else Next(Now())
    {
      hide ResultOf, ExecutorBlocker;
      stop := true;
      var blocker := ExecutorBlocker(ResultOf(input));
      if epoch < limit {
        var certified := CertifyWorktree(epoch, input);
        match certified {
          case Err(rejected) =>
            Block(RuntimeBlocked, rejected);
          case Ok(receipt) =>
            UpdateState(rec.(recovery := ConvergenceContinue, convergenceReceipt := receipt, blocker := blocker),
                Recovering);
            stop := false;
        }
      } else {
        Block(RuntimeBlocked, blocker);
      }
    }

    method HandleResult(epoch: int, limit: int, input: EpochInput) returns (stop: bool)
      modifies this
      ensures AfterResult(platform, old(Now()), epoch, limit, input) == if stop then Stop(Now()) else Next(Now())
    {
      hide ResultOf, OutcomeOf, AfterExpiry, AfterFailure, AfterCandidate, AfterCheckpoint;
      hide AfterSemanticBlock, AuthorityBlocker;
      stop := true;
      match OutcomeOf(input) {
        case EpochExpired =>
          if ResultOf(input).continuationSafe {
            stop := HandleExpiry(epoch, limit, input);
          } else {
            stop := HandleFailure(epoch, limit, input);
          }
        case DoneCandidate => stop := HandleCandidate(epoch, input);
        case SemanticBlock => HandleSemanticBlock(epoch, input);
        case AuthorityBlock => Block(AuthorityBlocked, AuthorityBlocker(ResultOf(input)));
        case BudgetExhaust => UpdateState(rec.(lease := Suspended), BudgetExhausted);
        case CheckpointTrigger => stop := HandleCheckpoint(epoch, input);
        case RuntimeBlock => stop := HandleFailure(epoch, limit, input);
      }
    }

    method Supervise(head: Option<string>, env: int -> EpochInput)
      requires Control(FrozenTask) in files
      modifies this
      ensures Now() == BookendSupervisor.Supervise(platform, old(Now()), head, env)
    {
      hide Execute, AfterResult;
      if platform.sha(files[Control(FrozenTask)]) != rec.config.contractHash {
        UpdateState(rec.(blocker := FrozenHashMismatch), RuntimeBlocked);
        return;
      }
      if head.None? {
        UpdateState(rec.(blocker := HeadUnreadable), RuntimeBlocked);
        return;
      }
      if head.value != rec.config.baseSha {
        UpdateState(rec.(blocker := HeadChanged), RuntimeBlocked);
        return;
      }
      var limit := rec.config.maxEpochs;
      var epoch := 1;
      ghost var goal := RunEpochs(platform, Now(), epoch, limit, env);
      while epoch <= limit
        invariant RunEpochs(platform, Now(), epoch, limit, env) == goal
        decreases limit - epoch
      {
        RunEpoch(epoch, env(epoch));
        var stop := HandleResult(epoch, limit, env(epoch));
        if stop { return; }
        epoch := epoch + 1;
      }
      UpdateState(rec.(lease := Suspended), BudgetExhausted);
    }
  }

  /**
   * A submitted task and its supervision, with what every run of it keeps: it ends in a terminal state that is on
   * record, stays within its epochs, checkpoints and wake requests, changes its record in discipline, goes on in a
   * worktree only on evidence, and is ready for review, with the lease released, exactly when it was accepted.
   * It opens an epoch exactly when every epoch before goes on,
       shows what its epochs show and ends as the last one does.
   */
  method Run(platform: Platform, config: Config, files: Files, head: Option<string>, env: int -> EpochInput)
    returns (controller: Controller)
    requires Control(FrozenTask) in files
    ensures fresh(controller)
    ensures controller.rec.terminal && LastRecord(controller.trace) == Some(controller.rec)
    ensures Runs(controller.trace) <= Max(0, config.maxEpochs)
    ensures CheckpointWakes(controller.trace) <= Max(0, config.maxCheckpoints)
    ensures Wakes(controller.trace) <= Runs(controller.trace)
    ensures Wakes(controller.trace) <= Max(0, config.maxCheckpoints) + Max(0, config.maxRevisionRounds) + 1
    ensures Disciplined(controller.trace) && Backed(platform, controller.trace)
    ensures controller.rec.phase.ReviewReady? <==> Accepted(controller.trace)
    ensures controller.rec.lease.Released? <==> Accepted(controller.trace)
    ensures Accepted(controller.trace) ==> Genuine(config, controller.trace)
    ensures Starts(platform, config, files, head) ==>
              && Timeline(controller.trace) == Saga(platform, config, env, 1)
              && controller.rec.phase == EndFrom(platform, config, env, 1).phase
    ensures !Starts(platform, config, files, head) ==>
              Timeline(controller.trace) == [] && controller.rec.phase == RuntimeBlocked
    ensures forall e :: Executed(e, env(e)) in Timeline(controller.trace) <==>
                        && Starts(platform, config, files, head) && 1 <= e <= config.maxEpochs
                        && forall k | 1 <= k < e :: Continues(platform, config, env, k)
  {
    hide BookendSupervisor.Supervise, Log, Runs, Wakes, CheckpointWakes, LastRecord;
    hide Disciplined, Backed, Accepted, Genuine;
    controller := new Controller(platform, config, files);
    ghost var start := Submission(config, files);
    assert controller.Now() == start && Control(FrozenTask) in controller.files;
    controller.Supervise(head, env);
    ghost var w := BookendSupervisor.Supervise(platform, start, head, env);
    assert controller.Now() == w;
    RunsStayWithinBudget(platform, config, files, head, env);
    RunsAreDisciplined(platform, config, files, head, env);
    EpochsContinueOnEvidence(platform, config, files, head, env);
    AcceptanceIsFailClosed(platform, config, files, head, env);
    hide Starts, Timeline, Saga, EndFrom, Continues;
    RunTells(platform, config, files, head, env);
    forall e { EpochOpensExactly(platform, config, files, head, env, e); }
  }
}
