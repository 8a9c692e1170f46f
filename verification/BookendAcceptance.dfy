/** Fail-closed acceptance: exactly which supervised runs end with the task ready for review. */
module BookendAcceptance {
  import opened Wrappers
  import opened Bookend
  import opened BookendTrace
  import opened BookendReview
  import opened BookendSupervisor
  import opened BookendRuns

  /** In the latest epoch the result was a candidate, a projection was built, and an accept verdict was read. */
  ghost predicate Accepted(t: Trace) {
    && LastRan(t).Some? && OutcomeOf(LastRan(t).value.1) == DoneCandidate
    && LastProjection(t).Some?
    && LastVerdict(t).Some? && ActionOf(LastVerdict(t).value) == Accept
  }

  /** The verdict and the projection that an accepting trace holds are genuine. */
  ghost predicate Genuine(config: Config, t: Trace) {
    && (LastVerdict(t).Some? ==>
          LastVerdict(t).value.taskId == config.taskId && LastVerdict(t).value.contractHash == config.contractHash)
    && (LastProjection(t).Some? ==>
          LastProjection(t).value.diff.Some? && 0 < LastProjection(t).value.diff.value.bytes
          && ProjectionCovers(LastProjection(t).value, LastProjection(t).value.diff.value.bytes))
  }

  /** An epoch ends in acceptance exactly when its trace holds the evidence for it. */
  ghost predicate FailClosed(s: Step) {
    && (s.w.rec.phase.ReviewReady? <==> Accepted(s.w.trace))
    && Genuine(s.w.rec.config, s.w.trace)
  }

  /** The state of the readings right after an execution. */
  ghost predicate Fresh(w: World, epoch: int, input: EpochInput) {
    LastRan(w.trace) == Some((epoch, input)) && LastVerdict(w.trace).None? && LastProjection(w.trace).None?
  }

  lemma ProjectionIsGenuine(p: Platform, w: World, epoch: int, diff: Option<Path>, input: EpochInput)
    requires Fresh(w, epoch, input)
    ensures match BuildProjection(p, w, diff)
            case Err(_) => true
            case Ok(built) =>
              && built.rec == w.rec && LastRan(built.trace) == Some((epoch, input)) && LastVerdict(built.trace).None?
              && LastProjection(built.trace).Some? && Genuine(w.rec.config, built.trace)
  {
    hide Log, Runs, Wakes, CheckpointWakes, LastRecord, LastRan, LastVerdict;
    hide LastProjection, LastCertificate, LastOpening, Disciplined;
    hide ProjectionCovers;
    if diff.Some? && BuildProjection(p, w, diff).Ok? {
      BuiltProjectionCovers(p, w, diff.value);
    }
  }

  lemma CertifyKeepsReadings(p: Platform, w: World, epoch: int, input: EpochInput)
    ensures var r := Certify(p, w, epoch, input);
            r.Ok? ==> && r.value.0.rec == w.rec && LastRan(r.value.0.trace) == LastRan(w.trace)
                      && LastVerdict(r.value.0.trace) == LastVerdict(w.trace)
                      && LastProjection(r.value.0.trace) == LastProjection(w.trace)
  {
    hide Log, Runs, Wakes, CheckpointWakes, LastRecord, LastRan, LastVerdict;
    hide LastProjection, LastCertificate, LastOpening, Disciplined;
  }

  lemma RevisionIsNotAcceptance(p: Platform, w: World, epoch: int, input: EpochInput, verdict: Verdict)
    requires LastVerdict(w.trace) == Some(verdict) && ActionOf(verdict) != Accept && Genuine(w.rec.config, w.trace)
    ensures FailClosed(Revised(p, w, epoch, input, verdict))
  {
    hide Log, Runs, Wakes, CheckpointWakes, LastRecord, LastRan, LastVerdict;
    hide LastProjection, LastCertificate, LastOpening, Disciplined;
    hide Certify, ActionOf, OutcomeOf, ProjectionCovers;
    CertifyKeepsReadings(p, w, epoch, input);
  }

  lemma ReviewFailsClosed(p: Platform, w: World, epoch: int, input: EpochInput)
    requires LastRan(w.trace) == Some((epoch, input)) && OutcomeOf(input) == DoneCandidate
    requires LastVerdict(w.trace).None? && LastProjection(w.trace).Some? && Genuine(w.rec.config, w.trace)
    ensures FailClosed(AfterReview(p, w, epoch, input))
  {
    hide Log, Runs, Wakes, CheckpointWakes, LastRecord, LastRan, LastVerdict;
    hide LastProjection, LastCertificate, LastOpening, Disciplined;
    hide Revised, ActionOf, OutcomeOf, ProjectionCovers, Await;
    AwaitFindsFirst(w.rec.config, REVIEW_ACTIONS, input.reviewPolls);
    var answer := Await(w.rec.config, REVIEW_ACTIONS, input.reviewPolls);
    if answer.Some? {
      var read := WriteReviewReceipt(p, Note(w, VerdictRead(answer.value)), answer.value);
      if ActionOf(answer.value) != Accept {
        RevisionIsNotAcceptance(p, read, epoch, input, answer.value);
      }
    }
  }

  lemma CandidateFailsClosed(p: Platform, w: World, epoch: int, input: EpochInput)
    requires Fresh(w, epoch, input) && OutcomeOf(input) == DoneCandidate && !w.rec.phase.ReviewReady?
    ensures FailClosed(AfterCandidate(p, w, epoch, input))
  {
    hide Log, Runs, Wakes, CheckpointWakes, LastRecord, LastRan, LastVerdict;
    hide LastProjection, LastCertificate, LastOpening, Disciplined;
    hide BuildProjection, AfterReview, WakeFor, ProjectionCovers, ActionOf, OutcomeOf;
    var w1 := Update(w, w.rec, Projecting);
    ProjectionIsGenuine(p, w1, epoch, input.diff, input);
    var built := BuildProjection(p, w1, input.diff);
    if built.Ok? {
      ReviewFailsClosed(p, RequestReview(p, built.value), epoch, input);
    }
  }

  lemma CheckpointFailsClosed(p: Platform, w: World, epoch: int, input: EpochInput)
    requires Fresh(w, epoch, input) && OutcomeOf(input) != DoneCandidate
    ensures FailClosed(AfterCheckpoint(p, w, epoch, input))
  {
    hide Log, Runs, Wakes, CheckpointWakes, LastRecord, LastRan, LastVerdict;
    hide LastProjection, LastCertificate, LastOpening, Disciplined;
    hide Certify, ActionOf, OutcomeOf, Await, ProjectionCovers, AfterCheckpointVerdict, RequestCheckpoint;
    CertifyKeepsReadings(p, w, epoch, input);
    var certified := Certify(p, w, epoch, input);
    if certified.Ok? && w.rec.checkpointCount < w.rec.config.maxCheckpoints {
      RequestKeepsReadings(p, certified.value.0, certified.value.1);
      CheckpointVerdictFailsClosed(p, RequestCheckpoint(p, certified.value.0, certified.value.1), epoch, input);
    }
  }

  lemma RequestKeepsReadings(p: Platform, w: World, receipt: Option<Path>)
    ensures var asked := RequestCheckpoint(p, w, receipt);
            && asked.rec.config == w.rec.config
            && LastRan(asked.trace) == LastRan(w.trace) && LastVerdict(asked.trace) == LastVerdict(w.trace)
            && LastProjection(asked.trace) == LastProjection(w.trace)
  {
    hide Log, Runs, Wakes, CheckpointWakes, LastRecord, LastRan, LastVerdict;
    hide LastProjection, LastCertificate, LastOpening, Disciplined;
    hide ArtifactRef;
  }

  lemma CheckpointVerdictFailsClosed(p: Platform, w: World, epoch: int, input: EpochInput)
    requires Fresh(w, epoch, input) && OutcomeOf(input) != DoneCandidate
    ensures FailClosed(AfterCheckpointVerdict(p, w, input))
  {
    AwaitFindsFirst(w.rec.config, CHECKPOINT_ACTIONS, input.checkpointPolls);
    hide Log, Runs, Wakes, CheckpointWakes, LastRecord, LastRan, LastVerdict;
    hide LastProjection, LastCertificate, LastOpening, Disciplined;
    hide ActionOf, OutcomeOf, Await, ProjectionCovers;
  }

  lemma OthersFailClosed(p: Platform, w: World, epoch: int, limit: int, input: EpochInput)
    requires Fresh(w, epoch, input) && OutcomeOf(input) != DoneCandidate
    ensures FailClosed(AfterExpiry(p, w, epoch, limit, input))
    ensures FailClosed(AfterFailure(p, w, epoch, limit, input))
  {
    hide Log, Runs, Wakes, CheckpointWakes, LastRecord, LastRan, LastVerdict;
    hide LastProjection, LastCertificate, LastOpening, Disciplined;
    hide Certify, ActionOf, OutcomeOf, CheckContinuation, ExecutorBlocker, ResultOf, ProjectionCovers;
    CertifyKeepsReadings(p, w, epoch, input);
  }

  lemma SemanticBlockFailsClosed(p: Platform, w: World, epoch: int, input: EpochInput)
    requires Fresh(w, epoch, input) && OutcomeOf(input) != DoneCandidate
    ensures FailClosed(AfterSemanticBlock(p, w, epoch, input))
  {
    hide Log, Runs, Wakes, CheckpointWakes, LastRecord, LastRan, LastVerdict;
    hide LastProjection, LastCertificate, LastOpening, Disciplined;
    hide ActionOf, OutcomeOf, CheckSemanticBlock, WakeFor, ResultOf, ProjectionCovers;
  }

  lemma ResultFailsClosed(p: Platform, w: World, epoch: int, limit: int, input: EpochInput)
    requires Fresh(w, epoch, input) && !w.rec.phase.ReviewReady?
    ensures FailClosed(AfterResult(p, w, epoch, limit, input))
  {
    hide Log, Runs, Wakes, CheckpointWakes, LastRecord, LastRan, LastVerdict;
    hide LastProjection, LastCertificate, LastOpening, Disciplined;
    hide AfterCandidate, AfterCheckpoint, AfterExpiry, AfterFailure, AfterSemanticBlock, OutcomeOf, AuthorityBlocker;
    hide ResultOf, ActionOf, ProjectionCovers;
    match OutcomeOf(input)
    case DoneCandidate => CandidateFailsClosed(p, w, epoch, input);
    case CheckpointTrigger => CheckpointFailsClosed(p, w, epoch, input);
    case SemanticBlock => SemanticBlockFailsClosed(p, w, epoch, input);
    case AuthorityBlock =>
    case BudgetExhaust =>
    case EpochExpired => OthersFailClosed(p, w, epoch, limit, input);
    case RuntimeBlock => OthersFailClosed(p, w, epoch, limit, input);
  }

  lemma {:induction false} RunFailsClosed(p: Platform, w: World, epoch: int, limit: int, env: int -> EpochInput)
    requires AtLoop(w, epoch - 1) && 1 <= epoch && FailClosed(Next(w))
    ensures FailClosed(Stop(RunEpochs(p, w, epoch, limit, env)))
    decreases limit - epoch
  {
    hide Runs, Wakes, CheckpointWakes, LastRecord, LastRan, LastVerdict;
    hide LastProjection, LastCertificate, LastOpening, Disciplined;
    hide Execute, AfterResult, ActionOf, OutcomeOf, ProjectionCovers;
    if epoch <= limit {
      var x := Execute(p, w, epoch, env(epoch));
      ExecuteReadies(p, w, epoch, env(epoch));
      ResultSettles(p, x, epoch, limit, env(epoch));
      ReadyIsUnaccepted(x);
      ResultFailsClosed(p, x, epoch, limit, env(epoch));
      var s := AfterResult(p, x, epoch, limit, env(epoch));
      if s.Next? {
        RunFailsClosed(p, s.w, epoch + 1, limit, env);
      }
    }
  }

  lemma ReadyIsUnaccepted(w: World)
    requires Ready(w)
    ensures !w.rec.phase.ReviewReady?
  {
    CoherentRecord(w.trace);
  }

  lemma CandidateHasPassed(input: EpochInput)
    requires OutcomeOf(input) == DoneCandidate
    ensures Passed(ResultOf(input))
  {
    CandidateExactly(input.exitCode, ResultOf(input));
  }

  /** In an orderly trace the latest record is coherent. */
  lemma {:induction false} CoherentRecord(t: Trace)
    requires Disciplined(t) && LastRecord(t).Some?
    ensures Coherent(LastRecord(t).value)
  {
    if !t.last.Persisted? {
      CoherentRecord(t.prior);
    }
  }

  /**
   * A supervised run ends with the task ready for review, and the owner lease released, if and only if in its
   * last epoch the executor's result was classified as a candidate, a review projection was built, and an accept
   * verdict was read. Then the run had completed with its acceptance passed, the projection covers every byte of
   * a non-empty diff, and the verdict names this task and this contract. Timeouts, other verdicts and claims
   * without a pass never lead there.
   */
  lemma AcceptanceIsFailClosed(p: Platform, config: Config, files: Files, head: Option<string>, env: int -> EpochInput)
    requires Control(FrozenTask) in files
    ensures var w := Supervise(p, Submission(config, files), head, env);
            && (w.rec.phase.ReviewReady? <==> Accepted(w.trace))
            && (w.rec.lease.Released? <==> Accepted(w.trace))
            && (Accepted(w.trace) ==> Passed(ResultOf(LastRan(w.trace).value.1)) && Genuine(config, w.trace))
  {
    var start := Submission(config, files);
    var w := Supervise(p, start, head, env);
    SubmissionAtLoop(config, files);
    assert FailClosed(Next(start));
    RunsAreDisciplined(p, config, files, head, env);
    RunsStayWithinBudget(p, config, files, head, env);
    hide Runs, Wakes, CheckpointWakes, LastRecord, LastRan, LastVerdict;
    hide LastProjection, LastCertificate, LastOpening, Disciplined;
    hide RunEpochs, ActionOf, ResultOf, OutcomeOf, Passed, ProjectionCovers;
    RunEnds(p, start, 1, config.maxEpochs, env);
    RunFailsClosed(p, start, 1, config.maxEpochs, env);
    CoherentRecord(w.trace);
    if Accepted(w.trace) {
      CandidateHasPassed(LastRan(w.trace).value.1);
    }
  }
}
