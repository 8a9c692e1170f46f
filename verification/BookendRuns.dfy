/**
 * Whole runs of the supervisor: budgets and discipline, for every configuration and every sequence of executor
 * results, receipts and verdicts.
 */
module BookendRuns {
  import opened Wrappers
  import opened Bookend
  import opened BookendTrace
  import opened BookendReview
  import opened BookendSupervisor

  function Max(a: int, b: int): int {
    if a < b then b else a
  }

  function Min(a: int, b: int): int {
    if a < b then a else b
  }

  // ----- What one epoch may do --------------------------------------------------------------------------------

  /** A classified epoch: the trace is in order and its latest record, the current one, has its grant revoked. */
  ghost predicate Ready(w: World) {
    && Disciplined(w.trace) && LastRecord(w.trace) == Some(w.rec)
    && w.rec.grant.Revoked? && !w.rec.terminal && !w.rec.lease.Released?
  }

  /** Counters and wake requests move together, and at most one request goes out. */
  ghost predicate Accounted(w: World, s: Step) {
    var (cp, cp') := (w.rec.checkpointCount, s.w.rec.checkpointCount);
    var (rev, rev') := (w.rec.revisionCount, s.w.rec.revisionCount);
    var config := w.rec.config;
    && s.w.rec.config == config && Runs(s.w.trace) == Runs(w.trace)
    && LastRan(s.w.trace) == LastRan(w.trace) && LastOpening(s.w.trace) == LastOpening(w.trace)
    && Wakes(w.trace) <= Wakes(s.w.trace) <= Wakes(w.trace) + 1
    && CheckpointWakes(s.w.trace) - CheckpointWakes(w.trace) == cp' - cp
    && (cp' == cp || (cp' == cp + 1 && cp < config.maxCheckpoints))
    && (s.Next? ==>
          && Wakes(s.w.trace) - Wakes(w.trace) == (cp' - cp) + (rev' - rev)
          && (rev' == rev || (rev' == rev + 1 && rev < config.maxRevisionRounds)))
  }

  /** The epoch leaves the trace in order: it ends the run in a terminal state, or is recovering for the next. */
  ghost predicate Settled(s: Step) {
    && Disciplined(s.w.trace) && LastRecord(s.w.trace) == Some(s.w.rec)
    && (s.Stop? ==> s.w.rec.terminal)
    && (s.Next? ==>
          && s.w.rec.phase.Recovering? && s.w.rec.grant.Revoked?
          && !s.w.rec.terminal && !s.w.rec.lease.Released?)
  }

  /** Nothing but the record's phase and bookkeeping, files and quiet effects: no run, no request, no counter. */
  ghost predicate Quiet(w: World, w': World) {
    && w'.rec.config == w.rec.config && w'.rec.checkpointCount == w.rec.checkpointCount
    && Runs(w'.trace) == Runs(w.trace) && Wakes(w'.trace) == Wakes(w.trace)
    && CheckpointWakes(w'.trace) == CheckpointWakes(w.trace)
    && LastRan(w'.trace) == LastRan(w.trace) && LastOpening(w'.trace) == LastOpening(w.trace)
  }

  lemma CertifyQuiet(p: Platform, w: World, epoch: int, input: EpochInput)
    ensures var r := Certify(p, w, epoch, input);
            r.Ok? ==> Quiet(w, r.value.0) && r.value.0.rec == w.rec && (Ready(w) ==> Ready(r.value.0))
  {
    hide Log, Runs, Wakes, CheckpointWakes, LastRecord, LastRan, LastVerdict;
    hide LastProjection, LastCertificate, LastOpening, Disciplined;
  }

  lemma RevisedQuiet(p: Platform, w: World, epoch: int, input: EpochInput, verdict: Verdict)
    ensures var s := Revised(p, w, epoch, input, verdict);
            && Quiet(w, s.w) && (s.Next? ==> s.w.rec.revisionCount == w.rec.revisionCount + 1)
            && (Ready(w) ==> Settled(s))
  {
    hide Log, Runs, Wakes, CheckpointWakes, LastRecord, LastRan, LastVerdict;
    hide LastProjection, LastCertificate, LastOpening, Disciplined;
    CertifyQuiet(p, w, epoch, input);
    hide Certify;
  }

  lemma ReviewQuiet(p: Platform, w: World, epoch: int, input: EpochInput)
    ensures var s := AfterReview(p, w, epoch, input);
            && Quiet(w, s.w)
            && (s.Next? ==>
                  && s.w.rec.revisionCount == w.rec.revisionCount + 1
                  && w.rec.revisionCount < w.rec.config.maxRevisionRounds)
            && (Ready(w) && WakesCodex(w.rec.phase) ==> Settled(s))
  {
    hide Log, Runs, Wakes, CheckpointWakes, LastRecord, LastRan, LastVerdict;
    hide LastProjection, LastCertificate, LastOpening, Disciplined;
    hide ActionOf, Await, Revised;
    var answer := Await(w.rec.config, REVIEW_ACTIONS, input.reviewPolls);
    if answer.Some? {
      RevisedQuiet(p, WriteReviewReceipt(p, Note(w, VerdictRead(answer.value)), answer.value), epoch, input,
          answer.value);
    }
  }

  lemma ProjectionQuiet(p: Platform, w: World, diff: Option<Path>)
    ensures var r := BuildProjection(p, w, diff);
            r.Ok? ==> Quiet(w, r.value) && r.value.rec == w.rec && (Ready(w) ==> Ready(r.value))
  {
    hide Log, Runs, Wakes, CheckpointWakes, LastRecord, LastRan, LastVerdict;
    hide LastProjection, LastCertificate, LastOpening, Disciplined;
    hide ProjectionFor;
  }

  lemma CandidateSettles(p: Platform, w: World, epoch: int, input: EpochInput)
    ensures Accounted(w, AfterCandidate(p, w, epoch, input))
    ensures Ready(w) ==> Settled(AfterCandidate(p, w, epoch, input))
  {
    hide Log, Runs, Wakes, CheckpointWakes, LastRecord, LastRan, LastVerdict;
    hide LastProjection, LastCertificate, LastOpening, Disciplined;
    hide BuildProjection, AfterReview, WakeFor;
    var w1 := Update(w, w.rec, Projecting);
    ProjectionQuiet(p, w1, input.diff);
    var built := BuildProjection(p, w1, input.diff);
    if built.Ok? {
      ReviewQuiet(p, RequestReview(p, built.value), epoch, input);
    }
  }

  lemma CheckpointVerdictQuiet(p: Platform, w: World, input: EpochInput)
    ensures var s := AfterCheckpointVerdict(p, w, input);
            && Quiet(w, s.w) && s.w.rec.revisionCount == w.rec.revisionCount
            && (Ready(w) && WakesCodex(w.rec.phase) ==> Settled(s))
  {
    hide Log, Runs, Wakes, CheckpointWakes, LastRecord, LastRan, LastVerdict;
    hide LastProjection, LastCertificate, LastOpening, Disciplined;
    hide ActionOf, Await;
  }

  lemma CheckpointSettles(p: Platform, w: World, epoch: int, input: EpochInput)
    ensures Accounted(w, AfterCheckpoint(p, w, epoch, input))
    ensures Ready(w) ==> Settled(AfterCheckpoint(p, w, epoch, input))
  {
    hide Log, Runs, Wakes, CheckpointWakes, LastRecord, LastRan, LastVerdict;
    hide LastProjection, LastCertificate, LastOpening, Disciplined;
    hide Certify, AfterCheckpointVerdict, RequestCheckpoint;
    CertifyQuiet(p, w, epoch, input);
    var certified := Certify(p, w, epoch, input);
    if certified.Ok? && w.rec.checkpointCount < w.rec.config.maxCheckpoints {
      RequestCounts(p, certified.value.0, certified.value.1);
      CheckpointVerdictQuiet(p, RequestCheckpoint(p, certified.value.0, certified.value.1), input);
    }
  }

  /** A checkpoint request is one wake request and one checkpoint. */
  lemma RequestCounts(p: Platform, w: World, receipt: Option<Path>)
    ensures var asked := RequestCheckpoint(p, w, receipt);
            && asked.rec.config == w.rec.config && asked.rec.revisionCount == w.rec.revisionCount
            && asked.rec.checkpointCount == w.rec.checkpointCount + 1
            && Runs(asked.trace) == Runs(w.trace) && Wakes(asked.trace) == Wakes(w.trace) + 1
            && CheckpointWakes(asked.trace) == CheckpointWakes(w.trace) + 1
            && LastRan(asked.trace) == LastRan(w.trace) && LastOpening(asked.trace) == LastOpening(w.trace)
            && WakesCodex(asked.rec.phase) && (Ready(w) ==> Ready(asked))
  {
    hide Log, Runs, Wakes, CheckpointWakes, LastRecord, LastRan, LastVerdict;
    hide LastProjection, LastCertificate, LastOpening, Disciplined;
    hide ArtifactRef;
  }

  lemma ExpirySettles(p: Platform, w: World, epoch: int, limit: int, input: EpochInput)
    ensures Accounted(w, AfterExpiry(p, w, epoch, limit, input))
    ensures Ready(w) ==> Settled(AfterExpiry(p, w, epoch, limit, input))
  {
    hide Log, Runs, Wakes, CheckpointWakes, LastRecord, LastRan, LastVerdict;
    hide LastProjection, LastCertificate, LastOpening, Disciplined;
    hide CheckContinuation, ResultOf;
  }

  lemma FailureSettles(p: Platform, w: World, epoch: int, limit: int, input: EpochInput)
    ensures Accounted(w, AfterFailure(p, w, epoch, limit, input))
    ensures Ready(w) ==> Settled(AfterFailure(p, w, epoch, limit, input))
  {
    hide Log, Runs, Wakes, CheckpointWakes, LastRecord, LastRan, LastVerdict;
    hide LastProjection, LastCertificate, LastOpening, Disciplined;
    hide Certify, ExecutorBlocker, ResultOf;
    CertifyQuiet(p, w, epoch, input);
  }

  lemma SemanticBlockSettles(p: Platform, w: World, epoch: int, input: EpochInput)
    ensures Accounted(w, AfterSemanticBlock(p, w, epoch, input))
    ensures Ready(w) ==> Settled(AfterSemanticBlock(p, w, epoch, input))
  {
    hide Log, Runs, Wakes, CheckpointWakes, LastRecord, LastRan, LastVerdict;
    hide LastProjection, LastCertificate, LastOpening, Disciplined;
    hide CheckSemanticBlock, WakeFor, ResultOf;
  }

  lemma ResultSettles(p: Platform, w: World, epoch: int, limit: int, input: EpochInput)
    ensures Accounted(w, AfterResult(p, w, epoch, limit, input))
    ensures Ready(w) ==> Settled(AfterResult(p, w, epoch, limit, input))
  {
    hide Log, Runs, Wakes, CheckpointWakes, LastRecord, LastRan, LastVerdict;
    hide LastProjection, LastCertificate, LastOpening, Disciplined;
    hide AfterCandidate, AfterCheckpoint, AfterExpiry, AfterFailure, AfterSemanticBlock, OutcomeOf;
    hide AuthorityBlocker, ResultOf;
    match OutcomeOf(input)
    case EpochExpired =>
      ExpirySettles(p, w, epoch, limit, input);
      FailureSettles(p, w, epoch, limit, input);
    case DoneCandidate => CandidateSettles(p, w, epoch, input);
    case SemanticBlock => SemanticBlockSettles(p, w, epoch, input);
    case CheckpointTrigger => CheckpointSettles(p, w, epoch, input);
    case RuntimeBlock => FailureSettles(p, w, epoch, limit, input);
    case _ =>
  }

  // ----- Budgets and discipline over whole runs ---------------------------------------------------------------

  /** Before an epoch: `done` epochs have run, the counters account for every wake request, nothing is granted. */
  ghost predicate AtLoop(w: World, done: int) {
    var (cp, rev) := (w.rec.checkpointCount, w.rec.revisionCount);
    && Disciplined(w.trace) && LastRecord(w.trace) == Some(w.rec)
    && !w.rec.terminal && !w.rec.grant.Issued? && !w.rec.lease.Released? && !w.rec.phase.ReviewReady?
    && Runs(w.trace) == done && CheckpointWakes(w.trace) == cp && Wakes(w.trace) == cp + rev
    && 0 <= cp <= Max(0, w.rec.config.maxCheckpoints) && 0 <= rev <= Max(0, w.rec.config.maxRevisionRounds)
    && Wakes(w.trace) <= done
  }

  /** The end of a run: terminal, in order, and within every budget. */
  ghost predicate Ended(w: World, limit: int) {
    var config := w.rec.config;
    && w.rec.terminal && Disciplined(w.trace) && LastRecord(w.trace) == Some(w.rec)
    && Runs(w.trace) <= Max(0, limit)
    && CheckpointWakes(w.trace) <= Max(0, config.maxCheckpoints)
    && Wakes(w.trace) <= Min(Runs(w.trace), Max(0, config.maxCheckpoints) + Max(0, config.maxRevisionRounds) + 1)
  }

  lemma ExecuteReadies(p: Platform, w: World, epoch: int, input: EpochInput)
    requires AtLoop(w, epoch - 1)
    ensures var x := Execute(p, w, epoch, input);
            && Ready(x) && x.rec.config == w.rec.config && x.rec.epoch == epoch
            && Runs(x.trace) == epoch && Wakes(x.trace) == Wakes(w.trace)
            && CheckpointWakes(x.trace) == CheckpointWakes(w.trace)
            && x.rec.checkpointCount == w.rec.checkpointCount && x.rec.revisionCount == w.rec.revisionCount
            && LastRan(x.trace) == Some((epoch, input)) && LastVerdict(x.trace).None? && LastProjection(x.trace).None?
  {
    hide Log, Runs, Wakes, CheckpointWakes, LastRecord, LastRan, LastVerdict;
    hide LastProjection, LastCertificate, LastOpening, Disciplined;
    hide ResultOf;
  }

  lemma {:induction false} RunEnds(p: Platform, w: World, epoch: int, limit: int, env: int -> EpochInput)
    requires AtLoop(w, epoch - 1) && 1 <= epoch && (epoch <= limit + 1 || epoch == 1)
    ensures var x := RunEpochs(p, w, epoch, limit, env);
            Ended(x, limit) && x.rec.config == w.rec.config
    decreases limit - epoch
  {
    hide Runs, Wakes, CheckpointWakes, LastRecord, LastRan, LastVerdict;
    hide LastProjection, LastCertificate, LastOpening, Disciplined;
    hide Execute, AfterResult;
    if epoch <= limit {
      var x := Execute(p, w, epoch, env(epoch));
      ExecuteReadies(p, w, epoch, env(epoch));
      ResultSettles(p, x, epoch, limit, env(epoch));
      var s := AfterResult(p, x, epoch, limit, env(epoch));
      if s.Next? {
        RunEnds(p, s.w, epoch + 1, limit, env);
      }
    }
  }

  lemma SubmissionAtLoop(config: Config, files: Files)
    ensures AtLoop(Submission(config, files), 0)
  {}

  /**
   * Budgets: whatever the executor returns and whatever the verdict files hold, a supervised run executes at
   * most `maxEpochs` epochs, ends in a terminal state, asks for at most `maxCheckpoints` checkpoints, and wakes
   * Codex at most once for each epoch and at most checkpoints + revision rounds + 1 times in all. A negative
   * limit, which the command line lets through, counts as zero.
   */
  lemma RunsStayWithinBudget(p: Platform, config: Config, files: Files, head: Option<string>, env: int -> EpochInput)
    requires Control(FrozenTask) in files
    ensures var w := Supervise(p, Submission(config, files), head, env);
            && w.rec.terminal && LastRecord(w.trace) == Some(w.rec)
            && Runs(w.trace) <= Max(0, config.maxEpochs)
            && CheckpointWakes(w.trace) <= Max(0, config.maxCheckpoints)
            && Wakes(w.trace) <= Runs(w.trace)
            && Wakes(w.trace) <= Max(0, config.maxCheckpoints) + Max(0, config.maxRevisionRounds) + 1
  {
    hide Runs, Wakes, CheckpointWakes, LastRecord, LastRan, LastVerdict;
    hide LastProjection, LastCertificate, LastOpening, Disciplined;
    hide RunEpochs;
    SubmissionAtLoop(config, files);
    RunEnds(p, Submission(config, files), 1, config.maxEpochs, env);
  }

  /**
   * Discipline: at every persisted state of a run the flags follow the phase, a write grant is outstanding
   * exactly while converging and names the current epoch, and the lease is released exactly on acceptance; an
   * epoch runs only under its own grant, requests and verdicts come only while no grant is outstanding, and
   * nothing follows a terminal state.
   */
  lemma RunsAreDisciplined(p: Platform, config: Config, files: Files, head: Option<string>, env: int -> EpochInput)
    requires Control(FrozenTask) in files
    ensures Disciplined(Supervise(p, Submission(config, files), head, env).trace)
  {
    hide Runs, Wakes, CheckpointWakes, LastRecord, LastRan, LastVerdict;
    hide LastProjection, LastCertificate, LastOpening, Disciplined;
    hide RunEpochs;
    SubmissionAtLoop(config, files);
    RunEnds(p, Submission(config, files), 1, config.maxEpochs, env);
  }
}
