/** Evidence over whole runs of the supervisor: what lets an epoch continue in a recorded worktree. */
module BookendEvidence {
  import opened Wrappers
  import opened Strings
  import J = JsonValues
  import opened Bookend
  import opened BookendTrace
  import opened BookendReview
  import opened BookendSupervisor
  import opened BookendRuns

  // ----- Continuation -----------------------------------------------------------------------------------------

  /** The files when the result of an epoch is judged: what the executor left, and its recorded result. */
  function JudgedFiles(p: Platform, epoch: int, input: EpochInput): Files {
    input.files[Control(EpochResult(epoch)) := p.dump(ResultDoc(ResultOf(input)))]
  }

  /** A number that a JSON value equals, whether it is written as an integer, as a float or as a boolean. */
  predicate IsNumber(j: J.Json, n: int) {
    || j == J.Int(n) || j == J.Float(n as real)
    || (n == 1 && j == J.Bool(true)) || (n == 0 && j == J.Bool(false))
  }

  lemma NumberExactly(j: J.Json, n: int)
    ensures J.Same(j, J.Int(n)) <==> IsNumber(j, n)
    ensures J.Same(j, J.Bool(true)) <==> IsNumber(j, 1)
    ensures forall s :: J.Same(j, J.Text(s)) <==> j == J.Text(s)
  {
    J.SameUnfolds(j, J.Int(n));
    J.SameUnfolds(j, J.Bool(true));
    forall s ensures J.Same(j, J.Text(s)) <==> j == J.Text(s) {
      J.SameUnfolds(j, J.Text(s));
    }
  }

  /**
   * The file a result names as its continuation receipt has the digest the result gives, and holds a receipt of this
   * task, contract and epoch in which the owner declares its grant revoked and no writer active. A one, as an integer
   * or a float, is as good as a true.
   */
  ghost predicate ContinuationStands(p: Platform, files: Files, config: Config, result: ExecResult, epoch: int) {
    && result.continuationReceipt.Some? && result.continuationReceipt.value in files
    && var content := files[result.continuationReceipt.value];
       && result.continuationSha != "" && result.continuationSha == p.sha(content)
       && exists c: ContinuationReceipt :: p.load(content) == Some(ContinuationDoc(c))
            && IsNumber(c.schemaVersion, 1) && c.taskId == J.Text(config.taskId)
            && c.contractHash == J.Text(config.contractHash) && IsNumber(c.epoch, epoch) && c.owner == J.Text("claude")
            && IsNumber(c.priorGrantRevoked, 1) && IsNumber(c.noActiveWriter, 1) && IsDigest(c.stableStateHash)
  }

  lemma VerifiedContinuation(p: Platform, files: Files, config: Config, result: ExecResult, epoch: int)
    ensures CheckContinuation(p, files, config, result, epoch) == Verified <==>
              ContinuationStands(p, files, config, result, epoch)
  {
    forall j: J.Json, n: int
      ensures J.Same(j, J.Int(n)) <==> IsNumber(j, n)
      ensures J.Same(j, J.Bool(true)) <==> IsNumber(j, 1)
      ensures forall s :: J.Same(j, J.Text(s)) <==> j == J.Text(s)
    {
      NumberExactly(j, n);
    }
    hide IsDigest, IsNumber, J.Same;
  }

  /** The file a result names as its semantic receipt has the digest the result gives, and holds a receipt of this
      task, contract and epoch that names a decision and blocked acceptance, and says it is no execution failure. */
  ghost predicate SemanticBlockStands(p: Platform, files: Files, config: Config, result: ExecResult, epoch: int) {
    && result.semanticReceipt.Some? && result.semanticReceipt.value in files
    && var content := files[result.semanticReceipt.value];
       && result.semanticSha == p.sha(content)
       && exists s: SemanticReceipt :: p.load(content) == Some(SemanticDoc(s))
            && IsNumber(s.schemaVersion, 1) && s.taskId == J.Text(config.taskId)
            && s.contractHash == J.Text(config.contractHash) && IsNumber(s.epoch, epoch)
            && Strip(s.decisionRequired) != "" && s.blockingAcceptance.List? && s.blockingAcceptance.items != []
            && s.executionFailureOnly == J.Bool(false)
  }

  lemma VerifiedSemanticBlock(p: Platform, files: Files, config: Config, result: ExecResult, epoch: int)
    ensures CheckSemanticBlock(p, files, config, result, epoch) == Verified <==>
              SemanticBlockStands(p, files, config, result, epoch)
  {
    if result.semanticReceipt.Some? && result.semanticReceipt.value in files {
      match p.load(files[result.semanticReceipt.value])
      case Some(SemanticDoc(s)) =>
        NumberExactly(s.schemaVersion, 1);
        NumberExactly(s.taskId, 0);
        NumberExactly(s.contractHash, 0);
        NumberExactly(s.epoch, epoch);
      case _ =>
    }
    hide Strip, IsNumber, J.Same;
  }

  /** A claimed semantic block wakes Codex and ends in `semantic_blocked` exactly when its receipt stands. */
  lemma EscalatesExactly(p: Platform, w: World, epoch: int, input: EpochInput)
    ensures var s := AfterSemanticBlock(p, w, epoch, input);
            var stands := SemanticBlockStands(p, w.files, w.rec.config, ResultOf(input), epoch);
            && s.Stop? && (s.w.rec.phase == SemanticBlocked <==> stands)
            && Wakes(s.w.trace) == Wakes(w.trace) + if stands then 1 else 0
  {
    VerifiedSemanticBlock(p, w.files, w.rec.config, ResultOf(input), epoch);
    hide Log, Wakes, CheckSemanticBlock, SemanticBlockStands, ResultOf, WakeFor;
  }

  /** The epoch expired by its own account and handed over with a continuation receipt that stands. */
  ghost predicate HandedOver(p: Platform, config: Config, epoch: int, input: EpochInput) {
    && OutcomeOf(input) == EpochExpired && ResultOf(input).continuationSafe
    && ContinuationStands(p, JudgedFiles(p, epoch, input), config, ResultOf(input), epoch)
  }

  /** The controller certified the worktree in the given epoch. */
  predicate Certifies(config: Config, epoch: int, worktree: string, path: Path, c: ConvergenceReceipt) {
    && path == Control(ConvergenceReceiptFile(epoch)) && c.taskId == config.taskId
    && c.contractHash == config.contractHash && c.epoch == epoch && c.productWorktree == worktree
  }

  /** The latest execution was of `epoch`, and evidence for going on in `worktree` followed from it. */
  ghost predicate Evidenced(p: Platform, config: Config, t: Trace, epoch: int, worktree: string) {
    var (ran, certificate) := (LastRan(t), LastCertificate(t));
    && ran.Some? && ran.value.0 == epoch
    && (HandedOver(p, config, epoch, ran.value.1)
        || (certificate.Some? && Certifies(config, epoch, worktree, certificate.value.0, certificate.value.1)))
  }

  /** Every epoch after the first that opens with a recorded worktree is backed by evidence from the one before. */
  ghost predicate Backed(p: Platform, t: Trace)
    decreases Length(t)
  {
    match LastOpening(t)
    case Start => true
    case Then(prior, e) =>
      && (e.rec.epoch > 1 && e.rec.productWorktree != "" ==>
            Evidenced(p, e.rec.config, prior, e.rec.epoch - 1, e.rec.productWorktree))
      && Backed(p, prior)
  }

  /** A step that ends without evidence does not let the loop go on. */
  ghost predicate Carries(p: Platform, w: World, s: Step, epoch: int) {
    s.Next? ==>
      && s.w.rec.productWorktree == w.rec.productWorktree
      && (w.rec.productWorktree != "" ==> Evidenced(p, w.rec.config, s.w.trace, epoch, w.rec.productWorktree))
  }

  lemma CertifyCarries(p: Platform, w: World, epoch: int, input: EpochInput)
    requires LastRan(w.trace) == Some((epoch, input))
    ensures var r := Certify(p, w, epoch, input);
            r.Ok? ==>
              && r.value.0.rec == w.rec && LastRan(r.value.0.trace) == Some((epoch, input))
              && (w.rec.productWorktree != "" ==>
                    Evidenced(p, w.rec.config, r.value.0.trace, epoch, w.rec.productWorktree))
  {
    hide Log, Runs, Wakes, CheckpointWakes, LastRecord, LastRan, LastVerdict;
    hide LastProjection, LastCertificate, LastOpening, Disciplined;
    hide HandedOver;
  }

  lemma RevisedCarries(p: Platform, w: World, epoch: int, input: EpochInput, verdict: Verdict)
    requires LastRan(w.trace) == Some((epoch, input))
    ensures Carries(p, w, Revised(p, w, epoch, input, verdict), epoch)
  {
    hide Log, Runs, Wakes, CheckpointWakes, LastRecord, LastRan, LastVerdict;
    hide LastProjection, LastCertificate, LastOpening, Disciplined;
    hide HandedOver, Certify;
    CertifyCarries(p, w, epoch, input);
  }

  lemma CandidateCarries(p: Platform, w: World, epoch: int, input: EpochInput)
    requires LastRan(w.trace) == Some((epoch, input))
    ensures Carries(p, w, AfterCandidate(p, w, epoch, input), epoch)
  {
    hide Log, Runs, Wakes, CheckpointWakes, LastRecord, LastRan, LastVerdict;
    hide LastProjection, LastCertificate, LastOpening, Disciplined;
    hide BuildProjection, Revised, ActionOf, Await, WakeFor, Evidenced;
    var w1 := Update(w, w.rec, Projecting);
    ProjectionQuiet(p, w1, input.diff);
    var built := BuildProjection(p, w1, input.diff);
    if built.Ok? {
      var asked := RequestReview(p, built.value);
      var answer := Await(asked.rec.config, REVIEW_ACTIONS, input.reviewPolls);
      if answer.Some? {
        RevisedCarries(p, WriteReviewReceipt(p, Note(asked, VerdictRead(answer.value)), answer.value), epoch, input,
            answer.value);
      }
    }
  }

  lemma CheckpointCarries(p: Platform, w: World, epoch: int, input: EpochInput)
    requires LastRan(w.trace) == Some((epoch, input))
    ensures Carries(p, w, AfterCheckpoint(p, w, epoch, input), epoch)
  {
    hide Log, Runs, Wakes, CheckpointWakes, LastRecord, LastRan, LastVerdict;
    hide LastProjection, LastCertificate, LastOpening, Disciplined;
    hide Certify, ActionOf, Await, HandedOver;
    CertifyCarries(p, w, epoch, input);
  }

  lemma FailureCarries(p: Platform, w: World, epoch: int, limit: int, input: EpochInput)
    requires LastRan(w.trace) == Some((epoch, input))
    ensures Carries(p, w, AfterFailure(p, w, epoch, limit, input), epoch)
  {
    hide Log, Runs, Wakes, CheckpointWakes, LastRecord, LastRan, LastVerdict;
    hide LastProjection, LastCertificate, LastOpening, Disciplined;
    hide Certify, HandedOver, ExecutorBlocker, ResultOf;
    CertifyCarries(p, w, epoch, input);
  }

  lemma ExpiryCarries(p: Platform, w: World, epoch: int, limit: int, input: EpochInput)
    requires LastRan(w.trace) == Some((epoch, input)) && w.files == JudgedFiles(p, epoch, input)
    requires OutcomeOf(input) == EpochExpired && ResultOf(input).continuationSafe
    ensures Carries(p, w, AfterExpiry(p, w, epoch, limit, input), epoch)
  {
    hide Log, Runs, Wakes, CheckpointWakes, LastRecord, LastRan, LastVerdict;
    hide LastProjection, LastCertificate, LastOpening, Disciplined;
    hide CheckContinuation, ContinuationStands, ResultOf, OutcomeOf, JudgedFiles;
    VerifiedContinuation(p, w.files, w.rec.config, ResultOf(input), epoch);
  }

  lemma ResultCarries(p: Platform, w: World, epoch: int, limit: int, input: EpochInput)
    requires LastRan(w.trace) == Some((epoch, input)) && w.files == JudgedFiles(p, epoch, input)
    ensures Carries(p, w, AfterResult(p, w, epoch, limit, input), epoch)
  {
    hide Log, Runs, Wakes, CheckpointWakes, LastRecord, LastRan, LastVerdict;
    hide LastProjection, LastCertificate, LastOpening, Disciplined;
    hide AfterCandidate, AfterCheckpoint, AfterExpiry, AfterFailure, AfterSemanticBlock, OutcomeOf, AuthorityBlocker;
    hide ResultOf, JudgedFiles, Evidenced;
    match OutcomeOf(input)
    case EpochExpired =>
      if ResultOf(input).continuationSafe {
        ExpiryCarries(p, w, epoch, limit, input);
      } else {
        FailureCarries(p, w, epoch, limit, input);
      }
    case DoneCandidate => CandidateCarries(p, w, epoch, input);
    case CheckpointTrigger => CheckpointCarries(p, w, epoch, input);
    case RuntimeBlock => FailureCarries(p, w, epoch, limit, input);
    case SemanticBlock => assert AfterSemanticBlock(p, w, epoch, input).Stop?
        by { SemanticBlockStops(p, w, epoch, input); }
    case _ =>
  }

  lemma SemanticBlockStops(p: Platform, w: World, epoch: int, input: EpochInput)
    ensures AfterSemanticBlock(p, w, epoch, input).Stop?
  {
    hide CheckSemanticBlock, EmitWake, Update;
  }

  /** The trace between executions that the loop leaves behind. */
  lemma ExecuteOpens(p: Platform, w: World, epoch: int, input: EpochInput)
    requires Backed(p, w.trace)
    requires epoch > 1 && w.rec.productWorktree != "" ==>
               Evidenced(p, w.rec.config, w.trace, epoch - 1, w.rec.productWorktree)
    ensures var x := Execute(p, w, epoch, input);
            && Backed(p, x.trace) && LastRan(x.trace) == Some((epoch, input))
            && x.files == JudgedFiles(p, epoch, input) && x.rec.config == w.rec.config
  {
    hide Runs, Wakes, CheckpointWakes, LastRecord, LastRan, LastVerdict;
    hide LastProjection, LastCertificate, LastOpening, Disciplined;
    hide Evidenced, ResultOf;
    var w1 := Update(w, w.rec.(epoch := epoch, grant := Issued(epoch), lease := Active), Converging);
    assert LastOpening(w1.trace) == w1.trace;
    assert Backed(p, w1.trace);
    var x := Execute(p, w, epoch, input);
    assert LastOpening(x.trace) == LastOpening(w1.trace);
  }

  lemma {:induction false} RunIsBacked(p: Platform, w: World, epoch: int, limit: int, env: int -> EpochInput)
    requires Backed(p, w.trace)
    requires epoch > 1 && w.rec.productWorktree != "" ==>
               Evidenced(p, w.rec.config, w.trace, epoch - 1, w.rec.productWorktree)
    ensures Backed(p, RunEpochs(p, w, epoch, limit, env).trace)
    decreases limit - epoch
  {
    hide Runs, Wakes, CheckpointWakes, LastRecord, LastRan, LastVerdict;
    hide LastProjection, LastCertificate, LastOpening, Disciplined;
    hide Execute, AfterResult, Evidenced;
    if epoch <= limit {
      var x := Execute(p, w, epoch, env(epoch));
      ExecuteOpens(p, w, epoch, env(epoch));
      ResultSettles(p, x, epoch, limit, env(epoch));
      ResultCarries(p, x, epoch, limit, env(epoch));
      var s := AfterResult(p, x, epoch, limit, env(epoch));
      assert LastOpening(s.w.trace) == LastOpening(x.trace);
      assert Backed(p, s.w.trace);
      if s.Next? {
        RunIsBacked(p, s.w, epoch + 1, limit, env);
      }
    } else {
      assert LastOpening(RunEpochs(p, w, epoch, limit, env).trace) == LastOpening(w.trace);
    }
  }

  /**
   * Whenever an epoch after the first opens with a recorded product worktree, the epoch before it was handed
   * over with a verified continuation receipt, or its worktree was certified by a receipt naming that epoch and
   * that worktree; a run without such evidence has already stopped.
   */
  lemma EpochsContinueOnEvidence(p: Platform, config: Config, files: Files, head: Option<string>,
      env: int -> EpochInput)
    requires Control(FrozenTask) in files
    ensures Backed(p, Supervise(p, Submission(config, files), head, env).trace)
  {
    var w := Submission(config, files);
    assert LastOpening(w.trace) == Start;
    assert Backed(p, w.trace);
    hide Runs, Wakes, CheckpointWakes, LastRecord, LastRan, LastVerdict;
    hide LastProjection, LastCertificate, LastOpening, Disciplined;
    hide RunEpochs, HandedOver;
    RunIsBacked(p, w, 1, config.maxEpochs, env);
    assert LastOpening(Supervise(p, w, head, env).trace) == LastOpening(w.trace) ==>
        Backed(p, Supervise(p, w, head, env).trace);
  }
}
