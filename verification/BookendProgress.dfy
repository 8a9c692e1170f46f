/**
 * How far supervised runs of scripts/bookend-task.py get: what each epoch shows to the outside, when the next one is
 * opened and how the last one ends, in terms of the configuration and of what happens outside alone.
 */
module BookendProgress {
  import opened Wrappers
  import opened Strings
  import opened Bookend
  import opened BookendTrace
  import opened BookendReview
  import opened BookendSupervisor
  import opened BookendEvidence
  import opened BookendClasses

  // ----- What a trace shows -----------------------------------------------------------------------------------------

  /** What can be seen of a run: executions, requests, answers, the receipts and notes it leaves, and recoveries. */
  datatype Milestone =
    | Executed(epoch: int, input: EpochInput)
    | Certified(path: Path, certificate: ConvergenceReceipt)
    | Requested(kind: WakeKind)
    | Answered(verdict: Verdict)
    | Unanswered
    | Reviewed(path: Path, receipt: ReviewReceipt)
    | Left(path: Path, text: string)
    | Recovered(recovery: Recovery)

  function Seen(e: Effect): seq<Milestone> {
    match e
    case Persisted(rec) => if rec.phase.Recovering? then [Recovered(rec.recovery)] else []
    case Ran(epoch, input) => [Executed(epoch, input)]
    case Wrote(path, ConvergenceDoc(c)) => [Certified(path, c)]
    case Wrote(path, ReviewReceiptDoc(r)) => [Reviewed(path, r)]
    case Wrote(path, TextDoc(text)) => [Left(path, text)]
    case Wrote(_, _) => []
    case Emitted(kind) => [Requested(kind)]
    case VerdictRead(verdict) => [Answered(verdict)]
    case VerdictTimeout => [Unanswered]
  }

  function Timeline(t: Trace): seq<Milestone> {
    match t
    case Start => []
    case Then(prior, e) => Timeline(prior) + Seen(e)
  }

  // ----- What happens outside decides -------------------------------------------------------------------------------

  /** The product worktree on record after an epoch: the last one that a result named. */
  function Worktree(env: int -> EpochInput, epoch: int): string
    decreases epoch
  {
    if epoch < 1 then ""
    else if ResultOf(env(epoch)).productWorktree != "" then ResultOf(env(epoch)).productWorktree
    else Worktree(env, epoch - 1)
  }

  /** How many epochs before this one had an outcome. */
  function Before(env: int -> EpochInput, outcome: Outcome, epoch: int): nat
    decreases epoch
  {
    if epoch <= 1 then 0
    else Before(env, outcome, epoch - 1) + if OutcomeOf(env(epoch - 1)) == outcome then 1 else 0
  }

  /** The recorded worktree, if there is one, can be certified. */
  predicate Certifiable(env: int -> EpochInput, epoch: int) {
    Worktree(env, epoch) == "" || env(epoch).worktree.Ok?
  }

  function CertificateOf(config: Config, env: int -> EpochInput, epoch: int): seq<Milestone> {
    if Worktree(env, epoch) == "" || env(epoch).worktree.Err? then []
    else [Certified(Control(ConvergenceReceiptFile(epoch)),
                    ConvergenceReceipt(config.taskId, config.contractHash, epoch, Worktree(env, epoch),
                                       env(epoch).worktree.value))]
  }

  /** The epoch names a diff that is there and not empty. */
  predicate Reviewable(p: Platform, epoch: int, input: EpochInput) {
    && input.diff.Some? && input.diff.value in JudgedFiles(p, epoch, input)
    && JudgedFiles(p, epoch, input)[input.diff.value] != []
  }

  /** It expired, claims that going on is safe, and its receipt stands. */
  ghost predicate HandsOver(p: Platform, config: Config, env: int -> EpochInput, epoch: int) {
    HandedOver(p, config, epoch, env(epoch))
  }

  /** Its candidate is sent back by the first matching verdict, and rounds are left. */
  ghost predicate Revises(p: Platform, config: Config, env: int -> EpochInput, epoch: int) {
    && OutcomeOf(env(epoch)) == DoneCandidate && Reviewable(p, epoch, env(epoch))
    && (exists v :: Answers(config, REVIEW_WORDS, env(epoch).reviewPolls, v) && Lower(Strip(v.action)) == "revise")
    && Before(env, DoneCandidate, epoch) < config.maxRevisionRounds && Certifiable(env, epoch)
  }

  /** Its review window closed while checkpoints are left, and the first matching verdict does not say stop. */
  ghost predicate Resumes(config: Config, env: int -> EpochInput, epoch: int) {
    && OutcomeOf(env(epoch)) == CheckpointTrigger && Certifiable(env, epoch)
    && Before(env, CheckpointTrigger, epoch) < config.maxCheckpoints
    && exists v :: Answers(config, CHECKPOINT_WORDS, env(epoch).checkpointPolls, v) && Lower(Strip(v.action)) != "stop"
  }

  /** Its review window closed after the last checkpoint. */
  predicate Passes(config: Config, env: int -> EpochInput, epoch: int) {
    && OutcomeOf(env(epoch)) == CheckpointTrigger && Certifiable(env, epoch)
    && Before(env, CheckpointTrigger, epoch) >= config.maxCheckpoints
  }

  /** It failed, or expired without claiming that going on is safe. */
  predicate Failed(input: EpochInput) {
    OutcomeOf(input) == RuntimeBlock || (OutcomeOf(input) == EpochExpired && !ResultOf(input).continuationSafe)
  }

  predicate Retries(env: int -> EpochInput, epoch: int) {
    Failed(env(epoch)) && Certifiable(env, epoch)
  }

  /** The epoch leaves the run recovering; after a hand-over or a failure only when another epoch is left. */
  ghost predicate Continues(p: Platform, config: Config, env: int -> EpochInput, epoch: int) {
    || Revises(p, config, env, epoch) || Resumes(config, env, epoch) || Passes(config, env, epoch)
    || (epoch < config.maxEpochs && (HandsOver(p, config, env, epoch) || Retries(env, epoch)))
  }

  // ----- What an epoch shows ----------------------------------------------------------------------------------------

  /** The receipt of a review, under the number of revisions before it. */
  function ReviewOf(config: Config, rounds: int, v: Verdict): Milestone {
    Reviewed(Control(ReviewReceiptFile(rounds)),
             ReviewReceipt(config.taskId, config.contractHash, rounds, v.acceptedIds))
  }

  ghost function AfterAnswer(config: Config, env: int -> EpochInput, epoch: int, v: Verdict): seq<Milestone> {
    var rounds := Before(env, DoneCandidate, epoch);
    var review := ReviewOf(config, rounds, v);
    if Lower(Strip(v.action)) == "accept" then [review]
    else if rounds >= config.maxRevisionRounds then []
    else if !Certifiable(env, epoch) then [review]
    else [review] + CertificateOf(config, env, epoch)
         + [Left(Control(RevisionDeltaFile(rounds + 1)), v.delta), Recovered(RevisionContinue)]
  }

  ghost function CandidateShows(p: Platform, config: Config, env: int -> EpochInput, epoch: int): seq<Milestone> {
    if !Reviewable(p, epoch, env(epoch)) then []
    else
      [Requested(if Before(env, DoneCandidate, epoch) > 0 then DeltaReview else FinalReview)]
      + match Await(config, REVIEW_ACTIONS, env(epoch).reviewPolls)
        case None => [Unanswered]
        case Some(v) => [Answered(v)] + AfterAnswer(config, env, epoch, v)
  }

  /** What follows the answer to a checkpoint. */
  ghost function AnswerShows(v: Verdict): seq<Milestone> {
    if Lower(Strip(v.action)) == "stop" then [Answered(v)]
    else if Lower(Strip(v.action)) == "continue_with_guidance" && v.guidance != "" then
      [Answered(v), Left(Control(GuidanceFile), v.guidance), Recovered(CheckpointResume)]
    else [Answered(v), Recovered(CheckpointResume)]
  }

  ghost function WindowShows(config: Config, env: int -> EpochInput, epoch: int): seq<Milestone> {
    if !Certifiable(env, epoch) then []
    else if Before(env, CheckpointTrigger, epoch) >= config.maxCheckpoints then
      CertificateOf(config, env, epoch) + [Recovered(WindowContinue)]
    else
      CertificateOf(config, env, epoch) + [Requested(CheckpointReview)]
      + match Await(config, CHECKPOINT_ACTIONS, env(epoch).checkpointPolls)
        case None => [Unanswered]
        case Some(v) => AnswerShows(v)
  }

  ghost function FailureShows(config: Config, env: int -> EpochInput, epoch: int): seq<Milestone> {
    if epoch < config.maxEpochs && Certifiable(env, epoch)
    then CertificateOf(config, env, epoch) + [Recovered(ConvergenceContinue)]
    else []
  }

  /** What is seen of an epoch after its execution. */
  ghost function Shows(p: Platform, config: Config, env: int -> EpochInput, epoch: int): seq<Milestone> {
    match OutcomeOf(env(epoch))
    case EpochExpired =>
      if !ResultOf(env(epoch)).continuationSafe then FailureShows(config, env, epoch)
      else if HandsOver(p, config, env, epoch) && epoch < config.maxEpochs then [Recovered(SameOwner)]
      else []
    case DoneCandidate => CandidateShows(p, config, env, epoch)
    case SemanticBlock =>
      if SemanticBlockStands(p, JudgedFiles(p, epoch, env(epoch)), config, ResultOf(env(epoch)), epoch)
      then [Requested(SemanticEscalation)]
      else []
    case CheckpointTrigger => WindowShows(config, env, epoch)
    case RuntimeBlock => FailureShows(config, env, epoch)
    case AuthorityBlock => []
    case BudgetExhaust => []
  }

  // ----- How a run ends ---------------------------------------------------------------------------------------------

  /** The final phase and, where the run ends for a reason of its own, that reason. */
  datatype End = End(phase: Phase, reason: Option<Blocker>)

  function Stuck(blocker: Blocker): End {
    End(RuntimeBlocked, Some(blocker))
  }

  function Text(error: string, failure: string, otherwise: Blocker): Blocker {
    if error != "" then ExecutorReason(error) else if failure != "" then ExecutorReason(failure) else otherwise
  }

  ghost function CandidateEnds(p: Platform, config: Config, env: int -> EpochInput, epoch: int): End {
    var input := env(epoch);
    if !Reviewable(p, epoch, input) then
      Stuck(if input.diff.Some? && input.diff.value in JudgedFiles(p, epoch, input) then EmptyDiff else NoDiff)
    else
      match Await(config, REVIEW_ACTIONS, input.reviewPolls)
      case None => Stuck(ReviewTimeout)
      case Some(v) =>
        if Lower(Strip(v.action)) == "accept" then End(ReviewReady, None)
        else if Before(env, DoneCandidate, epoch) >= config.maxRevisionRounds then Stuck(RevisionsExhausted)
        else if Certifiable(env, epoch) then End(BudgetExhausted, None)
        else Stuck(WorktreeRejected(input.worktree.error))
  }

  ghost function WindowEnds(config: Config, env: int -> EpochInput, epoch: int): End {
    var input := env(epoch);
    if !Certifiable(env, epoch) then Stuck(WorktreeRejected(input.worktree.error))
    else if Before(env, CheckpointTrigger, epoch) >= config.maxCheckpoints then End(BudgetExhausted, None)
    else
      match Await(config, CHECKPOINT_ACTIONS, input.checkpointPolls)
      case None => Stuck(CheckpointTimeout)
      case Some(v) => if Lower(Strip(v.action)) == "stop" then Stuck(CheckpointStop) else End(BudgetExhausted, None)
  }

  ghost function FailureEnds(config: Config, env: int -> EpochInput, epoch: int): End {
    var (input, result) := (env(epoch), ResultOf(env(epoch)));
    if epoch < config.maxEpochs && !Certifiable(env, epoch) then Stuck(WorktreeRejected(input.worktree.error))
    else Stuck(Text(result.error, result.failureStatus, DidNotConverge))
  }

  /** How a run ends whose last epoch this is. */
  ghost function EndsIn(p: Platform, config: Config, env: int -> EpochInput, epoch: int): End {
    var (input, result) := (env(epoch), ResultOf(env(epoch)));
    var files := JudgedFiles(p, epoch, input);
    match OutcomeOf(input)
    case EpochExpired =>
      if !result.continuationSafe then FailureEnds(config, env, epoch)
      else if HandsOver(p, config, env, epoch) then End(BudgetExhausted, Some(EpochsExhausted))
      else Stuck(ReceiptRejected(CheckContinuation(p, files, config, result, epoch)))
    case DoneCandidate => CandidateEnds(p, config, env, epoch)
    case SemanticBlock =>
      if SemanticBlockStands(p, files, config, result, epoch) then End(SemanticBlocked, None)
      else Stuck(ReceiptRejected(CheckSemanticBlock(p, files, config, result, epoch)))
    case CheckpointTrigger => WindowEnds(config, env, epoch)
    case RuntimeBlock => FailureEnds(config, env, epoch)
    case AuthorityBlock => End(AuthorityBlocked, Some(Text(result.error, result.failureStatus, AuthorityRequired)))
    case BudgetExhaust => End(BudgetExhausted, None)
  }

  // ----- The state between epochs -----------------------------------------------------------------------------------

  function Min(a: int, b: int): int {
    if a < b then a else b
  }

  function Least0(a: int): nat {
    if a < 0 then 0 else a
  }

  /** How many checkpoints were asked for before an epoch. */
  function Asked(config: Config, env: int -> EpochInput, epoch: int): int {
    Min(Before(env, CheckpointTrigger, epoch), Least0(config.maxCheckpoints))
  }

  /** The record agrees with what happened in the epochs before. */
  ghost predicate Tracks(config: Config, env: int -> EpochInput, epoch: int, w: World) {
    && w.rec.config == config && w.rec.productWorktree == Worktree(env, epoch - 1)
    && w.rec.revisionCount == Before(env, DoneCandidate, epoch)
    && w.rec.checkpointCount == Asked(config, env, epoch)
  }

  /** The world in which the result of an epoch is judged. */
  ghost predicate Judged(p: Platform, config: Config, env: int -> EpochInput, epoch: int, x: World) {
    && x.rec.config == config && x.files == JudgedFiles(p, epoch, env(epoch))
    && x.rec.productWorktree == Worktree(env, epoch)
    && x.rec.revisionCount == Before(env, DoneCandidate, epoch)
    && x.rec.checkpointCount == Asked(config, env, epoch)
  }

  /** A step shows what the epoch shows, goes on exactly when the epoch does, and ends as it ends. */
  ghost predicate Tells(p: Platform, config: Config, env: int -> EpochInput, epoch: int, x: World, s: Step) {
    && Timeline(s.w.trace) == Timeline(x.trace) + Shows(p, config, env, epoch)
    && (s.Next? <==> Continues(p, config, env, epoch))
    && (s.Next? ==> Tracks(config, env, epoch + 1, s.w))
    && (s.Stop? ==> EndsAs(EndsIn(p, config, env, epoch), s.w))
  }

  ghost predicate EndsAs(end: End, w: World) {
    && w.rec.phase == end.phase && (end.reason.Some? ==> w.rec.blocker == end.reason.value)
    && w.rec.lease == if end.phase.ReviewReady? then Released else Suspended
  }

  // ----- Every handler tells its part -------------------------------------------------------------------------------

  lemma UpdateShows(w: World, rec: Record, phase: Phase)
    ensures var x := Update(w, rec, phase);
            && Timeline(x.trace) == Timeline(w.trace) + (if phase.Recovering? then [Recovered(rec.recovery)] else [])
            && x.files == w.files
  {
    hide Log;
    Appends(w.trace, Persisted(rec.(phase := phase, terminal := IsTerminal(phase), wakeRequired := WakesCodex(phase))));
  }

  lemma Appends(t: Trace, e: Effect)
    ensures Timeline(Log(t, e)) == Timeline(t) + Seen(e)
  {
    assert Log(t, e) == Then(t, e);
  }

  lemma WriteShows(p: Platform, w: World, path: Path, doc: Document)
    ensures Timeline(Write(p, w, path, doc).trace) == Timeline(w.trace) + Seen(Wrote(path, doc))
  {
    hide Log, Seen;
    Appends(w.trace, Wrote(path, doc));
  }

  lemma NoteShows(w: World, e: Effect)
    ensures Timeline(Note(w, e).trace) == Timeline(w.trace) + Seen(e)
  {
    hide Log, Seen;
    Appends(w.trace, e);
  }

  lemma BlockedEnds(w: World, phase: Phase, blocker: Blocker)
    requires !phase.Recovering? && !phase.ReviewReady?
    ensures var s := Blocked(w, phase, blocker);
            s.Stop? && Timeline(s.w.trace) == Timeline(w.trace) && EndsAs(End(phase, Some(blocker)), s.w)
  {
    hide Log;
    UpdateShows(w, w.rec.(blocker := blocker, lease := Suspended), phase);
    assert Timeline(w.trace) + [] == Timeline(w.trace);
  }

  lemma CertifyShows(p: Platform, config: Config, env: int -> EpochInput, epoch: int, x: World)
    requires x.rec.config == config && x.rec.productWorktree == Worktree(env, epoch)
    ensures var r := Certify(p, x, epoch, env(epoch));
            && (r.Ok? <==> Certifiable(env, epoch))
            && (r.Ok? ==> r.value.0.rec == x.rec
                          && Timeline(r.value.0.trace) == Timeline(x.trace) + CertificateOf(config, env, epoch))
            && (r.Err? ==> env(epoch).worktree.Err? && r.error == WorktreeRejected(env(epoch).worktree.error))
  {
    hide Log, Worktree;
    if x.rec.productWorktree != "" && env(epoch).worktree.Ok? {
      WriteShows(p, x, Control(ConvergenceReceiptFile(epoch)),
                 ConvergenceFor(config, epoch, x.rec.productWorktree, env(epoch).worktree.value));
    } else {
      assert Timeline(x.trace) + [] == Timeline(x.trace);
    }
  }

  /** The counters move with the outcome, so the next epoch finds the record as expected. */
  lemma KeepsTrack(p: Platform, config: Config, env: int -> EpochInput, epoch: int, x: World, w: World)
    requires Judged(p, config, env, epoch, x) && 1 <= epoch
    requires w.rec.config == x.rec.config && w.rec.productWorktree == x.rec.productWorktree
    requires w.rec.revisionCount
          == x.rec.revisionCount + if OutcomeOf(env(epoch)) == DoneCandidate then 1 else 0
    requires w.rec.checkpointCount
          == x.rec.checkpointCount
             + if OutcomeOf(env(epoch)) == CheckpointTrigger && x.rec.checkpointCount < config.maxCheckpoints
               then 1 else 0
    ensures Tracks(config, env, epoch + 1, w)
  {
    hide OutcomeOf, Worktree;
  }

  lemma FailureMeans(p: Platform, config: Config, env: int -> EpochInput, epoch: int)
    requires Failed(env(epoch))
    ensures Shows(p, config, env, epoch) == FailureShows(config, env, epoch)
    ensures EndsIn(p, config, env, epoch) == FailureEnds(config, env, epoch)
    ensures Continues(p, config, env, epoch) <==> epoch < config.maxEpochs && Certifiable(env, epoch)
  {
    hide OutcomeOf, ResultOf, FailureShows, FailureEnds, Certifiable, JudgedFiles, ContinuationStands;
  }

  lemma FailureTells(p: Platform, config: Config, env: int -> EpochInput, epoch: int, x: World)
    requires Judged(p, config, env, epoch, x) && Failed(env(epoch)) && 1 <= epoch
    ensures Tells(p, config, env, epoch, x, AfterFailure(p, x, epoch, config.maxEpochs, env(epoch)))
  {
    hide Log, Timeline, ResultOf, Certify, Worktree, CertificateOf, Blocked, OutcomeOf, Shows, EndsIn, Continues;
    hide Tracks, Certifiable, Update, Before, JudgedFiles, Failed, Asked;
    var blocker := ExecutorBlocker(ResultOf(env(epoch)));
    FailureMeans(p, config, env, epoch);
    CertifyShows(p, config, env, epoch, x);
    BlockedEnds(x, RuntimeBlocked, blocker);
    NotOthers(env(epoch));
    hide Judged;
    assert Timeline(x.trace) + [] == Timeline(x.trace);
    var certified := Certify(p, x, epoch, env(epoch));
    if certified.Err? {
      BlockedEnds(x, RuntimeBlocked, certified.error);
    } else {
      var (w, receipt) := certified.value;
      RecoversQuietly(p, config, env, epoch, x,
                      w, w.rec.(recovery := ConvergenceContinue, convergenceReceipt := receipt, blocker := blocker));
    }
  }

  lemma NotOthers(input: EpochInput)
    requires Failed(input)
    ensures OutcomeOf(input) != DoneCandidate && OutcomeOf(input) != CheckpointTrigger
  {
    hide OutcomeOf;
  }

  /** Going on without a request or an answer. */
  lemma RecoversQuietly(p: Platform, config: Config, env: int -> EpochInput, epoch: int, x: World, w: World,
                        rec: Record)
    requires Judged(p, config, env, epoch, x) && 1 <= epoch && OutcomeOf(env(epoch)) != DoneCandidate
    requires OutcomeOf(env(epoch)) == CheckpointTrigger ==> x.rec.checkpointCount >= config.maxCheckpoints
    requires rec.config == x.rec.config && rec.productWorktree == x.rec.productWorktree
    requires rec.revisionCount == x.rec.revisionCount && rec.checkpointCount == x.rec.checkpointCount
    ensures var next := Update(w, rec, Recovering);
            Tracks(config, env, epoch + 1, next)
                && Timeline(next.trace) == Timeline(w.trace) + [Recovered(rec.recovery)]
  {
    UpdateShows(w, rec, Recovering);
    KeepsTrack(p, config, env, epoch, x, Update(w, rec, Recovering));
    hide Log, OutcomeOf, Tracks, Timeline, Judged;
  }

  lemma ExpiryMeans(p: Platform, config: Config, env: int -> EpochInput, epoch: int)
    requires OutcomeOf(env(epoch)) == EpochExpired && ResultOf(env(epoch)).continuationSafe
    ensures Continues(p, config, env, epoch) <==> epoch < config.maxEpochs && HandsOver(p, config, env, epoch)
    ensures HandsOver(p, config, env, epoch) <==>
        CheckContinuation(p, JudgedFiles(p, epoch, env(epoch)), config, ResultOf(env(epoch)), epoch) == Verified
  {
    VerifiedContinuation(p, JudgedFiles(p, epoch, env(epoch)), config, ResultOf(env(epoch)), epoch);
    hide OutcomeOf, ResultOf, Certifiable, JudgedFiles, ContinuationStands, CheckContinuation;
  }

  lemma ExpiryTells(p: Platform, config: Config, env: int -> EpochInput, epoch: int, x: World)
    requires Judged(p, config, env, epoch, x) && 1 <= epoch
    requires OutcomeOf(env(epoch)) == EpochExpired && ResultOf(env(epoch)).continuationSafe
    ensures Tells(p, config, env, epoch, x, AfterExpiry(p, x, epoch, config.maxEpochs, env(epoch)))
  {
    hide Log, Timeline, ResultOf, CheckContinuation, Worktree, Blocked, OutcomeOf, Continues, HandsOver;
    hide Tracks, Certifiable, Update, Before, JudgedFiles, Asked;
    var check := CheckContinuation(p, x.files, config, ResultOf(env(epoch)), epoch);
    ExpiryMeans(p, config, env, epoch);
    BlockedEnds(x, RuntimeBlocked, ReceiptRejected(check));
    BlockedEnds(x, BudgetExhausted, EpochsExhausted);
    assert Timeline(x.trace) + [] == Timeline(x.trace);
    RecoversQuietly(p, config, env, epoch, x, x,
        x.rec.(recovery := SameOwner, continuationReceipt := ResultOf(env(epoch)).continuationReceipt));
    hide Judged;
  }

  lemma SemanticTells(p: Platform, config: Config, env: int -> EpochInput, epoch: int, x: World)
    requires Judged(p, config, env, epoch, x) && OutcomeOf(env(epoch)) == SemanticBlock
    ensures Tells(p, config, env, epoch, x, AfterSemanticBlock(p, x, epoch, env(epoch)))
  {
    hide Log, Timeline, ResultOf, CheckSemanticBlock, SemanticBlockStands, Worktree, Blocked, OutcomeOf;
    hide Tracks, Certifiable, Update, Before, JudgedFiles, Asked, EmitWake;
    var check := CheckSemanticBlock(p, x.files, config, ResultOf(env(epoch)), epoch);
    VerifiedSemanticBlock(p, x.files, config, ResultOf(env(epoch)), epoch);
    BlockedEnds(x, RuntimeBlocked, ReceiptRejected(check));
    assert Timeline(x.trace) + [] == Timeline(x.trace);
    var woken := EmitWake(p, x, SemanticEscalation);
    WakeShows(p, x, SemanticEscalation);
    UpdateEnds(woken, woken.rec.(reviewRequest := Some(Control(WakeRequestFile)), lease := Suspended), SemanticBlocked);
    hide Judged;
  }

  lemma UpdateEnds(w: World, rec: Record, phase: Phase)
    requires !phase.Recovering? && rec.lease == if phase.ReviewReady? then Released else Suspended
    ensures Timeline(Update(w, rec, phase).trace) == Timeline(w.trace)
    ensures EndsAs(End(phase, None), Update(w, rec, phase))
  {
    UpdateShows(w, rec, phase);
    hide Log, Timeline;
    assert Timeline(w.trace) + [] == Timeline(w.trace);
  }

  lemma WakeShows(p: Platform, w: World, kind: WakeKind)
    ensures Timeline(EmitWake(p, w, kind).trace) == Timeline(w.trace) + [Requested(kind)]
    ensures EmitWake(p, w, kind).rec == w.rec
  {
    var written := Write(p, w, Control(WakeRequestFile), WakeDoc(WakeFor(p, w, kind)));
    WriteShows(p, w, Control(WakeRequestFile), WakeDoc(WakeFor(p, w, kind)));
    NoteShows(written, Emitted(kind));
    hide Log, Timeline, WakeFor;
    assert Timeline(w.trace) + [] == Timeline(w.trace);
  }

  lemma OthersTell(p: Platform, config: Config, env: int -> EpochInput, epoch: int, x: World)
    requires Judged(p, config, env, epoch, x) && OutcomeOf(env(epoch)) in {AuthorityBlock, BudgetExhaust}
    ensures Tells(p, config, env, epoch, x, AfterResult(p, x, epoch, config.maxEpochs, env(epoch)))
  {
    hide Log, Timeline, ResultOf, Worktree, Blocked, OutcomeOf, Tracks, Certifiable, Update, Before, JudgedFiles, Asked;
    BlockedEnds(x, AuthorityBlocked, AuthorityBlocker(ResultOf(env(epoch))));
    UpdateEnds(x, x.rec.(lease := Suspended), BudgetExhausted);
    assert Timeline(x.trace) + [] == Timeline(x.trace);
    hide Judged;
  }

  // ----- Checkpoints ------------------------------------------------------------------------------------------------

  lemma AskedMeans(config: Config, env: int -> EpochInput, epoch: int)
    ensures Asked(config, env, epoch) < config.maxCheckpoints <==>
            Before(env, CheckpointTrigger, epoch) < config.maxCheckpoints
  {
    hide Before;
  }

  lemma WindowMeans(p: Platform, config: Config, env: int -> EpochInput, epoch: int)
    requires OutcomeOf(env(epoch)) == CheckpointTrigger
    ensures var answer := Await(config, CHECKPOINT_ACTIONS, env(epoch).checkpointPolls);
            Continues(p, config, env, epoch) <==>
            && Certifiable(env, epoch)
            && (|| Before(env, CheckpointTrigger, epoch) >= config.maxCheckpoints
                || (answer.Some? && Lower(Strip(answer.value.action)) != "stop"))
  {
    hide OutcomeOf, ResultOf, Certifiable, JudgedFiles, ContinuationStands, Answers, Await, Lower, Strip, Before;
    hide CHECKPOINT_ACTIONS, REVIEW_ACTIONS, CHECKPOINT_WORDS, REVIEW_WORDS;
    var polls := env(epoch).checkpointPolls;
    var answer := Await(config, CHECKPOINT_ACTIONS, polls);
    forall v ensures answer == Some(v) <==> Answers(config, CHECKPOINT_WORDS, polls, v) {
      AwaitInWords(config, polls, v);
    }
  }

  lemma RequestCheckpointShows(p: Platform, w: World, receipt: Option<Path>)
    ensures var asked := RequestCheckpoint(p, w, receipt);
            && Timeline(asked.trace) == Timeline(w.trace) + [Requested(CheckpointReview)]
            && asked.rec.config == w.rec.config && asked.rec.productWorktree == w.rec.productWorktree
            && asked.rec.revisionCount == w.rec.revisionCount
            && asked.rec.checkpointCount == w.rec.checkpointCount + 1
  {
    hide Log, Timeline, ArtifactRef;
    var request := CheckpointRequest(
      w.rec.config.taskId, w.rec.config.contractHash, w.rec.epoch, ArtifactRef(p, w.files, Control(FrozenTask)),
      if receipt.Some? then ArtifactRef(p, w.files, receipt.value) else None);
    var written := Write(p, w, Control(CheckpointRequestFile), CheckpointDoc(request));
    WriteShows(p, w, Control(CheckpointRequestFile), CheckpointDoc(request));
    NoteShows(written, Emitted(CheckpointReview));
    var woken := EmitCheckpoint(p, w, receipt);
    UpdateShows(woken, woken.rec.(checkpointCount := woken.rec.checkpointCount + 1, lease := Paused,
                                  checkpointRequest := Some(Control(CheckpointRequestFile)),
                                  convergenceReceipt := receipt), CheckpointReady);
    assert Timeline(w.trace) + [] == Timeline(w.trace);
    assert Timeline(w.trace) + [Requested(CheckpointReview)] + [] == Timeline(w.trace) + [Requested(CheckpointReview)];
  }

  lemma CheckpointAnswerShows(p: Platform, w: World, input: EpochInput)
    ensures var s := AfterCheckpointVerdict(p, w, input);
            var answer := Await(w.rec.config, CHECKPOINT_ACTIONS, input.checkpointPolls);
            && Timeline(s.w.trace)
               == Timeline(w.trace) + (if answer.None? then [Unanswered] else AnswerShows(answer.value))
            && (s.Next? <==> answer.Some? && Lower(Strip(answer.value.action)) != "stop")
            && (s.Next? ==> s.w.rec.config == w.rec.config && s.w.rec.productWorktree == w.rec.productWorktree
                            && s.w.rec.revisionCount == w.rec.revisionCount
                            && s.w.rec.checkpointCount == w.rec.checkpointCount)
            && (s.Stop? ==> EndsAs(Stuck(if answer.None? then CheckpointTimeout else CheckpointStop), s.w))
  {
    var answer := Await(w.rec.config, CHECKPOINT_ACTIONS, input.checkpointPolls);
    hide Log, Timeline, Await, ActionOf, Lower, Strip, Update, Write, Note, Blocked, CHECKPOINT_ACTIONS;
    if answer.None? {
      NoteShows(w, VerdictTimeout);
      BlockedEnds(Note(w, VerdictTimeout), RuntimeBlocked, CheckpointTimeout);
    } else {
      var v := answer.value;
      ActionMeans(v);
      NoteShows(w, VerdictRead(v));
      NoteKeeps(w, VerdictRead(v));
      var read := Note(w, VerdictRead(v));
      if Lower(Strip(v.action)) == "stop" {
        BlockedEnds(read, RuntimeBlocked, CheckpointStop);
      } else {
        var guided := v.guidance != "" && ActionOf(v) == ResumeWithGuidance;
        GuidanceShows(p, read, v, guided);
        assert Timeline(w.trace) + [Answered(v)] + [Recovered(CheckpointResume)]
            == Timeline(w.trace) + [Answered(v), Recovered(CheckpointResume)];
        assert Timeline(w.trace) + [Answered(v)] + [Left(Control(GuidanceFile), v.guidance),
            Recovered(CheckpointResume)]
            == Timeline(w.trace)
               + [Answered(v), Left(Control(GuidanceFile), v.guidance), Recovered(CheckpointResume)];
      }
    }
  }

  lemma NoteKeeps(w: World, e: Effect)
    ensures Note(w, e).rec == w.rec && Note(w, e).files == w.files
  {
    hide Log;
  }

  lemma GuidanceShows(p: Platform, read: World, v: Verdict, guided: bool)
    ensures var w1 := if guided then Write(p, read, Control(GuidanceFile), TextDoc(v.guidance)) else read;
            var rec := w1.rec.(recovery := CheckpointResume,
                               checkpointGuidance := if guided then Some(Control(GuidanceFile)) else None);
            var next := Update(w1, rec, Recovering);
            && Timeline(next.trace)
               == Timeline(read.trace)
                  + (if guided then [Left(Control(GuidanceFile), v.guidance), Recovered(CheckpointResume)]
                     else [Recovered(CheckpointResume)])
            && next.rec.config == read.rec.config && next.rec.productWorktree == read.rec.productWorktree
            && next.rec.revisionCount == read.rec.revisionCount
            && next.rec.checkpointCount == read.rec.checkpointCount
  {
    hide Log, Timeline;
    var w1 := if guided then Write(p, read, Control(GuidanceFile), TextDoc(v.guidance)) else read;
    WriteShows(p, read, Control(GuidanceFile), TextDoc(v.guidance));
    UpdateShows(w1, w1.rec.(recovery := CheckpointResume,
                            checkpointGuidance := if guided then Some(Control(GuidanceFile)) else None), Recovering);
    assert Timeline(read.trace) + [Left(Control(GuidanceFile), v.guidance)] + [Recovered(CheckpointResume)]
        == Timeline(read.trace) + [Left(Control(GuidanceFile), v.guidance), Recovered(CheckpointResume)];
  }

  lemma WindowTells(p: Platform, config: Config, env: int -> EpochInput, epoch: int, x: World)
    requires Judged(p, config, env, epoch, x) && 1 <= epoch && OutcomeOf(env(epoch)) == CheckpointTrigger
    ensures Tells(p, config, env, epoch, x, AfterCheckpoint(p, x, epoch, env(epoch)))
  {
    hide Log, Timeline, Certify, Worktree, CertificateOf, Blocked, OutcomeOf, Continues, AnswerShows, Await, Asked;
    hide Tracks, Certifiable, Update, Before, JudgedFiles, RequestCheckpoint, AfterCheckpointVerdict, Lower, Strip;
    CertifyShows(p, config, env, epoch, x);
    WindowMeans(p, config, env, epoch);
    AskedMeans(config, env, epoch);
    assert Timeline(x.trace) + [] == Timeline(x.trace);
    var certified := Certify(p, x, epoch, env(epoch));
    if certified.Err? {
      BlockedEnds(x, RuntimeBlocked, certified.error);
    } else if x.rec.checkpointCount < config.maxCheckpoints {
      var (w, receipt) := certified.value;
      hide Shows, EndsIn;
      OpenWindowTells(p, config, env, epoch, x, w, receipt);
    } else {
      var (w, receipt) := certified.value;
      RecoversQuietly(p, config, env, epoch, x,
                      w, w.rec.(recovery := WindowContinue, convergenceReceipt := receipt));
      ClosedWindow(config, env, epoch, Timeline(x.trace));
    }
    hide Judged;
  }

  lemma ClosedWindow(config: Config, env: int -> EpochInput, epoch: int, t: seq<Milestone>)
    ensures t + CertificateOf(config, env, epoch) + [Recovered(WindowContinue)]
         == t + (CertificateOf(config, env, epoch) + [Recovered(WindowContinue)])
  {
    hide CertificateOf;
  }

  lemma OpenWindow(p: Platform, config: Config, env: int -> EpochInput, epoch: int, t: seq<Milestone>)
    requires OutcomeOf(env(epoch)) == CheckpointTrigger && Certifiable(env, epoch)
    requires Before(env, CheckpointTrigger, epoch) < config.maxCheckpoints
    ensures var answer := Await(config, CHECKPOINT_ACTIONS, env(epoch).checkpointPolls);
            && t + Shows(p, config, env, epoch)
               == t + CertificateOf(config, env, epoch) + [Requested(CheckpointReview)]
                  + (if answer.None? then [Unanswered] else AnswerShows(answer.value))
            && EndsIn(p, config, env, epoch)
               == if answer.None? then Stuck(CheckpointTimeout)
                  else if Lower(Strip(answer.value.action)) == "stop" then Stuck(CheckpointStop)
                  else End(BudgetExhausted, None)
  {
    hide OutcomeOf, Certifiable, Before, Await, AnswerShows, CertificateOf, Lower, Strip, ResultOf;
    var answer := Await(config, CHECKPOINT_ACTIONS, env(epoch).checkpointPolls);
    var (c, a) := (CertificateOf(config, env, epoch),
                   if answer.None? then [Unanswered] else AnswerShows(answer.value));
    assert Shows(p, config, env, epoch) == c + [Requested(CheckpointReview)] + a;
    assert t + (c + [Requested(CheckpointReview)] + a) == t + c + [Requested(CheckpointReview)] + a;
  }

  /** A checkpoint is asked for. */
  lemma OpenWindowTells(p: Platform, config: Config, env: int -> EpochInput, epoch: int, x: World, w: World,
                        receipt: Option<Path>)
    requires Judged(p, config, env, epoch, x) && 1 <= epoch && OutcomeOf(env(epoch)) == CheckpointTrigger
    requires x.rec.checkpointCount < config.maxCheckpoints && Certifiable(env, epoch) && w.rec == x.rec
    requires Timeline(w.trace) == Timeline(x.trace) + CertificateOf(config, env, epoch)
    ensures Tells(p, config, env, epoch, x,
                  AfterCheckpointVerdict(p, RequestCheckpoint(p, w, receipt), env(epoch)))
  {
    hide Log, Timeline, Worktree, CertificateOf, OutcomeOf, Continues, AnswerShows, Await, Asked, Shows, EndsIn;
    hide Tracks, Certifiable, Update, Before, JudgedFiles, RequestCheckpoint, AfterCheckpointVerdict, Lower, Strip;
    var asked := RequestCheckpoint(p, w, receipt);
    var s := AfterCheckpointVerdict(p, asked, env(epoch));
    AskedMeans(config, env, epoch);
    WindowMeans(p, config, env, epoch);
    OpenWindow(p, config, env, epoch, Timeline(x.trace));
    RequestCheckpointShows(p, w, receipt);
    CheckpointAnswerShows(p, asked, env(epoch));
    if s.Next? { KeepsTrack(p, config, env, epoch, x, s.w); }
    hide Judged;
  }

  // ----- Candidates -------------------------------------------------------------------------------------------------

  lemma CandidateMeans(p: Platform, config: Config, env: int -> EpochInput, epoch: int)
    requires OutcomeOf(env(epoch)) == DoneCandidate
    ensures var answer := Await(config, REVIEW_ACTIONS, env(epoch).reviewPolls);
            && (Continues(p, config, env, epoch) <==>
                  && Reviewable(p, epoch, env(epoch)) && answer.Some? && Lower(Strip(answer.value.action)) != "accept"
                  && Before(env, DoneCandidate, epoch) < config.maxRevisionRounds && Certifiable(env, epoch))
            && (answer.Some? ==> Lower(Strip(answer.value.action)) in REVIEW_WORDS)
  {
    hide OutcomeOf, ResultOf, Certifiable, JudgedFiles, ContinuationStands, Answers, Await, Lower, Strip, Before;
    hide CHECKPOINT_ACTIONS, REVIEW_ACTIONS, CHECKPOINT_WORDS, Reviewable;
    var polls := env(epoch).reviewPolls;
    var answer := Await(config, REVIEW_ACTIONS, polls);
    forall v ensures answer == Some(v) <==> Answers(config, REVIEW_WORDS, polls, v) {
      AwaitInWords(config, polls, v);
    }
    if answer.Some? { AnswersInWords(config, polls, answer.value); }
  }

  lemma AnswersInWords(config: Config, polls: seq<Option<Verdict>>, v: Verdict)
    requires Answers(config, REVIEW_WORDS, polls, v)
    ensures Lower(Strip(v.action)) in REVIEW_WORDS
  {
    hide Lower, Strip, REVIEW_WORDS;
  }

  lemma ProjectionShows(p: Platform, w: World, diff: Option<Path>)
    ensures var r := BuildProjection(p, w, diff);
            && (r.Ok? <==> diff.Some? && diff.value in w.files && w.files[diff.value] != [])
            && (r.Ok? ==> r.value.rec == w.rec && Timeline(r.value.trace) == Timeline(w.trace))
            && (r.Err? ==> r.error == if diff.Some? && diff.value in w.files then EmptyDiff else NoDiff)
  {
    hide Log, Timeline, ProjectionFor, ArtifactRef;
    if diff.Some? && diff.value in w.files && w.files[diff.value] != [] {
      var projection := ProjectionFor(p, w, diff.value);
      var w1 := Write(p, w, Control(ProjectionFile), ProjectionDoc(projection));
      var capsule := Capsule(w.rec.config.taskId, w.rec.config.contractHash, w.rec.config.baseSha,
                             ArtifactRef(p, w1.files, Control(ProjectionFile)), projection.diff);
      WriteShows(p, w, Control(ProjectionFile), ProjectionDoc(projection));
      WriteShows(p, w1, Control(CapsuleFile), CapsuleDoc(capsule));
      assert Timeline(w.trace) + [] == Timeline(w.trace);
    }
  }

  lemma RequestReviewShows(p: Platform, w: World)
    ensures var asked := RequestReview(p, w);
            && Timeline(asked.trace)
               == Timeline(w.trace) + [Requested(if w.rec.revisionCount > 0 then DeltaReview else FinalReview)]
            && asked.rec.config == w.rec.config && asked.rec.productWorktree == w.rec.productWorktree
            && asked.rec.revisionCount == w.rec.revisionCount && asked.rec.checkpointCount == w.rec.checkpointCount
  {
    hide Log, Timeline, EmitWake;
    var kind := if w.rec.revisionCount > 0 then DeltaReview else FinalReview;
    WakeShows(p, w, kind);
    var woken := EmitWake(p, w, kind);
    UpdateEndsNothing(woken, woken.rec.(reviewRequest := Some(Control(WakeRequestFile)), lease := Paused));
  }

  lemma UpdateEndsNothing(w: World, rec: Record)
    ensures Timeline(Update(w, rec, RevisionPending).trace) == Timeline(w.trace)
    ensures Timeline(Update(w, rec, Projecting).trace) == Timeline(w.trace)
  {
    hide Log, Timeline;
    UpdateShows(w, rec, RevisionPending);
    UpdateShows(w, rec, Projecting);
    assert Timeline(w.trace) + [] == Timeline(w.trace);
  }

  lemma ReceiptShows(p: Platform, w: World, v: Verdict)
    ensures var written := WriteReviewReceipt(p, w, v);
            && Timeline(written.trace) == Timeline(w.trace) + [ReviewOf(w.rec.config, w.rec.revisionCount, v)]
            && written.rec == w.rec
  {
    hide Log, Timeline;
    WriteShows(p, w, Control(ReviewReceiptFile(w.rec.revisionCount)),
               ReviewReceiptDoc(ReviewReceipt(w.rec.config.taskId, w.rec.config.contractHash, w.rec.revisionCount,
                                              v.acceptedIds)));
  }

  lemma RevisedShows(p: Platform, config: Config, env: int -> EpochInput, epoch: int, w: World, v: Verdict)
    requires w.rec.config == config && w.rec.productWorktree == Worktree(env, epoch)
    ensures var s := Revised(p, w, epoch, env(epoch), v);
            var next := w.rec.revisionCount + 1;
            && (s.Next? <==> Certifiable(env, epoch))
            && (s.Next? ==>
                  && Timeline(s.w.trace) == Timeline(w.trace) + CertificateOf(config, env, epoch)
                                            + [Left(Control(RevisionDeltaFile(next)), v.delta),
                                               Recovered(RevisionContinue)]
                  && s.w.rec.config == w.rec.config && s.w.rec.productWorktree == w.rec.productWorktree
                  && s.w.rec.revisionCount == next && s.w.rec.checkpointCount == w.rec.checkpointCount)
            && (s.Stop? ==> Timeline(s.w.trace) == Timeline(w.trace) && env(epoch).worktree.Err?
                            && EndsAs(Stuck(WorktreeRejected(env(epoch).worktree.error)), s.w))
  {
    hide Log, Timeline, Certify, Worktree, CertificateOf, Blocked, Certifiable;
    CertifyShows(p, config, env, epoch, w);
    var certified := Certify(p, w, epoch, env(epoch));
    if certified.Err? {
      BlockedEnds(w, RuntimeBlocked, certified.error);
    } else {
      var (w1, receipt) := certified.value;
      DeltaShows(p, w1, w, v, receipt);
    }
  }

  lemma DeltaShows(p: Platform, w: World, before: World, v: Verdict, receipt: Option<Path>)
    requires w.rec == before.rec
    ensures var next := w.rec.revisionCount + 1;
            var delta := Control(RevisionDeltaFile(next));
            var w1 := Write(p, w, delta, TextDoc(v.delta));
            var rec := w1.rec.(recovery := RevisionContinue, revisionCount := next, revisionDelta := Some(delta),
                               reviewReceipt := Some(Control(ReviewReceiptFile(before.rec.revisionCount))),
                               convergenceReceipt := receipt);
            && Timeline(Update(w1, rec, Recovering).trace)
               == Timeline(w.trace) + [Left(delta, v.delta), Recovered(RevisionContinue)]
  {
    hide Log, Timeline;
    var next := w.rec.revisionCount + 1;
    var delta := Control(RevisionDeltaFile(next));
    var w1 := Write(p, w, delta, TextDoc(v.delta));
    WriteShows(p, w, delta, TextDoc(v.delta));
    UpdateShows(w1, w1.rec.(recovery := RevisionContinue, revisionCount := next, revisionDelta := Some(delta),
                            reviewReceipt := Some(Control(ReviewReceiptFile(before.rec.revisionCount))),
                            convergenceReceipt := receipt), Recovering);
    assert Timeline(w.trace) + [Left(delta, v.delta)] + [Recovered(RevisionContinue)]
        == Timeline(w.trace) + [Left(delta, v.delta), Recovered(RevisionContinue)];
  }

  /** What is seen from the answer to a review on, and how the run ends if it ends there. */
  ghost predicate ReviewTells(config: Config, env: int -> EpochInput, epoch: int, w: World, s: Step) {
    var answer := Await(config, REVIEW_ACTIONS, env(epoch).reviewPolls);
    var rounds := Before(env, DoneCandidate, epoch);
    && Timeline(s.w.trace) == Timeline(w.trace)
       + (if answer.None? then [Unanswered] else [Answered(answer.value)] + AfterAnswer(config, env, epoch,
           answer.value))
    && (s.Next? <==> answer.Some? && Lower(Strip(answer.value.action)) != "accept"
                     && rounds < config.maxRevisionRounds && Certifiable(env, epoch))
    && (s.Next? ==> s.w.rec.config == w.rec.config && s.w.rec.productWorktree == w.rec.productWorktree
                    && s.w.rec.revisionCount == w.rec.revisionCount + 1
                    && s.w.rec.checkpointCount == w.rec.checkpointCount)
    && (s.Stop? ==>
          EndsAs(if answer.None? then Stuck(ReviewTimeout)
                 else if Lower(Strip(answer.value.action)) == "accept" then End(ReviewReady, None)
                 else if rounds >= config.maxRevisionRounds then Stuck(RevisionsExhausted)
                 else if Certifiable(env, epoch) then End(BudgetExhausted, None)
                 else Stuck(WorktreeRejected(env(epoch).worktree.error)), s.w))
  }

  lemma ReviewAnswerTells(p: Platform, config: Config, env: int -> EpochInput, epoch: int, w: World)
    requires w.rec.config == config && w.rec.productWorktree == Worktree(env, epoch)
    requires w.rec.revisionCount == Before(env, DoneCandidate, epoch)
    ensures ReviewTells(config, env, epoch, w, AfterReview(p, w, epoch, env(epoch)))
  {
    var answer := Await(config, REVIEW_ACTIONS, env(epoch).reviewPolls);
    hide Log, Timeline, Await, ActionOf, Lower, Strip, Update, Write, Note, Blocked, REVIEW_ACTIONS, Worktree, Before;
    hide Revised, WriteReviewReceipt, CertificateOf, Certifiable;
    if answer.None? {
      NoteShows(w, VerdictTimeout);
      NoteKeeps(w, VerdictTimeout);
      BlockedEnds(Note(w, VerdictTimeout), RuntimeBlocked, ReviewTimeout);
    } else {
      var v := answer.value;
      var read := Note(w, VerdictRead(v));
      ActionMeans(v);
      NoteShows(w, VerdictRead(v));
      NoteKeeps(w, VerdictRead(v));
      ReceiptShows(p, read, v);
      var written := WriteReviewReceipt(p, read, v);
      var t := Timeline(w.trace);
      if Lower(Strip(v.action)) == "accept" {
        UpdateEnds(written, written.rec.(reviewReceipt := Some(Control(ReviewReceiptFile(w.rec.revisionCount))),
                                         lease := Released), ReviewReady);
        assert t + [Answered(v)] + [ReviewOf(config, w.rec.revisionCount, v)]
            == t + ([Answered(v)] + [ReviewOf(config, w.rec.revisionCount, v)]);
      } else if w.rec.revisionCount >= config.maxRevisionRounds {
        BlockedEnds(read, RuntimeBlocked, RevisionsExhausted);
        assert t + ([Answered(v)] + []) == t + [Answered(v)];
      } else {
        RevisedShows(p, config, env, epoch, written, v);
        RevisionLine(config, env, epoch, t, v, w.rec.revisionCount);
      }
    }
  }

  lemma RevisionLine(config: Config, env: int -> EpochInput, epoch: int, t: seq<Milestone>, v: Verdict, rounds: int)
    ensures var (review, c) := (ReviewOf(config, rounds, v), CertificateOf(config, env, epoch));
            var last := [Left(Control(RevisionDeltaFile(rounds + 1)), v.delta), Recovered(RevisionContinue)];
            && t + [Answered(v)] + [review] + c + last == t + ([Answered(v)] + ([review] + c + last))
            && t + [Answered(v)] + [review] == t + ([Answered(v)] + [review])
  {
    hide CertificateOf;
  }

  lemma CandidateTells(p: Platform, config: Config, env: int -> EpochInput, epoch: int, x: World)
    requires Judged(p, config, env, epoch, x) && 1 <= epoch && OutcomeOf(env(epoch)) == DoneCandidate
    ensures Tells(p, config, env, epoch, x, AfterCandidate(p, x, epoch, env(epoch)))
  {
    hide Log, Timeline, Worktree, OutcomeOf, Continues, Await, Shows, EndsIn, Blocked, BuildProjection, AfterReview;
    hide Tracks, Certifiable, Update, Before, JudgedFiles, Asked, Lower, Strip, RequestReview, ReviewTells;
    var w1 := Update(x, x.rec, Projecting);
    UpdateEndsNothing(x, x.rec);
    UpdateKeeps(x, x.rec, Projecting);
    ProjectionShows(p, w1, env(epoch).diff);
    CandidateMeans(p, config, env, epoch);
    var built := BuildProjection(p, w1, env(epoch).diff);
    if built.Err? {
      BlockedEnds(w1, RuntimeBlocked, built.error);
      NoReview(p, config, env, epoch, Timeline(x.trace));
    } else {
      var asked := RequestReview(p, built.value);
      RequestReviewShows(p, built.value);
      ReviewAnswerTells(p, config, env, epoch, asked);
      var s := AfterReview(p, asked, epoch, env(epoch));
      ReviewLine(p, config, env, epoch, x, asked, s);
      if s.Next? { KeepsTrack(p, config, env, epoch, x, s.w); }
    }
    hide Judged;
  }

  lemma UpdateKeeps(w: World, rec: Record, phase: Phase)
    ensures var x := Update(w, rec, phase);
            && x.files == w.files && x.rec.config == rec.config && x.rec.productWorktree == rec.productWorktree
            && x.rec.revisionCount == rec.revisionCount && x.rec.checkpointCount == rec.checkpointCount
  {
    hide Log;
  }

  lemma NoReview(p: Platform, config: Config, env: int -> EpochInput, epoch: int, t: seq<Milestone>)
    requires OutcomeOf(env(epoch)) == DoneCandidate && !Reviewable(p, epoch, env(epoch))
    ensures t + Shows(p, config, env, epoch) == t
    ensures EndsIn(p, config, env, epoch) ==
        Stuck(if env(epoch).diff.Some? && env(epoch).diff.value in JudgedFiles(p, epoch, env(epoch)) then EmptyDiff
              else NoDiff)
  {
    hide OutcomeOf, Reviewable, JudgedFiles, ResultOf, Before, Await;
  }

  lemma ReviewLine(p: Platform, config: Config, env: int -> EpochInput, epoch: int, x: World, asked: World, s: Step)
    requires OutcomeOf(env(epoch)) == DoneCandidate && Reviewable(p, epoch, env(epoch))
    requires Timeline(asked.trace)
          == Timeline(x.trace)
             + [Requested(if Before(env, DoneCandidate, epoch) > 0 then DeltaReview else FinalReview)]
    requires ReviewTells(config, env, epoch, asked, s)
    ensures Timeline(s.w.trace) == Timeline(x.trace) + Shows(p, config, env, epoch)
    ensures var answer := Await(config, REVIEW_ACTIONS, env(epoch).reviewPolls);
            s.Next? <==> && answer.Some? && Lower(Strip(answer.value.action)) != "accept"
                         && Before(env, DoneCandidate, epoch) < config.maxRevisionRounds && Certifiable(env, epoch)
    ensures s.Next? ==> s.w.rec.config == asked.rec.config && s.w.rec.productWorktree == asked.rec.productWorktree
                        && s.w.rec.revisionCount == asked.rec.revisionCount + 1
                        && s.w.rec.checkpointCount == asked.rec.checkpointCount
    ensures s.Stop? ==> EndsAs(EndsIn(p, config, env, epoch), s.w)
  {
    hide OutcomeOf, Reviewable, JudgedFiles, ResultOf, Before, Await, Timeline, AfterAnswer, Certifiable, Lower, Strip;
    hide EndsAs;
    var answer := Await(config, REVIEW_ACTIONS, env(epoch).reviewPolls);
    var request := [Requested(if Before(env, DoneCandidate, epoch) > 0 then DeltaReview else FinalReview)];
    var rest := if answer.None? then [Unanswered]
                else [Answered(answer.value)] + AfterAnswer(config, env, epoch, answer.value);
    assert Shows(p, config, env, epoch) == request + rest;
    assert Timeline(x.trace) + request + rest == Timeline(x.trace) + (request + rest);
  }

  lemma ResultTells(p: Platform, config: Config, env: int -> EpochInput, epoch: int, x: World)
    requires Judged(p, config, env, epoch, x) && 1 <= epoch
    ensures Tells(p, config, env, epoch, x, AfterResult(p, x, epoch, config.maxEpochs, env(epoch)))
  {
    hide AfterCandidate, AfterCheckpoint, AfterExpiry, AfterFailure, AfterSemanticBlock, OutcomeOf, ResultOf, Judged;
    hide Tells, AuthorityBlocker, Blocked, Update;
    match OutcomeOf(env(epoch))
    case EpochExpired =>
      if ResultOf(env(epoch)).continuationSafe {
        ExpiryTells(p, config, env, epoch, x);
      } else {
        FailureTells(p, config, env, epoch, x);
      }
    case DoneCandidate => CandidateTells(p, config, env, epoch, x);
    case SemanticBlock => SemanticTells(p, config, env, epoch, x);
    case CheckpointTrigger => WindowTells(p, config, env, epoch, x);
    case RuntimeBlock => FailureTells(p, config, env, epoch, x);
    case _ => OthersTell(p, config, env, epoch, x);
  }

  lemma ExecuteTells(p: Platform, config: Config, env: int -> EpochInput, epoch: int, w: World)
    requires Tracks(config, env, epoch, w) && 1 <= epoch
    ensures var x := Execute(p, w, epoch, env(epoch));
            Judged(p, config, env, epoch, x) && Timeline(x.trace) == Timeline(w.trace) + [Executed(epoch, env(epoch))]
  {
    hide Log, Timeline, ResultOf, Before, Asked;
    var input := env(epoch);
    var granted := w.rec.(epoch := epoch, grant := Issued(epoch), lease := Active);
    var w1 := Update(w, granted, Converging);
    UpdateShows(w, granted, Converging);
    var w2 := World(w1.rec, input.files, Log(w1.trace, Ran(epoch, input)));
    Appends(w1.trace, Ran(epoch, input));
    var path, result := Control(EpochResult(epoch)), ResultOf(input);
    var w3 := Write(p, w2, path, ResultDoc(result));
    WriteShows(p, w2, path, ResultDoc(result));
    UpdateShows(w3, w3.rec.(lastResult := Some(path), grant := Revoked(epoch),
                            productWorktree := if result.productWorktree != "" then result.productWorktree
                                               else w3.rec.productWorktree), Classifying);
    assert forall t: seq<Milestone> :: t + [] == t;
  }

  // ----- Whole runs -------------------------------------------------------------------------------------------------

  /** What is seen of a run from an epoch on. */
  ghost function Saga(p: Platform, config: Config, env: int -> EpochInput, epoch: int): seq<Milestone>
    decreases config.maxEpochs - epoch
  {
    if epoch > config.maxEpochs then []
    else
      [Executed(epoch, env(epoch))] + Shows(p, config, env, epoch)
      + if Continues(p, config, env, epoch) then Saga(p, config, env, epoch + 1) else []
  }

  /** How a run ends that has got to an epoch. */
  ghost function EndFrom(p: Platform, config: Config, env: int -> EpochInput, epoch: int): End
    decreases config.maxEpochs - epoch
  {
    if epoch > config.maxEpochs then End(BudgetExhausted, None)
    else if Continues(p, config, env, epoch) then EndFrom(p, config, env, epoch + 1)
    else EndsIn(p, config, env, epoch)
  }

  lemma {:induction false} EpochsTell(p: Platform, config: Config, env: int -> EpochInput, epoch: int, w: World)
    requires Tracks(config, env, epoch, w) && 1 <= epoch
    ensures var x := RunEpochs(p, w, epoch, config.maxEpochs, env);
            && Timeline(x.trace) == Timeline(w.trace) + Saga(p, config, env, epoch)
            && EndsAs(EndFrom(p, config, env, epoch), x)
    decreases config.maxEpochs - epoch
  {
    hide Timeline, Tracks, Judged, Execute, AfterResult, EndsIn, Continues, Shows, EndsAs;
    var t := Timeline(w.trace);
    if epoch > config.maxEpochs {
      UpdateEnds(w, w.rec.(lease := Suspended), BudgetExhausted);
      assert t + [] == t;
    } else {
      var x := Execute(p, w, epoch, env(epoch));
      ExecuteTells(p, config, env, epoch, w);
      ResultTells(p, config, env, epoch, x);
      var s := AfterResult(p, x, epoch, config.maxEpochs, env(epoch));
      var (first, shown) := ([Executed(epoch, env(epoch))], Shows(p, config, env, epoch));
      if s.Next? {
        EpochsTell(p, config, env, epoch + 1, s.w);
        var rest := Saga(p, config, env, epoch + 1);
        assert t + first + shown + rest == t + (first + shown + rest);
      } else {
        assert t + first + shown == t + (first + shown + []);
      }
    }
  }

  lemma SubmissionTracks(config: Config, files: Files, env: int -> EpochInput)
    ensures Tracks(config, env, 1, Submission(config, files)) && Timeline(Submission(config, files).trace) == []
  {
    assert Timeline(Start) == [];
  }

  /** The run opens its first epoch, if it may have one. */
  predicate Starts(p: Platform, config: Config, files: Files, head: Option<string>)
    requires Control(FrozenTask) in files
  {
    p.sha(files[Control(FrozenTask)]) == config.contractHash && head == Some(config.baseSha)
  }

  /**
   * Everything that is seen of a run, and how it ends: a run that may not start shows nothing and ends with the check
   * that failed; any other shows one epoch after the other, as far as each goes on, and ends as its last epoch does.
   */
  lemma RunTells(p: Platform, config: Config, files: Files, head: Option<string>, env: int -> EpochInput)
    requires Control(FrozenTask) in files
    ensures var w := Supervise(p, Submission(config, files), head, env);
            && (Starts(p, config, files, head) ==>
                  Timeline(w.trace) == Saga(p, config, env, 1) && EndsAs(EndFrom(p, config, env, 1), w))
            && (!Starts(p, config, files, head) ==>
                  && Timeline(w.trace) == [] && w.rec.phase == RuntimeBlocked
                  && w.rec.blocker == if p.sha(files[Control(FrozenTask)]) != config.contractHash
                                      then FrozenHashMismatch
                                      else if head.None? then HeadUnreadable else HeadChanged)
  {
    var start := Submission(config, files);
    SubmissionTracks(config, files, env);
    hide Log, Timeline, Tracks, RunEpochs, EndsAs;
    if Starts(p, config, files, head) {
      EpochsTell(p, config, env, 1, start);
      assert [] + Saga(p, config, env, 1) == Saga(p, config, env, 1);
    } else {
      UpdateShows(start, start.rec.(blocker := FrozenHashMismatch), RuntimeBlocked);
      UpdateShows(start, start.rec.(blocker := HeadUnreadable), RuntimeBlocked);
      UpdateShows(start, start.rec.(blocker := HeadChanged), RuntimeBlocked);
    }
  }

  lemma {:induction false} SagaExecutes(p: Platform, config: Config, env: int -> EpochInput, epoch: int, e: int,
                                        input: EpochInput)
    ensures Executed(e, input) in Saga(p, config, env, epoch) <==>
            && epoch <= e <= config.maxEpochs && input == env(e)
            && forall k | epoch <= k < e :: Continues(p, config, env, k)
    decreases config.maxEpochs - epoch
  {
    hide Continues, Shows;
    if epoch <= config.maxEpochs {
      ShowsNoExecution(p, config, env, epoch);
      SagaExecutes(p, config, env, epoch + 1, e, input);
    }
  }

  lemma ShowsNoExecution(p: Platform, config: Config, env: int -> EpochInput, epoch: int)
    ensures forall m | m in Shows(p, config, env, epoch) :: !m.Executed?
  {
    hide OutcomeOf, ResultOf, Reviewable, Certifiable, Before, Await, Lower, Strip, HandsOver, SemanticBlockStands;
    hide Worktree, JudgedFiles, REVIEW_ACTIONS, CHECKPOINT_ACTIONS;
  }

  /**
   * An epoch is executed, with whatever happens outside in it, exactly when the run starts, the epoch is within the
   * limit, and every epoch before it goes on; so the next epoch is executed exactly when this one is, another one is
   * left, and this one goes on.
   */
  lemma EpochOpensExactly(p: Platform, config: Config, files: Files, head: Option<string>, env: int -> EpochInput,
      e: int)
    requires Control(FrozenTask) in files
    ensures var seen := Timeline(Supervise(p, Submission(config, files), head, env).trace);
            && (Executed(e, env(e)) in seen <==>
                  && Starts(p, config, files, head) && 1 <= e <= config.maxEpochs
                  && forall k | 1 <= k < e :: Continues(p, config, env, k))
            && (1 <= e ==>
                  (Executed(e + 1, env(e + 1)) in seen <==>
                     Executed(e, env(e)) in seen && e < config.maxEpochs && Continues(p, config, env, e)))
            && forall input | Executed(e, input) in seen :: input == env(e)
  {
    hide Supervise, Timeline, Continues, Starts, EndsAs, Saga;
    RunTells(p, config, files, head, env);
    forall input ensures Executed(e, input) in Saga(p, config, env, 1) <==>
        && 1 <= e <= config.maxEpochs && input == env(e) && forall k | 1 <= k < e :: Continues(p, config, env, k)
    {
      SagaExecutes(p, config, env, 1, e, input);
    }
    SagaExecutes(p, config, env, 1, e + 1, env(e + 1));
  }

  lemma {:induction false} EndsAtLast(p: Platform, config: Config, env: int -> EpochInput, epoch: int, n: int)
    requires epoch <= n <= config.maxEpochs && (forall k | epoch <= k < n :: Continues(p, config, env, k))
    requires n == config.maxEpochs || !Continues(p, config, env, n)
    ensures EndFrom(p, config, env, epoch) == EndsIn(p, config, env, n)
            || (Continues(p, config, env, n) && EndFrom(p, config, env, epoch) == End(BudgetExhausted, None))
    decreases n - epoch
  {
    hide Continues, EndsIn;
    if epoch < n { EndsAtLast(p, config, env, epoch + 1, n); }
  }

  /** The final phase of a run by what happens in its last epoch; in every other case it is runtime_blocked. */
  ghost predicate PhaseFits(p: Platform, config: Config, env: int -> EpochInput, n: int, phase: Phase) {
    var (input, result) := (env(n), ResultOf(env(n)));
    && (phase == ReviewReady <==>
          && OutcomeOf(input) == DoneCandidate && Reviewable(p, n, input)
          && exists v :: Answers(config, REVIEW_WORDS, input.reviewPolls, v) && Lower(Strip(v.action)) == "accept")
    && (phase == SemanticBlocked <==>
          && OutcomeOf(input) == SemanticBlock
          && SemanticBlockStands(p, JudgedFiles(p, n, input), config, result, n))
    && (phase == AuthorityBlocked <==> OutcomeOf(input) == AuthorityBlock)
    && (phase == BudgetExhausted <==>
          || OutcomeOf(input) == BudgetExhaust || HandsOver(p, config, env, n) || Revises(p, config, env, n)
          || Resumes(config, env, n) || Passes(config, env, n))
    && phase in {ReviewReady, SemanticBlocked, AuthorityBlocked, BudgetExhausted, RuntimeBlocked}
  }

  lemma EndPhaseFits(p: Platform, config: Config, env: int -> EpochInput, n: int, end: End)
    requires end == EndsIn(p, config, env, n)
    requires n == config.maxEpochs || !Continues(p, config, env, n)
    ensures PhaseFits(p, config, env, n, end.phase)
    ensures n == config.maxEpochs && Continues(p, config, env, n) ==> end.phase == BudgetExhausted
  {
    hide OutcomeOf, ResultOf, Reviewable, Certifiable, Before, Await, Lower, Strip, JudgedFiles, Answers;
    hide SemanticBlockStands, CheckSemanticBlock, CheckContinuation, REVIEW_ACTIONS, CHECKPOINT_ACTIONS, REVIEW_WORDS;
    hide CHECKPOINT_WORDS, ContinuationStands;
    var answer := Await(config, REVIEW_ACTIONS, env(n).reviewPolls);
    var checked := Await(config, CHECKPOINT_ACTIONS, env(n).checkpointPolls);
    forall v
      ensures answer == Some(v) <==> Answers(config, REVIEW_WORDS, env(n).reviewPolls, v)
      ensures checked == Some(v) <==> Answers(config, CHECKPOINT_WORDS, env(n).checkpointPolls, v)
    {
      AwaitInWords(config, env(n).reviewPolls, v);
      AwaitInWords(config, env(n).checkpointPolls, v);
    }
    if OutcomeOf(env(n)) == DoneCandidate { CandidateMeans(p, config, env, n); }
    if answer.Some? {
      AnswersInWords(config, env(n).reviewPolls, answer.value);
      ReviewWords(Lower(Strip(answer.value.action)));
    }
  }

  lemma ReviewWords(word: string)
    requires word in REVIEW_WORDS
    ensures word == "accept" || word == "revise"
    ensures !(word == "accept" && word == "revise")
  {
    assert "accept"[0] != "revise"[0];
  }

  /**
   * The final phase of every run that starts and has an epoch: its last epoch is the first that does not go on, or the
   * last within the limit.
   */
  lemma PhaseExactly(p: Platform, config: Config, files: Files, head: Option<string>, env: int -> EpochInput, n: int)
    requires Control(FrozenTask) in files && Starts(p, config, files, head) && 1 <= n <= config.maxEpochs
    requires forall k | 1 <= k < n :: Continues(p, config, env, k)
    requires n == config.maxEpochs || !Continues(p, config, env, n)
    ensures PhaseFits(p, config, env, n, Supervise(p, Submission(config, files), head, env).rec.phase)
  {
    hide Supervise, Timeline, Continues, Starts, Saga, EndsIn, EndFrom, PhaseFits;
    RunTells(p, config, files, head, env);
    EndsAtLast(p, config, env, 1, n);
    EndPhaseFits(p, config, env, n, EndsIn(p, config, env, n));
  }
}
