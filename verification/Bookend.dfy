/**
 * The durable record of scripts/bookend-task.py, the documents the controller reads and writes, and the trace
 * of effects a run leaves behind.
 */
module Bookend {
  import opened Wrappers
  import J = JsonValues

  // ----- Files ------------------------------------------------------------------------------------------

  /** The files the controller writes in its control directory. */
  datatype ControlFile =
    | FrozenTask | EpochResult(epoch: int) | ConvergenceReceiptFile(epoch: int)
    | ProjectionFile | CapsuleFile | WakeRequestFile | CheckpointRequestFile
    | ReviewReceiptFile(round: int) | RevisionDeltaFile(round: int) | GuidanceFile

  /** A resolved path: a control file, or any other file. */
  datatype Path = Control(file: ControlFile) | External(name: string)

  type Files = map<Path, Bytes>

  /** `artifact_ref` */
  datatype Ref = Ref(path: Path, sha: string, bytes: nat)

  // ----- Documents --------------------------------------------------------------------------------------

  /** `start_byte` and `end_byte` of a segment may hold any JSON value; only integers count. */
  datatype Offset = Int(value: int) | NotAnInt
  datatype Class = SemanticFrontier | MechanicallyVerified | GeneratedDerived | UnknownClass
  datatype Segment = Segment(start: Offset, end: Offset, class_: Class) | NotAnObject

  datatype Projection = Projection(
    taskId: string, contract: Option<Ref>, contractHash: string, baseSha: string, diff: Option<Ref>,
    coverage: seq<Segment>, coverageValid: bool, unclassified: int)

  datatype Capsule = Capsule(
    taskId: string, contractHash: string, baseSha: string, projection: Option<Ref>, diff: Option<Ref>)

  datatype WakeKind = FinalReview | DeltaReview | SemanticEscalation | CheckpointReview

  datatype WakeRequest = WakeRequest(
    kind: WakeKind, taskId: string, contractHash: string, frozenTask: Option<Ref>, executionResult: Option<Ref>,
    projection: Option<Ref>, capsule: Option<Ref>, diff: Option<Ref>)

  datatype CheckpointRequest = CheckpointRequest(
    taskId: string, contractHash: string, epoch: int, frozenTask: Option<Ref>, convergenceReceipt: Option<Ref>)

  /** What the executor prints; "" and `None` stand for absent or empty values. */
  datatype ExecResult = ExecResult(
    status: string, acceptanceStatus: string, bookendState: string, failureStatus: string, error: string,
    productWorktree: string, continuationSafe: bool,
    continuationReceipt: Option<Path>, continuationSha: string,
    semanticReceipt: Option<Path>, semanticSha: string)

  /**
   * The receipts an executor writes hold any JSON values; an absent member is null. The document constructor stands
   * for the kind, and `stableStateHash` and `decisionRequired` are already converted to text.
   */
  datatype ContinuationReceipt = ContinuationReceipt(
    schemaVersion: J.Json, taskId: J.Json, contractHash: J.Json, epoch: J.Json, owner: J.Json,
    priorGrantRevoked: J.Json, noActiveWriter: J.Json, stableStateHash: string)

  datatype SemanticReceipt = SemanticReceipt(
    schemaVersion: J.Json, taskId: J.Json, contractHash: J.Json, epoch: J.Json,
    decisionRequired: string, blockingAcceptance: J.Json, executionFailureOnly: J.Json)

  datatype ConvergenceReceipt = ConvergenceReceipt(
    taskId: string, contractHash: string, epoch: int, productWorktree: string, worktreeHash: string)

  datatype ReviewReceipt = ReviewReceipt(
    taskId: string, contractHash: string, revisionCount: int, acceptedIds: seq<string>)

  datatype Verdict = Verdict(
    taskId: string, contractHash: string, action: string, acceptedIds: seq<string>, delta: string, guidance: string)

  datatype Document =
    | ResultDoc(result: ExecResult)
    | ContinuationDoc(continuation: ContinuationReceipt) | SemanticDoc(semantic: SemanticReceipt)
    | ConvergenceDoc(convergence: ConvergenceReceipt) | ReviewReceiptDoc(review: ReviewReceipt)
    | ProjectionDoc(projection: Projection) | CapsuleDoc(capsule: Capsule)
    | WakeDoc(wake: WakeRequest) | CheckpointDoc(checkpoint: CheckpointRequest)
    | TextDoc(text: string) | OtherDoc

  /** JSON reading and writing and SHA-256, whose internals are not modelled. */
  datatype Platform = Platform(load: Bytes -> Option<Document>, dump: Document -> Bytes, sha: Bytes -> string)

  /** What the controller prints it reads back; executors write the two kinds of receipt. */
  ghost predicate Sound(p: Platform) {
    && (forall d: Document :: d.ContinuationDoc? || d.SemanticDoc? || p.load(p.dump(d)) == Some(d))
    && (forall a, b :: p.sha(a) == p.sha(b) ==> a == b)
  }

  function ArtifactRef(p: Platform, files: Files, path: Path): Option<Ref> {
    if path in files then Some(Ref(path, p.sha(files[path]), |files[path]|)) else None
  }

  // ----- The durable record -----------------------------------------------------------------------------

  datatype Phase =
    | Submitted | Converging | Classifying | Recovering | Projecting | CheckpointReady | RevisionPending
    | ReviewReady | SemanticBlocked | RuntimeBlocked | AuthorityBlocked | BudgetExhausted | Cancelled

  /** `TERMINAL_STATES` */
  predicate IsTerminal(phase: Phase) {
    phase.ReviewReady? || phase.SemanticBlocked? || phase.RuntimeBlocked? || phase.AuthorityBlocked?
    || phase.BudgetExhausted? || phase.Cancelled?
  }

  /** `CODEX_WAKE_STATES` */
  predicate WakesCodex(phase: Phase) {
    phase.ReviewReady? || phase.CheckpointReady? || phase.RevisionPending? || phase.SemanticBlocked?
  }

  datatype Grant = NotIssued | Issued(epoch: int) | Revoked(epoch: int)
  datatype Lease = Assigned | Active | Paused | Suspended | Released
  datatype Recovery = NoRecovery | SameOwner | RevisionContinue | CheckpointResume | WindowContinue |
      ConvergenceContinue

  datatype ReceiptCheck =
    | Verified | Missing | Unreadable | HashMismatch | NotJson | FieldMismatch | BadStateHash
    | NoDecision | NoBlockingAcceptance | ExecutionFailure

  datatype Blocker =
    | NoBlocker | FrozenHashMismatch | HeadUnreadable | HeadChanged | ReceiptRejected(check: ReceiptCheck)
    | NoDiff | EmptyDiff | ReviewTimeout | RevisionsExhausted | WorktreeRejected(reason: string)
    | CheckpointTimeout | CheckpointStop | EpochsExhausted | ExecutorReason(text: string) | DidNotConverge
    | AuthorityRequired

  datatype Config = Config(
    taskId: string, contractHash: string, baseSha: string,
    maxEpochs: int, maxCheckpoints: int, maxRevisionRounds: int)

  datatype Record = Record(
    config: Config, phase: Phase, terminal: bool, wakeRequired: bool, epoch: int, grant: Grant, lease: Lease,
    checkpointCount: int, revisionCount: int, productWorktree: string, lastResult: Option<Path>,
    convergenceReceipt: Option<Path>, continuationReceipt: Option<Path>, reviewRequest: Option<Path>,
    reviewReceipt: Option<Path>, revisionDelta: Option<Path>, checkpointRequest: Option<Path>,
    checkpointGuidance: Option<Path>, recovery: Recovery, blocker: Blocker)

  // ----- Effects ----------------------------------------------------------------------------------------

  /**
   * Everything outside the supervisor in one epoch: the executor's exit code and output (`None` when its
   * output is not one JSON object), the files as it leaves them, the diff it reports, whether the product
   * worktree can be certified, and what each poll for a verdict finds.
   */
  datatype EpochInput = EpochInput(
    exitCode: int, output: Option<ExecResult>, files: Files, diff: Option<Path>,
    worktree: Result<string, string>, reviewPolls: seq<Option<Verdict>>, checkpointPolls: seq<Option<Verdict>>)

  datatype Effect =
    | Persisted(rec: Record)
    | Ran(epoch: int, input: EpochInput)
    | Wrote(path: Path, doc: Document)
    | Emitted(kind: WakeKind)
    | VerdictRead(verdict: Verdict)
    | VerdictTimeout

  datatype Trace = Start | Then(prior: Trace, last: Effect)

  /** The record, the files and the effects so far. */
  datatype World = World(rec: Record, files: Files, trace: Trace)
}
