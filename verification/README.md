# Verification of the workflow scripts

A Dafny model of the parts of this repository whose guarantees are about whole runs, agreement between several
functions, or exact text and byte algorithms, with proofs of those guarantees. `dafny verify dfyconfig.toml` checks
everything.

The model follows the form of the scripts. Loops that update variables are methods with loops, each proved equal to a
recursive function or to a condition stated outright; the durable Bookend task is a class whose methods update its
record and files; the ranking of diff hunks works in place on an array. The theorems are lemmas about those functions
and conditions. Everything outside a script is an arbitrary input: executor results, the files an executor leaves,
verdict polls, receipts at the moment they are read, removals that may fail, git's answers. SHA-256 and JSON are
functions of content that are injective where a theorem needs it.

## What is modelled

- **Bookend supervisor** (`Bookend*.dfy`): the epoch loop of `scripts/bookend-task.py` with its classification,
  continuation, semantic and convergence receipts, projection, wake requests, verdict waits and persisted record. A
  trace of effects (persisted records, executions, written documents, emitted requests, verdicts read, timeouts)
  carries the statements about whole runs.
- **Acceptance graph and review rounds** (`AcceptanceGraph`, `GraphBuilder`, `GraphGuarantees`, `GraphContents`,
  `DeltaReview`, `ReviewRounds`, `PacketContents`, `GraphHistory`): builder and validator of graph and delta packet, the
  receipt validator, and histories of any number of builds and rounds.
- **Execution capsule** (`CardSections`, `ExecutionCapsule`, `CapsuleCoverage`, `CapsuleContents`): section parsing,
  rendering and the hard-contract coverage check.
- **Byte and text algorithms** (`PromptTruncation`, `DiffHunks`, `DiffFocus`, `DiffContents`, `BazelRules`): the two
  prompt truncations against UTF-8 (section 4 of RFC 3629), the diff-hunk parser and ranker, the rule scanner.
- **Accounting and scope** (`WakeupAudit`, `Audit*.dfy`, `HandoffPaths`, `HandoffChanges`, `ScopedHandoff`,
  `HandoffContents`, `CleanRuntime`): the conservative wake-up audit and all that the order of reading can make of it,
  the scoped handoff, the bundle-safe cleanup.
- `Wrappers`, `Strings`, `JsonValues`, `Ordering`, `Selections`, `StableSort` and `Permutations` hold the Python
  operations, JSON values and list facts these share.

A step of a script is specified by a function that follows it; the modules and lemmas named `Contents`, `Classes`,
`Progress` or `Exactly` then say what that function yields without it, by positions, texts and conditions on the inputs.

## Where the code and its promises differ

The model follows the code. Each difference below is stated by the lemmas named with it.

- The comment at the checkpoint wait (`scripts/bookend-task.py:774`) treats a timeout as CONTINUE and the one at the
  review wait (`:817-819`) keeps the supervisor in `revision_pending`; the supervisor blocks the run in both cases
  (`TimeoutsBlock`). The module text (`:4-6`) names two reasons to wake Codex; checkpoints are a third
  (`RunsStayWithinBudget`).
- The command line lets limits be negative. In the budget bounds a negative limit counts as zero
  (`RunsStayWithinBudget`).
- A review request can be invalid from its emission on: the frozen contract is checked when the supervisor starts, not
  when it asks for a review (`RewrittenContractIsRejected`), and the diff may be a file that asking overwrites
  (`OverwrittenDiffIsRejected`). `RequestIsValidAtOnce` and `UnansweredRequestIsRejected` have the exact condition.
- The audit compares rows and annotations with `==`, which takes `true` for `1` and `1` for `1.0`, but reads tokens,
  flags and iterations by their kind. The first of two equal rows or annotations then decides, so the audit can depend
  on reading order (`MixedCountsDependOnOrder`, `MixedIterationsDependOnOrder`). The exact condition is that of
  `AuditIgnoresOrder` for what the audit builds and that of `SummaryIsSettled` for its sums; `AgreeingKindsAreSettled`
  has a simple one.
- Episodes are sorted by their ids before they are added, so those of rows that do not name their calls are added as
  they are read. With floats the sums then depend on that order when `sum` accumulates, as it does in Python 3.9 to 3.11
  (`FloatSumsDependOnOrder`); from 3.12 on it compensates, which is not modelled. Over steady calls the sums do not depend
  on it, in any version, when each row names its run, task and call (`SteadySummaryIgnoresOrder`); and accumulating is
  exact on integers and on whole numbers within 2^53 (`PlainSumIsExact`, `ScriptAuditIsSettled`).
- `safe_relative` is not idempotent: `a/ /.` gives `a/ ` and that gives `a` (`BlankComponentIsLost`).
  `SafeRelativeIsStable` has the exact condition. For the same reason the scope check can pass on a path that git wrote
  differently (`TrailingBlankIsCut`), and two untracked files can be listed as one (`UntrackedFallTogether`);
  `ScopeIsLiteralExactly` has the exact condition.
- A line break other than a newline in a card's preamble can turn a copied title line into a section of the capsule
  (`TabbedCardReadsBackWrong`). `HoldsKeptExactly` has the exact condition; the kept sections and the coverage check
  are not affected.
- `render_review_prompt` exceeds a `max_bytes` below the length of its suffix (`ShortLimitIsExceeded`), and only such a
  one (`TruncatedPromptIsFaithful`).
- `clean_runtime.py --task-id NAME/` takes the base name of a path that ends in a slash, which is empty, and then offers
  the whole runtime area (`SlashWidensTheRun`, `FocusIsKept`).

## Model

| member | source | states |
|---|---|---|
| `BookendRuns.RunsStayWithinBudget` | `scripts/bookend-task.py:1045-1363` | For every configuration, executor result, receipt and verdict: a run executes at most `max_epochs` epochs, ends in a terminal persisted state, asks for at most `max_checkpoints` checkpoints, and wakes Codex at most once an epoch and at most checkpoints + revision rounds + 1 times in all |
| `BookendRuns.RunsAreDisciplined` | `scripts/bookend-task.py:1062-1363` | At every persisted state of every run a write grant is outstanding exactly while converging and names the current epoch, the lease is released exactly in `review_ready`, requests and verdicts come only while no grant is outstanding, and nothing follows a terminal state |
| `BookendRuns.RunEnds` | `scripts/bookend-task.py:1062-1363` | The same from any state between two epochs: what the remaining epochs may still spend, by induction over the epochs |
| `BookendRuns.ResultSettles` | `scripts/bookend-task.py:1082-1363` | Whatever one epoch's result is classified as, its handling emits at most one wake request, moves the counters with the requests, and either ends in a terminal state or leaves the record recovering with its grant revoked |
| `BookendProgress.RunTells` | `scripts/bookend-task.py:1045-1363` | All that is seen of a run (executions, certificates, requests, answers, review receipts, revision and guidance notes, kinds of recovery) and how it ends, from the configuration and what happens outside alone: a run that may not start shows nothing, any other shows one epoch after the other as far as each goes on, and ends as its last epoch does |
| `BookendProgress.EpochOpensExactly` | `scripts/bookend-task.py:1061-1354` | Epoch e+1 is executed if and only if epoch e is, another one is left, and epoch e expired with a standing receipt and a claim of safe continuation; or was a candidate with a non-empty diff whose first matching verdict says revise, with rounds left and its worktree certifiable; or was a checkpoint with its worktree certifiable and the checkpoint budget spent or a first matching verdict other than stop; or failed with its worktree certifiable |
| `BookendProgress.PhaseExactly` | `scripts/bookend-task.py:1082-1363` | The final phase of every run: in terms of its last epoch, exactly when it is `review_ready`, `semantic_blocked`, `authority_blocked` and `budget_exhausted`; `runtime_blocked` in every other case |
| `BookendEvidence.EpochsContinueOnEvidence` | `scripts/bookend-task.py:1084-1104` | In every run, an epoch after the first opens with a recorded product worktree only if the epoch before it handed over with a continuation receipt that stands or produced a convergence receipt for that epoch and that worktree; otherwise the run had stopped |
| `BookendEvidence.ResultCarries` | `scripts/bookend-task.py:892-1032` | Every way of going on to the next epoch carries that evidence, whatever the result was |
| `BookendAcceptance.AcceptanceIsFailClosed` | `scripts/bookend-task.py:1111-1204` | A run ends in `review_ready`, and with the lease `released`, if and only if in its last epoch the result was a candidate, a projection was built and an accept verdict was read; then the run completed with acceptance passed, the projection covers every byte of a non-empty diff, and the verdict names this task and contract |
| `BookendAcceptance.ResultFailsClosed` | `scripts/bookend-task.py:1082-1363` | No handling of a result reaches `review_ready` without that evidence in its own epoch, timeouts, revisions, checkpoints and blocks included |
| `BookendSupervisor.CandidateExactly` | `scripts/bookend-task.py:862-889` | A result is a candidate if and only if the run completed with its acceptance passed and it claims to be one, or claims nothing and reports neither a semantic nor an authority failure |
| `BookendClasses.ClassifiedExactly` | `scripts/bookend-task.py:862-889` | The class of every result from its texts: the state it claims, in any case and with either dash, unless that is a candidate without a pass; without a claim a semantic failure comes before a missing authority, and this before a pass |
| `BookendClasses.UnreadableIsFailure` | `scripts/bookend-task.py:862-889` | Output that is no JSON object is a runtime failure that names no worktree and claims nothing |
| `BookendEvidence.VerifiedContinuation` | `scripts/bookend-task.py:892-927` | The continuation checks pass if and only if the named file has the named digest and holds a receipt of this task, contract and epoch in which the owner has revoked its grant and nobody writes; as in Python, a one in any number form stands for a true and for the version or epoch one |
| `BookendEvidence.VerifiedSemanticBlock` | `scripts/bookend-task.py:930-965` | The semantic checks pass if and only if the named file has the named digest and holds a receipt of this task, contract and epoch, numbers compared as Python compares them, that names a decision and a non-empty list of blocked acceptance and says false, and nothing equal to it, of being an execution failure |
| `BookendEvidence.EscalatesExactly` | `scripts/bookend-task.py:1205-1229` | A claimed semantic block emits one wake request and ends in `semantic_blocked` if and only if its receipt stands |
| `BookendSupervisor.AwaitFindsFirst` | `scripts/bookend-task.py:739-825` | A verdict wait ends with the first polled verdict for this task and contract that carries an awaited action, and times out exactly when no poll held one |
| `BookendClasses.ActionMeans` | `scripts/bookend-task.py:1146-1172` | A verdict accepts, revises, continues, continues with guidance or stops exactly when its text, stripped and in lower case, is that word |
| `BookendClasses.AwaitInWords` | `scripts/bookend-task.py:739-825` | The review wait ends with the first verdict for this task and contract that says accept or revise, the checkpoint wait with the first that says continue, continue_with_guidance or stop |
| `BookendController.Controller.constructor` | `scripts/bookend-task.py:236-311` | A submitted task: the initial record with zero counters, persisted once |
| `BookendController.Controller.RunEpoch` | `scripts/bookend-task.py:1062-1081` | Issues the grant, runs, records the result, keeps the old worktree when none is reported, and revokes the grant |
| `BookendController.Controller.CertifyWorktree` | `scripts/bookend-task.py:968-1032` | Writes the convergence receipt for the recorded worktree, or fails without changing anything |
| `BookendController.Controller.WaitForVerdict` | `scripts/bookend-task.py:739-825` | The polling loop finds exactly the first matching verdict |
| `BookendController.Controller.Project` | `scripts/bookend-task.py:560-633` | Writes projection and capsule for the diff, or fails without changing anything |
| `BookendController.Controller.EmitWakeRequest` | `scripts/bookend-task.py:636-680` | Writes the wake request that binds the current artifacts and records its emission |
| `BookendController.Controller.HandleExpiry` | `scripts/bookend-task.py:1084-1110` | An expired epoch goes on only behind a verified continuation receipt and within the epoch budget |
| `BookendController.Controller.HandleRevision` | `scripts/bookend-task.py:1174-1204` | A revision certifies the worktree, writes the delta and counts one more round |
| `BookendController.Controller.HandleReview` | `scripts/bookend-task.py:1145-1204` | Accepts on an accept verdict only, fails closed on a timeout and on exhausted revision rounds |
| `BookendController.Controller.HandleCandidate` | `scripts/bookend-task.py:1111-1204` | Projects, requests the review of the right kind, and waits for its verdict |
| `BookendController.Controller.HandleSemanticBlock` | `scripts/bookend-task.py:1205-1229` | Escalates only behind a verified semantic receipt |
| `BookendController.Controller.HandleCheckpointVerdict` | `scripts/bookend-task.py:1279-1311` | Resumes, with guidance when given, and stops on a stop verdict or a timeout |
| `BookendController.Controller.HandleCheckpoint` | `scripts/bookend-task.py:1243-1320` | Certifies the worktree, wakes Codex while the checkpoint budget lasts, and goes on silently after that |
| `BookendController.Controller.HandleFailure` | `scripts/bookend-task.py:1321-1363` | Goes on with a certified worktree while epochs remain, and ends blocked otherwise |
| `BookendController.Controller.HandleResult` | `scripts/bookend-task.py:1082-1363` | Dispatches on the classification exactly as the epoch function does |
| `BookendController.Controller.Supervise` | `scripts/bookend-task.py:1045-1363` | The loop over epochs changes record, files and trace exactly as the recursive run function the theorems are about |
| `BookendController.Run` | `scripts/bookend-task.py:1045-1363` | One call that submits and supervises promises all results about runs: a terminal recorded end, the epoch, checkpoint and wake budgets, disciplined records, evidence behind every continued worktree, and `review_ready` with the lease released exactly on acceptance; it opens an epoch exactly when every epoch before goes on, shows exactly what its epochs show, and ends in the phase of its last one |
| `BookendReview.ValidateProjectionCoverage` | `scripts/bookend-task.py:459-488` | The cursor loop accepts exactly the projections whose segments chain from zero to the diff size |
| `BookendReview.CoverageIsExact` | `scripts/bookend-task.py:459-488` | A coverage list is accepted if and only if it is ordered, every byte offset of a non-empty diff lies in exactly one segment and no other offset in any; the lengths then sum to the size, and an empty diff is always rejected |
| `BookendReview.BuiltProjectionCovers` | `scripts/bookend-task.py:560-603` | Every projection that is built passes the coverage check for its diff |
| `BookendReview.ValidateReviewRequest` | `scripts/bookend-task.py:491-523` | Accepts a request exactly when it fits the task and every bound artifact still has the digest and size it names |
| `BookendReview.RequestIsValidWhileArtifactsStand` | `scripts/bookend-task.py:435-456` | From any world: a final or delta review request is accepted at any later time if and only if contract, result, projection, capsule and diff still hold their emission-time bytes, and at emission the contract matched and the result existed |
| `BookendRequests.SupervisedRequestStands` | `scripts/bookend-task.py:435-456` | In a supervised epoch the result always exists: its review requests are accepted later if and only if the contract matched as the executor left it and the five artifacts still hold their emission-time bytes |
| `BookendRequests.RequestIsValidAtOnce` | `scripts/bookend-task.py:491-523` | Right after its emission a request is accepted if and only if the executor left the contract matching and writing projection, capsule and request did not change the diff, which only a diff path equal to one of these three allows |
| `BookendRequests.UnansweredRequestIsRejected` | `scripts/bookend-task.py:1045-1204` | A supervised run whose only epoch ends in a candidate that nobody reviews wakes Codex once, with a request that is rejected from the start if and only if the executor did not leave the contract matching or asking changed the diff |
| `BookendRequests.RewrittenContractIsRejected` | `scripts/bookend-task.py:1045-1204` | One family of such runs: the executor completes, passes and rewrites the frozen task after the check at the start |
| `BookendRequests.OverwrittenDiffIsRejected` | `scripts/bookend-task.py:540-680` | Another one: it leaves the contract alone and names as its diff the file that the request will be written to, holding anything but a request |
| `BookendRequests.TimeoutsBlock` | `scripts/bookend-task.py:1148-1289` | A review or checkpoint that no poll answers ends the run in `runtime_blocked` with its own blocker and the lease suspended |
| `AcceptanceGraph.AssessmentMeans` | `scripts/acceptance_graph.py:58-76` | An object contradicts exactly when it is an error or reports a failure, and supports exactly when it reports a pass in a record that vouches for it and is no lexical match |
| `GraphBuilder.PathsOverlapIsAncestry` | `scripts/acceptance_graph.py:79-82` | Two paths overlap exactly when the components of one begin the components of the other |
| `GraphBuilder.BuildItems` | `scripts/acceptance_graph.py:140-203` | The loop over the acceptance ids builds one item for each and the reopened list, or fails exactly when some evidence cannot be loaded |
| `GraphBuilder.BuildGraph` | `scripts/acceptance_graph.py:97-226` | The builder returns the specified graph or the first of its refusals |
| `GraphContents.BuildRefusesExactly` | `scripts/acceptance_graph.py:101-149` | Which inputs are refused, with which error: an invalid state or previous graph, a graph of another task, evidence that cannot be loaded, a named diff that is none, an unsafe changed path |
| `GraphContents.OneItemEach` | `scripts/acceptance_graph.py:143-149` | A graph has one item for each acceptance entry, sorted by id, and everything these name could be loaded |
| `GraphContents.ItemRecords` | `scripts/acceptance_graph.py:149-203` | What an item records, from state and store alone: a path is among its evidence paths if and only if some object its entry names has that non-empty path; its contradictory refs are the contradicting objects; its decisions are those that share evidence with it |
| `GraphContents.EvidenceByKind` | `scripts/acceptance_graph.py:155-162` | A ref is in each of the four lists if and only if the entry names it and its object has the kind of that list |
| `GraphContents.StatusExactly` | `scripts/acceptance_graph.py:174-189` | Exactly when each item is reopened, contradictory, supported and unsupported, in terms of its evidence and of the changed paths |
| `GraphContents.ClaimsExactly` | `scripts/acceptance_graph.py:167-188` | Which of the five unverified claims each item carries |
| `GraphContents.ItemIsSorted` | `scripts/acceptance_graph.py:149-203` | All its lists are sorted and without repeats |
| `GraphContents.GraphRecords` | `scripts/acceptance_graph.py:109-226` | Which diffs a graph lists as new, which paths as changed, which items as reopened and which decisions as frozen; a diff is new when the caller names it or an entry does for the first time |
| `GraphContents.DecisionsRecorded` | `scripts/acceptance_graph.py:211-218` | It records each decision of the state once, sorted by id, with sorted evidence and its own digest |
| `AcceptanceGraph.ValidateDecisions` | `scripts/acceptance_graph.py:259-276` | Reports nothing exactly when every decision record is valid and the ids are distinct and named |
| `AcceptanceGraph.ValidateItems` | `scripts/acceptance_graph.py:277-303` | Reports nothing exactly when every item is valid and the ids are distinct and named |
| `AcceptanceGraph.ValidateGraph` | `scripts/acceptance_graph.py:247-318` | Reports no error exactly when the graph meets all its demands, among them its own identity digest |
| `GraphGuarantees.BuiltGraphIsValid` | `scripts/acceptance_graph.py:97-318` | Every graph the builder returns, for every valid state, evidence store and previous graph, passes validation without an error |
| `GraphGuarantees.EvidenceIsPartitioned` | `scripts/acceptance_graph.py:149-162` | The four evidence lists of an item are disjoint and together are exactly its evidence, and its contradictory refs lie inside them |
| `GraphGuarantees.BuiltItemsAreValid` | `scripts/acceptance_graph.py:141-203` | A built graph holds exactly one valid item for each acceptance id, in sorted order |
| `GraphGuarantees.SupportedIsJustified` | `scripts/acceptance_graph.py:58-203` | `supported` implies a satisfied claim, at least one supporting and no contradictory object, no unverified claim and no touched path |
| `GraphGuarantees.ReopenedExactly` | `scripts/acceptance_graph.py:129-189` | An item is reopened if and only if the previous graph had it supported and one of its earlier evidence paths overlaps an impact path |
| `GraphGuarantees.NewlyLinkedDiffReopens` | `scripts/acceptance_graph.py:111-135` | A diff hunk newly linked by any item counts as impact, and reopens what rested on an overlapping path, without the caller naming it |
| `GraphContents.ReopenedAfterSupport` | `scripts/acceptance_graph.py:182-201` | Over any history of builds an item is reopened if and only if it was supported in the build before and the path of some object its entry named then overlaps a path that is changed now |
| `GraphHistory.NeverReopenedTwice` | `scripts/acceptance_graph.py:182-189` | Over any history of builds a reopened item was supported in the build before, so none is reopened twice in a row |
| `GraphHistory.ReopenedIsJudgedAfresh` | `scripts/acceptance_graph.py:174-189` | In the next build a reopened item is supported again if and only if it is claimed satisfied, supported and not contradicted, whatever paths changed; so reopening by itself lasts for one build |
| `DeltaReview.ValidateDeltaPacket` | `scripts/acceptance_graph.py:405-449` | Reports no error exactly when the packet meets all its demands on the graph |
| `DeltaReview.CheckAccepted` | `scripts/acceptance_graph.py:483-485` | The loop over accepted ids reports nothing exactly when every known one is supported |
| `DeltaReview.ValidateReceipt` | `scripts/acceptance_graph.py:458-498` | Reports no error exactly when the receipt meets all its demands on graph and packet |
| `ReviewRounds.BuildDeltaPacket` | `scripts/acceptance_graph.py:325-388` | The builder returns the specified packet or the first of its refusals |
| `PacketContents.RefusesExactly` | `scripts/acceptance_graph.py:329-349` | Which inputs are refused, with which error, in the order of the checks |
| `PacketContents.ShowsExactly` | `scripts/acceptance_graph.py:354-366` | A packet shows, in the order of the graph, exactly the items that are not supported, that the reviewer asked for again or, in review mode, that were not accepted just as they are; and omits exactly the other ids |
| `PacketContents.RevisionOmitsExactly` | `scripts/acceptance_graph.py:354-366` | In revision mode an id is omitted if and only if its item is supported and neither conditional nor rejected in the receipt |
| `PacketContents.ReviewOmitsExactly` | `scripts/acceptance_graph.py:354-366` | In review mode an id is omitted if and only if its item is supported, equal to an item of the previous graph, accepted, and neither conditional nor rejected |
| `PacketContents.ListsExactly` | `scripts/acceptance_graph.py:367-386` | The unsupported, reopened and contradictory lists of the items shown, and the new diffs and tests of the graph |
| `PacketContents.DecisionListExactly` | `scripts/acceptance_graph.py:391-394` | A decision is listed as changed if and only if one of the two graphs has it with a digest that the other has not |
| `PacketContents.PacketIsSorted` | `scripts/acceptance_graph.py:367-385` | All these lists are sorted and without repeats |
| `ReviewRounds.BuiltPacketIsValid` | `scripts/acceptance_graph.py:325-449` | In either mode every built packet passes the packet validator for its graph |
| `ReviewRounds.PacketPartitionsGraph` | `scripts/acceptance_graph.py:354-366` | In either mode the included and the omitted ids partition the ids of the graph |
| `ReviewRounds.OmissionIsJustified` | `scripts/acceptance_graph.py:354-366` | In review mode an omitted item is supported, identical to its entry in the previous graph, and accepted by a receipt valid on that graph, where it was therefore supported too |
| `ReviewRounds.OmittedWasJustReviewed` | `scripts/acceptance_graph.py:342-366` | In every history of rounds an omission rests on the round just before, whose packet showed the very same item and whose reviewer accepted it |
| `ReviewRounds.NeverOmittedTwice` | `scripts/acceptance_graph.py:342-492` | No acceptance item is omitted in two consecutive rounds of any history |
| `ReviewRounds.ClassifiedWithinTwoRounds` | `scripts/acceptance_graph.py:458-498` | An item present in two consecutive rounds is classified by the reviewer in at least one of them |
| `GraphHistory.ReopenedIsReviewedTwice` | `scripts/acceptance_graph.py:354-366` | Over any review history a reopened item is classified by the reviewer in its own round, if that packet was built from the round before, and again in the next round, even when it is supported again on the same evidence |
| `CardSections.ParseSections` | `scripts/build-execution-capsule.py:68-75` | The heading scan and the slicing loop compute the recursive section list and the preamble |
| `CardSections.SectionsConcat` | `scripts/build-execution-capsule.py:68-75` | Putting a text that ends a line before a text that starts with a heading puts their section lists together |
| `ExecutionCapsule.SectionIsBlock` | `scripts/build-execution-capsule.py:68-75` | A section of a card, cut out and stripped, still starts with its own heading, keeps its name and holds no other heading |
| `ExecutionCapsule.BlocksReadBack` | `scripts/build-execution-capsule.py:395-409` | Section bodies joined by empty lines read back as exactly those sections |
| `CapsuleContents.RendersExactly` | `scripts/build-execution-capsule.py:377-382` | A card renders unless its mode keeps none of its sections, or keeps none of the four that say what to do; each with its own error |
| `CapsuleContents.ContractIs` | `scripts/build-execution-capsule.py:384-395` | The whole contract-only capsule: its comment lines, the title lines of a preamble, and the kept bodies with an empty line between any two |
| `CapsuleContents.SplitLinesExactly` | `scripts/build-execution-capsule.py:390-394` | A text is broken into lines at all the characters at which Python breaks lines and nowhere else |
| `CapsuleContents.TitlesExactly` | `scripts/build-execution-capsule.py:390-394` | The title lines are the first eight lines of the preamble that are not blank, in order |
| `CapsuleContents.CapsuleHoldsKept` | `scripts/build-execution-capsule.py:365-409` | For every card that renders, in either mode: reading the contract-only capsule back gives the sections of its header and then the sections at exactly those positions of the card, in increasing order, whose names are in the keep set of the mode |
| `CapsuleContents.OrdinaryCardHoldsKept` | `scripts/build-execution-capsule.py:365-409` | If the only line breaks of the card are newlines, these are all it holds |
| `CapsuleContents.HoldsKeptExactly` | `scripts/build-execution-capsule.py:384-409` | In general they are if and only if no title line copied from the preamble reads as a heading |
| `CapsuleContents.ShipsEveryPacket` | `scripts/build-execution-capsule.py:396-409` | The capsule that ships is its contract followed by every packet that is not empty, in order, each after an empty line |
| `CapsuleCoverage.VerticalTabAddsASection` | `scripts/build-execution-capsule.py:390-394` | Every card that opens with a certain line, a vertical tab in it, and then a section reads back wrong whenever it renders |
| `CapsuleCoverage.TabbedCardReadsBackWrong` | `scripts/build-execution-capsule.py:365-409` | A concrete card of three lines that renders, with the header of a bootstrap capsule, and reads back with a section too many |
| `CapsuleCoverage.HardContractCoverage` | `scripts/build-execution-capsule.py:93-145` | The loops over groups and sections compute the specified report or error |
| `CapsuleContents.ReportExactly` | `scripts/build-execution-capsule.py:93-130` | The report of a group lists the sections of the card with its names, in order, split by whether the capsule holds them unchanged |
| `CapsuleContents.CoverageExactly` | `scripts/build-execution-capsule.py:124-145` | The check fails exactly on a hard-contract section that the capsule does not hold, or on a group without a section when completeness is demanded |
| `CapsuleCoverage.CoverageNeverDrops` | `scripts/build-execution-capsule.py:93-145` | For every card that renders and either mode the coverage check never finds a dropped section; it succeeds exactly when completeness is not demanded or no category is missing |
| `CapsuleCoverage.ShippedStartsWithContract` | `scripts/build-execution-capsule.py:460-481` | Whatever packets are appended, the shipped capsule renders whenever the contract does and has the checked contract text, less its final newline, as a prefix |
| `PromptTruncation.WalkBack` | `scripts/advisor-call.py:330-337` | The bounded retry loop computes the specified cut |
| `PromptTruncation.CapPrompt` | `scripts/advisor-call.py:312-343` | The effective prompt, the truncation flag, and the refusal when suffix and minimum do not fit |
| `PromptTruncation.CapsExactly` | `scripts/advisor-call.py:312-343` | For any bytes, ill-formed ones included: refused exactly when the prompt does not fit and the suffix leaves less than 512 bytes; unchanged when it fits; otherwise the longest well-formed one of four cuts, or the fifth if there is none |
| `PromptTruncation.WalkBackKeepsBoundary` | `scripts/advisor-call.py:330-337` | On well-formed UTF-8 the four-step walk-back keeps the longest whole-character prefix within budget |
| `PromptTruncation.CappedPromptIsFaithful` | `scripts/advisor-call.py:312-343` | For every well-formed prompt: the result fits the cap, ends with the whole suffix, keeps a well-formed prefix that loses at most three bytes of the budget, is flagged as truncated exactly when bytes were dropped, and is cut where decode-and-drop-the-tail cuts at the same budget |
| `PromptTruncation.DecodeIgnoreKeepsBoundary` | `scripts/build_review_packet.py:541-549` | Decoding a cut of well-formed text while ignoring errors keeps exactly its whole characters |
| `PromptTruncation.TruncatedPromptIsFaithful` | `scripts/build_review_packet.py:541-549` | A review prompt within `max_bytes` is unchanged; one over it becomes the longest whole-character prefix within budget plus the suffix, and fits `max_bytes` if and only if the suffix does |
| `PromptTruncation.ShortLimitIsExceeded` | `scripts/build_review_packet.py:541-549` | With the fixed suffix of the script every limit below its 42 bytes is exceeded, by every prompt longer than the limit |
| `BazelRules.FindClose` | `scripts/build-bazel-context.py:21-42` | The quote-aware scan returns the least index where the depth outside strings is back at zero, and nothing exactly when there is none |
| `BazelRules.CloseIsCallEnd` | `scripts/build-bazel-context.py:21-42` | That index is the end of the call in a recursive grammar of calls and quoted strings without counters or flags, and there is none exactly when the grammar finds no end |
| `BazelRules.RuleBlocks` | `scripts/build-bazel-context.py:17-43` | The blocks of exactly the rules whose calls end, in order, each the text from the rule start to its closing parenthesis |
| `BazelRules.BlocksExactly` | `scripts/build-bazel-context.py:17-43` | One block for each rule whose depth outside quotes returns to zero, in the order of the rules: its name, and the text from its start to the first index where that happens |
| `DiffHunks.ParseDiffHunks` | `scripts/build_review_packet.py:163-212` | For every bound, exactly the first hunks of the unbounded parse |
| `DiffHunks.HunksCoverTheDiff` | `scripts/build_review_packet.py:163-212` | For every diff the unbounded hunks concatenate to exactly the lines under headers that name a file, in order |
| `DiffHunks.HunkTextsCoverTheDiff` | `scripts/build_review_packet.py:163-212` | The same for the joined texts that are returned |
| `DiffHunks.OwnedFromFirstHeader` | `scripts/build_review_packet.py:163-212` | When every header names a file, those are all lines from the first header on |
| `DiffHunks.HunksAreWellShaped` | `scripts/build_review_packet.py:163-212` | Every hunk lies in one named file and holds at most one `@@` line |
| `DiffContents.HunksExactly` | `scripts/build_review_packet.py:163-212` | The hunks of a diff are the only list of one-file hunks that holds its lines under named files and starts each hunk at a file header, or at an `@@` line of the same file when the hunk before has its own already; so the lines of a file before its first `@@` line share its hunk |
| `DiffContents.TargetExactly` | `scripts/build_review_packet.py:183-185` | A header names the file after its first ` b/` |
| `DiffContents.LastFileExactly` | `scripts/build_review_packet.py:183-190` | A line is under the file that the last header before it names |
| `DiffFocus.RankHunks` | `scripts/build_review_packet.py:244-251` | The in-place rewriting leaves the array holding the ranked hunks |
| `DiffFocus.RankedIsPermutation` | `scripts/build_review_packet.py:244-251` | Ranking permutes the hunks |
| `DiffFocus.RankedIsStable` | `scripts/build_review_packet.py:244-251` | Scores never increase along the ranking and equal scores keep their order |
| `DiffContents.ScoreMeans` | `scripts/build_review_packet.py:244-249` | A hunk scores three for each risk pattern that matches its text and one for each plus and minus in it, up to five |
| `DiffFocus.CountChanges` | `scripts/build_review_packet.py:217-242` | Each file gets the added and deleted lines booked to it, and the counts sum to all added and all deleted lines of the diff |
| `DiffContents.ChangedLineMeans` | `scripts/build_review_packet.py:232-242` | A line is added exactly when it starts with one or two plus signs, and deleted likewise with minus signs |
| `DiffContents.BookedExactly` | `scripts/build_review_packet.py:217-242` | The changes counted for a file are the lines booked to it |
| `DiffContents.BookedFileExactly` | `scripts/build_review_packet.py:227-231` | A line is booked to what the last `diff --git ` line before it names after ` b/`, or to "unknown" |
| `JsonValues.SameUnfolds` | `scripts/audit-codex-wakeups.py:154-164` | The equality used for rows, annotations and receipts is that of Python: numbers by value across booleans, integers and floats, lists by position, objects by member |
| `WakeupAudit.LoadRow` | `scripts/audit-codex-wakeups.py:147-164` | One row updates the deduplicated calls: a new identity is appended, a known one is kept and marked when a core field is not `==` to that of the row read first |
| `WakeupAudit.LoadUsageRecords` | `scripts/audit-codex-wakeups.py:167-203` | The nested loops leave one record for each identity, in order of first rows, marked conflicting exactly when some row is not `==` to the first in its core fields |
| `AuditSums.BuildEpisodes` | `scripts/audit-codex-wakeups.py:336-431` | One episode for each record, classified by its chosen annotation and sorted by the texts of its ids, or the TypeError that some annotation raises |
| `StableSort.SortIsStable` | `scripts/audit-codex-wakeups.py:426-430` | Sorting keeps episodes with equal ids in reading order |
| `StableSort.SortIgnoresOrder` | `scripts/audit-codex-wakeups.py:426-430` | When no two episodes have equal ids, the sorted list does not depend on the order before sorting |
| `AuditSums.ChosenIsUnanimous` | `scripts/audit-codex-wakeups.py:287-311` | An annotation is chosen exactly when it is the first candidate read, all candidates are `==` to one another, and it is valid and raises nothing |
| `AuditSums.AvoidableIsEarned` | `scripts/audit-codex-wakeups.py:244-326` | A call counts as avoidable if and only if its rows do not conflict, its annotations are `==` to one another, and the first one read is valid and says so; such an annotation names evidence and a confidence |
| `AuditClasses.ClassifiedExactly` | `scripts/audit-codex-wakeups.py:244-326` | What becomes of every call, in the words of rows and annotations: a TypeError, or an episode that is required, avoidable or indeterminate, with or without tokens. Without a usable annotation it is required exactly at the stage `intent-freeze` or `final-review` |
| `AuditClasses.EpisodeExactly` | `scripts/audit-codex-wakeups.py:314-431` | The exact class of an episode is the one whose word its annotation says, or that of its stage when no annotation names one, and `indeterminate` when its rows conflict; its three ids are the texts of the row or their printed forms |
| `AuditClasses.ValidExactly` | `scripts/audit-codex-wakeups.py:244-284` | Which annotations are valid, member by member |
| `AuditClasses.RowsAgreeExactly` | `scripts/audit-codex-wakeups.py:154-164` | Duplicate rows agree exactly when each core field is `==` in both |
| `AuditClasses.AnnotationsAgreeExactly` | `scripts/audit-codex-wakeups.py:287-293` | Annotations agree exactly when they have the same members, `==` in both, apart from call id and source |
| `AuditClasses.CodexRowsAre` | `scripts/audit-codex-wakeups.py:167-203` | What is audited are exactly the codex rows of the readable ledgers, in reading order |
| `AuditClasses.SummaryCountsCalls` | `scripts/audit-codex-wakeups.py:694-748` | The sums, the completeness of the counts and the retained range in terms of the calls: each sum adds the tokens of the calls of its class |
| `AuditSums.SummaryIgnoresOrder` | `scripts/audit-codex-wakeups.py:694-748` | In exact arithmetic the summary depends on the episodes only as a multiset |
| `AuditRounding.PlainSumIsExact` | `scripts/audit-codex-wakeups.py:716-731` | Accumulating counts as Python does up to version 3.11 makes no error on integers, nor on whole numbers that together stay within 2^53, for every rounding that keeps such integers; the same holds for the sum of two sums |
| `AuditRounding.ScriptSummaryIsExact` | `scripts/audit-codex-wakeups.py:694-748` | The whole summary of the script, its retained maximum included, is that of exact arithmetic if all counts are integers, or whole and together within 2^53, for every way of adding that makes no error on those |
| `AuditRounding.ScriptSummaryAddsUp` | `scripts/audit-codex-wakeups.py:694-748` | Then required, avoidable and indeterminate tokens add up to all known input tokens and, when the counts are complete, so do the retained maximum and the avoidable tokens |
| `AuditRounding.ScriptSummaryIgnoresOrder` | `scripts/audit-codex-wakeups.py:694-748` | Under that condition the summaries the script computes from the same episodes agree in every order |
| `AuditCalls.OutcomesFollowFromRows` | `scripts/audit-codex-wakeups.py:147-203` | What the audit makes of its calls, as a multiset, is determined by the codex rows in the order they are read, whatever ledgers hold them |
| `AuditOrder.SelectionIsReached` | `scripts/audit-codex-wakeups.py:147-431` | Whatever outcome is selected for each call from those that its rows and annotations, taken as the ones read first, lead to: some reordering of ledgers, rows and event logs makes the audit build exactly these |
| `AuditOrder.OrderIsSelection` | `scripts/audit-codex-wakeups.py:147-431` | And no reordering makes it build anything else |
| `AuditOrder.AuditIgnoresOrder` | `scripts/audit-codex-wakeups.py:147-431` | No reordering of ledger files, rows or event logs, rows moved between ledgers included, changes what the audit builds, if and only if every call is steady: each of its rows and annotations, taken as the one read first, leads to the same outcome |
| `AuditSettled.SummaryIsSettled` | `scripts/audit-codex-wakeups.py:147-748` | In exact arithmetic no reordering changes the summary, or that there is none, if and only if some call or row raises in every order; or none ever raises, each call adds the same to each sum whichever of its rows and annotations is read first, and either some tokens are missing in every order or none ever are |
| `AuditScript.ScriptAuditIsSettled` | `scripts/audit-codex-wakeups.py:147-748` | The same condition is exact for the summary the script prints when the token counts of all rows are integers, or whole and together within 2^53 |
| `AuditScript.SteadySummaryIgnoresOrder` | `scripts/audit-codex-wakeups.py:147-748` | Over steady calls every order gives the same printed summary, or the same TypeError: under that condition on the counts, and however Python adds when every row names its run, task and call |
| `AuditKinds.AgreeingKindsAreSettled` | `scripts/audit-codex-wakeups.py:97-748` | The calls are settled when rows of a call that are `==` both count tokens or both do not, annotations that are `==` have booleans and integers in the same checked members, and conflicting rows carry no annotation that can raise |
| `AuditKinds.AgreeingKindsAreSteady` | `scripts/audit-codex-wakeups.py:97-326` | A call whose kinds agree so is steady when rows that are `==` also have their tokens both as integers or both as floats |
| `AuditKinds.AgreeingKindsIgnoreOrder` | `scripts/audit-codex-wakeups.py:97-748` | So the summary of inputs whose kinds agree does not depend on reading order |
| `AuditExamples.MixedCountsDependOnOrder` | `scripts/audit-codex-wakeups.py:97-164` | Two rows of one call that count `1` and `true` tokens: one order gives a complete sum of one, the other an incomplete sum of zero |
| `AuditExamples.MixedIterationsDependOnOrder` | `scripts/audit-codex-wakeups.py:259-311` | Two `==` annotations with iterations `1` and `1.0`: the one read first decides the class of the call |
| `AuditExamples.FloatSumsDependOnOrder` | `scripts/audit-codex-wakeups.py:426-748` | Three rows without call ids that count the floats 2^53, 1 and 1: their calls are steady, but two ledger orders give the printed sums 2^53 and 2^53 + 2 under accumulation that rounds half-way cases to even |
| `HandoffPaths.AcceptedParts` | `scripts/build-scoped-handoff.py:36-46` | An accepted path is rebuilt from components none of which is empty, a dot, a parent step or holds a separator |
| `HandoffContents.SafeRelativeExactly` | `scripts/build-scoped-handoff.py:36-46` | With back slashes read as slashes and outer white space cut off, a path is refused exactly when it is empty, absolute or has a parent step, and otherwise keeps exactly its components that are neither empty nor a dot, in order |
| `HandoffPaths.SafeRelativeIsStable` | `scripts/build-scoped-handoff.py:36-46` | Normalising an accepted path again gives the same path if and only if the first component it keeps does not start, and the last one does not end, with white space |
| `HandoffPaths.NormalExactly` | `scripts/build-scoped-handoff.py:36-46` | A path is its own normal form if and only if it is a dot, or has no back slash, no outer white space and no empty, dot or parent component |
| `HandoffPaths.BlankComponentIsLost` | `scripts/build-scoped-handoff.py:36-46` | A concrete accepted path that a second normalisation changes |
| `HandoffPaths.TrailingBlankIsCut` | `scripts/build-scoped-handoff.py:36-46` | A concrete path that is taken for another one because its trailing blank is cut off |
| `HandoffChanges.NameStatus` | `scripts/build-scoped-handoff.py:146-171` | The index-driven loop computes the recursive reading of the fields, errors included |
| `HandoffChanges.NameStatusInvertsPrinting` | `scripts/build-scoped-handoff.py:146-171` | Reading the NUL-separated printing of any list of changes with normalised paths gives that list back, whichever of the two field layouts each entry uses |
| `HandoffContents.ListingIsReadExactly` | `scripts/build-scoped-handoff.py:146-171` | Whatever changes git prints, with any paths and in either layout: they are read if and only if every path is safe, and are then these changes in order with each path in normal form |
| `HandoffChanges.ReadPathsAreSafe` | `scripts/build-scoped-handoff.py:146-171` | Every path that is read is relative and has no empty, dot or parent component, and exactly renames and copies carry a second one |
| `HandoffChanges.ListingNormalizesRaw` | `scripts/build-scoped-handoff.py:146-171` | The listing holds the normal form of every path git wrote, in order and without omission |
| `HandoffChanges.UntrackedNormalizesRaw` | `scripts/build-scoped-handoff.py:174-179` | The untracked paths are read if and only if every one git wrote is safe, and are then exactly their normal forms |
| `HandoffChanges.UntrackedFallTogether` | `scripts/build-scoped-handoff.py:174-179` | The untracked files `a` and `a ` are listed as one |
| `ScopedHandoff.Controls` | `scripts/build-scoped-handoff.py:102-105` | The control set is exactly the default names and the normalised declared ones |
| `ScopedHandoff.BoundDirectories` | `scripts/build-scoped-handoff.py:106-109` | The bound directories are exactly the normalised paths of directory bindings |
| `ScopedHandoff.AllowedContract` | `scripts/build-scoped-handoff.py:97-120` | Succeeds exactly when something is declared and every path is safe; then allowed, directory and control paths are exactly the declared ones and the allowed list has no repeats |
| `ScopedHandoff.MatchesIsAncestry` | `scripts/build-scoped-handoff.py:123-128` | A path is in scope exactly when it is allowed or the components of an allowed directory begin its components |
| `ScopedHandoff.BuildPatch` | `scripts/build-scoped-handoff.py:191-212` | The patch is the tracked diff followed by one chunk for each untracked file |
| `HandoffContents.PatchExactly` | `scripts/build-scoped-handoff.py:191-212` | The patch of a handoff without unexpected paths is git's diff of the tracked selection, when there is one, and then one piece for each untracked path in order: git's diff of it, or a written header for an empty file |
| `HandoffContents.PatchStartsWithDiff` | `scripts/build-scoped-handoff.py:195-203` | A ready patch starts with git's diff of the tracked selection |
| `HandoffContents.HandoffListsExactly` | `scripts/build-scoped-handoff.py:241-256` | The control, selected and unexpected lists, each sorted and without repeats, from the changed paths and the contract |
| `HandoffContents.StatusExactly` | `scripts/build-scoped-handoff.py:260-275` | Blocked exactly on an unexpected path, ready exactly with a patch, and else an internal error exactly when something is selected |
| `HandoffContents.ReportedExactly` | `scripts/build-scoped-handoff.py:278-285` | A path is reported as added when it is untracked, and otherwise with the status of the last change listed for it |
| `HandoffContents.ControlExactly` | `scripts/build-scoped-handoff.py:131-143` | A path is a control path when it is listed as one or is a top-level advisor response |
| `ScopedHandoff.EveryChangeIsPlaced` | `scripts/build-scoped-handoff.py:243-254` | Every changed path, both ends of a rename included, is a control path, selected or unexpected, and nothing else is; unexpected overlaps neither, and control overlaps selected exactly on explicitly allowed control paths |
| `ScopedHandoff.ReadyStaysInScope` | `scripts/build-scoped-handoff.py:241-275` | A `ready` handoff changed no listed path outside scope and control files and carries a patch |
| `ScopedHandoff.ReadyCoversRawPaths` | `scripts/build-scoped-handoff.py:146-275` | From the tracked and untracked paths as git wrote them: in a `ready` handoff the normal form of each is in scope or a control path, and a path written cleanly is so itself |
| `ScopedHandoff.ScopeIsLiteralExactly` | `scripts/build-scoped-handoff.py:36-128` | Every contract that covers the normal form of a path covers the path itself if and only if the path is written cleanly |
| `ScopedHandoff.SelectedIsSplit` | `scripts/build-scoped-handoff.py:252-256` | The tracked and untracked lists split the selected paths, sorted and without repeats |
| `ScopedHandoff.OutcomeFollowsPaths` | `scripts/build-scoped-handoff.py:260-275` | Blocked exactly when some change is unexpected, empty exactly when every change is a control path out of scope, and no other outcome than `ready` carries a patch |
| `ScopedHandoff.EmptyFilesAreDelivered` | `scripts/build-scoped-handoff.py:182-212` | A new empty file in scope makes the handoff ready although git prints no diff for it |
| `ScopedHandoff.UnknownIsSourceOnly` | `scripts/build-scoped-handoff.py:278-285` | A selected path is reported as `unknown` exactly when it is only the source of a rename or copy |
| `CleanRuntime.Scan` | `scripts/clean_runtime.py:261-274` | The scan loops list exactly the chosen and cleanable names in sorted order |
| `CleanRuntime.CollectCandidates` | `scripts/clean_runtime.py:239-298` | The candidates are those of the three areas in order, the first alone in a focused run |
| `CleanRuntime.OfferedExactlyDeletable` | `scripts/clean_runtime.py:255-298` | A candidate is offered if and only if git ignores it and does not track it and it is no reserved entry, no part of a live task's bundle and, in a focused run, part of the focused bundle |
| `CleanRuntime.OfferedInOrder` | `scripts/clean_runtime.py:255-298` | The candidates below .worktrees come first, then those of the root, then the cards, each in sorted order |
| `CleanRuntime.FocusExactly` | `scripts/clean_runtime.py:253` | A run is limited to a task exactly when its name has something after the last slash, and then to that |
| `CleanRuntime.Apply` | `scripts/clean_runtime.py:633-681` | The deletion loop takes for every candidate exactly the specified step |
| `CleanRuntime.StepExactly` | `scripts/clean_runtime.py:633-681` | A candidate is held back if and only if it lies in the bundle of a worktree without a valid receipt at the start or of one kept before; any other is removed, kept or failed exactly as its receipt and removal answer |
| `CleanRuntime.BundleGoesWithItsWorktree` | `scripts/clean_runtime.py:255-681` | In every run over every listing, an entry of a worktree's bundle, however deeply dotted, is removed only after that worktree was removed under a receipt valid at that moment |
| `CleanRuntime.BundleSafetyIsScanOrder` | `scripts/clean_runtime.py:633-681` | For any candidate order this holds in every run if and only if the worktree is listed before the entry |
| `CleanRuntime.ScanListsOwnerFirst` | `scripts/clean_runtime.py:261-274` | The sorted scan lists every worktree before the rest of its bundle |
| `CleanRuntime.KeptWorktreeKeepsBundle` | `scripts/clean_runtime.py:638-678` | Once a worktree stays, everything after it in its bundle is skipped, also when it stayed because of an outer task |
| `CleanRuntime.RemovedUnderReceipt` | `scripts/clean_runtime.py:633-657` | A worktree is removed only under a receipt valid at the start and valid again when its turn comes |
| `CleanRuntime.FocusIsKept` | `scripts/clean_runtime.py:252-277` | A run given a task name offers only that task's bundle, in every repository, if and only if the name does not end in a slash |
| `CleanRuntime.SlashWidensTheRun` | `scripts/clean_runtime.py:252-277` | The concrete name `t/`, for which a run offers more than the bundle of `t` |

## Left out

- Subprocesses, git, clocks, sleeping, process spawning, temporary files and the atomicity of renames; operating system
  errors that no script catches.
- The internals of JSON and SHA-256, the schema and type checks of the validators on fields that are typed here, and
  timestamps and other fields of the documents that no check reads.
- The executor is taken not to write the state file, which the source reads again at each update, and nobody else
  writes it during a run; `cmd_review_input` does so in the source (`scripts/bookend-task.py:1483-1489`).
- A second supervisor of the same task and races on verdict files; the lock file is not modelled, so every run here has
  one supervisor. Verdict freshness is not claimed: a verdict is matched on task and contract only, as in the code.
- BookendSupervisor: `find_diff` and the executor's files are inputs of an epoch, and the machine-evidence list of a
  projection is not modelled, because no check reads it.
- The epoch-expired path leaves an older convergence receipt in the record; the evidence theorem is about what the
  previous epoch itself produced.
- AcceptanceGraph: `validate_state` (its file is not part of this model) appears as the conditions on acceptance entries
  and decisions that the builder relies on; the workflow-state digest and the other state fields are left out, as are
  size limits, file locations and symbolic-link checks.
- In revision mode the omitted items of a packet need not be unchanged or accepted, and the packet validator does not
  check that a packet covers its graph; neither is claimed.
- CapsuleCoverage: the three comment lines of the capsule header are parameters, and the loaders of checkpoint,
  recovery, continuation and compiled-context packets are inputs that may be any text.
- DiffFocus: risk patterns are predicates on texts; the symbol and risk lists reported per hunk are left out.
- BazelRules: the positions that the rule pattern matches are inputs; attribute extraction is left out.
- AuditSums: the savings ratio, the status, the grouping by stage, arm and owner, the task summary with the errors it
  raises on logical task ids it cannot look up, run metrics and the broker summary.
- AuditCalls: reading the event logs (`load_event_annotations`) is an input: for each call id its annotations in reading
  order.
- AuditRounding: the compensated sums of Python 3.12 and later are covered by the theorems about any way of adding, but
  are not shown here to be exact on whole numbers.
- JsonValues: `NaN`, which is no JSON but which Python reads, and integers too large for a float, on which the script
  raises an OverflowError.
- HandoffChanges: fields are decoded text; splitting at NUL before or after decoding is the same. A path that is not
  UTF-8 is decoded to lone surrogates, which a Dafny `char` cannot hold, and is outside the model.
- ScopedHandoff: the manifest, hashes, the commit checks and the check that the output lies outside the worktree.
- CleanRuntime: how liveness, eligibility and the validity of a receipt are established, and the removal of orphaned
  session stores after a worktree is gone; directory listings, git's answers and removal outcomes are inputs.
- Strings: `lower` is modelled on ASCII letters.
- The dispatch, classification and dashboard scripts, the Markdown rendering and provider probes: each claim about them
  follows from reading one branch.
