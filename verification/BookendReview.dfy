/**
 * Review artifacts of scripts/bookend-task.py: the projection that covers a diff, the wake request that binds
 * the artifacts of a review, and the validation Codex runs before it reads them.
 */
module BookendReview {
  import opened Wrappers
  import opened Bookend
  import opened BookendTrace

  // ----- Coverage ---------------------------------------------------------------------------------------

  predicate WellFormed(s: Segment) {
    s.Segment? && s.start.Int? && s.end.Int? && s.start.value < s.end.value && !s.class_.UnknownClass?
  }

  /** Where the cursor ends when each segment starts at the cursor and moves it to its own end. */
  function Chain(coverage: seq<Segment>, cursor: int): Option<int> {
    if coverage == [] then Some(cursor)
    else if WellFormed(coverage[0]) && coverage[0].start.value == cursor then
      Chain(coverage[1..], coverage[0].end.value)
    else None
  }

  predicate ProjectionCovers(projection: Projection, size: int) {
    && projection.coverage != [] && Chain(projection.coverage, 0) == Some(size)
    && projection.coverageValid && projection.unclassified == 0
  }

  /** `validate_projection_coverage`; `false` is the raised error. */
  method ValidateProjectionCoverage(projection: Projection, diffSize: int) returns (ok: bool)
    ensures ok <==> ProjectionCovers(projection, diffSize)
  {
    var coverage := projection.coverage;
    if coverage == [] { return false; }
    var cursor := 0;
    for index := 0 to |coverage|
      invariant Chain(coverage, 0) == Chain(coverage[index..], cursor)
    {
      var segment := coverage[index];
      assert coverage[index..][1..] == coverage[index + 1..];
      if !segment.Segment? || !segment.start.Int? || !segment.end.Int? { return false; }
      if segment.start.value != cursor || segment.end.value <= segment.start.value || segment.class_.UnknownClass? {
        return false;
      }
      cursor := segment.end.value;
    }
    if cursor != diffSize { return false; }
    ok := projection.coverageValid && projection.unclassified == 0;
  }

  /** Whether a segment holds a byte offset; a malformed segment holds none. */
  predicate HoldsOffset(s: Segment, offset: int) {
    WellFormed(s) && s.start.value <= offset < s.end.value
  }

  /** How many segments hold a byte offset. */
  ghost function Holders(coverage: seq<Segment>, offset: int): nat {
    if coverage == [] then 0
    else (if HoldsOffset(coverage[0], offset) then 1 else 0) + Holders(coverage[1..], offset)
  }

  function StartOf(s: Segment): int {
    if WellFormed(s) then s.start.value else 0
  }

  function LengthOf(s: Segment): int {
    if WellFormed(s) then s.end.value - s.start.value else 0
  }

  ghost function TotalLength(coverage: seq<Segment>): int {
    if coverage == [] then 0 else LengthOf(coverage[0]) + TotalLength(coverage[1..])
  }

  /** Well-formed segments in the order of their starts. */
  ghost predicate InOrder(coverage: seq<Segment>) {
    && (forall i | 0 <= i < |coverage| :: WellFormed(coverage[i]))
    && (forall i, j | 0 <= i < j < |coverage| :: StartOf(coverage[i]) < StartOf(coverage[j]))
  }

  /** Each offset from `cursor` up to `size` is held once, and no other offset is held. */
  ghost predicate CoversExactly(coverage: seq<Segment>, cursor: int, size: int) {
    forall offset :: Holders(coverage, offset) == if cursor <= offset < size then 1 else 0
  }

  lemma {:induction false} ChainCovers(coverage: seq<Segment>, cursor: int, size: int)
    requires Chain(coverage, cursor) == Some(size)
    ensures InOrder(coverage) && CoversExactly(coverage, cursor, size)
    ensures cursor <= size && (coverage != [] ==> cursor < size)
    ensures TotalLength(coverage) == size - cursor
    ensures forall i | 0 <= i < |coverage| :: cursor <= StartOf(coverage[i])
  {
    if coverage != [] {
      var rest := coverage[1..];
      ChainCovers(rest, coverage[0].end.value, size);
      assert forall i | 0 < i < |coverage| :: coverage[i] == rest[i - 1];
    }
  }

  lemma {:induction false} NotHeldBefore(coverage: seq<Segment>, offset: int)
    requires forall i | 0 <= i < |coverage| :: offset < StartOf(coverage[i])
    ensures Holders(coverage, offset) == 0
  {
    if coverage != [] {
      assert offset < StartOf(coverage[0]);
      NotHeldBefore(coverage[1..], offset);
    }
  }

  lemma {:induction false} ExactCoverChains(coverage: seq<Segment>, cursor: int, size: int)
    requires cursor <= size && InOrder(coverage) && CoversExactly(coverage, cursor, size)
    ensures Chain(coverage, cursor) == Some(size)
  {
    if coverage == [] {
      assert Holders(coverage, cursor) == 0;
    } else {
      var first, rest := coverage[0], coverage[1..];
      assert WellFormed(first);
      assert Holders(coverage, first.start.value) >= 1;
      if cursor < first.start.value {
        forall i | 0 <= i < |coverage| ensures cursor < StartOf(coverage[i]) {}
        NotHeldBefore(coverage, cursor);
        assert false;
      }
      assert Holders(coverage, first.end.value - 1) >= 1;
      forall offset ensures Holders(rest, offset) == if first.end.value <= offset < size then 1 else 0 {
        assert Holders(coverage, offset) == if cursor <= offset < size then 1 else 0;
      }
      ExactCoverChains(rest, first.end.value, size);
    }
  }

  /**
   * The coverage check accepts exactly the ordered lists of well-formed segments in which every byte offset of
   * a non-empty diff lies in one segment and no other offset lies in any; their lengths then add up to its size.
   */
  lemma CoverageIsExact(projection: Projection, size: int)
    ensures ProjectionCovers(projection, size) <==>
            && 0 < size && InOrder(projection.coverage) && CoversExactly(projection.coverage, 0, size)
            && projection.coverageValid && projection.unclassified == 0
    ensures ProjectionCovers(projection, size) ==> TotalLength(projection.coverage) == size
  {
    var coverage := projection.coverage;
    if Chain(coverage, 0) == Some(size) {
      ChainCovers(coverage, 0, size);
    }
    if 0 < size && InOrder(coverage) && CoversExactly(coverage, 0, size) {
      assert Holders(coverage, 0) == 1;
      ExactCoverChains(coverage, 0, size);
    }
  }

  // ----- Building -----------------------------------------------------------------------------------------

  function ProjectionFor(p: Platform, w: World, diff: Path): Projection
    requires diff in w.files
  {
    var size := |w.files[diff]|;
    Projection(w.rec.config.taskId, ArtifactRef(p, w.files, Control(FrozenTask)), w.rec.config.contractHash,
               w.rec.config.baseSha, ArtifactRef(p, w.files, diff),
               [Segment(Int(0), Int(size), SemanticFrontier)], true, 0)
  }

  /** `build_projection`, given the diff that `find_diff` located. */
  function BuildProjection(p: Platform, w: World, diff: Option<Path>): Result<World, Blocker> {
    if diff.None? || diff.value !in w.files then Err(NoDiff)
    else if |w.files[diff.value]| == 0 then Err(EmptyDiff)
    else
      var projection := ProjectionFor(p, w, diff.value);
      var w1 := Write(p, w, Control(ProjectionFile), ProjectionDoc(projection));
      var capsule := Capsule(w.rec.config.taskId, w.rec.config.contractHash, w.rec.config.baseSha,
                             ArtifactRef(p, w1.files, Control(ProjectionFile)), projection.diff);
      Ok(Write(p, w1, Control(CapsuleFile), CapsuleDoc(capsule)))
  }

  /** Whatever diff is projected, the projection it builds passes the coverage check for that diff. */
  lemma BuiltProjectionCovers(p: Platform, w: World, diff: Path)
    requires diff in w.files && BuildProjection(p, w, Some(diff)).Ok?
    ensures ProjectionCovers(ProjectionFor(p, w, diff), |w.files[diff]|)
  {
    var coverage := ProjectionFor(p, w, diff).coverage;
    assert coverage[1..] == [];
  }

  predicate ForReview(kind: WakeKind) {
    kind.FinalReview? || kind.DeltaReview?
  }

  /** The diff named by the projection on disk. */
  function ProjectedDiff(p: Platform, files: Files): Option<Ref> {
    if Control(ProjectionFile) !in files then None
    else
      match p.load(files[Control(ProjectionFile)])
      case Some(ProjectionDoc(projection)) => projection.diff
      case _ => None
  }

  /** The request `emit_wake_request` writes; only reviews come with a projection and a capsule. */
  function WakeFor(p: Platform, w: World, kind: WakeKind): WakeRequest {
    WakeRequest(
      kind, w.rec.config.taskId, w.rec.config.contractHash,
      ArtifactRef(p, w.files, Control(FrozenTask)),
      if w.rec.lastResult.Some? then ArtifactRef(p, w.files, w.rec.lastResult.value) else None,
      if ForReview(kind) then ArtifactRef(p, w.files, Control(ProjectionFile)) else None,
      if ForReview(kind) then ArtifactRef(p, w.files, Control(CapsuleFile)) else None,
      if ForReview(kind) then ProjectedDiff(p, w.files) else None)
  }

  function EmitWake(p: Platform, w: World, kind: WakeKind): World {
    Note(Write(p, w, Control(WakeRequestFile), WakeDoc(WakeFor(p, w, kind))), Emitted(kind))
  }

  // ----- Validating ---------------------------------------------------------------------------------------

  /** `validate_artifact_reference` */
  predicate RefHolds(p: Platform, files: Files, ref: Option<Ref>) {
    && ref.Some? && ref.value.path in files
    && ref.value.sha == p.sha(files[ref.value.path]) && ref.value.bytes == |files[ref.value.path]|
  }

  /** What `validate_review_request` demands of a projection that a valid request names. */
  predicate ProjectionFits(p: Platform, files: Files, config: Config, projection: Projection, diff: Path)
    requires diff in files
  {
    && projection.taskId == config.taskId && projection.contractHash == config.contractHash
    && projection.baseSha == config.baseSha
    && RefHolds(p, files, projection.diff) && projection.diff.value.path == diff
    && RefHolds(p, files, projection.contract)
    && ProjectionCovers(projection, |files[diff]|)
  }

  predicate RequestOk(p: Platform, files: Files, config: Config, request: WakeRequest) {
    && request.taskId == config.taskId && request.contractHash == config.contractHash
    && RefHolds(p, files, request.frozenTask) && p.sha(files[request.frozenTask.value.path]) == config.contractHash
    && RefHolds(p, files, request.executionResult)
    && (ForReview(request.kind) ==>
          && RefHolds(p, files, request.projection) && RefHolds(p, files, request.capsule)
          && RefHolds(p, files, request.diff)
          && match p.load(files[request.projection.value.path])
             case Some(ProjectionDoc(projection)) =>
               ProjectionFits(p, files, config, projection, request.diff.value.path)
             case _ => false)
  }

  /** `validate_review_request`; `false` is the raised error. */
  method ValidateReviewRequest(p: Platform, files: Files, config: Config, request: WakeRequest) returns (ok: bool)
    ensures ok <==> RequestOk(p, files, config, request)
  {
    hide Chain;
    if request.taskId != config.taskId || request.contractHash != config.contractHash { return false; }
    if !RefHolds(p, files, request.frozenTask) { return false; }
    if p.sha(files[request.frozenTask.value.path]) != config.contractHash { return false; }
    if !RefHolds(p, files, request.executionResult) { return false; }
    if !ForReview(request.kind) { return true; }
    if !RefHolds(p, files, request.projection) || !RefHolds(p, files, request.capsule) { return false; }
    if !RefHolds(p, files, request.diff) { return false; }
    match p.load(files[request.projection.value.path]) {
      case Some(ProjectionDoc(projection)) =>
        if projection.taskId != config.taskId || projection.contractHash != config.contractHash { return false; }
        if projection.baseSha != config.baseSha { return false; }
        if !RefHolds(p, files, projection.diff) { return false; }
        if projection.diff.value.path != request.diff.value.path { return false; }
        if !RefHolds(p, files, projection.contract) { return false; }
        ok := ValidateProjectionCoverage(projection, |files[request.diff.value.path]|);
      case _ => return false;
    }
  }

  predicate Holds(files: Files, path: Path, content: Bytes) {
    path in files && files[path] == content
  }

  lemma RefHoldsForContent(p: Platform, before: Files, path: Path, files: Files)
    requires Sound(p) && path in before
    ensures RefHolds(p, files, ArtifactRef(p, before, path)) <==> Holds(files, path, before[path])
  {}

  /**
   * A review request emitted over a fresh projection is accepted later exactly when the frozen task matched the
   * contract and the execution result existed at emission, and the frozen task, the execution result, the
   * projection, the capsule and the projected diff all still have the bytes they had then.
   */
  lemma RequestIsValidWhileArtifactsStand(
    p: Platform, w: World, diff: Path, kind: WakeKind, files: Files)
    requires Sound(p) && ForReview(kind) && BuildProjection(p, w, Some(diff)).Ok?
    ensures var built := BuildProjection(p, w, Some(diff)).value;
            var (frozen, projection, capsule) := (Control(FrozenTask), Control(ProjectionFile), Control(CapsuleFile));
            RequestOk(p, files, w.rec.config, WakeFor(p, built, kind)) <==>
            && frozen in w.files && p.sha(w.files[frozen]) == w.rec.config.contractHash
            && w.rec.lastResult.Some? && w.rec.lastResult.value in built.files
            && Holds(files, frozen, w.files[frozen])
            && Holds(files, w.rec.lastResult.value, built.files[w.rec.lastResult.value])
            && Holds(files, projection, built.files[projection]) && Holds(files, capsule, built.files[capsule])
            && Holds(files, diff, w.files[diff])
  {
    hide Chain;
    var built := BuildProjection(p, w, Some(diff)).value;
    var projection := ProjectionFor(p, w, diff);
    BuiltProjectionCovers(p, w, diff);
    assert built.files[Control(ProjectionFile)] == p.dump(ProjectionDoc(projection));
    assert ProjectedDiff(p, built.files) == ArtifactRef(p, w.files, diff);
    RefHoldsForContent(p, built.files, Control(ProjectionFile), files);
    RefHoldsForContent(p, built.files, Control(CapsuleFile), files);
    RefHoldsForContent(p, w.files, diff, files);
    if Control(FrozenTask) in w.files {
      RefHoldsForContent(p, w.files, Control(FrozenTask), files);
    }
    if w.rec.lastResult.Some? && w.rec.lastResult.value in built.files {
      RefHoldsForContent(p, built.files, w.rec.lastResult.value, files);
    }
  }
}
