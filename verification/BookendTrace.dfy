/** What a trace of supervisor effects counts and promises, and the elementary steps that extend it. */
module BookendTrace {
  import opened Wrappers
  import opened Bookend

  // ----- Counting ---------------------------------------------------------------------------------------

  function Runs(t: Trace): nat {
    match t
    case Start => 0
    case Then(prior, e) => Runs(prior) + if e.Ran? then 1 else 0
  }

  /** Wake requests emitted for Codex. */
  function Wakes(t: Trace): nat {
    match t
    case Start => 0
    case Then(prior, e) => Wakes(prior) + if e.Emitted? then 1 else 0
  }

  function CheckpointWakes(t: Trace): nat {
    match t
    case Start => 0
    case Then(prior, e) => CheckpointWakes(prior) + if e.Emitted? && e.kind.CheckpointReview? then 1 else 0
  }

  // ----- Looking back -----------------------------------------------------------------------------------

  function LastRecord(t: Trace): Option<Record> {
    match t
    case Start => None
    case Then(prior, e) => if e.Persisted? then Some(e.rec) else LastRecord(prior)
  }

  /** The latest execution of an epoch. */
  function LastRan(t: Trace): Option<(int, EpochInput)> {
    match t
    case Start => None
    case Then(prior, e) => if e.Ran? then Some((e.epoch, e.input)) else LastRan(prior)
  }

  /** The verdict read since the latest execution. */
  function LastVerdict(t: Trace): Option<Verdict> {
    match t
    case Start => None
    case Then(prior, e) =>
      if e.Ran? then None else if e.VerdictRead? then Some(e.verdict) else LastVerdict(prior)
  }

  /** The review projection written since the latest execution. */
  function LastProjection(t: Trace): Option<Projection> {
    match t
    case Start => None
    case Then(prior, e) =>
      if e.Ran? then None
      else if e.Wrote? && e.doc.ProjectionDoc? then Some(e.doc.projection)
      else LastProjection(prior)
  }

  /** The convergence receipt written since the latest execution, with the path it was written to. */
  function LastCertificate(t: Trace): Option<(Path, ConvergenceReceipt)> {
    match t
    case Start => None
    case Then(prior, e) =>
      if e.Ran? then None
      else if e.Wrote? && e.doc.ConvergenceDoc? then Some((e.path, e.doc.convergence))
      else LastCertificate(prior)
  }

  /** Whether an effect opens an epoch. */
  predicate Opens(e: Effect) {
    e.Persisted? && e.rec.phase.Converging?
  }

  /** The trace up to and including the opening of the latest epoch. */
  function LastOpening(t: Trace): (r: Trace)
    ensures r.Start? || Opens(r.last)
    ensures Length(r) <= Length(t)
  {
    match t
    case Start => Start
    case Then(prior, e) => if Opens(e) then t else LastOpening(prior)
  }

  function Length(t: Trace): nat {
    match t
    case Start => 0
    case Then(prior, _) => Length(prior) + 1
  }

  // ----- Discipline -------------------------------------------------------------------------------------

  /**
   * A persisted record is coherent: its flags follow its phase, a write grant is outstanding exactly while
   * converging and then names the current epoch, and the owner lease is released exactly on acceptance.
   */
  predicate Coherent(rec: Record) {
    && rec.terminal == IsTerminal(rec.phase) && rec.wakeRequired == WakesCodex(rec.phase)
    && (rec.grant.Issued? <==> rec.phase.Converging?)
    && (rec.grant.Issued? ==> rec.grant.epoch == rec.epoch)
    && (rec.lease.Released? <==> rec.phase.ReviewReady?)
  }

  /**
   * What may follow a record: nothing after a terminal one; an epoch runs only under its own grant; wake
   * requests go out and verdicts are read only while no grant is outstanding.
   */
  predicate Allowed(last: Option<Record>, e: Effect) {
    && (last.Some? ==> !last.value.terminal)
    && match e
       case Persisted(rec) => Coherent(rec) && (last.Some? ==> rec.config == last.value.config)
       case Ran(epoch, _) => last.Some? && last.value.grant == Issued(epoch)
       case Emitted(_) => last.Some? && !last.value.grant.Issued?
       case VerdictRead(_) => last.Some? && !last.value.grant.Issued? && WakesCodex(last.value.phase)
       case VerdictTimeout => last.Some? && !last.value.grant.Issued? && WakesCodex(last.value.phase)
       case Wrote(_, _) => true
  }

  predicate Disciplined(t: Trace) {
    match t
    case Start => true
    case Then(prior, e) => Disciplined(prior) && Allowed(LastRecord(prior), e)
  }

  // ----- Steps ------------------------------------------------------------------------------------------

  /** Appends one effect; the postconditions unfold each reading of the trace by one step. */
  function Log(t: Trace, e: Effect): (r: Trace)
    ensures r == Then(t, e)
    ensures Runs(r) == Runs(t) + (if e.Ran? then 1 else 0)
    ensures Wakes(r) == Wakes(t) + (if e.Emitted? then 1 else 0)
    ensures CheckpointWakes(r) == CheckpointWakes(t) + (if e.Emitted? && e.kind.CheckpointReview? then 1 else 0)
    ensures LastRecord(r) == if e.Persisted? then Some(e.rec) else LastRecord(t)
    ensures LastRan(r) == if e.Ran? then Some((e.epoch, e.input)) else LastRan(t)
    ensures LastVerdict(r) == if e.Ran? then None else if e.VerdictRead? then Some(e.verdict) else LastVerdict(t)
    ensures LastProjection(r) == if e.Ran? then None
                                 else if e.Wrote? && e.doc.ProjectionDoc? then Some(e.doc.projection)
                                 else LastProjection(t)
    ensures LastCertificate(r) == if e.Ran? then None
                                  else if e.Wrote? && e.doc.ConvergenceDoc? then Some((e.path, e.doc.convergence))
                                  else LastCertificate(t)
    ensures LastOpening(r) == if Opens(e) then r else LastOpening(t)
    ensures Disciplined(r) == (Disciplined(t) && Allowed(LastRecord(t), e))
  {
    Then(t, e)
  }

  /** `update_state`: the flags follow from the new phase, and the whole record is persisted. */
  function Update(w: World, rec: Record, phase: Phase): World {
    var next := rec.(phase := phase, terminal := IsTerminal(phase), wakeRequired := WakesCodex(phase));
    World(next, w.files, Log(w.trace, Persisted(next)))
  }

  /** `atomic_json` */
  function Write(p: Platform, w: World, path: Path, doc: Document): World {
    World(w.rec, w.files[path := p.dump(doc)], Log(w.trace, Wrote(path, doc)))
  }

  function Note(w: World, e: Effect): World {
    World(w.rec, w.files, Log(w.trace, e))
  }
}
