/** The candidate scan and the deletion loop of scripts/clean_runtime.py. */
module CleanRuntime {
  import opened Wrappers
  import opened Ordering

  datatype Place = InWorktrees | InRoot | TaskCards

  datatype Candidate = Candidate(place: Place, entry: string, isWorktree: bool)

  /** What the scan reads: directory listings, git's answers and the tasks whose processes may still live. */
  datatype Repo = Repo(
    worktreeNames: set<string>,
    rootNames: set<string>,
    hasTaskCards: bool,
    protectedTasks: set<string>,
    ignored: (Place, string) -> bool,
    tracked: (Place, string) -> bool,
    registered: string -> bool)
  {
    predicate Cleanable(place: Place, entry: string) {
      ignored(place, entry) && !tracked(place, entry)
    }
  }

  /** An entry belongs to a task's bundle: it is the task's worktree or lies beside it as `task.something`. */
  predicate Owns(task: string, entry: string) {
    entry == task || task + "." <= entry
  }

  lemma OwnsTransitive(a: string, b: string, c: string)
    requires Owns(a, b) && Owns(b, c)
    ensures Owns(a, c)
  {
    if a != b && b != c {
      assert a + "." <= b <= b + "." <= c;
    }
  }

  // ----- The scan -----------------------------------------------------------------------------------------------

  /** `os.path.basename` */
  function BaseName(path: string): string
    decreases |path|
  {
    if path == "" then ""
    else if path[|path| - 1] == '/' then ""
    else BaseName(path[..|path| - 1]) + [path[|path| - 1]]
  }

  /** The single task a run is limited to, if any. */
  function FocusOf(taskId: Option<string>): Option<string> {
    if taskId.None? || BaseName(taskId.value) == "" then None else Some(BaseName(taskId.value))
  }

  const RESERVED: set<string> := {".session-store", "archive", "control-archive"}

  predicate Selectable(repo: Repo, focus: Option<string>, entry: string) {
    && entry != ".gitkeep" && entry !in RESERVED
    && (focus.Some? ==> Owns(focus.value, entry))
    && !(exists task | task in repo.protectedTasks :: Owns(task, entry))
  }

  function SelectableIn(repo: Repo, focus: Option<string>): string -> bool {
    entry => Selectable(repo, focus, entry)
  }

  function CleanableIn(repo: Repo, place: Place): string -> bool {
    entry => repo.Cleanable(place, entry)
  }

  const IsTemporary: string -> bool := entry => "tmp-" <= entry

  function WorktreeEntries(repo: Repo, focus: Option<string>): seq<string> {
    Filter(Filter(Sorted(repo.worktreeNames), SelectableIn(repo, focus)), CleanableIn(repo, InWorktrees))
  }

  function RootEntries(repo: Repo): seq<string> {
    Filter(Filter(Sorted(repo.rootNames), IsTemporary), CleanableIn(repo, InRoot))
  }

  function ToCandidates(repo: Repo, place: Place, entries: seq<string>): (r: seq<Candidate>)
    ensures |r| == |entries|
    ensures forall i | 0 <= i < |r| ::
              r[i] == Candidate(place, entries[i], place == InWorktrees && repo.registered(entries[i]))
  {
    seq(|entries|, i requires 0 <= i < |entries| =>
      Candidate(place, entries[i], place == InWorktrees && repo.registered(entries[i])))
  }

  function Candidates(repo: Repo, taskId: Option<string>): seq<Candidate> {
    var focus := FocusOf(taskId);
    ToCandidates(repo, InWorktrees, WorktreeEntries(repo, focus)) + (if focus.Some? then [] else RootCandidates(repo))
  }

  function RootCandidates(repo: Repo): seq<Candidate> {
    ToCandidates(repo, InRoot, RootEntries(repo)) + CardCandidates(repo)
  }

  function CardCandidates(repo: Repo): seq<Candidate> {
    if repo.hasTaskCards && repo.Cleanable(TaskCards, "task-cards")
    then [Candidate(TaskCards, "task-cards", false)]
    else []
  }

  /** One scanned directory: list it sorted, choose names, then keep those git ignores and does not track. */
  method Scan(repo: Repo, place: Place, names: set<string>, chosen: string -> bool) returns (found: seq<Candidate>)
    ensures found == ToCandidates(repo, place, Filter(Filter(Sorted(names), chosen), CleanableIn(repo, place)))
  {
    hide Sorted;
    var listing := Sorted(names);
    var possible: seq<string> := [];
    for i := 0 to |listing|
      invariant possible == Filter(listing[..i], chosen)
    {
      assert listing[..i + 1][..i] == listing[..i];
      if chosen(listing[i]) { possible := possible + [listing[i]]; }
    }
    assert listing[..|listing|] == listing;
    var cleanable := CleanableIn(repo, place);
    found := [];
    for i := 0 to |possible|
      invariant found == ToCandidates(repo, place, Filter(possible[..i], cleanable))
    {
      assert possible[..i + 1][..i] == possible[..i];
      if repo.Cleanable(place, possible[i]) {
        found := found + [Candidate(place, possible[i], place == InWorktrees && repo.registered(possible[i]))];
      }
    }
    assert possible[..|possible|] == possible;
  }

  /** `collect_candidates` */
  method CollectCandidates(repo: Repo, taskId: Option<string>) returns (candidates: seq<Candidate>)
    ensures candidates == Candidates(repo, taskId)
  {
    hide Filter, Sorted, SelectableIn, ToCandidates, FocusOf, Owns;
    var focus := FocusOf(taskId);
    candidates := Scan(repo, InWorktrees, repo.worktreeNames, SelectableIn(repo, focus));
    if focus.Some? { return; }
    var root := Scan(repo, InRoot, repo.rootNames, IsTemporary);
    candidates := candidates + root;
    if repo.hasTaskCards && repo.Cleanable(TaskCards, "task-cards") {
      candidates := candidates + [Candidate(TaskCards, "task-cards", false)];
    }
  }

  // ----- The deletion loop --------------------------------------------------------------------------------------

  /** What the outside world answers at each step: whether the receipt is valid when the run starts and when the
      step is taken, and whether the removal succeeds. */
  datatype World = World(initiallyValid: nat -> bool, validNow: nat -> bool, removes: nat -> bool)

  datatype Step = Removed | BundleBlocked | ReceiptChanged | WorktreeKept | RemovalFailed

  /** The tasks whose worktree has no valid receipt at the start. */
  function BlockedTasks(cs: seq<Candidate>, w: World): set<string> {
    set i | 0 <= i < |cs| && cs[i].isWorktree && !w.initiallyValid(i) :: cs[i].entry
  }

  /** What happens to candidate `n` once the tasks in `held` are held back. */
  function StepWith(cs: seq<Candidate>, w: World, n: nat, held: set<string>): Step
    requires n < |cs|
  {
    if exists task | task in held :: Owns(task, cs[n].entry) then BundleBlocked
    else if cs[n].isWorktree then
      if !w.validNow(n) then ReceiptChanged else if w.removes(n) then Removed else WorktreeKept
    else if w.removes(n) then Removed
    else RemovalFailed
  }

  predicate FailsTask(step: Step) {
    step == ReceiptChanged || step == WorktreeKept
  }

  /** `failed_tasks` after the first `n` candidates. */
  function FailedTasks(cs: seq<Candidate>, w: World, n: nat): set<string>
    requires n <= |cs|
  {
    if n == 0 then {}
    else
      var before := FailedTasks(cs, w, n - 1);
      if FailsTask(StepWith(cs, w, n - 1, BlockedTasks(cs, w) + before)) then before + {cs[n - 1].entry} else before
  }

  function StepAt(cs: seq<Candidate>, w: World, n: nat): Step
    requires n < |cs|
  {
    StepWith(cs, w, n, BlockedTasks(cs, w) + FailedTasks(cs, w, n))
  }

  /** The `--apply` loop. */
  method Apply(cs: seq<Candidate>, w: World) returns (steps: seq<Step>)
    ensures |steps| == |cs| && forall i | 0 <= i < |cs| :: steps[i] == StepAt(cs, w, i)
  {
    hide Owns;
    var blocked := BlockedTasks(cs, w);
    var failed: set<string> := {};
    steps := [];
    for n := 0 to |cs|
      invariant failed == FailedTasks(cs, w, n)
      invariant |steps| == n && forall i | 0 <= i < n :: steps[i] == StepAt(cs, w, i)
    {
      var step := RemovalFailed;
      if exists task | task in blocked + failed :: Owns(task, cs[n].entry) {
        step := BundleBlocked;
      } else if cs[n].isWorktree {
        if !w.validNow(n) {
          failed := failed + {cs[n].entry};
          step := ReceiptChanged;
        } else if w.removes(n) {
          step := Removed;
        } else {
          failed := failed + {cs[n].entry};
          step := WorktreeKept;
        }
      } else if w.removes(n) {
        step := Removed;
      }
      steps := steps + [step];
    }
  }

  // ----- What the loop guarantees -------------------------------------------------------------------------------

  lemma {:induction false} FailedTasksGrow(cs: seq<Candidate>, w: World, m: nat, n: nat)
    requires m <= n <= |cs|
    ensures FailedTasks(cs, w, m) <= FailedTasks(cs, w, n)
  {
    hide StepWith, FailsTask, BlockedTasks;
    if m < n { FailedTasksGrow(cs, w, m, n - 1); }
  }

  /** The candidate lies in the bundle of a worktree without a valid receipt at the start, or of one that was kept
      before. */
  ghost predicate HeldBack(cs: seq<Candidate>, w: World, j: nat)
    requires j < |cs|
  {
    exists i | 0 <= i < |cs| ::
      && cs[i].isWorktree && (cs[j].entry == cs[i].entry || cs[i].entry + "." <= cs[j].entry)
      && (!w.initiallyValid(i) || (i < j && StepAt(cs, w, i) in {ReceiptChanged, WorktreeKept}))
  }

  lemma {:induction false} FailedExactly(cs: seq<Candidate>, w: World, n: nat, task: string)
    requires n <= |cs|
    ensures task in FailedTasks(cs, w, n) <==>
            exists i | 0 <= i < n :: cs[i].entry == task && StepAt(cs, w, i) in {ReceiptChanged, WorktreeKept}
  {
    hide StepWith;
    if n > 0 { FailedExactly(cs, w, n - 1, task); }
  }

  lemma FailedIsWorktree(cs: seq<Candidate>, w: World, i: nat)
    requires i < |cs| && StepAt(cs, w, i) in {ReceiptChanged, WorktreeKept}
    ensures cs[i].isWorktree
  {}

  lemma HeldIsHeldBack(cs: seq<Candidate>, w: World, j: nat)
    requires j < |cs|
    ensures HeldBack(cs, w, j) <==>
            exists task | task in BlockedTasks(cs, w) + FailedTasks(cs, w, j) :: Owns(task, cs[j].entry)
  {
    forall task
      ensures task in FailedTasks(cs, w, j) <==>
              exists i | 0 <= i < j :: cs[i].entry == task && StepAt(cs, w, i) in {ReceiptChanged, WorktreeKept}
    {
      FailedExactly(cs, w, j, task);
    }
    forall i | 0 <= i < |cs| && StepAt(cs, w, i) in {ReceiptChanged, WorktreeKept} ensures cs[i].isWorktree {
      FailedIsWorktree(cs, w, i);
    }
    hide StepAt, FailedTasks;
    if HeldBack(cs, w, j) {
      var i :| 0 <= i < |cs| && cs[i].isWorktree && (cs[j].entry == cs[i].entry || cs[i].entry + "." <= cs[j].entry)
               && (!w.initiallyValid(i) || (i < j && StepAt(cs, w, i) in {ReceiptChanged, WorktreeKept}));
      assert cs[i].entry in BlockedTasks(cs, w) + FailedTasks(cs, w, j) && Owns(cs[i].entry, cs[j].entry);
    }
  }

  /** What happens to each candidate: it is held back, or it is removed, kept or failed as the world answers. */
  lemma StepExactly(cs: seq<Candidate>, w: World, j: nat)
    requires j < |cs|
    ensures var (step, held, worktree) := (StepAt(cs, w, j), HeldBack(cs, w, j), cs[j].isWorktree);
            && (step == BundleBlocked <==> held)
            && (step == ReceiptChanged <==> !held && worktree && !w.validNow(j))
            && (step == WorktreeKept <==> !held && worktree && w.validNow(j) && !w.removes(j))
            && (step == RemovalFailed <==> !held && !worktree && !w.removes(j))
            && (step == Removed <==> !held && (worktree ==> w.validNow(j)) && w.removes(j))
  {
    HeldIsHeldBack(cs, w, j);
    hide HeldBack, BlockedTasks, FailedTasks, Owns;
  }

  /** Once a worktree stays, everything after it in its bundle stays. */
  lemma KeptWorktreeKeepsBundle(cs: seq<Candidate>, w: World, i: nat, j: nat)
    requires i < j < |cs| && cs[i].isWorktree && Owns(cs[i].entry, cs[j].entry)
    requires StepAt(cs, w, i) != Removed
    ensures StepAt(cs, w, j) == BundleBlocked
  {
    FailedTasksGrow(cs, w, i, j);
    FailedTasksGrow(cs, w, i + 1, j);
    var held := BlockedTasks(cs, w) + FailedTasks(cs, w, i);
    hide BlockedTasks, Owns;
    if StepAt(cs, w, i) == BundleBlocked {
      var task :| task in held && Owns(task, cs[i].entry);
      OwnsTransitive(task, cs[i].entry, cs[j].entry);
    }
  }

  /** A worktree goes only under a receipt that was valid at the start and is valid when its turn comes. */
  lemma RemovedUnderReceipt(cs: seq<Candidate>, w: World, i: nat)
    requires i < |cs| && cs[i].isWorktree && StepAt(cs, w, i) == Removed
    ensures w.initiallyValid(i) && w.validNow(i) && w.removes(i)
  {
    if !w.initiallyValid(i) {
      assert cs[i].entry in BlockedTasks(cs, w);
      assert Owns(cs[i].entry, cs[i].entry);
    }
  }

  ghost predicate RemovedAfterOwner(cs: seq<Candidate>, w: World, i: nat, j: nat)
    requires i < |cs| && j < |cs|
  {
    StepAt(cs, w, j) == Removed ==> i < j && StepAt(cs, w, i) == Removed && w.initiallyValid(i) && w.validNow(i)
  }

  /** Whatever the world answers, another candidate of a bundle goes only after the bundle's worktree went under a
      valid receipt, exactly when the scan lists the worktree first. */
  lemma BundleSafetyIsScanOrder(cs: seq<Candidate>, i: nat, j: nat)
    requires i < |cs| && j < |cs| && i != j && cs[i].isWorktree && Owns(cs[i].entry, cs[j].entry)
    ensures (forall w :: RemovedAfterOwner(cs, w, i, j)) <==> i < j
  {
    if i < j {
      forall w ensures RemovedAfterOwner(cs, w, i, j) {
        if StepAt(cs, w, i) != Removed {
          KeptWorktreeKeepsBundle(cs, w, i, j);
        } else {
          RemovedUnderReceipt(cs, w, i);
        }
      }
    } else {
      var w := World(_ => true, _ => true, _ => true);
      NothingHeldBack(cs, w, j);
      assert StepAt(cs, w, j) == Removed;
      assert !RemovedAfterOwner(cs, w, i, j);
    }
  }

  lemma {:induction false} NothingHeldBack(cs: seq<Candidate>, w: World, n: nat)
    requires n <= |cs| && forall k: nat :: w.initiallyValid(k) && w.validNow(k) && w.removes(k)
    ensures BlockedTasks(cs, w) + FailedTasks(cs, w, n) == {}
  {
    if n > 0 { NothingHeldBack(cs, w, n - 1); }
  }

  // ----- The scan order -----------------------------------------------------------------------------------------

  lemma WorktreeEntriesAscend(repo: Repo, focus: Option<string>)
    ensures Ascending(WorktreeEntries(repo, focus)) && Unique(WorktreeEntries(repo, focus))
    ensures forall e :: e in WorktreeEntries(repo, focus) <==>
                          e in repo.worktreeNames && Selectable(repo, focus, e) && repo.Cleanable(InWorktrees, e)
  {
    hide Leq, Sorted, Filter, Selectable;
    var listing := Sorted(repo.worktreeNames);
    SortedAscends(repo.worktreeNames);
    FilterSorted(listing, SelectableIn(repo, focus));
    FilterSorted(Filter(listing, SelectableIn(repo, focus)), CleanableIn(repo, InWorktrees));
  }

  /** In an ascending listing a task comes before everything in its bundle. */
  lemma OwnerComesFirst(entries: seq<string>, i: nat, j: nat)
    requires Ascending(entries) && Unique(entries)
    requires i < |entries| && j < |entries| && i != j && Owns(entries[i], entries[j])
    ensures i < j
  {
    hide Leq;
    if j < i {
      assert entries[i] <= entries[j];
      LeqPrefix(entries[i], entries[j]);
      LeqAntisymmetric(entries[i], entries[j]);
      assert false;
    }
  }

  /** The scan lists every worktree before the rest of its bundle, wherever that lies. */
  lemma ScanListsOwnerFirst(repo: Repo, taskId: Option<string>, i: nat, j: nat)
    requires i < |Candidates(repo, taskId)| && j < |Candidates(repo, taskId)| && i != j
    requires Candidates(repo, taskId)[i].isWorktree
    requires Owns(Candidates(repo, taskId)[i].entry, Candidates(repo, taskId)[j].entry)
    ensures i < j
  {
    var entries := WorktreeEntries(repo, FocusOf(taskId));
    WorktreeEntriesAscend(repo, FocusOf(taskId));
    hide WorktreeEntries, RootEntries, FocusOf, Ascending, Unique, Owns;
    assert i < |entries|;
    if j < |entries| {
      OwnerComesFirst(entries, i, j);
    }
  }

  /** In every run over every repository, an entry of a worktree's bundle goes only after that worktree went, under
      a receipt valid at that moment; this includes dotted names nested below another task of the bundle. */
  lemma BundleGoesWithItsWorktree(repo: Repo, taskId: Option<string>, w: World, i: nat, j: nat)
    requires i < |Candidates(repo, taskId)| && j < |Candidates(repo, taskId)| && i != j
    requires Candidates(repo, taskId)[i].isWorktree
    requires Owns(Candidates(repo, taskId)[i].entry, Candidates(repo, taskId)[j].entry)
    ensures RemovedAfterOwner(Candidates(repo, taskId), w, i, j)
  {
    ScanListsOwnerFirst(repo, taskId, i, j);
    hide Candidates, Owns, RemovedAfterOwner;
    BundleSafetyIsScanOrder(Candidates(repo, taskId), i, j);
  }

  /** The candidates below .worktrees come first, then those in the root, then the cards, each in sorted order. */
  lemma OfferedInOrder(repo: Repo, taskId: Option<string>, i: nat, j: nat)
    requires i < j < |Candidates(repo, taskId)|
    ensures var (a, b) := (Candidates(repo, taskId)[i], Candidates(repo, taskId)[j]);
            && (b.place == InWorktrees ==> a.place == InWorktrees) && a.place != TaskCards
            && (a.place == b.place ==> Leq(a.entry, b.entry) && a.entry != b.entry)
  {
    var focus := FocusOf(taskId);
    var (entries, root) := (WorktreeEntries(repo, focus), RootEntries(repo));
    WorktreeEntriesAscend(repo, focus);
    RootEntriesAscend(repo);
    hide WorktreeEntries, RootEntries, FocusOf, Leq;
    var (m, n) := (|entries|, |entries| + |root|);
    if j < m {
      assert Candidates(repo, taskId)[i].entry == entries[i] && Candidates(repo, taskId)[j].entry == entries[j];
    } else if m <= i && j < n {
      assert Candidates(repo, taskId)[i].entry == root[i - m] && Candidates(repo, taskId)[j].entry == root[j - m];
    }
  }

  lemma RootEntriesAscend(repo: Repo)
    ensures Ascending(RootEntries(repo)) && Unique(RootEntries(repo))
  {
    hide Leq, Sorted, Filter;
    SortedAscends(repo.rootNames);
    FilterSorted(Sorted(repo.rootNames), IsTemporary);
    FilterSorted(Filter(Sorted(repo.rootNames), IsTemporary), CleanableIn(repo, InRoot));
  }

  /** A run is limited to a task exactly when it is given a name with something after its last slash. */
  lemma FocusExactly(taskId: Option<string>, task: string)
    ensures FocusOf(taskId) == Some(task) <==>
            && taskId.Some? && task != "" && '/' !in task && |task| <= |taskId.value|
            && var front := taskId.value[..|taskId.value| - |task|];
               taskId.value == front + task && (front == "" || front[|front| - 1] == '/')
  {
    if taskId.Some? { BaseNameExactly(taskId.value, task); }
    hide BaseName;
  }

  lemma BaseNameExactly(path: string, name: string)
    ensures BaseName(path) == name <==>
            && '/' !in name && |name| <= |path|
            && var front := path[..|path| - |name|];
               path == front + name && (front == "" || front[|front| - 1] == '/')
  {
    BaseNameIs(path);
    hide BaseName;
    if '/' !in name && |name| <= |path| {
      var front := path[..|path| - |name|];
      if path == front + name && (front == "" || front[|front| - 1] == '/') {
        LastComponent(path, BaseName(path), name);
      }
    }
  }

  lemma {:induction false} BaseNameIs(path: string)
    ensures var (name, k) := (BaseName(path), |path| - |BaseName(path)|);
            && '/' !in name && k >= 0 && path == path[..k] + name && (k == 0 || path[k - 1] == '/')
  {
    if path != "" && path[|path| - 1] != '/' {
      BaseNameIs(path[..|path| - 1]);
      assert path == path[..|path| - 1] + [path[|path| - 1]];
    }
  }

  lemma LastComponent(path: string, a: string, b: string)
    requires '/' !in a && '/' !in b && |a| <= |path| && |b| <= |path|
    requires path == path[..|path| - |a|] + a && (|a| == |path| || path[|path| - |a| - 1] == '/')
    requires path == path[..|path| - |b|] + b && (|b| == |path| || path[|path| - |b| - 1] == '/')
    ensures a == b
  {
    assert forall k | 0 <= k < |a| :: path[|path| - |a| + k] == a[k];
    assert forall k | 0 <= k < |b| :: b[k] == path[|path| - |b| + k];
  }

  // ----- What the scan never offers -----------------------------------------------------------------------------

  ghost predicate OnlyBundle(cs: seq<Candidate>, task: string) {
    forall i | 0 <= i < |cs| :: cs[i].place == InWorktrees && Owns(task, cs[i].entry)
  }

  /** What may be deleted: always something git ignores and does not track; below .worktrees nothing reserved, no
      bundle of a live task and, in a focused run, only the focused bundle; elsewhere only in an unfocused run. */
  ghost predicate Deletable(repo: Repo, focus: Option<string>, c: Candidate) {
    && repo.Cleanable(c.place, c.entry)
    && c.isWorktree == (c.place == InWorktrees && repo.registered(c.entry))
    && match c.place
       case InWorktrees =>
         && c.entry in repo.worktreeNames && c.entry !in RESERVED && c.entry != ".gitkeep"
         && (forall task | task in repo.protectedTasks :: !Owns(task, c.entry))
         && (focus.Some? ==> Owns(focus.value, c.entry))
       case InRoot => focus.None? && c.entry in repo.rootNames && "tmp-" <= c.entry
       case TaskCards => focus.None? && repo.hasTaskCards && c.entry == "task-cards"
  }

  /** The scan offers exactly what may be deleted. */
  lemma OfferedExactlyDeletable(repo: Repo, taskId: Option<string>, c: Candidate)
    ensures c in Candidates(repo, taskId) <==> Deletable(repo, FocusOf(taskId), c)
  {
    var focus := FocusOf(taskId);
    var entries, root, cards := WorktreeEntries(repo, focus), RootEntries(repo), CardCandidates(repo);
    WorktreeEntriesAscend(repo, focus);
    RootEntriesAreCleanable(repo);
    var below, beside := ToCandidates(repo, InWorktrees, entries), ToCandidates(repo, InRoot, root);
    ListedAs(repo, InWorktrees, entries, c);
    ListedAs(repo, InRoot, root, c);
    assert c in Candidates(repo, taskId) <==> c in below || (focus.None? && (c in beside || c in cards)) by {
      hide *;
      CandidateParts(repo, taskId, c);
    }
    hide Candidates, ToCandidates, WorktreeEntries, RootEntries, FocusOf, Owns, Ascending, Unique, RESERVED;
  }

  lemma CandidateParts(repo: Repo, taskId: Option<string>, c: Candidate)
    ensures c in Candidates(repo, taskId) <==>
              || c in ToCandidates(repo, InWorktrees, WorktreeEntries(repo, FocusOf(taskId)))
              || (FocusOf(taskId).None?
                  && (c in ToCandidates(repo, InRoot, RootEntries(repo)) || c in CardCandidates(repo)))
  {
    hide ToCandidates, WorktreeEntries, RootEntries, FocusOf, CardCandidates;
  }

  lemma ListedAs(repo: Repo, place: Place, entries: seq<string>, c: Candidate)
    ensures c in ToCandidates(repo, place, entries) <==>
              c.entry in entries && c.place == place
                  && c.isWorktree == (place == InWorktrees && repo.registered(c.entry))
  {
    var listed := ToCandidates(repo, place, entries);
    if c.entry in entries {
      var i :| 0 <= i < |entries| && entries[i] == c.entry;
      assert listed[i].entry == c.entry;
    }
    hide ToCandidates;
  }

  lemma RootEntriesAreCleanable(repo: Repo)
    ensures forall e :: e in RootEntries(repo) <==>
                          e in repo.rootNames && IsTemporary(e) && repo.Cleanable(InRoot, e)
  {
    hide Leq, Sorted, Filter;
    SortedAscends(repo.rootNames);
    FilterSorted(Sorted(repo.rootNames), IsTemporary);
    FilterSorted(Filter(Sorted(repo.rootNames), IsTemporary), CleanableIn(repo, InRoot));
  }

  /** A run limited to a task offers only that task's bundle, in every repository, exactly when the given name does
      not end in a slash: with one, its base name is empty and the whole runtime area is offered. */
  lemma FocusIsKept(taskId: string)
    requires taskId != ""
    ensures (forall repo :: OnlyBundle(Candidates(repo, Some(taskId)), BaseName(taskId))) <==>
        taskId[|taskId| - 1] != '/'
  {
    hide Candidates, OnlyBundle;
    if taskId[|taskId| - 1] != '/' {
      assert BaseName(taskId) != "";
      forall repo ensures OnlyBundle(Candidates(repo, Some(taskId)), BaseName(taskId)) {
        FocusedOffersBundle(repo, BaseName(taskId), Some(taskId));
      }
    } else {
      var repo := Repo({}, {}, true, {}, (_, _) => true, (_, _) => false, _ => false);
      UnfocusedOffersCards(repo, Some(taskId), BaseName(taskId));
    }
  }

  /** Asked to clean the task `t` by the name `t/`, a run over some repository offers more than that task. */
  lemma SlashWidensTheRun()
    ensures exists repo :: !OnlyBundle(Candidates(repo, Some("t/")), "t")
  {
    hide Candidates, OnlyBundle;
    var repo := Repo({}, {}, true, {}, (_, _) => true, (_, _) => false, _ => false);
    UnfocusedOffersCards(repo, Some("t/"), "t");
  }

  lemma UnfocusedOffersCards(repo: Repo, taskId: Option<string>, task: string)
    requires FocusOf(taskId) == None && repo.hasTaskCards && repo.Cleanable(TaskCards, "task-cards")
    ensures !OnlyBundle(Candidates(repo, taskId), task)
  {
    hide WorktreeEntries, RootEntries, Owns;
    var cs := Candidates(repo, taskId);
    assert CardCandidates(repo)[0].place == TaskCards;
    assert cs[|cs| - 1] == CardCandidates(repo)[0];
  }

  lemma FocusedOffersBundle(repo: Repo, task: string, taskId: Option<string>)
    requires FocusOf(taskId) == Some(task)
    ensures OnlyBundle(Candidates(repo, taskId), task)
  {
    var entries := WorktreeEntries(repo, Some(task));
    WorktreeEntriesAscend(repo, Some(task));
    hide WorktreeEntries, FocusOf, Owns, Ascending, Unique;
    forall i | 0 <= i < |entries| ensures Owns(task, entries[i]) {
      assert entries[i] in entries;
    }
  }
}
