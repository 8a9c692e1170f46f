/** The scope contract and the path partition of scripts/build-scoped-handoff.py. */
module ScopedHandoff {
  import opened Wrappers
  import opened Strings
  import opened Ordering
  import opened HandoffPaths
  import opened HandoffChanges

  // ----- The scope contract -------------------------------------------------------------------------------------

  /** `DEFAULT_CONTROL_PATHS` */
  const DEFAULT_CONTROLS: set<string> := {
    "ADVISOR_REQUEST.json", "CLAUDE_PROMPT.md", "CLAUDE_PROGRESS.md", "CLAUDE_REPORT.md", "CLAUDE_TASK_CARD.md",
    "TASK_CARD.md", "TASK_CARD_FULL.md", "advisor-decision.json", "advisor-packet.json", "advisor-packet.md",
    "solution-contract.draft.json", "truncation-manifest.json"
  }

  datatype Binding = Binding(isDirectory: bool, relativePath: string)

  /** What the write-scope receipt and the command line declare. */
  datatype Scope = Scope(explicit: seq<string>, writePaths: seq<string>, controlPaths: seq<string>,
                         bindings: seq<Binding>)
  {
    function Declared(): seq<string> { explicit + writePaths }

    predicate WellFormed() {
      && Declared() != []
      && AllSafe(Declared())
      && AllSafe(controlPaths)
      && forall i | 0 <= i < |bindings| && bindings[i].isDirectory :: SafeRelative(bindings[i].relativePath).Some?
    }
  }

  datatype Contract = Contract(allowed: seq<string>, directories: set<string>, controls: set<string>)

  predicate AllSafe(paths: seq<string>) {
    forall i | 0 <= i < |paths| :: SafeRelative(paths[i]).Some?
  }

  /** A declared path written with a trailing slash. */
  predicate NamesDirectory(raw: string) {
    EndsWith(Strip(ReplaceChar(raw, '\\', '/')), "/")
  }

  ghost predicate IsAllowedFor(scope: Scope, path: string) {
    exists i | 0 <= i < |scope.Declared()| :: SafeRelative(scope.Declared()[i]) == Some(path)
  }

  /** The paths below which everything is allowed, provided the path itself is allowed. */
  ghost predicate IsDirectoryFor(scope: Scope, isDir: string -> bool, path: string) {
    || (exists i | 0 <= i < |scope.bindings| ::
          scope.bindings[i].isDirectory && SafeRelative(scope.bindings[i].relativePath) == Some(path))
    || (exists i | 0 <= i < |scope.Declared()| ::
          && SafeRelative(scope.Declared()[i]) == Some(path)
          && (NamesDirectory(scope.Declared()[i]) || isDir(path)))
  }

  ghost predicate IsControlFor(scope: Scope, path: string) {
    path in DEFAULT_CONTROLS || exists i | 0 <= i < |scope.controlPaths| ::
        SafeRelative(scope.controlPaths[i]) == Some(path)
  }

  /** The control paths: the default ones and the normalised declared ones. */
  method Controls(paths: seq<string>) returns (result: Option<set<string>>)
    ensures result.Some? <==> AllSafe(paths)
    ensures result.Some? ==>
              forall path :: path in result.value <==>
                path in DEFAULT_CONTROLS || exists k | 0 <= k < |paths| :: SafeRelative(paths[k]) == Some(path)
  {
    hide SafeRelative, DEFAULT_CONTROLS;
    var controls := DEFAULT_CONTROLS;
    for i := 0 to |paths|
      invariant forall k | 0 <= k < i :: SafeRelative(paths[k]).Some?
      invariant forall path :: path in controls <==>
                  path in DEFAULT_CONTROLS || exists k | 0 <= k < i :: SafeRelative(paths[k]) == Some(path)
    {
      var safe := SafeRelative(paths[i]);
      if safe.None? { return None; }
      controls := controls + {safe.value};
    }
    result := Some(controls);
  }

  /** The directories the receipt binds. */
  method BoundDirectories(bindings: seq<Binding>) returns (result: Option<set<string>>)
    ensures result.Some? <==>
              forall k | 0 <= k < |bindings| && bindings[k].isDirectory :: SafeRelative(bindings[k].relativePath).Some?
    ensures result.Some? ==>
              forall path :: path in result.value <==>
                exists k | 0 <= k < |bindings| ::
                  bindings[k].isDirectory && SafeRelative(bindings[k].relativePath) == Some(path)
  {
    hide SafeRelative;
    var directories: set<string> := {};
    for i := 0 to |bindings|
      invariant forall k | 0 <= k < i && bindings[k].isDirectory :: SafeRelative(bindings[k].relativePath).Some?
      invariant forall path :: path in directories <==>
                  exists k | 0 <= k < i ::
                    bindings[k].isDirectory && SafeRelative(bindings[k].relativePath) == Some(path)
    {
      if bindings[i].isDirectory {
        var safe := SafeRelative(bindings[i].relativePath);
        if safe.None? { return None; }
        directories := directories + {safe.value};
      }
    }
    result := Some(directories);
  }

  /** `allowed_contract`; `isDir` answers for the worktree and `None` is the raised error. */
  method AllowedContract(scope: Scope, isDir: string -> bool) returns (result: Option<Contract>)
    ensures result.Some? <==> scope.WellFormed()
    ensures result.Some? ==>
              var c := result.value;
              && Unique(c.allowed) && c.allowed != []
              && (forall path :: path in c.allowed <==> IsAllowedFor(scope, path))
              && (forall path :: path in c.directories <==> IsDirectoryFor(scope, isDir, path))
              && (forall path :: path in c.controls <==> IsControlFor(scope, path))
  {
    hide SafeRelative, NamesDirectory, DEFAULT_CONTROLS;
    var declared := scope.Declared();
    var controls := Controls(scope.controlPaths);
    if controls.None? { return None; }
    var bound := BoundDirectories(scope.bindings);
    if bound.None? { return None; }
    var directories := bound.value;
    var allowed: seq<string> := [];
    for i := 0 to |declared|
      invariant forall k | 0 <= k < i :: SafeRelative(declared[k]).Some?
      invariant Unique(allowed)
      invariant i > 0 ==> allowed != []
      invariant forall path :: path in allowed <==> exists k | 0 <= k < i :: SafeRelative(declared[k]) == Some(path)
      invariant forall path :: path in directories <==>
                  || path in bound.value
                  || exists k | 0 <= k < i ::
                       SafeRelative(declared[k]) == Some(path) && (NamesDirectory(declared[k]) || isDir(path))
    {
      var safe := SafeRelative(declared[i]);
      if safe.None? {
        assert !AllSafe(declared);
        return None;
      }
      if NamesDirectory(declared[i]) || isDir(safe.value) {
        directories := directories + {safe.value};
      }
      if safe.value !in allowed {
        allowed := allowed + [safe.value];
      }
    }
    if allowed == [] { return None; }
    assert allowed[0] in allowed;
    assert AllSafe(declared) && AllSafe(scope.controlPaths);
    result := Some(Contract(allowed, directories, controls.value));
  }

  // ----- Where one path belongs ---------------------------------------------------------------------------------

  predicate Covers(candidate: string, directories: set<string>, path: string) {
    path == candidate || (candidate in directories && StartsWith(path, candidate + "/"))
  }

  /** `matches` */
  predicate Matches(path: string, c: Contract) {
    exists i | 0 <= i < |c.allowed| :: Covers(c.allowed[i], c.directories, path)
  }

  /** `matches` compares whole components: an allowed directory never covers a sibling that shares its spelling. */
  lemma MatchesIsAncestry(path: string, c: Contract)
    ensures Matches(path, c) <==>
              exists i | 0 <= i < |c.allowed| ::
                && Split(c.allowed[i], '/') <= Split(path, '/')
                && (c.allowed[i] in c.directories || c.allowed[i] == path)
  {
    hide Split;
    forall i | 0 <= i < |c.allowed|
      ensures (path == c.allowed[i] || c.allowed[i] + "/" <= path) <==> Split(c.allowed[i], '/') <= Split(path, '/')
    {
      PrefixIsAncestry(c.allowed[i], path, '/');
    }
  }

  /** `is_control_path`: a listed file, or a root-level advisor response. */
  predicate IsControlPath(path: string, controls: set<string>) {
    path in controls || (
      var parts := PartsOf(path);
      |parts| == 1 && StartsWith(parts[0], "advisor-response-") && EndsWith(parts[0], ".json")
    )
  }

  // ----- The partition and the patch ----------------------------------------------------------------------------

  /** The part of the worktree the patch is built from: git's diffs and the untracked files. */
  datatype Worktree = Worktree(diff: seq<string> -> Bytes, newFile: string -> Bytes,
                               isEmptyFile: string -> bool, emptyPatch: string -> Bytes)
  {
    /** The header `empty_file_patch` writes is never empty. */
    ghost predicate Valid() {
      forall path :: emptyPatch(path) != []
    }
  }

  function Chunk(w: Worktree, path: string): Bytes {
    var chunk := w.newFile(path);
    if chunk == [] && w.isEmptyFile(path) then w.emptyPatch(path) else chunk
  }

  function Chunks(w: Worktree, untracked: seq<string>): Bytes {
    if untracked == [] then []
    else Chunks(w, untracked[..|untracked| - 1]) + Chunk(w, untracked[|untracked| - 1])
  }

  function Patch(w: Worktree, tracked: seq<string>, untracked: seq<string>): Bytes {
    (if tracked == [] then [] else w.diff(tracked)) + Chunks(w, untracked)
  }

  /** `build_patch` */
  method BuildPatch(w: Worktree, tracked: seq<string>, untracked: seq<string>) returns (patch: Bytes)
    ensures patch == Patch(w, tracked, untracked)
  {
    patch := [];
    if tracked != [] { patch := w.diff(tracked); }
    for i := 0 to |untracked|
      invariant patch == Patch(w, tracked, untracked[..i])
    {
      var chunk := w.newFile(untracked[i]);
      if chunk == [] && w.isEmptyFile(untracked[i]) {
        chunk := w.emptyPatch(untracked[i]);
      }
      assert untracked[..i + 1][..i] == untracked[..i];
      patch := patch + chunk;
    }
    assert untracked[..|untracked|] == untracked;
  }

  datatype Status = Blocked | InternalError | Ready | Empty

  datatype FileChange = Added | Reported(status: string) | Unknown

  datatype Handoff = Handoff(
    status: Status,
    control: seq<string>,
    unexpected: seq<string>,
    selected: seq<string>,
    tracked: seq<string>,
    untracked: seq<string>,
    patch: Bytes)

  /** Every path the worktree changed: both ends of each tracked change, and the untracked files. */
  function AllPaths(changes: seq<Change>, untracked: set<string>): set<string> {
    (set i | 0 <= i < |changes| :: changes[i].path) + untracked
    + (set i | 0 <= i < |changes| && changes[i].source.Some? :: changes[i].source.value)
  }

  /** The path sets and the outcome of `build`. */
  function Build(c: Contract, changes: seq<Change>, untracked: set<string>, w: Worktree): Handoff {
    var all := AllPaths(changes, untracked);
    var control := Sorted(set p | p in all && IsControlPath(p, c.controls));
    var unexpected := Sorted(set p | p in all && !IsControlPath(p, c.controls) && !Matches(p, c));
    var chosen := set p | p in all && Matches(p, c);
    var new_ := Sorted(untracked * chosen);
    var old_ := Sorted(chosen - untracked * chosen);
    var patch := if unexpected != [] then [] else Patch(w, old_, new_);
    var status :=
      if unexpected != [] then Blocked
      else if chosen != {} && patch == [] then InternalError
      else if patch != [] then Ready
      else Empty;
    Handoff(status, control, unexpected, Sorted(chosen), old_, new_, patch)
  }

  ghost predicate IsChanged(path: string, changes: seq<Change>, untracked: set<string>) {
    || path in untracked
    || exists i | 0 <= i < |changes| :: changes[i].path == path || changes[i].source == Some(path)
  }

  lemma ChangedAreAll(changes: seq<Change>, untracked: set<string>)
    ensures forall path :: path in AllPaths(changes, untracked) <==> IsChanged(path, changes, untracked)
  {
    var ends := set i | 0 <= i < |changes| :: changes[i].path;
    var sources := set i | 0 <= i < |changes| && changes[i].source.Some? :: changes[i].source.value;
    forall i | 0 <= i < |changes|
      ensures changes[i].path in ends && (changes[i].source.Some? ==> changes[i].source.value in sources)
    {
      assert changes[i].path in ends;
      assert changes[i].source.Some? ==> changes[i].source.value in sources;
    }
  }

  /** Every changed path, both ends of a rename included, is a control path, selected or unexpected, and nothing else
      is. Only a control path that was allowed explicitly can be in two lists. */
  lemma EveryChangeIsPlaced(c: Contract, changes: seq<Change>, untracked: set<string>, w: Worktree, path: string)
    ensures var h := Build(c, changes, untracked, w);
            && (IsChanged(path, changes, untracked) <==>
                  path in h.control || path in h.selected || path in h.unexpected)
            && (path in h.unexpected ==> path !in h.control && path !in h.selected)
            && (path in h.control && path in h.selected <==>
                  IsChanged(path, changes, untracked) && IsControlPath(path, c.controls) && Matches(path, c))
  {
    hide IsControlPath, Matches, Patch;
    ChangedAreAll(changes, untracked);
    hide AllPaths, IsChanged;
  }

  /** A ready handoff changed nothing outside scope and control files. */
  lemma ReadyStaysInScope(c: Contract, changes: seq<Change>, untracked: set<string>, w: Worktree)
    requires Build(c, changes, untracked, w).status == Ready
    ensures forall path | IsChanged(path, changes, untracked) :: IsControlPath(path, c.controls) || Matches(path, c)
    ensures Build(c, changes, untracked, w).patch != []
  {
    forall path | IsChanged(path, changes, untracked) ensures IsControlPath(path, c.controls) || Matches(path, c) {
      EveryChangeIsPlaced(c, changes, untracked, w, path);
      hide IsControlPath, Matches, Patch, AllPaths, IsChanged;
      assert Build(c, changes, untracked, w).unexpected == [];
    }
    hide IsControlPath, Matches, Patch, AllPaths, IsChanged;
  }

  // ----- Scope and the paths git wrote --------------------------------------------------------------------------

  /** A change of scope by normalising: every contract that covers the normal form of a path covers the path itself
      exactly when the path is written in normal form. */
  lemma ScopeIsLiteralExactly(raw: string)
    requires SafeRelative(raw).Some?
    ensures (forall c :: Matches(SafeRelative(raw).value, c) ==> Matches(raw, c)) <==> raw == "." || Clean(raw)
  {
    hide SafeRelative, Clean;
    NormalExactly(raw);
    var path := SafeRelative(raw).value;
    if path != raw {
      var c := Contract([path], {}, {});
      assert Covers(c.allowed[0], c.directories, path);
      assert !Matches(raw, c);
    }
  }

  ghost predicate IsRaw(raw: seq<Change>, path: string) {
    exists i | 0 <= i < |raw| :: raw[i].path == path || raw[i].source == Some(path)
  }

  /** From git's own listings: in a ready handoff the normal form of every path git wrote, tracked or not, is a control
      path or in scope, and a path git wrote cleanly is so itself. */
  lemma ReadyCoversRawPaths(c: Contract, fields: seq<string>, others: seq<string>, w: Worktree, path: string)
    requires ReadChanges(fields).Some? && ReadUntracked(others).Some?
    requires Build(c, ReadChanges(fields).value, ReadUntracked(others).value, w).status == Ready
    requires IsRaw(ReadRaw(fields), path) || (path in others && path != "")
    ensures SafeRelative(path).Some?
    ensures var normal := SafeRelative(path).value; IsControlPath(normal, c.controls) || Matches(normal, c)
    ensures path == "." || Clean(path) ==> IsControlPath(path, c.controls) || Matches(path, c)
  {
    var changes, raw, untracked := ReadChanges(fields).value, ReadRaw(fields), ReadUntracked(others).value;
    ListingNormalizesRaw(fields);
    UntrackedNormalizesRaw(others);
    ReadyStaysInScope(c, changes, untracked, w);
    NormalExactly(path);
    hide SafeRelative, ReadChanges, ReadRaw, ReadUntracked, Build, IsControlPath, Matches, Clean;
    if IsRaw(raw, path) {
      var i :| 0 <= i < |raw| && (raw[i].path == path || raw[i].source == Some(path));
      assert Normalizes(changes[i], raw[i]);
    }
    assert IsChanged(SafeRelative(path).value, changes, untracked);
  }

  /** The tracked and untracked lists split the selected paths, each sorted and without repeats. */
  lemma SelectedIsSplit(c: Contract, changes: seq<Change>, untracked: set<string>, w: Worktree)
    ensures var h := Build(c, changes, untracked, w);
            && Ascending(h.tracked) && Unique(h.tracked) && Ascending(h.untracked) && Unique(h.untracked)
            && Ascending(h.selected) && Unique(h.selected)
            && |h.tracked| + |h.untracked| == |h.selected|
            && forall p :: && (p in h.untracked <==> p in h.selected && p in untracked)
                           && (p in h.tracked <==> p in h.selected && p !in untracked)
  {
    hide IsControlPath, Matches, Patch, AllPaths, Leq;
    var chosen := set p | p in AllPaths(changes, untracked) && Matches(p, c);
    var new_ := untracked * chosen;
    SortedAscends(chosen);
    SortedAscends(new_);
    SortedAscends(chosen - new_);
    assert |chosen| == |new_| + |chosen - new_|;
  }

  /** The outcome in terms of the paths: blocked exactly on an unexpected path, and otherwise empty exactly when no
      product path changed, so a product change is never delivered as an empty handoff. */
  lemma OutcomeFollowsPaths(c: Contract, changes: seq<Change>, untracked: set<string>, w: Worktree)
    ensures var h := Build(c, changes, untracked, w);
            && (h.status == Blocked <==> exists p :: IsChanged(p, changes, untracked)
                                                     && !IsControlPath(p, c.controls) && !Matches(p, c))
            && (h.status == Empty <==> forall p :: IsChanged(p, changes, untracked)
                                                   ==> IsControlPath(p, c.controls) && !Matches(p, c))
            && (h.status != Ready ==> h.patch == [])
  {
    hide IsControlPath, Matches, Patch;
    ChangedAreAll(changes, untracked);
    hide AllPaths, IsChanged;
    var all := AllPaths(changes, untracked);
    var odd := set p | p in all && !IsControlPath(p, c.controls) && !Matches(p, c);
    var chosen := set p | p in all && Matches(p, c);
    var h := Build(c, changes, untracked, w);
    SortedEmpty(odd);
    SortedEmpty(untracked * chosen);
    SortedEmpty(chosen - untracked * chosen);
    NothingToPatch(w);
    assert h.status == Blocked <==> odd != {};
    assert odd == {} && chosen == {} ==> h.patch == Patch(w, [], []);
    assert h.status == Empty <==> odd == {} && chosen == {};
    assert odd != {} <==> exists p :: p in odd;
    assert forall p :: p in odd <==>
        IsChanged(p, changes, untracked) && !IsControlPath(p, c.controls) && !Matches(p, c);
    assert forall p :: p in odd + chosen <==>
                         IsChanged(p, changes, untracked) && !(IsControlPath(p, c.controls) && !Matches(p, c));
    assert odd + chosen == {} <==> odd == {} && chosen == {};
  }

  lemma NothingToPatch(w: Worktree)
    ensures Patch(w, [], []) == []
  {}

  lemma SortedEmpty(s: set<string>)
    ensures Sorted(s) == [] <==> s == {}
  {
    if Sorted(s) == [] {
      assert forall x | x in s :: x in Sorted(s);
    }
  }

  /** A new empty file is delivered too, although git prints no diff for it. */
  lemma EmptyFilesAreDelivered(c: Contract, changes: seq<Change>, untracked: set<string>, w: Worktree, path: string)
    requires w.Valid() && path in untracked && Matches(path, c) && w.isEmptyFile(path)
    requires Build(c, changes, untracked, w).unexpected == []
    ensures Build(c, changes, untracked, w).status == Ready
  {
    hide Matches, IsControlPath, Sorted;
    var h := Build(c, changes, untracked, w);
    assert path in h.untracked;
    ChunkIsKept(w, h.untracked, path);
    hide Chunks;
  }

  lemma {:induction false} ChunkIsKept(w: Worktree, untracked: seq<string>, path: string)
    requires w.Valid() && path in untracked && w.isEmptyFile(path)
    ensures Chunks(w, untracked) != []
  {
    var last := |untracked| - 1;
    if untracked[last] != path {
      assert untracked == untracked[..last] + [untracked[last]];
      ChunkIsKept(w, untracked[..last], path);
    }
  }

  // ----- The reported changes -----------------------------------------------------------------------------------

  /** The status the last change listed for a path gives it. */
  function StatusOf(changes: seq<Change>, path: string): Option<string> {
    if changes == [] then None
    else
      var last := changes[|changes| - 1];
      if last.path == path then Some(last.status) else StatusOf(changes[..|changes| - 1], path)
  }

  function ChangeOf(changes: seq<Change>, newPaths: seq<string>, path: string): FileChange {
    if path in newPaths then Added
    else var status := StatusOf(changes, path); if status.Some? then Reported(status.value) else Unknown
  }

  lemma {:induction false} StatusIsListed(changes: seq<Change>, path: string)
    ensures StatusOf(changes, path).Some? <==> exists i | 0 <= i < |changes| :: changes[i].path == path
    ensures StatusOf(changes, path).Some? ==>
              exists i | 0 <= i < |changes| ::
                && changes[i].path == path && StatusOf(changes, path) == Some(changes[i].status)
                && forall k | i < k < |changes| :: changes[k].path != path
  {
    if changes != [] {
      var last := |changes| - 1;
      StatusIsListed(changes[..last], path);
    }
  }

  /** A selected path is reported as unknown exactly when it is only the source of a rename or copy. */
  lemma UnknownIsSourceOnly(c: Contract, changes: seq<Change>, untracked: set<string>, w: Worktree, path: string)
    requires path in Build(c, changes, untracked, w).selected
    ensures ChangeOf(changes, Build(c, changes, untracked, w).untracked, path) == Unknown <==>
              && path !in untracked
              && (forall i | 0 <= i < |changes| :: changes[i].path != path)
              && (exists i | 0 <= i < |changes| :: changes[i].source == Some(path))
  {
    StatusIsListed(changes, path);
    SelectedIsSplit(c, changes, untracked, w);
    EveryChangeIsPlaced(c, changes, untracked, w, path);
    hide Build, StatusOf;
  }
}
