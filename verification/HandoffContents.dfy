/** What scripts/build-scoped-handoff.py reads from git's listings and what it hands over. */
module HandoffContents {
  import opened Wrappers
  import opened Strings
  import opened Ordering
  import opened HandoffPaths
  import opened HandoffChanges
  import opened ScopedHandoff
  import opened Selections

  // ----- Safe paths ------------------------------------------------------------------------------------------------

  const IsName: string -> bool := part => part != "" && part != "."

  lemma {:induction false} KeptAreListed(parts: seq<string>)
    ensures Lists(KeepParts(parts), parts, IsName)
    ensures ".." in KeepParts(parts) <==> ".." in parts
  {
    hide Lists;
    if parts == [] {
      NothingListed(IsName);
    } else {
      KeptAreListed(parts[1..]);
      ListsCons(KeepParts(parts[1..]), parts[1..], IsName, parts[0]);
      assert parts == [parts[0]] + parts[1..];
    }
  }

  lemma {:induction false} KeepConcat(a: seq<string>, b: seq<string>)
    ensures KeepParts(a + b) == KeepParts(a) + KeepParts(b)
  {
    if a == [] {
      assert a + b == b;
    } else {
      assert (a + b)[1..] == a[1..] + b;
      KeepConcat(a[1..], b);
    }
  }

  lemma {:induction false} TrailingSlashes(path: string)
    ensures KeepParts(Split(RStripChar(path, '/'), '/')) == KeepParts(Split(path, '/'))
  {
    if path != "" && path[|path| - 1] == '/' {
      var front := path[..|path| - 1];
      TrailingSlashes(front);
      assert path == front + "/" + "";
      SplitConcat(front, "", '/');
      KeepConcat(Split(front, '/'), [""]);
      hide KeepParts, Split, RStripChar;
      assert KeepParts([""]) == [] by { OnlyEmpty(); }
    }
  }

  lemma OnlyEmpty()
    ensures KeepParts([""]) == [] && Split("", '/') == [""]
  {}

  /** A path as it is read: back slashes are slashes, and outer white space is cut off. */
  function AsRead(raw: string): string {
    Strip(ReplaceChar(raw, '\\', '/'))
  }

  /** Which paths are refused: nothing, an absolute path, or one with a parent step. Any other path is kept without its
      empty and dot components, and is "." when nothing else is left. */
  lemma SafeRelativeExactly(raw: string)
    ensures var (path, parts) := (AsRead(raw), Split(AsRead(raw), '/'));
            && (SafeRelative(raw) == None <==> path == "" || path[0] == '/' || ".." in parts)
            && forall names | Lists(names, parts, IsName) ::
                 SafeRelative(raw).Some? ==>
                   (names == [] ==> SafeRelative(raw).value == ".")
                   && (names != [] ==> SafeRelative(raw).value == Join("/", names))
  {
    var parts := Split(AsRead(raw), '/');
    TrailingSlashes(AsRead(raw));
    KeptAreListed(parts);
    hide Strip, ReplaceChar, Split, RStripChar, KeepParts, Lists, Join;
    forall names | Lists(names, parts, IsName) ensures names == KeepParts(parts) {
      ListsUnique(names, KeepParts(parts), parts, IsName);
    }
  }

  // ----- Reading git's listing -------------------------------------------------------------------------------------

  /** A change as git prints it, with any paths: a status, and a second path exactly for moves. */
  ghost predicate GitPrints(raw: Change) {
    && raw.status != "" && '\t' !in raw.status && NUL !in raw.status && NUL !in raw.path
    && (raw.source.Some? <==> Moves(raw.status)) && (raw.source.Some? ==> NUL !in raw.source.value)
  }

  ghost predicate AllSafeIn(raws: seq<Change>) {
    forall i | 0 <= i < |raws| ::
      SafeRelative(raws[i].path).Some? && (raws[i].source.Some? ==> SafeRelative(raws[i].source.value).Some?)
  }

  lemma HeadIsRead(raw: Change, tabbed: bool, rest: seq<string>)
    requires GitPrints(raw)
    ensures var fields := Fields(raw, tabbed) + rest;
            && fields != [] && fields[0] != ""
            && ReadHead(fields) == Some((raw.status, if raw.source.Some? then raw.source.value else raw.path,
                                         if tabbed then 1 else 2))
            && (raw.source.Some? ==> fields[if tabbed then 1 else 2] == raw.path)
            && fields[|Fields(raw, tabbed)|..] == rest
  {
    var first := if raw.source.Some? then raw.source.value else raw.path;
    var fields := Fields(raw, tabbed) + rest;
    if tabbed {
      SplitTabOf(raw.status, first);
      assert fields[0] == raw.status + "\t" + first;
    } else {
      assert fields[0] == raw.status && fields[1] == first;
    }
  }

  /** Reading takes the fields of the first change and goes on after them. */
  lemma FirstIsRead(raw: Change, tabbed: bool, rest: seq<string>)
    requires GitPrints(raw)
    ensures var fields := Fields(raw, tabbed) + rest;
            && ReadRaw(fields) == [raw] + ReadRaw(rest)
            && (ReadChanges(fields).Some? <==> AllSafeIn([raw]) && ReadChanges(rest).Some?)
  {
    HeadIsRead(raw, tabbed, rest);
    FieldCount(raw, tabbed);
    hide *;
    ReadOn(Fields(raw, tabbed) + rest, raw, if tabbed then 1 else 2);
  }

  lemma ReadOn(fields: seq<string>, raw: Change, head: nat)
    requires fields != [] && fields[0] != "" && head <= |fields| && (raw.source.Some? <==> Moves(raw.status))
    requires ReadHead(fields)
          == Some((raw.status, if raw.source.Some? then raw.source.value else raw.path, head))
    requires raw.source.Some? ==> head < |fields| && fields[head] == raw.path
    ensures var rest := fields[if raw.source.Some? then head + 1 else head..];
            && ReadRaw(fields) == [raw] + ReadRaw(rest)
            && (ReadChanges(fields).Some? <==> AllSafeIn([raw]) && ReadChanges(rest).Some?)
  {
    hide SafeRelative, ReadHead, Moves;
    assert [raw][0] == raw;
    assert ReadChange(fields).Some? <==> AllSafeIn([raw]);
    assert ReadChange(fields).Some? ==> ReadChange(fields).value.1 == if raw.source.Some? then head + 1 else head;
    hide ReadChange, AllSafeIn;
  }

  lemma {:induction false} FieldsAreRead(raws: seq<Change>, tabbed: seq<bool>)
    requires |tabbed| == |raws| && forall i | 0 <= i < |raws| :: GitPrints(raws[i])
    ensures ReadRaw(AllFields(raws, tabbed) + [""]) == raws
    ensures ReadChanges(AllFields(raws, tabbed) + [""]).Some? <==> AllSafeIn(raws)
  {
    hide SafeRelative, Fields, GitPrints;
    if raws == [] {
      assert AllFields(raws, tabbed) + [""] == [""];
    } else {
      var tail := AllFields(raws[1..], tabbed[1..]) + [""];
      assert AllFields(raws, tabbed) + [""] == Fields(raws[0], tabbed[0]) + tail;
      FieldsAreRead(raws[1..], tabbed[1..]);
      FirstIsRead(raws[0], tabbed[0], tail);
      hide ReadRaw, ReadChanges, AllFields;
      assert raws == [raws[0]] + raws[1..];
      AllSafeSplit(raws);
    }
  }

  lemma AllSafeSplit(raws: seq<Change>)
    requires raws != []
    ensures AllSafeIn(raws) <==> AllSafeIn([raws[0]]) && AllSafeIn(raws[1..])
  {
    hide SafeRelative;
    if AllSafeIn([raws[0]]) && AllSafeIn(raws[1..]) {
      assert [raws[0]][0] == raws[0];
      forall i | 0 < i < |raws| ensures raws[1..][i - 1] == raws[i] {}
    }
  }

  lemma FieldCount(raw: Change, tabbed: bool)
    requires GitPrints(raw)
    ensures |Fields(raw, tabbed)| == (if tabbed then 1 else 2) + (if raw.source.Some? then 1 else 0)
    ensures raw.source.Some? <==> Moves(raw.status)
  {}

  lemma {:induction false} FieldsHoldNoNul(raws: seq<Change>, tabbed: seq<bool>)
    requires |tabbed| == |raws| && forall i | 0 <= i < |raws| :: GitPrints(raws[i])
    ensures forall i | 0 <= i < |AllFields(raws, tabbed)| :: NUL !in AllFields(raws, tabbed)[i]
  {
    if raws != [] {
      FieldsHoldNoNul(raws[1..], tabbed[1..]);
      assert GitPrints(raws[0]);
    }
  }

  /**
   * Whatever changes git prints, in whatever mixture of its two layouts: they are read exactly when every path among
   * them is safe, and are then these changes in order, each path in normal form.
   */
  lemma ListingIsReadExactly(raws: seq<Change>, tabbed: seq<bool>)
    requires |tabbed| == |raws| && forall i | 0 <= i < |raws| :: GitPrints(raws[i])
    ensures var read := ReadChanges(Split(Printed(raws, tabbed), NUL));
            && (read.Some? <==> AllSafeIn(raws))
            && (read.Some? ==> |read.value| == |raws|
                               && forall i | 0 <= i < |raws| :: Normalizes(read.value[i], raws[i]))
  {
    FieldsHoldNoNul(raws, tabbed);
    SplitTerminated(AllFields(raws, tabbed));
    FieldsAreRead(raws, tabbed);
    hide *;
    if ReadChanges(AllFields(raws, tabbed) + [""]).Some? { ListingNormalizesRaw(AllFields(raws, tabbed) + [""]); }
    assert Printed(raws, tabbed) == Terminated(AllFields(raws, tabbed)) by { PrintedIs(raws, tabbed); }
  }

  lemma PrintedIs(raws: seq<Change>, tabbed: seq<bool>)
    requires |tabbed| == |raws|
    ensures Printed(raws, tabbed) == Terminated(AllFields(raws, tabbed))
  {}

  // ----- The patch -------------------------------------------------------------------------------------------------

  ghost function Concat(pieces: seq<Bytes>): Bytes {
    if pieces == [] then [] else Concat(pieces[..|pieces| - 1]) + pieces[|pieces| - 1]
  }

  /** What the patch holds for an untracked file: git's diff, or a written header for an empty file without one. */
  ghost predicate PieceFor(w: Worktree, path: string, piece: Bytes) {
    && (w.newFile(path) != [] || !w.isEmptyFile(path) ==> piece == w.newFile(path))
    && (w.newFile(path) == [] && w.isEmptyFile(path) ==> piece == w.emptyPatch(path))
  }

  ghost predicate PiecesFor(w: Worktree, paths: seq<string>, pieces: seq<Bytes>) {
    |pieces| == |paths| && forall i | 0 <= i < |paths| :: PieceFor(w, paths[i], pieces[i])
  }

  lemma {:induction false} ChunksAre(w: Worktree, paths: seq<string>) returns (pieces: seq<Bytes>)
    ensures PiecesFor(w, paths, pieces) && Chunks(w, paths) == Concat(pieces)
  {
    if paths == [] {
      pieces := [];
    } else {
      var front := ChunksAre(w, paths[..|paths| - 1]);
      pieces := front + [Chunk(w, paths[|paths| - 1])];
      assert pieces[..|pieces| - 1] == front;
    }
  }

  lemma PiecesAreUnique(w: Worktree, paths: seq<string>, a: seq<Bytes>, b: seq<Bytes>)
    requires PiecesFor(w, paths, a) && PiecesFor(w, paths, b)
    ensures a == b
  {}

  /**
   * The patch of a handoff with nothing unexpected: git's diff of the tracked paths, when there are any,
       followed by one
   * piece for each untracked path, in order. Otherwise there is no patch.
   */
  lemma PatchExactly(c: Contract, changes: seq<Change>, untracked: set<string>, w: Worktree, pieces: seq<Bytes>)
    ensures var h := Build(c, changes, untracked, w);
            && (h.unexpected != [] ==> h.patch == [])
            && (h.unexpected == [] && PiecesFor(w, h.untracked, pieces) ==>
                  && (h.tracked == [] ==> h.patch == Concat(pieces))
                  && (h.tracked != [] ==> h.patch == w.diff(h.tracked) + Concat(pieces)))
  {
    var h := Build(c, changes, untracked, w);
    hide PiecesFor, Concat, IsControlPath, Matches, Sorted, AllPaths, Chunks;
    var built := ChunksAre(w, h.untracked);
    if PiecesFor(w, h.untracked, pieces) { PiecesAreUnique(w, h.untracked, pieces, built); }
  }

  /** A ready patch starts with git's diff of the tracked selection. */
  lemma PatchStartsWithDiff(c: Contract, changes: seq<Change>, untracked: set<string>, w: Worktree)
    requires Build(c, changes, untracked, w).status == Ready
    ensures var h := Build(c, changes, untracked, w); h.tracked != [] ==> w.diff(h.tracked) <= h.patch
  {
    hide IsControlPath, Matches, Sorted, AllPaths, Chunks;
  }

  // ----- The lists and the status -----------------------------------------------------------------------------------

  /** The lists of a handoff, each sorted and without repeats, from the changed paths and the contract. */
  lemma HandoffListsExactly(c: Contract, changes: seq<Change>, untracked: set<string>, w: Worktree)
    ensures var h := Build(c, changes, untracked, w);
            && Sorts(h.control) && Sorts(h.unexpected) && Sorts(h.selected) && Sorts(h.tracked) && Sorts(h.untracked)
            && forall p ::
                 && (p in h.control <==> IsChanged(p, changes, untracked) && IsControlPath(p, c.controls))
                 && (p in h.selected <==> IsChanged(p, changes, untracked) && Matches(p, c))
                 && (p in h.unexpected <==>
                       IsChanged(p, changes, untracked) && !IsControlPath(p, c.controls) && !Matches(p, c))
  {
    ChangedAreAll(changes, untracked);
    forall s ensures Sorts(Sorted(s)) { SortedSorts(s); }
    hide IsControlPath, Matches, Patch, AllPaths, IsChanged, Sorted, Sorts;
  }

  /** The status of a handoff from what it holds: blocked on an unexpected path, ready with a patch, and without one
      an internal error when a product path changed and empty when none did. */
  lemma StatusExactly(c: Contract, changes: seq<Change>, untracked: set<string>, w: Worktree)
    ensures var h := Build(c, changes, untracked, w);
            && (h.status == Blocked <==> h.unexpected != [])
            && (h.status == Ready <==> h.patch != [])
            && (h.status == InternalError <==> h.unexpected == [] && h.selected != [] && h.patch == [])
            && (h.status == Empty <==> h.unexpected == [] && h.selected == [] && h.patch == [])
  {
    hide IsControlPath, Matches, Patch, AllPaths;
    var chosen := set p | p in AllPaths(changes, untracked) && Matches(p, c);
    SortedEmpty(chosen);
    hide Sorted;
  }

  /** The change reported for a path: added for an untracked file, and otherwise the status of the last change listed
      for the path, if there is one. */
  lemma ReportedExactly(changes: seq<Change>, newPaths: seq<string>, path: string, status: string)
    ensures ChangeOf(changes, newPaths, path) == Added <==> path in newPaths
    ensures ChangeOf(changes, newPaths, path) == Reported(status) <==>
            && path !in newPaths
            && exists i | 0 <= i < |changes| ::
                 && changes[i].path == path && changes[i].status == status
                 && forall k | i < k < |changes| :: changes[k].path != path
    ensures ChangeOf(changes, newPaths, path) == Unknown <==>
            path !in newPaths && forall i | 0 <= i < |changes| :: changes[i].path != path
  {
    StatusIsListed(changes, path);
    hide StatusOf;
  }

  /** A path without a directory is a control path when it is listed as one or named as a response of the advisor. */
  lemma ControlExactly(path: string, controls: set<string>)
    requires SafeRelative(path) == Some(path) && path != "."
    ensures IsControlPath(path, controls) <==>
            || path in controls
            || ('/' !in path && "advisor-response-" <= path && exists name :: path == name + ".json")
  {
    NormalExactly(path);
    hide SafeRelative, Split, PartsOf, IsSpace;
    CleanParts(path);
    assert EndsWith(path, ".json") <==> exists name :: path == name + ".json" by {
      if EndsWith(path, ".json") { assert path == path[..|path| - 5] + ".json"; }
    }
    hide Clean;
  }

  lemma CleanParts(path: string)
    requires Clean(path)
    ensures if '/' in path then |PartsOf(path)| != 1 else PartsOf(path) == [path]
  {
    hide Split, PartsOf, IsSpace;
    SplitHasNoSeparator(path, '/');
    JoinSplit(path, '/');
    PartsReadBack(Split(path, '/'));
    if '/' !in path { SplitWhole(path, '/'); }
  }
}
