/**
 * Diff hunks of scripts/build_review_packet.py: parsing a diff into bounded hunks, ranking the hunks and counting
 * changed lines for each file. A diff is the list of its lines.
 */
module DiffHunks {
  import opened Wrappers
  import opened Strings

  datatype Hunk = Hunk(file: string, text: string)

  /** A hunk before its lines are joined. */
  datatype RawHunk = RawHunk(file: string, lines: seq<string>)

  predicate IsHeader(line: string) {
    "diff --git" <= line
  }

  predicate IsMark(line: string) {
    "@@" <= line
  }

  /** What follows the first occurrence of ` b/`. */
  function AfterTarget(line: string): Option<string> {
    if " b/" <= line then Some(line[3..])
    else if line == "" then None
    else AfterTarget(line[1..])
  }

  function FileOf(line: string): string {
    match AfterTarget(line)
    case Some(path) => path
    case None => line
  }

  // ----- Parsing --------------------------------------------------------------------------------------------

  datatype State = State(hunks: seq<RawHunk>, file: string, current: seq<string>, started: bool)
  {
    /** The current hunk is saved when it has lines and a file. */
    function Flushed(): seq<RawHunk> {
      if current != [] && file != "" then hunks + [RawHunk(file, current)] else hunks
    }
  }

  function StepLine(s: State, line: string): State {
    if IsHeader(line) then State(s.Flushed(), FileOf(line), [line], false)
    else if IsMark(line) && s.started && s.current != [] && s.file != "" then
      State(s.Flushed(), s.file, [line], true)
    else if IsMark(line) then s.(current := s.current + [line], started := true)
    else s.(current := s.current + [line])
  }

  function ParseLines(lines: seq<string>): State {
    if lines == [] then State([], "", [], false)
    else StepLine(ParseLines(lines[..|lines| - 1]), lines[|lines| - 1])
  }

  /** The unbounded parse. */
  function AllHunks(lines: seq<string>): seq<RawHunk> {
    ParseLines(lines).Flushed()
  }

  function Joined(hunks: seq<RawHunk>): (r: seq<Hunk>)
    ensures |r| == |hunks|
    ensures forall i | 0 <= i < |r| :: r[i] == Hunk(hunks[i].file, Join("\n", hunks[i].lines))
  {
    seq(|hunks|, i requires 0 <= i < |hunks| => Hunk(hunks[i].file, Join("\n", hunks[i].lines)))
  }

  /** `xs[:bound]` */
  function SliceTo<T>(xs: seq<T>, bound: int): seq<T> {
    if bound >= |xs| then xs
    else if bound >= 0 then xs[..bound]
    else if |xs| + bound >= 0 then xs[..|xs| + bound]
    else []
  }

  function First<T>(xs: seq<T>, bound: int): seq<T> {
    if bound <= 0 then [] else if bound < |xs| then xs[..bound] else xs
  }

  lemma {:induction false} HunksOnlyGrow(lines: seq<string>, k: nat)
    requires k <= |lines|
    ensures ParseLines(lines[..k]).hunks <= AllHunks(lines)
    decreases |lines| - k
  {
    hide IsHeader, IsMark, FileOf;
    if k == |lines| {
      assert lines[..k] == lines;
    } else {
      HunksOnlyGrow(lines, k + 1);
      assert lines[..k + 1][..k] == lines[..k];
    }
  }

  /** A start of a list that is the whole list, or reaches the bound and at most one element past a low one. */
  lemma FirstOfStart<T>(start: seq<T>, all: seq<T>, bound: int)
    requires start <= all && |start| <= (if bound > 1 then bound else 1)
    requires start == all || |start| >= bound
    ensures SliceTo(start, bound) == First(all, bound)
  {}

  /** `parse_diff_hunks`: whatever the bound, exactly the first hunks of the unbounded parse. */
  method ParseDiffHunks(lines: seq<string>, maxHunks: int) returns (r: seq<Hunk>)
    ensures r == Joined(First(AllHunks(lines), maxHunks))
  {
    hide IsHeader, IsMark, FileOf, Join;
    var hunks: seq<RawHunk> := [];
    var currentFile, currentLines: seq<string>, started := "", [], false;
    var stopped := false;
    var index := 0;
    while index < |lines|
      invariant 0 <= index <= |lines|
      invariant stopped ==> index < |lines| && |hunks| >= maxHunks && |hunks| > 0
      invariant stopped ==> hunks <= AllHunks(lines) && |hunks| <= (if maxHunks > 1 then maxHunks else 1)
      invariant !stopped ==> ParseLines(lines[..index]) == State(hunks, currentFile, currentLines, started)
      invariant !stopped ==> hunks == [] || |hunks| < maxHunks
    {
      var line := lines[index];
      assert lines[..index + 1][..index] == lines[..index];
      HunksOnlyGrow(lines, index + 1);
      if IsHeader(line) {
        if currentLines != [] && currentFile != "" {
          hunks := hunks + [RawHunk(currentFile, currentLines)];
          if |hunks| >= maxHunks { stopped := true; break; }
        }
        currentFile, currentLines, started := FileOf(line), [line], false;
      } else if IsMark(line) {
        if started && currentLines != [] && currentFile != "" {
          hunks := hunks + [RawHunk(currentFile, currentLines)];
          if |hunks| >= maxHunks { stopped := true; break; }
          currentLines := [];
        }
        currentLines := currentLines + [line];
        started := true;
      } else {
        currentLines := currentLines + [line];
      }
      index := index + 1;
    }
    if !stopped { assert lines[..index] == lines; }
    if currentLines != [] && currentFile != "" && |hunks| < maxHunks {
      hunks := hunks + [RawHunk(currentFile, currentLines)];
    }
    FirstOfStart(hunks, AllHunks(lines), maxHunks);
    r := Joined(SliceTo(hunks, maxHunks));
  }

  // ----- Nothing is lost ------------------------------------------------------------------------------------

  function Flatten(hunks: seq<RawHunk>): seq<string> {
    if hunks == [] then [] else Flatten(hunks[..|hunks| - 1]) + hunks[|hunks| - 1].lines
  }

  /** The file a diff is in after its lines: the one named by the last header, "" before any. */
  function LastFile(lines: seq<string>): string {
    if lines == [] then ""
    else if IsHeader(lines[|lines| - 1]) then FileOf(lines[|lines| - 1])
    else LastFile(lines[..|lines| - 1])
  }

  /** The lines that stand under a file header naming a file. */
  function Owned(lines: seq<string>): seq<string> {
    if lines == [] then []
    else Owned(lines[..|lines| - 1]) + (if LastFile(lines) != "" then [lines[|lines| - 1]] else [])
  }

  lemma FlattenFlushed(s: State)
    ensures Flatten(s.Flushed()) == Flatten(s.hunks) + (if s.file != "" then s.current else [])
  {
    if s.current != [] && s.file != "" {
      assert (s.hunks + [RawHunk(s.file, s.current)])[..|s.hunks|] == s.hunks;
    }
  }

  lemma {:induction false} ParseKeepsOwned(lines: seq<string>)
    ensures var s := ParseLines(lines);
            && s.file == LastFile(lines)
            && Flatten(s.hunks) + (if s.file != "" then s.current else []) == Owned(lines)
  {
    hide IsHeader, IsMark, FileOf;
    if lines != [] {
      var front := lines[..|lines| - 1];
      ParseKeepsOwned(front);
      StepKeepsOwned(ParseLines(front), lines[|lines| - 1]);
      hide StepLine, Flatten;
    }
  }

  /** One more line only adds itself to the kept lines, when it stands under a named file. */
  lemma StepKeepsOwned(s: State, line: string)
    ensures var s' := StepLine(s, line);
            && s'.file == (if IsHeader(line) then FileOf(line) else s.file)
            && Flatten(s'.hunks) + (if s'.file != "" then s'.current else []) ==
               Flatten(s.hunks) + (if s.file != "" then s.current else []) + (if s'.file != "" then [line] else [])
  {
    FlattenFlushed(s);
    hide IsHeader, IsMark, FileOf, Flatten;
  }

  /**
   * For every diff the unbounded hunks put together are exactly the lines under headers that name a file, in
   * order.
   */
  lemma HunksCoverTheDiff(lines: seq<string>)
    ensures Flatten(AllHunks(lines)) == Owned(lines)
  {
    ParseKeepsOwned(lines);
    FlattenFlushed(ParseLines(lines));
  }

  function Texts(hunks: seq<RawHunk>): (r: seq<string>)
    ensures |r| == |hunks|
    ensures forall i | 0 <= i < |r| :: r[i] == Join("\n", hunks[i].lines)
  {
    seq(|hunks|, i requires 0 <= i < |hunks| => Join("\n", hunks[i].lines))
  }

  lemma {:induction false} JoinedTexts(hunks: seq<RawHunk>)
    requires forall i | 0 <= i < |hunks| :: hunks[i].lines != []
    ensures Join("\n", Texts(hunks)) == Join("\n", Flatten(hunks))
    ensures hunks != [] ==> Flatten(hunks) != []
  {
    if |hunks| == 1 {
      assert Flatten(hunks) == hunks[0].lines;
    } else if hunks != [] {
      var front, last := hunks[..|hunks| - 1], hunks[|hunks| - 1];
      JoinedTexts(front);
      assert Texts(hunks) == Texts(front) + [Join("\n", last.lines)];
      JoinConcat("\n", Texts(front), [Join("\n", last.lines)]);
      JoinConcat("\n", Flatten(front), last.lines);
    }
  }

  /** The same for the texts that are returned: joined by line breaks they are the text of those lines. */
  lemma HunkTextsCoverTheDiff(lines: seq<string>)
    ensures Join("\n", Texts(AllHunks(lines))) == Join("\n", Owned(lines))
  {
    hide Join, Flatten, Owned;
    HunksAreWellShaped(lines);
    var hunks := AllHunks(lines);
    forall i | 0 <= i < |hunks| ensures hunks[i].lines != [] {
      assert hunks[i] in hunks && WellShaped(hunks[i]);
    }
    hide AllHunks, WellShaped;
    JoinedTexts(hunks);
    HunksCoverTheDiff(lines);
  }

  /** When every header names a file, that is everything from the first header on. */
  lemma {:induction false} OwnedFromFirstHeader(lines: seq<string>, first: nat)
    requires first <= |lines| && (forall i | 0 <= i < first :: !IsHeader(lines[i]))
    requires first < |lines| ==> IsHeader(lines[first])
    requires forall i | 0 <= i < |lines| :: IsHeader(lines[i]) ==> FileOf(lines[i]) != ""
    ensures Owned(lines) == lines[first..]
    ensures LastFile(lines) != "" <==> first < |lines|
  {
    hide IsHeader, FileOf;
    if lines != [] {
      var front := lines[..|lines| - 1];
      if first < |lines| {
        OwnedFromFirstHeader(front, if first < |front| then first else |front|);
      } else {
        OwnedFromFirstHeader(front, |front|);
      }
    }
  }

  // ----- Shape of a hunk --------------------------------------------------------------------------------------

  function Marks(lines: seq<string>): nat {
    if lines == [] then 0
    else Marks(lines[..|lines| - 1]) + if IsMark(lines[|lines| - 1]) then 1 else 0
  }

  /** A hunk belongs to one file: a header can only be its first line, and then names that file. */
  predicate InOneFile(file: string, lines: seq<string>) {
    && (forall i | 0 < i < |lines| :: !IsHeader(lines[i]))
    && (lines != [] && IsHeader(lines[0]) ==> FileOf(lines[0]) == file)
  }

  predicate WellShaped(h: RawHunk) {
    h.file != "" && h.lines != [] && Marks(h.lines) <= 1 && InOneFile(h.file, h.lines)
  }

  lemma HeaderIsNoMark(line: string)
    ensures !(IsHeader(line) && IsMark(line))
  {
    assert IsHeader(line) ==> line[0] == 'd';
    assert IsMark(line) ==> line[0] == '@';
  }

  /** Every hunk lies in one named file and holds at most one `@@` line. */
  lemma {:induction false} HunksAreWellShaped(lines: seq<string>)
    ensures var s := ParseLines(lines);
            && (forall h | h in s.hunks :: WellShaped(h))
            && (s.file != "" ==> InOneFile(s.file, s.current) && Marks(s.current) == if s.started then 1 else 0)
    ensures forall h | h in AllHunks(lines) :: WellShaped(h)
  {
    hide IsHeader, IsMark, FileOf;
    if lines != [] {
      var front, line := lines[..|lines| - 1], lines[|lines| - 1];
      HunksAreWellShaped(front);
      HeaderIsNoMark(line);
      var s := ParseLines(front);
      assert (s.current + [line])[..|s.current|] == s.current;
      assert [line][..0] == [];
    }
  }
}
