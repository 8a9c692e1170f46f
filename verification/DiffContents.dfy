/** How scripts/build_review_packet.py cuts a diff into hunks, scores them and counts changed lines, by position. */
module DiffContents {
  import opened Wrappers
  import opened DiffHunks
  import opened DiffFocus

  // ----- Where hunks start -----------------------------------------------------------------------------------------

  /** A hunk starts at a file header, or at an `@@` line of the same file when the hunk before already has one. */
  predicate StartsHunk(hunks: seq<RawHunk>, i: nat)
    requires i < |hunks|
  {
    hunks[i].lines != [] && (
      || IsHeader(hunks[i].lines[0])
      || (i > 0 && IsMark(hunks[i].lines[0]) && hunks[i].file == hunks[i - 1].file && Marks(hunks[i - 1].lines) == 1))
  }

  predicate WellCut(hunks: seq<RawHunk>) {
    forall i | 0 <= i < |hunks| :: WellShaped(hunks[i]) && StartsHunk(hunks, i)
  }

  lemma WellCutSnoc(hunks: seq<RawHunk>, h: RawHunk)
    requires WellCut(hunks) && WellShaped(h) && StartsHunk(hunks + [h], |hunks|)
    ensures WellCut(hunks + [h])
  {
    hide WellShaped, IsHeader, IsMark, Marks;
    forall i | 0 <= i < |hunks| ensures StartsHunk(hunks + [h], i) {
      assert WellShaped(hunks[i]) && StartsHunk(hunks, i);
      assert (hunks + [h])[i] == hunks[i] && (i > 0 ==> (hunks + [h])[i - 1] == hunks[i - 1]);
    }
  }

  /** The lines collected so far can start the next hunk. */
  predicate Startable(s: State) {
    s.file != "" && s.current != [] ==> StartsHunk(s.hunks + [RawHunk(s.file, s.current)], |s.hunks|)
  }

  lemma {:induction false} ParseCuts(lines: seq<string>)
    ensures var s := ParseLines(lines); WellCut(s.hunks) && Startable(s) && (s.file != "" ==> s.current != [])
  {
    if lines != [] {
      var front, line := lines[..|lines| - 1], lines[|lines| - 1];
      ParseCuts(front);
      HunksAreWellShaped(front);
      StepCuts(ParseLines(front), line);
      hide *;
      assert ParseLines(lines) == StepLine(ParseLines(front), line) by { ParseStep(lines); }
    }
  }

  lemma ParseStep(lines: seq<string>)
    requires lines != []
    ensures ParseLines(lines) == StepLine(ParseLines(lines[..|lines| - 1]), lines[|lines| - 1])
  {}

  lemma StepCuts(s: State, line: string)
    requires WellCut(s.hunks) && Startable(s) && (s.file != "" ==> s.current != [])
    requires s.file != "" ==> InOneFile(s.file, s.current) && Marks(s.current) == if s.started then 1 else 0
    ensures var s' := StepLine(s, line); WellCut(s'.hunks) && Startable(s') && (s'.file != "" ==> s'.current != [])
  {
    hide InOneFile, IsHeader, IsMark, FileOf;
    if s.file != "" {
      WellCutSnoc(s.hunks, RawHunk(s.file, s.current));
    }
    hide WellShaped, WellCut, Marks;
  }

  /**
   * Every diff is cut into hunks that start at a file header, or at an `@@` line of the same file when the hunk before
   * has its `@@` line already: the lines of a file before its first `@@` line share its hunk.
   */
  lemma HunksAreWellCut(lines: seq<string>)
    ensures WellCut(AllHunks(lines))
  {
    ParseCuts(lines);
    HunksAreWellShaped(lines);
    var s := ParseLines(lines);
    hide WellShaped, IsHeader, IsMark, Marks, ParseLines;
    if s.current != [] && s.file != "" {
      assert s.Flushed()[|s.hunks|] in s.Flushed();
      WellCutSnoc(s.hunks, RawHunk(s.file, s.current));
    }
  }

  // ----- There is no other way to cut ------------------------------------------------------------------------------

  lemma {:induction false} MarksConcat(a: seq<string>, b: seq<string>)
    ensures Marks(a + b) == Marks(a) + Marks(b)
  {
    if b == [] {
      assert a + b == a;
    } else {
      assert (a + b)[..|a + b| - 1] == a + b[..|b| - 1];
      MarksConcat(a, b[..|b| - 1]);
    }
  }

  /** When the lines agree, the last hunk of one list cannot be shorter than that of another. */
  lemma LastIsNoShorter(a: seq<RawHunk>, b: seq<RawHunk>)
    requires WellCut(a) && WellCut(b) && a != [] && b != [] && Flatten(a) == Flatten(b)
    ensures |a[|a| - 1].lines| >= |b[|b| - 1].lines|
  {
    var (i, j) := (|a| - 1, |b| - 1);
    var (short, long) := (a[i].lines, b[j].lines);
    if |short| < |long| {
      var k := |long| - |short|;
      SameEnd(Flatten(a[..i]), short, Flatten(b[..j]), long);
      assert WellShaped(b[j]) && StartsHunk(a, i) && StartsHunk(b, j);
      assert short[0] == long[k];
      assert IsMark(short[0]) && i > 0 && Marks(a[i - 1].lines) == 1;
      assert WellShaped(a[i - 1]);
      assert Flatten(a[..i]) == Flatten(a[..i - 1]) + a[i - 1].lines by { assert a[..i][..i - 1] == a[..i - 1]; }
      hide Flatten, WellCut, Marks;
      MarksConcat(long[..k], short);
      MarkedFirst(short);
      NothingBefore(Flatten(a[..i - 1]), a[i - 1], Flatten(b[..j]), long[..k]);
    }
  }

  /** Before a start without an `@@` line there is no hunk with one that ends at the same place. */
  lemma NothingBefore(front: seq<string>, h: RawHunk, other: seq<string>, start: seq<string>)
    requires front + h.lines == other + start && WellShaped(h)
    requires start != [] && Marks(start) == 0 && (IsHeader(start[0]) || IsMark(start[0]))
    ensures Marks(h.lines) == 0
  {
    hide IsHeader, IsMark, Marks, FileOf;
    if |h.lines| <= |start| {
      SameEnd(front, h.lines, other, start);
      MarksConcat(start[..|start| - |h.lines|], h.lines);
    } else {
      SameEnd(other, start, front, h.lines);
      assert h.lines[|h.lines| - |start|] == start[0];
      if IsMark(start[0]) { MarkedFirst(start); }
    }
  }

  lemma {:induction false} MarkedFirst(lines: seq<string>)
    requires lines != [] && IsMark(lines[0])
    ensures Marks(lines) >= 1
  {
    MarksConcat(lines[..1], lines[1..]);
    assert lines == lines[..1] + lines[1..];
  }

  /** Of two splits of the same list, the longer end ends with the shorter one. */
  lemma SameEnd(a: seq<string>, s: seq<string>, b: seq<string>, t: seq<string>)
    requires a + s == b + t && |s| <= |t|
    ensures t == t[..|t| - |s|] + s && a == b + t[..|t| - |s|]
  {
    var k := |t| - |s|;
    assert |a| == |b| + k;
    assert (a + s)[..|a|] == a && (b + t)[..|a|] == b + t[..k];
    assert (a + s)[|a|..] == s && (b + t)[|a|..] == t[k..];
  }

  /** No other list of hunks that starts them at these places has the same lines. */
  lemma {:induction false} WellCutIsUnique(a: seq<RawHunk>, b: seq<RawHunk>)
    requires WellCut(a) && WellCut(b) && Flatten(a) == Flatten(b)
    ensures a == b
  {
    hide WellShaped, StartsHunk, Marks;
    if a == [] || b == [] {
      CutHasLines(a);
      CutHasLines(b);
    } else {
      LastIsNoShorter(a, b);
      LastIsNoShorter(b, a);
      var (i, j) := (|a| - 1, |b| - 1);
      SameEnd(Flatten(a[..i]), a[i].lines, Flatten(b[..j]), b[j].lines);
      WellCutFront(a);
      WellCutFront(b);
      WellCutIsUnique(a[..i], b[..j]);
      assert a[i].file == b[j].file by { SameFile(a, b); }
      assert a == a[..i] + [a[i]] && b == b[..j] + [b[j]];
    }
  }

  lemma CutHasLines(hunks: seq<RawHunk>)
    requires WellCut(hunks)
    ensures hunks != [] ==> Flatten(hunks) != []
  {
    if hunks != [] { assert WellShaped(hunks[|hunks| - 1]); }
  }

  lemma WellCutFront(hunks: seq<RawHunk>)
    requires WellCut(hunks) && hunks != []
    ensures WellCut(hunks[..|hunks| - 1])
  {
    hide WellShaped, IsHeader, IsMark, Marks;
    var front := hunks[..|hunks| - 1];
    forall i | 0 <= i < |front| ensures WellShaped(front[i]) && StartsHunk(front, i) {
      assert WellShaped(hunks[i]) && StartsHunk(hunks, i);
      assert i > 0 ==> front[i - 1] == hunks[i - 1];
    }
  }

  lemma SameFile(a: seq<RawHunk>, b: seq<RawHunk>)
    requires WellCut(a) && WellCut(b) && a != [] && b != []
    requires a[..|a| - 1] == b[..|b| - 1] && a[|a| - 1].lines == b[|b| - 1].lines
    ensures a[|a| - 1].file == b[|b| - 1].file
  {
    hide IsHeader, IsMark, Marks, FileOf;
    var i := |a| - 1;
    assert WellShaped(a[i]) && WellShaped(b[i]) && StartsHunk(a, i) && StartsHunk(b, i);
    hide WellCut;
    if i > 0 { assert a[..i][i - 1] == b[..i][i - 1]; }
    HeaderIsNoMark(a[i].lines[0]);
  }

  /** The hunks of a diff are the only ones that start at these places and hold its lines under named files. */
  lemma HunksExactly(lines: seq<string>, hunks: seq<RawHunk>)
    ensures WellCut(hunks) && Flatten(hunks) == Owned(lines) <==> hunks == AllHunks(lines)
  {
    HunksAreWellCut(lines);
    HunksCoverTheDiff(lines);
    hide WellCut, Flatten, Owned, AllHunks;
    if WellCut(hunks) && Flatten(hunks) == Owned(lines) { WellCutIsUnique(hunks, AllHunks(lines)); }
  }

  // ----- Files -----------------------------------------------------------------------------------------------------

  predicate TargetAt(line: string, k: nat) {
    k + 3 <= |line| && line[k..k + 3] == " b/"
  }

  ghost predicate FirstTarget(line: string, k: nat) {
    TargetAt(line, k) && forall i: nat | i < k :: !TargetAt(line, i)
  }

  lemma TargetShifts(line: string, k: nat)
    requires line != ""
    ensures TargetAt(line[1..], k) <==> TargetAt(line, k + 1)
  {
    if k + 4 <= |line| { assert line[1..][k..k + 3] == line[k + 1..k + 4]; }
  }

  lemma {:induction false} TargetFound(line: string, k: nat)
    requires FirstTarget(line, k)
    ensures AfterTarget(line) == Some(line[k + 3..])
  {
    if k > 0 {
      assert !TargetAt(line, 0);
      forall i: nat { TargetShifts(line, i); }
      hide TargetAt;
      TargetFound(line[1..], k - 1);
      assert line[1..][k - 1 + 3..] == line[k + 3..];
    }
  }

  lemma {:induction false} TargetMissing(line: string)
    requires forall k: nat :: !TargetAt(line, k)
    ensures AfterTarget(line) == None
  {
    assert !TargetAt(line, 0);
    if line != "" {
      forall k: nat ensures !TargetAt(line[1..], k) { TargetShifts(line, k); }
      TargetMissing(line[1..]);
    }
  }

  /** A header names the file after its first ` b/`, if it has one. */
  lemma TargetExactly(line: string, k: nat)
    ensures FirstTarget(line, k) ==> AfterTarget(line) == Some(line[k + 3..])
    ensures (forall i: nat :: !TargetAt(line, i)) ==> AfterTarget(line) == None
  {
    hide TargetAt, AfterTarget;
    if FirstTarget(line, k) { TargetFound(line, k); }
    if forall i: nat :: !TargetAt(line, i) { TargetMissing(line); }
  }

  /** The last line up to some position that satisfies a condition. */
  ghost predicate IsLast(lines: seq<string>, wanted: string -> bool, k: nat) {
    k < |lines| && wanted(lines[k]) && forall i | k < i < |lines| :: !wanted(lines[i])
  }

  /** A line is under the file that the last header before it names. */
  lemma {:induction false} LastFileExactly(lines: seq<string>)
    ensures forall k: nat | IsLast(lines, IsHeader, k) :: LastFile(lines) == FileOf(lines[k])
    ensures (forall i | 0 <= i < |lines| :: !IsHeader(lines[i])) ==> LastFile(lines) == ""
  {
    hide IsHeader, FileOf;
    if lines != [] {
      LastFileExactly(lines[..|lines| - 1]);
      forall k: nat | IsLast(lines, IsHeader, k) ensures LastFile(lines) == FileOf(lines[k]) {
        if k < |lines| - 1 { assert IsLast(lines[..|lines| - 1], IsHeader, k); }
      }
    }
  }

  // ----- Scores and counts -----------------------------------------------------------------------------------------

  /** Where a character is in the text. */
  ghost function Places(text: string, c: char): set<nat> {
    set k: nat | k < |text| && text[k] == c
  }

  /** Which risk patterns match the text. */
  ghost function Matching(risk: seq<string -> bool>, text: string): set<nat> {
    set i: nat | i < |risk| && risk[i](text)
  }

  /** Positions counted from one on. */
  ghost function Later(places: set<nat>): set<nat> {
    set k | k in places :: k + 1
  }

  lemma {:induction false} LaterSize(places: set<nat>)
    ensures |Later(places)| == |places|
  {
    if places != {} {
      var k :| k in places;
      LaterSize(places - {k});
      forall j ensures j in Later(places) <==> j in Later(places - {k}) || j == k + 1 {
        if j in Later(places) && j != k + 1 { assert j - 1 in places - {k}; }
      }
      assert Later(places) == Later(places - {k}) + {k + 1};
    }
  }

  lemma {:induction false} CountIsPlaces(text: string, c: char)
    ensures CountChar(text, c) == |Places(text, c)|
  {
    if text == "" {
      assert Places(text, c) == {};
    } else {
      CountIsPlaces(text[1..], c);
      LaterSize(Places(text[1..], c));
      FirstPlace(text, c);
    }
  }

  lemma FirstPlace(text: string, c: char)
    requires text != ""
    ensures Places(text, c) == Later(Places(text[1..], c)) + (if text[0] == c then {0} else {})
    ensures 0 !in Later(Places(text[1..], c))
  {
    forall k | k in Places(text, c) && k > 0 ensures k in Later(Places(text[1..], c)) {
      assert k - 1 in Places(text[1..], c);
    }
  }

  lemma {:induction false} HitsAreMatching(risk: seq<string -> bool>, text: string)
    ensures RiskHits(risk, text) == |Matching(risk, text)|
  {
    if risk == [] {
      assert Matching(risk, text) == {};
    } else {
      HitsAreMatching(risk[1..], text);
      LaterSize(Matching(risk[1..], text));
      FirstMatching(risk, text);
    }
  }

  lemma FirstMatching(risk: seq<string -> bool>, text: string)
    requires risk != []
    ensures Matching(risk, text) == Later(Matching(risk[1..], text)) + (if risk[0](text) then {0} else {})
    ensures 0 !in Later(Matching(risk[1..], text))
  {
    forall k | k in Matching(risk, text) && k > 0 ensures k in Later(Matching(risk[1..], text)) {
      assert k - 1 in Matching(risk[1..], text);
    }
  }

  /** A hunk scores three for each risk pattern that matches its text, and one for each plus and minus up to five. */
  lemma ScoreMeans(risk: seq<string -> bool>, hunk: Hunk)
    ensures var signs := |Places(hunk.text, '+')| + |Places(hunk.text, '-')|;
            && (signs < 5 ==> Score(risk, hunk) == 3 * |Matching(risk, hunk.text)| + signs)
            && (signs >= 5 ==> Score(risk, hunk) == 3 * |Matching(risk, hunk.text)| + 5)
  {
    CountIsPlaces(hunk.text, '+');
    CountIsPlaces(hunk.text, '-');
    HitsAreMatching(risk, hunk.text);
    hide Places, Matching, CountChar, RiskHits;
  }

  /** A line counts as added when it starts with one or two plus signs, and as deleted likewise with minus signs. */
  lemma ChangedLineMeans(line: string)
    ensures IsAdded(line) <==> line != "" && line[0] == '+' && !(|line| >= 3 && line[1] == '+' && line[2] == '+')
    ensures IsDeleted(line) <==> line != "" && line[0] == '-' && !(|line| >= 3 && line[1] == '-' && line[2] == '-')
  {
    assert OpensFile(line) ==> line[0] == 'd';
    assert IsMark(line) ==> line[0] == '@';
    assert "+++" <= line <==> |line| >= 3 && line[0] == '+' && line[1] == '+' && line[2] == '+';
    assert "---" <= line <==> |line| >= 3 && line[0] == '-' && line[1] == '-' && line[2] == '-';
    hide OpensFile, IsMark;
  }

  predicate IsBooked(wanted: string -> bool, lines: seq<string>, file: string, k: nat)
    requires k < |lines|
  {
    wanted(lines[k]) && BookedFile(lines[..k + 1]) == file
  }

  /** The lines that satisfy a condition and are booked to a file. */
  ghost function BookedLines(wanted: string -> bool, lines: seq<string>, file: string): set<nat> {
    set k: nat | k < |lines| && IsBooked(wanted, lines, file, k)
  }

  /** The changes counted for a file are the lines booked to it. */
  lemma {:induction false} BookedExactly(wanted: string -> bool, lines: seq<string>, file: string)
    ensures Booked(wanted, lines, file) == |BookedLines(wanted, lines, file)|
  {
    if lines == [] {
      assert BookedLines(wanted, lines, file) == {};
    } else {
      BookedExactly(wanted, lines[..|lines| - 1], file);
      LastBooked(wanted, lines, file);
      hide BookedLines, BookedFile;
    }
  }

  /** A line is booked to the file of the last `diff --git ` line before it: what follows ` b/` there, or "unknown". */
  lemma {:induction false} BookedFileExactly(lines: seq<string>)
    ensures forall k: nat | IsLast(lines, OpensFile, k) ::
              BookedFile(lines) == match AfterTarget(lines[k]) case Some(path) => path case None => "unknown"
    ensures (forall i | 0 <= i < |lines| :: !OpensFile(lines[i])) ==> BookedFile(lines) == "unknown"
  {
    hide OpensFile, AfterTarget;
    if lines != [] {
      BookedFileExactly(lines[..|lines| - 1]);
      forall k: nat | IsLast(lines, OpensFile, k)
        ensures BookedFile(lines) == match AfterTarget(lines[k]) case Some(path) => path case None => "unknown"
      {
        if k < |lines| - 1 { assert IsLast(lines[..|lines| - 1], OpensFile, k); }
      }
    }
  }

  lemma BookedStays(wanted: string -> bool, lines: seq<string>, file: string, k: nat)
    requires k < |lines| - 1
    ensures IsBooked(wanted, lines, file, k) == IsBooked(wanted, lines[..|lines| - 1], file, k)
  {
    assert lines[..|lines| - 1][..k + 1] == lines[..k + 1];
    hide BookedFile;
  }

  lemma BookedLast(wanted: string -> bool, lines: seq<string>, file: string)
    requires lines != []
    ensures IsBooked(wanted, lines, file, |lines| - 1) <==> wanted(lines[|lines| - 1]) && BookedFile(lines) == file
  {
    assert lines[..|lines| - 1 + 1] == lines;
    hide BookedFile;
  }

  lemma LastBooked(wanted: string -> bool, lines: seq<string>, file: string)
    requires lines != []
    ensures var last := |lines| - 1;
            && BookedLines(wanted, lines, file) == BookedLines(wanted, lines[..last], file)
                + (if wanted(lines[last]) && BookedFile(lines) == file then {last} else {})
            && last !in BookedLines(wanted, lines[..last], file)
  {
    hide IsBooked, BookedFile;
    BookedLast(wanted, lines, file);
    forall k: nat | k < |lines| - 1
      ensures IsBooked(wanted, lines, file, k) == IsBooked(wanted, lines[..|lines| - 1], file, k)
    {
      BookedStays(wanted, lines, file, k);
    }
  }
}
