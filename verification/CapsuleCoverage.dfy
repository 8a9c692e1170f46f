/**
 * What reading back an execution capsule gives, and the hard-contract coverage check of
 * scripts/build-execution-capsule.py.
 */
module CapsuleCoverage {
  import opened Wrappers
  import opened Strings
  import opened CardSections
  import opened ExecutionCapsule

  // ----- The header ---------------------------------------------------------------------------------------------

  /** A line that would read as a heading. */
  predicate IsHeadingLine(line: string) {
    |line| >= 4 && line[0] == '#' && line[1] == '#' && (line[2] == ' ' || line[2] == '\t')
  }

  predicate OneLine(line: string) {
    '\n' !in line
  }

  lemma LineHeading(line: string)
    requires OneLine(line)
    ensures NoHeading(line + "\n") <==> !IsHeadingLine(line)
  {
    var t := line + "\n";
    forall i | 0 < i < |t| ensures !HeadingAt(t, i) {
      if i <= |line| { assert t[i - 1] in line; }
    }
    if IsHeadingLine(line) {
      assert line[3] in line;
      assert HeadingAt(t, 0);
    } else {
      assert !HeadingAt(t, 0) by { assert |line| == 3 ==> t[3] == '\n'; }
    }
  }

  ghost predicate AllOneLine(lines: seq<string>) {
    forall i | 0 <= i < |lines| :: OneLine(lines[i])
  }

  ghost predicate NoHeadingLine(lines: seq<string>) {
    forall i | 0 <= i < |lines| :: !IsHeadingLine(lines[i])
  }

  /** Lines ended by an empty one: a text that ends a line, with a heading exactly where a line is one. */
  lemma {:induction false} LinesHeading(lines: seq<string>)
    requires AllOneLine(lines)
    ensures var t := Join("\n", lines + [""]);
            EndsLine(t) && (NoHeading(t) <==> NoHeadingLine(lines))
  {
    hide IsHeadingLine, NoHeading, OneLine;
    if lines == [] {
      assert Join("\n", [""]) == "";
      assert NoHeading("") by { EmptyHasNoHeading(); }
    } else {
      var rest := lines[1..];
      assert OneLine(lines[0]);
      LinesHeading(rest);
      LineHeading(lines[0]);
      var tail := Join("\n", rest + [""]);
      assert (lines + [""])[1..] == rest + [""];
      assert Join("\n", lines + [""]) == (lines[0] + "\n") + tail;
      NoHeadingConcat(lines[0] + "\n", tail);
      assert forall i | 0 < i < |lines| :: lines[i] == rest[i - 1];
    }
  }

  lemma EmptyHasNoHeading()
    ensures NoHeading("")
  {}

  lemma {:induction false} SplitLinesAreLines(s: string)
    ensures AllOneLine(SplitLines(s))
  {
    if s != "" {
      var rest := SplitLines(s[1..]);
      SplitLinesAreLines(s[1..]);
      assert OneLine(rest[0]);
      if !BreaksLine(s[0]) {
        assert OneLine([s[0]] + rest[0]);
      }
    }
  }

  lemma {:induction false} NonBlankAreLines(lines: seq<string>)
    requires AllOneLine(lines)
    ensures AllOneLine(NonBlank(lines))
  {
    hide OneLine, Strip;
    if lines != [] { NonBlankAreLines(lines[1..]); }
  }

  lemma TitleLinesAreLines(preamble: string)
    ensures AllOneLine(TitleLines(preamble))
  {
    hide OneLine, SplitLines, NonBlank;
    SplitLinesAreLines(preamble);
    NonBlankAreLines(SplitLines(preamble));
  }

  ghost predicate AllComments(comments: seq<string>) {
    forall i | 0 <= i < |comments| :: IsComment(comments[i])
  }

  function HeaderText(comments: seq<string>, preamble: string): string {
    Join("\n", HeaderLines(comments, preamble))
  }

  /** The header ends a line, and holds a heading only if a title line reads as one. */
  lemma HeaderHeadings(comments: seq<string>, preamble: string)
    requires AllComments(comments)
    ensures EndsLine(HeaderText(comments, preamble))
    ensures NoHeading(HeaderText(comments, preamble)) <==> preamble == "" || NoHeadingLine(TitleLines(preamble))
  {
    hide NoHeading, Join;
    TitleLinesAreLines(preamble);
    var titles := TitleLines(preamble);
    forall i | 0 <= i < |comments| ensures OneLine(comments[i]) && !IsHeadingLine(comments[i]) {
      assert IsComment(comments[i]);
    }
    hide TitleLines, OneLine;
    if preamble == "" {
      LinesHeading(comments);
      assert HeaderLines(comments, preamble) == comments + [""];
    } else {
      assert OneLine("") by { EmptyIsLine(); }
      var lines := comments + [""] + titles;
      LinesHeading(lines);
      assert HeaderLines(comments, preamble) == lines + [""];
      forall i | 0 <= i < |titles| ensures titles[i] == lines[|comments| + 1 + i] {}
    }
  }

  lemma EmptyIsLine()
    ensures OneLine("")
  {}

  // ----- Reading a capsule back ---------------------------------------------------------------------------------

  /** What a card keeps in a mode. */
  function Kept(text: string, mode: Mode): seq<Section> {
    Selected(Sections(text), KeepSet(mode))
  }

  lemma NamesAreNotEmpty(mode: Mode)
    ensures "" !in KeepSet(mode)
  {}

  lemma KeptAreBlocks(text: string, mode: Mode)
    ensures AllBlocks(Kept(text, mode))
  {
    NamesAreNotEmpty(mode);
    hide KeepSet, AllBlocks;
    SelectedAreBlocks(text, NextHeading(text, 0), KeepSet(mode));
  }

  /** The contract-only capsule: header, kept bodies, line break. */
  lemma ContractText(text: string, mode: Mode, comments: seq<string>)
    requires Render(text, mode, comments, ["", "", "", ""]).Ok?
    ensures Kept(text, mode) != []
    ensures Render(text, mode, comments, ["", "", "", ""]).value
         == HeaderText(comments, Preamble(text)) + (Join("\n\n", Bodies(Kept(text, mode))) + "\n")
  {
    KeptAreBlocks(text, mode);
    hide KeepSet, AllBlocks, Selected, Sections, Preamble, HeaderLines, Join;
    var body := Join("\n\n", Bodies(Kept(text, mode)));
    if Kept(text, mode) != [] {
      JoinEndsInText(Kept(text, mode));
      RStripFixed(body);
      hide RStrip;
      assert AppendPackets(body, ["", "", "", ""]) == body by { NoPackets(body); }
    }
  }

  lemma NoPackets(body: string)
    ensures AppendPackets(body, ["", "", "", ""]) == body
  {
    assert ["", "", "", ""][1..] == ["", "", ""] && ["", "", ""][1..] == ["", ""] && ["", ""][1..] == [""]
        && [""][1..] == [];
    assert AppendPackets(body, [""]) == body;
    assert AppendPackets(body, ["", ""]) == body;
    assert AppendPackets(body, ["", "", ""]) == body;
  }

  /**
   * For every card that renders, in either mode, reading the contract-only capsule back gives the sections of its
   * header followed by exactly the kept sections of the card, in order and unchanged; and the header has no
   * section exactly when no title line copied from the preamble reads as a heading.
   */
  lemma ContractReadsBack(text: string, mode: Mode, comments: seq<string>)
    requires AllComments(comments) && Render(text, mode, comments, ["", "", "", ""]).Ok?
    ensures var header := HeaderText(comments, Preamble(text));
            && Sections(Render(text, mode, comments, ["", "", "", ""]).value) == Sections(header) + Kept(text, mode)
            && (Sections(header) == [] <==> Preamble(text) == "" || NoHeadingLine(TitleLines(Preamble(text))))
  {
    hide Render, Sections, NoHeading, Kept, AllBlocks, Preamble, Join, TitleLines, HeaderText;
    var header := HeaderText(comments, Preamble(text));
    HeaderHeadings(comments, Preamble(text));
    KeptAreBlocks(text, mode);
    ContractText(text, mode, comments);
    BlocksReadBack(Kept(text, mode));
    SectionsConcat(header, Join("\n\n", Bodies(Kept(text, mode))) + "\n");
    NoSections(header);
  }

  lemma {:induction false} FirstLineStarts(s: string)
    ensures SplitLines(s)[0] <= s
  {
    if s != "" && !BreaksLine(s[0]) { FirstLineStarts(s[1..]); }
  }

  lemma FirstLineHeading(s: string)
    ensures IsHeadingLine(SplitLines(s)[0]) ==> HeadingAt(s, 0)
  {
    FirstLineStarts(s);
    SplitLinesAreLines(s);
    hide SplitLines;
    var line := SplitLines(s)[0];
    assert OneLine(line);
    assert |line| >= 4 ==> line[3] in line;
  }

  lemma {:induction false} LaterLinesHeading(s: string)
    requires forall c | c in s :: BreaksLine(c) ==> c == '\n'
    requires forall i | 0 < i < |s| :: !HeadingAt(s, i)
    ensures forall k | 0 < k < |SplitLines(s)| :: !IsHeadingLine(SplitLines(s)[k])
  {
    hide BreaksLine, IsHeadingLine;
    if s != "" {
      var tail := s[1..];
      forall i | 0 < i < |tail| ensures !HeadingAt(tail, i) { TailHeading(s, i); }
      assert forall c | c in tail :: c in s;
      TailStart(s);
      hide HeadingAt;
      LaterLinesHeading(tail);
      FirstLineHeading(tail);
      assert s[0] in s;
    }
  }

  lemma TailHeading(s: string, i: nat)
    requires s != "" && 0 < i < |s[1..]| && !HeadingAt(s, i + 1)
    ensures !HeadingAt(s[1..], i)
  {
    var tail := s[1..];
    assert forall m | 0 <= m < |tail| :: tail[m] == s[m + 1];
  }

  lemma TailStart(s: string)
    requires s != "" && forall i | 0 < i < |s| :: !HeadingAt(s, i)
    ensures s[0] == '\n' ==> !HeadingAt(s[1..], 0)
  {
    assert |s| > 1 ==> !HeadingAt(s, 1);
    assert forall m | 0 <= m < |s[1..]| :: s[1..][m] == s[m + 1];
  }

  lemma {:induction false} NonBlankHeading(lines: seq<string>)
    requires NoHeadingLine(lines)
    ensures NoHeadingLine(NonBlank(lines))
  {
    hide IsHeadingLine, Strip;
    if lines != [] { NonBlankHeading(lines[1..]); }
  }

  lemma PreambleHeading(text: string)
    ensures NoHeading(Preamble(text))
  {
    hide RStrip;
    var preamble, first := Preamble(text), NextHeading(text, 0);
    assert preamble <= text[..first];
    hide Preamble;
    forall i | 0 <= i < |preamble| ensures !HeadingAt(preamble, i) {
      assert !HeadingAt(text, i);
      assert forall m | 0 <= m < |preamble| :: preamble[m] == text[m];
    }
  }

  lemma TitlesAreNonBlank(preamble: string)
    requires NoHeadingLine(NonBlank(SplitLines(preamble)))
    ensures NoHeadingLine(TitleLines(preamble))
  {
    hide NonBlank, SplitLines, IsHeadingLine;
  }

  /**
   * In a card whose only line breaks are newlines no title line reads as a heading, so its capsule reads back as
   * exactly the kept sections.
   */
  lemma OrdinaryCardReadsBack(text: string, mode: Mode, comments: seq<string>)
    requires forall c | c in text :: BreaksLine(c) ==> c == '\n'
    requires AllComments(comments) && Render(text, mode, comments, ["", "", "", ""]).Ok?
    ensures Sections(Render(text, mode, comments, ["", "", "", ""]).value) == Kept(text, mode)
  {
    hide BreaksLine, Render, Sections, Kept, HeaderText, AllComments, IsHeadingLine, TitleLines, SplitLines, NonBlank;
    var preamble := Preamble(text);
    ContractReadsBack(text, mode, comments);
    PreambleHeading(text);
    PreamblePrefix(text);
    hide Preamble;
    forall c | c in preamble ensures BreaksLine(c) ==> c == '\n' { assert c in text; }
    if preamble != "" {
      assert !HeadingAt(preamble, 0);
      LaterLinesHeading(preamble);
      FirstLineHeading(preamble);
      NonBlankHeading(SplitLines(preamble));
      TitlesAreNonBlank(preamble);
    }
  }

  lemma PreamblePrefix(text: string)
    ensures forall c | c in Preamble(text) :: c in text
  {
    hide RStrip;
    assert Preamble(text) <= text[..NextHeading(text, 0)];
  }

  lemma TabSplits(tab: char, line: string)
    requires BreaksLine(tab) && (forall c | c in line :: !BreaksLine(c)) && Strip(line) != ""
    ensures TitleLines([tab] + line) == [line]
  {
    hide Strip;
    TabSplitLines(tab, line);
    EmptyStrips();
    hide SplitLines;
    assert ["", line][1..] == [line] && [line][1..] == [];
    assert NonBlank([line]) == [line];
    assert NonBlank(["", line]) == [line];
  }

  lemma TabSplitLines(tab: char, line: string)
    requires BreaksLine(tab) && (forall c | c in line :: !BreaksLine(c))
    ensures SplitLines([tab] + line) == ["", line]
  {
    assert ([tab] + line)[1..] == line;
    PlainLine(line);
    hide BreaksLine;
  }

  lemma EmptyStrips()
    ensures Strip("") == ""
  {}

  /** The capsule reads back as exactly the kept sections if and only if no copied title line reads as a heading. */
  lemma ReadsBackExactly(text: string, mode: Mode, comments: seq<string>)
    requires AllComments(comments) && Render(text, mode, comments, ["", "", "", ""]).Ok?
    ensures Sections(Render(text, mode, comments, ["", "", "", ""]).value) == Kept(text, mode) <==>
              Preamble(text) == "" || NoHeadingLine(TitleLines(Preamble(text)))
  {
    hide *;
    ContractReadsBack(text, mode, comments);
    var header, kept := Sections(HeaderText(comments, Preamble(text))), Kept(text, mode);
    assert header == [] ==> header + kept == kept;
    assert |header + kept| == |header| + |kept|;
  }

  const TAB_LINE: string := ['\U{0b}'] + "## x"

  /** A vertical tab in the preamble: every card that opens with this line and then a section reads back wrong. */
  lemma VerticalTabAddsASection(rest: string, mode: Mode, comments: seq<string>)
    requires HeadingAt(rest, 0) && AllComments(comments)
    requires Render(TAB_LINE + "\n" + rest, mode, comments, ["", "", "", ""]).Ok?
    ensures Sections(Render(TAB_LINE + "\n" + rest, mode, comments, ["", "", "", ""]).value)
            != Kept(TAB_LINE + "\n" + rest, mode)
  {
    TabPreamble(rest);
    TabIsHeading();
    hide Render, AllComments, Kept, Sections, HeadingAt, Preamble, NoHeadingLine, TitleLines, TAB_LINE;
    ReadsBackExactly(TAB_LINE + "\n" + rest, mode, comments);
  }

  const GOAL: string := "## Goal\nx"

  /** The header comments of a bootstrap capsule. */
  const COMMENTS: seq<string> := [
    Glue(["<!-- AIWF ", "execution ", "capsule v1; ", "TASK_CARD_FULL.md ", "remains the ", "audit source. -->"]),
    Glue(["<!-- ", "mode=bootstrap; ", "continuation_kind=", "initial -->"]),
    Glue(["<!-- Bounded ", "execution view: ", "executable ", "contract ", "sections only. -->"])
  ]

  function Glue(pieces: seq<string>): string {
    if pieces == [] then "" else pieces[0] + Glue(pieces[1..])
  }

  /** A card of three lines that renders, and whose capsule reads back with a section too many. */
  lemma TabbedCardReadsBackWrong()
    ensures var card := TAB_LINE + "\n" + GOAL;
            && Render(card, Bootstrap, COMMENTS, ["", "", "", ""]).Ok?
            && Sections(Render(card, Bootstrap, COMMENTS, ["", "", "", ""]).value) != Kept(card, Bootstrap)
  {
    var mode := Bootstrap;
    GoalSection();
    TabHasNoSection();
    CommentsAreComments();
    hide Sections, TAB_LINE, GOAL, COMMENTS, AllComments, HeaderLines, AppendPackets, RStrip, Join, HeadingAt;
    var card := TAB_LINE + "\n" + GOAL;
    SectionsConcat(TAB_LINE + "\n", GOAL);
    assert [] + Sections(GOAL) == Sections(GOAL);
    GoalIsKept(mode, Sections(GOAL)[0]);
    assert Selected([Section("Goal", GOAL)], KeepSet(mode)) == [Section("Goal", GOAL)];
    VerticalTabAddsASection(GOAL, mode, COMMENTS);
  }

  lemma GoalIsKept(mode: Mode, s: Section)
    requires s.name == "Goal"
    ensures s.name in KeepSet(mode) && s.name in GOAL_SECTIONS && Selected([s], KeepSet(mode)) == [s]
  {
    assert "Goal" in DELTA_SECTIONS && "Goal" in BOOTSTRAP_SECTIONS;
    hide KeepSet, GOAL_SECTIONS;
    assert [s][1..] == [];
  }

  lemma GoalSection()
    ensures HeadingAt(GOAL, 0) && Sections(GOAL) == [Section("Goal", GOAL)]
  {
    hide *;
    GoalHeading();
    GoalName();
    GoalStripped();
    OnlySection(GOAL, "Goal", GOAL);
  }

  lemma GoalHeading()
    ensures HeadingAt(GOAL, 0) && forall k | 0 < k < |GOAL| :: !HeadingAt(GOAL, k)
  {}

  lemma GoalStripped()
    ensures RStrip(GOAL) == GOAL
  {
    RStripFixed(GOAL);
  }

  lemma GoalName()
    ensures HeadingAt(GOAL, 0) && NameAt(GOAL, 0) == "Goal"
  {
    hide NameAt, Strip, LineEnd;
    LineEndIs(GOAL, 0, 7);
    NameIs(GOAL, 0);
    BlankBefore("Goal");
    assert GOAL[2..7] == " " + "Goal";
  }

  lemma BlankBefore(s: string)
    requires s != "" && !IsSpace(s[0]) && !IsSpace(s[|s| - 1])
    ensures Strip(" " + s) == s
  {
    assert (" " + s)[1..] == s;
    RStripFixed(" " + s);
    LStripSpace(s);
    hide RStrip, LStrip;
  }

  lemma LStripSpace(s: string)
    requires s != "" && !IsSpace(s[0])
    ensures LStrip(" " + s) == s
  {
    assert (" " + s)[1..] == s;
  }

  lemma TabHasNoSection()
    ensures EndsLine(TAB_LINE + "\n") && Sections(TAB_LINE + "\n") == []
  {
    var h := TAB_LINE + "\n";
    assert !HeadingAt(h, 0) && forall i | 0 <= i < |h| :: !HeadingAt(h, i);
    NoSections(h);
  }

  lemma CommentsAreComments()
    ensures AllComments(COMMENTS)
  {
    FirstComment();
    OtherComments();
    hide Glue, IsComment;
  }

  lemma FirstComment()
    ensures IsComment(COMMENTS[0])
  {
    hide Glue, IsComment;
    GlueIsComment([
      "<!-- AIWF ", "execution ", "capsule v1; ", "TASK_CARD_FULL.md ", "remains the ", "audit source. -->"
    ]);
  }

  lemma OtherComments()
    ensures IsComment(COMMENTS[1]) && IsComment(COMMENTS[2])
  {
    hide Glue, IsComment;
    GlueIsComment(["<!-- ", "mode=bootstrap; ", "continuation_kind=", "initial -->"]);
    GlueIsComment(["<!-- Bounded ", "execution view: ", "executable ", "contract ", "sections only. -->"]);
  }

  lemma GlueIsComment(pieces: seq<string>)
    requires pieces != [] && pieces[0] != "" && pieces[0][0] == '<'
    requires forall i | 0 <= i < |pieces| :: '\n' !in pieces[i]
    ensures IsComment(Glue(pieces))
  {
    GlueHasNoBreak(pieces);
  }

  lemma {:induction false} GlueHasNoBreak(pieces: seq<string>)
    requires forall i | 0 <= i < |pieces| :: '\n' !in pieces[i]
    ensures '\n' !in Glue(pieces)
  {
    if pieces != [] { GlueHasNoBreak(pieces[1..]); }
  }

  lemma TabIsHeading()
    ensures TAB_LINE != "" && !NoHeadingLine(TitleLines(TAB_LINE))
  {
    hide TitleLines;
    TabSplits('\U{0b}', "## x");
    assert IsHeadingLine(TitleLines(TAB_LINE)[0]);
  }

  lemma TabPreamble(rest: string)
    requires HeadingAt(rest, 0)
    ensures Preamble(TAB_LINE + "\n" + rest) == TAB_LINE
  {
    var h := TAB_LINE + "\n";
    assert !HeadingAt(h, 0) && forall i | 0 <= i < |h| :: !HeadingAt(h, i);
    NextHeadingIs(h, 0, |h|);
    NextHeadingInConcat(h, rest, 0);
    assert (h + rest)[..|h|] == h;
    RStripAfter(TAB_LINE, "\n");
    RStripFixed(TAB_LINE);
    hide RStrip, NextHeading, HeadingAt;
  }

  lemma {:induction false} PlainLine(s: string)
    requires forall c | c in s :: !BreaksLine(c)
    ensures SplitLines(s) == [s]
  {
    if s != "" {
      PlainLine(s[1..]);
      assert s[0] in s && s == [s[0]] + s[1..];
    }
  }

  // ----- Shipping packets ---------------------------------------------------------------------------------------

  lemma {:induction false} PacketsExtend(body: string, packets: seq<string>)
    ensures body <= AppendPackets(body, packets)
    decreases |packets|
  {
    if packets != [] {
      PacketsExtend(if packets[0] != "" then body + "\n\n" + packets[0] else body, packets[1..]);
    }
  }

  /**
   * Whatever advisory packets are appended, the capsule that ships renders whenever the contract does and starts
   * with the checked contract text, up to its final line break.
   */
  lemma ShippedStartsWithContract(text: string, mode: Mode, comments: seq<string>, packets: seq<string>)
    requires Render(text, mode, comments, ["", "", "", ""]).Ok?
    ensures Render(text, mode, comments, packets).Ok?
    ensures var contract := Render(text, mode, comments, ["", "", "", ""]).value;
            |contract| > 0 && contract[..|contract| - 1] <= Render(text, mode, comments, packets).value
  {
    hide KeepSet, AllBlocks, Kept, Preamble, HeaderText, Join, AppendPackets, RStrip, IsSpace, Render;
    ContractText(text, mode, comments);
    RenderShape(text, mode, comments, packets);
    KeptAreBlocks(text, mode);
    JoinEndsInText(Kept(text, mode));
    var header, body := HeaderText(comments, Preamble(text)), Join("\n\n", Bodies(Kept(text, mode)));
    PacketsExtend(body, packets);
    var full := AppendPackets(body, packets);
    RStripKeeps(full, |body| - 1);
    PrefixOfBoth(header, body, RStrip(full), full);
  }

  lemma PrefixOfBoth(header: string, body: string, stripped: string, full: string)
    requires body <= full && stripped <= full && |body| <= |stripped|
    ensures (header + (body + "\n"))[..|header + (body + "\n")| - 1] <= header + stripped + "\n"
  {
    assert (header + (body + "\n"))[..|header + (body + "\n")| - 1] == header + body;
    assert body <= stripped;
  }

  /** Whether a card renders does not depend on the packets. */
  lemma RenderShape(text: string, mode: Mode, comments: seq<string>, packets: seq<string>)
    requires Render(text, mode, comments, ["", "", "", ""]).Ok?
    ensures Render(text, mode, comments, packets)
         == Ok(HeaderText(comments, Preamble(text))
               + RStrip(AppendPackets(Join("\n\n", Bodies(Kept(text, mode))), packets)) + "\n")
  {
    hide KeepSet, Selected, Sections, Preamble, HeaderLines, Join, AppendPackets, RStrip, GOAL_SECTIONS;
  }

  // ----- Coverage -------------------------------------------------------------------------------------------------

  datatype Category = WriteBoundary | Acceptance | Validation | StopConditions | Report

  const CATEGORIES := [WriteBoundary, Acceptance, Validation, StopConditions, Report]

  /** `HARD_CONTRACT_GROUPS` */
  function GroupNames(c: Category): set<string> {
    match c
    case WriteBoundary => {"Scope", "Handoff Contract", "Revision Delta", "Required Changes", "Required Revisions"}
    case Acceptance => {"Acceptance Criteria"}
    case Validation => {"Validation Contract"}
    case StopConditions => {"Stop Conditions"}
    case Report => {"Required Report"}
  }

  datatype GroupReport = GroupReport(category: Category, present: seq<Section>, covered: seq<Section>,
      dropped: seq<Section>)
  datatype CoverageError = DroppedSections | MissingCategories(missing: seq<Category>)

  /** The sections of a list that are, or are not, among others. */
  function Among(sections: seq<Section>, others: seq<Section>, wanted: bool): seq<Section> {
    if sections == [] then []
    else
      var last := sections[|sections| - 1];
      Among(sections[..|sections| - 1], others, wanted) + (if (last in others) == wanted then [last] else [])
  }

  function ReportFor(c: Category, source: seq<Section>, capsule: seq<Section>): GroupReport {
    var present := Selected(source, GroupNames(c));
    GroupReport(c, present, Among(present, capsule, true), Among(present, capsule, false))
  }

  function Reports(categories: seq<Category>, source: seq<Section>, capsule: seq<Section>): (r: seq<GroupReport>)
    ensures |r| == |categories|
    ensures forall i | 0 <= i < |r| :: r[i] == ReportFor(categories[i], source, capsule)
  {
    seq(|categories|, i requires 0 <= i < |categories| => ReportFor(categories[i], source, capsule))
  }

  function Missing(categories: seq<Category>, source: seq<Section>): seq<Category> {
    if categories == [] then []
    else
      var last := categories[|categories| - 1];
      Missing(categories[..|categories| - 1], source)
      + (if Selected(source, GroupNames(last)) == [] then [last] else [])
  }

  function CoverageOf(source: seq<Section>, capsule: seq<Section>, requireComplete: bool)
    : Result<seq<GroupReport>, CoverageError>
  {
    if exists c | c in CATEGORIES :: ReportFor(c, source, capsule).dropped != [] then Err(DroppedSections)
    else if requireComplete && Missing(CATEGORIES, source) != [] then
      Err(MissingCategories(Missing(CATEGORIES, source)))
    else Ok(Reports(CATEGORIES, source, capsule))
  }

  /** The dictionary of the capsule's bodies by name. */
  method IndexBodies(capsule: seq<Section>) returns (bodies: map<string, seq<string>>)
    ensures forall name, body :: (name in bodies && body in bodies[name]) <==> Section(name, body) in capsule
  {
    bodies := map[];
    for index := 0 to |capsule|
      invariant forall name, body ::
                  (name in bodies && body in bodies[name]) <==> Section(name, body) in capsule[..index]
    {
      var s := capsule[index];
      bodies := bodies[s.name := (if s.name in bodies then bodies[s.name] else []) + [s.body]];
      assert capsule[..index + 1] == capsule[..index] + [s];
    }
    assert capsule[..|capsule|] == capsule;
  }

  method CheckGroup(c: Category, source: seq<Section>, bodies: map<string, seq<string>>, ghost capsule: seq<Section>)
    returns (report: GroupReport)
    requires forall name, body :: (name in bodies && body in bodies[name]) <==> Section(name, body) in capsule
    ensures report == ReportFor(c, source, capsule)
  {
    hide GroupNames, Selected;
    var present := Selected(source, GroupNames(c));
    var covered: seq<Section>, dropped: seq<Section> := [], [];
    for index := 0 to |present|
      invariant covered == Among(present[..index], capsule, true) && dropped == Among(present[..index], capsule, false)
    {
      var s := present[index];
      assert present[..index + 1][..index] == present[..index];
      assert s == Section(s.name, s.body);
      if s.name in bodies && s.body in bodies[s.name] {
        covered := covered + [s];
      } else {
        dropped := dropped + [s];
      }
    }
    assert present[..|present|] == present;
    report := GroupReport(c, present, covered, dropped);
  }

  /** `_hard_contract_coverage` */
  method HardContractCoverage(sourceText: string, capsuleText: string, requireComplete: bool)
    returns (r: Result<seq<GroupReport>, CoverageError>)
    ensures r == CoverageOf(Sections(sourceText), Sections(capsuleText), requireComplete)
  {
    hide Sections, GroupNames, Selected, Among;
    var _, source := ParseSections(sourceText);
    var _, capsule := ParseSections(capsuleText);
    var bodies := IndexBodies(capsule);
    var groups: seq<GroupReport>, missing: seq<Category>, dropped := [], [], false;
    for index := 0 to |CATEGORIES|
      invariant groups == Reports(CATEGORIES[..index], source, capsule)
      invariant missing == Missing(CATEGORIES[..index], source)
      invariant dropped <==> exists c | c in CATEGORIES[..index] :: ReportFor(c, source, capsule).dropped != []
    {
      var c := CATEGORIES[index];
      assert CATEGORIES[..index + 1] == CATEGORIES[..index] + [c];
      assert CATEGORIES[..index + 1][..index] == CATEGORIES[..index];
      var report := CheckGroup(c, source, bodies, capsule);
      if report.dropped != [] { dropped := true; }
      if report.present == [] { missing := missing + [c]; }
      groups := groups + [report];
    }
    assert CATEGORIES[..|CATEGORIES|] == CATEGORIES;
    if dropped { return Err(DroppedSections); }
    if requireComplete && missing != [] { return Err(MissingCategories(missing)); }
    r := Ok(groups);
  }

  lemma HardNamesAreKept(c: Category, mode: Mode)
    ensures GroupNames(c) <= KeepSet(mode)
  {}

  lemma {:induction false} SelectedMembers(sections: seq<Section>, names: set<string>)
    ensures forall s :: s in Selected(sections, names) <==> s in sections && s.name in names
  {
    if sections != [] {
      SelectedMembers(sections[1..], names);
      assert sections == [sections[0]] + sections[1..];
    }
  }

  lemma {:induction false} AllAmong(sections: seq<Section>, others: seq<Section>)
    requires forall s | s in sections :: s in others
    ensures Among(sections, others, true) == sections && Among(sections, others, false) == []
  {
    if sections != [] {
      var front := sections[..|sections| - 1];
      assert sections == front + [sections[|sections| - 1]];
      AllAmong(front, others);
    }
  }

  /** No group of a contract-only capsule drops a section. */
  lemma GroupIsCovered(c: Category, text: string, mode: Mode, comments: seq<string>)
    requires AllComments(comments) && Render(text, mode, comments, ["", "", "", ""]).Ok?
    ensures var report := ReportFor(c, Sections(text), Sections(Render(text, mode, comments, ["", "", "", ""]).value));
            report.dropped == [] && report.covered == report.present
  {
    ContractReadsBack(text, mode, comments);
    HardNamesAreKept(c, mode);
    hide GroupNames, KeepSet, Sections, Selected, Render, HeaderText, Preamble, AllComments, TitleLines, Among;
    var capsule := Sections(Render(text, mode, comments, ["", "", "", ""]).value);
    SelectedMembers(Sections(text), GroupNames(c));
    SelectedMembers(Sections(text), KeepSet(mode));
    var present := Selected(Sections(text), GroupNames(c));
    forall s | s in present ensures s in capsule {
      assert s in Kept(text, mode);
    }
    AllAmong(present, capsule);
  }

  /**
   * For every card that renders and either mode, the coverage check of its contract-only capsule never finds a
   * dropped section: it succeeds exactly when completeness is not demanded or no category is missing.
   */
  lemma CoverageNeverDrops(text: string, mode: Mode, comments: seq<string>, requireComplete: bool)
    requires AllComments(comments) && Render(text, mode, comments, ["", "", "", ""]).Ok?
    ensures var capsule := Sections(Render(text, mode, comments, ["", "", "", ""]).value);
            var coverage := CoverageOf(Sections(text), capsule, requireComplete);
            && coverage != Err(DroppedSections)
            && (coverage.Ok? <==> !(requireComplete && Missing(CATEGORIES, Sections(text)) != []))
  {
    hide Sections, Render, ReportFor, Missing, AllComments;
    forall c | c in CATEGORIES
      ensures ReportFor(c, Sections(text), Sections(Render(text, mode, comments, ["", "", "", ""]).value)).dropped == []
    {
      GroupIsCovered(c, text, mode, comments);
    }
  }
}
