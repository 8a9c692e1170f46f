/**
 * The execution capsule of scripts/build-execution-capsule.py: rendering the executable sections of a task card,
 * and proving that no hard-contract section was dropped.
 */
module ExecutionCapsule {
  import opened Wrappers
  import opened Strings
  import opened CardSections

  const BOOTSTRAP_SECTIONS := {
    "ID", "Task Mode", "Goal", "Scope", "Context", "Claude Context Packet",
    "Builder Contract", "Batch Builder Gate", "Exploratory Builder Contract",
    "Handoff Contract", "Revision Delta", "Dependency Summary", "Required Revisions", "Required Changes",
    "Acceptance Criteria", "Spec Gate", "Root Cause Gate", "Test-First / TDD Contract",
    "Post-Implementation Contract", "Required Invariants", "Testing Responsibility", "Validation Contract",
    "Temporary File Policy", "Stop Conditions", "Files / Modules", "Required Report"}

  const DELTA_SECTIONS := {
    "ID", "Task Mode", "Goal", "Scope", "Claude Context Packet", "Revision Delta", "Dependency Summary",
    "Handoff Contract", "Required Revisions", "Required Changes", "Acceptance Criteria", "Testing Responsibility",
    "Validation Contract", "Temporary File Policy", "Stop Conditions", "Required Report",
    "Post-Implementation Contract", "Required Invariants"}

  const GOAL_SECTIONS := {"Goal", "Handoff Contract", "Required Changes", "Required Revisions"}

  datatype Mode = Bootstrap | Delta

  function KeepSet(mode: Mode): set<string> {
    if mode == Delta then DELTA_SECTIONS else BOOTSTRAP_SECTIONS
  }

  // ----- Rendering ------------------------------------------------------------------------------------------

  function Selected(sections: seq<Section>, keep: set<string>): seq<Section> {
    if sections == [] then []
    else (if sections[0].name in keep then [sections[0]] else []) + Selected(sections[1..], keep)
  }

  function Bodies(sections: seq<Section>): (r: seq<string>)
    ensures |r| == |sections| && forall i | 0 <= i < |r| :: r[i] == sections[i].body
  {
    seq(|sections|, i requires 0 <= i < |sections| => sections[i].body)
  }

  /** The characters at which `str.splitlines` breaks. */
  predicate BreaksLine(c: char) {
    '\n' <= c <= '\r' || '\U{1c}' <= c <= '\U{1e}' || c == '\U{85}' || c == '\U{2028}' || c == '\U{2029}'
  }

  /** `str.splitlines`, up to empty lines, which `render` skips. */
  function SplitLines(s: string): (r: seq<string>)
    ensures |r| >= 1
  {
    if s == "" then [""]
    else
      var rest := SplitLines(s[1..]);
      if BreaksLine(s[0]) then [""] + rest else [[s[0]] + rest[0]] + rest[1..]
  }

  function NonBlank(lines: seq<string>): seq<string> {
    if lines == [] then [] else (if Strip(lines[0]) != "" then [lines[0]] else []) + NonBlank(lines[1..])
  }

  /** At most eight lines of identity from the preamble. */
  function TitleLines(preamble: string): seq<string> {
    var lines := NonBlank(SplitLines(preamble));
    if |lines| > 8 then lines[..8] else lines
  }

  /** A fixed comment line of the capsule header. */
  predicate IsComment(line: string) {
    line != "" && line[0] == '<' && '\n' !in line
  }

  /** The header: comment lines, then the title lines, each group followed by an empty line. */
  function HeaderLines(comments: seq<string>, preamble: string): seq<string> {
    comments + [""] + (if preamble != "" then TitleLines(preamble) + [""] else [])
  }

  function AppendPackets(body: string, packets: seq<string>): string
    decreases |packets|
  {
    if packets == [] then body
    else AppendPackets(if packets[0] != "" then body + "\n\n" + packets[0] else body, packets[1..])
  }

  datatype RenderError = NoExecutableSections | NoGoal

  /**
   * `render`: `comments` are the three comment lines of the header, `packets` the checkpoint, the recovery delta,
   * the reviewed continuation and the compiled context, in that order.
   */
  function Render(text: string, mode: Mode, comments: seq<string>, packets: seq<string>): Result<string, RenderError> {
    var selected := Selected(Sections(text), KeepSet(mode));
    if selected == [] then Err(NoExecutableSections)
    else if !exists s | s in selected :: s.name in GOAL_SECTIONS then Err(NoGoal)
    else
      Ok(Join("\n", HeaderLines(comments, Preamble(text)))
         + RStrip(AppendPackets(Join("\n\n", Bodies(selected)), packets)) + "\n")
  }

  // ----- Sections survive rendering ----------------------------------------------------------------------------

  lemma {:induction false} RStripAfter(s: string, z: string)
    requires AllSpace(z)
    ensures RStrip(s + z) == RStrip(s)
  {
    if z == "" {
      assert s + z == s;
    } else {
      var z' := z[..|z| - 1];
      assert (s + z)[..|s + z| - 1] == s + z';
      assert z[|z| - 1] in z;
      RStripAfter(s, z');
    }
  }

  lemma RStripFixed(s: string)
    requires s == "" || !IsSpace(s[|s| - 1])
    ensures RStrip(s) == s
  {}

  /** Cutting trailing white space off a block keeps everything up to its last other character. */
  lemma RStripKeeps(s: string, i: nat)
    requires i < |s| && !IsSpace(s[i])
    ensures i < |RStrip(s)|
  {
    var kept := |RStrip(s)|;
    forall k | kept <= k < |s| ensures IsSpace(s[k]) {
      assert s[kept..][k - kept] == s[k];
    }
  }

  /** A stripped string that is not empty holds a character that is not white space. */
  lemma StripFinds(s: string) returns (i: nat)
    requires Strip(s) != ""
    ensures i < |s| && !IsSpace(s[i])
  {
    i := |RStrip(s)| - 1;
  }

  /** A block: one section's text, alone in its lines. */
  ghost predicate IsBlock(body: string, name: string) {
    && HeadingAt(body, 0) && NameAt(body, 0) == name
    && (forall i | 0 < i < |body| :: !HeadingAt(body, i))
    && RStrip(body) == body && body != ""
  }

  /** A kept section, cut out of its card, is a block of its own. */
  lemma SectionIsBlock(t: string, i: nat, j: nat)
    requires HeadingAt(t, i) && j == NextHeading(t, i + 1) && NameAt(t, i) != ""
    ensures IsBlock(RStrip(t[i..j]), NameAt(t, i))
  {
    hide *;
    var body := RStrip(t[i..j]);
    BlockStart(t, i, j);
    BlockHasNoMore(t, i, j);
    BlockName(t, i, j);
    RStripFixed(body);
    BlockIntro(body, NameAt(t, i));
  }

  lemma BlockIntro(body: string, name: string)
    requires HeadingAt(body, 0) && NameAt(body, 0) == name && RStrip(body) == body && body != ""
    requires forall k | 0 < k < |body| :: !HeadingAt(body, k)
    ensures IsBlock(body, name)
  {
    hide HeadingAt, NameAt, RStrip;
  }

  /** The heading line of a named section survives the stripping of its block. */
  lemma BlockStart(t: string, i: nat, j: nat)
    requires HeadingAt(t, i) && j == NextHeading(t, i + 1) && NameAt(t, i) != ""
    ensures i + 4 <= j && 4 <= |RStrip(t[i..j])| && HeadingAt(RStrip(t[i..j]), 0)
  {
    hide Strip, RStrip;
    HeadingsApart(t, i, j);
    LineEndAfterMark(t, i);
    var end := LineEnd(t, i);
    var k := StripFinds(t[i + 2..end]);
    assert t[i + 2..end][k] == t[i + 2 + k];
    LineBeforeNext(t, i, j);
    assert t[i..j][2 + k] == t[i + 2 + k];
    assert IsSpace(t[i + 2]);
    RStripKeeps(t[i..j], 2 + k);
    var body := RStrip(t[i..j]);
    assert body[0] == t[i] && body[1] == t[i + 1] && body[2] == t[i + 2] && body[3] == t[i + 3];
  }

  lemma HeadingsApart(t: string, i: nat, j: nat)
    requires HeadingAt(t, i) && j == NextHeading(t, i + 1)
    ensures i + 4 <= j
  {
    assert j < |t| ==> t[j - 1] == '\n' && t[j] == '#';
  }

  /** The heading line ends before the next heading. */
  lemma LineBeforeNext(t: string, i: nat, j: nat)
    requires HeadingAt(t, i) && j == NextHeading(t, i + 1)
    ensures LineEnd(t, i) <= j
  {
    HeadingsApart(t, i, j);
    hide NextHeading;
    assert j < |t| ==> t[j - 1] == '\n';
  }

  lemma BlockHasNoMore(t: string, i: nat, j: nat)
    requires HeadingAt(t, i) && j == NextHeading(t, i + 1)
    ensures forall k | 0 < k < |RStrip(t[i..j])| :: !HeadingAt(RStrip(t[i..j]), k)
  {
    var body := RStrip(t[i..j]);
    hide RStrip;
    forall k | 0 < k < |body| ensures !HeadingAt(body, k) {
      assert HeadingAt(body, k) ==> HeadingAt(t, i + k) by {
        forall m | 0 <= m < |body| ensures body[m] == t[i + m] {}
      }
    }
  }

  /** Where the heading line ends in a stripped block. */
  lemma BlockLine(t: string, i: nat, j: nat, body: string)
    requires HeadingAt(t, i) && LineEnd(t, i) <= j <= |t| && i < j
    requires body <= t[i..j] && AllSpace(t[i..j][|body|..]) && 4 <= |body|
    ensures var end := LineEnd(t, i);
            if end - i < |body| then LineEnd(body, 0) == end - i && body[2..end - i] == t[i + 2..end]
            else
              && LineEnd(body, 0) == |body| && AllSpace(t[i + |body|..end])
              && t[i + 2..end] == body[2..] + t[i + |body|..end]
  {
    hide *;
    LineEndAfterMark(t, i);
    StartMatches(t, i, j, body);
    if LineEnd(t, i) - i < |body| {
      LineInside(t, i, body);
    } else {
      LineCut(t, i, body);
      SpaceBefore(t, i, j, |body|, LineEnd(t, i));
    }
  }

  lemma StartMatches(t: string, i: nat, j: nat, body: string)
    requires i <= j <= |t| && body <= t[i..j]
    ensures i + |body| <= |t| && forall k | 0 <= k < |body| :: body[k] == t[i + k]
  {
    assert forall k | 0 <= k < |body| :: body[k] == t[i..j][k];
  }

  /** The heading line ends inside the block. */
  lemma LineInside(t: string, i: nat, body: string)
    requires i + |body| <= |t| && forall k | 0 <= k < |body| :: body[k] == t[i + k]
    requires i + 2 <= LineEnd(t, i) < i + |body|
    ensures var end := LineEnd(t, i); LineEnd(body, 0) == end - i && body[2..end - i] == t[i + 2..end]
  {
    hide LineEnd;
    LineEndIs(body, 0, LineEnd(t, i) - i);
  }

  /** The block is cut off inside the heading line. */
  lemma LineCut(t: string, i: nat, body: string)
    requires 2 <= |body| && i + |body| <= |t| && forall k | 0 <= k < |body| :: body[k] == t[i + k]
    requires i + |body| <= LineEnd(t, i)
    ensures var end := LineEnd(t, i); LineEnd(body, 0) == |body| && t[i + 2..end] == body[2..] + t[i + |body|..end]
  {
    hide LineEnd;
    LineEndIs(body, 0, |body|);
  }

  lemma SpaceBefore(t: string, i: nat, j: nat, n: nat, end: nat)
    requires i + n <= end <= j <= |t| && AllSpace(t[i..j][n..])
    ensures AllSpace(t[i + n..end])
  {
    hide IsSpace;
    assert t[i..j][n..] == t[i + n..end] + t[end..j];
  }

  lemma NameIs(t: string, i: nat)
    requires HeadingAt(t, i)
    ensures i + 2 <= LineEnd(t, i) && NameAt(t, i) == Strip(t[i + 2..LineEnd(t, i)])
  {
    hide Strip;
    LineEndAfterMark(t, i);
  }

  lemma StripAfter(s: string, z: string)
    requires AllSpace(z)
    ensures Strip(s + z) == Strip(s)
  {
    hide RStrip, LStrip;
    RStripAfter(s, z);
  }

  /** Stripping a block keeps the name in its heading line. */
  lemma BlockName(t: string, i: nat, j: nat)
    requires HeadingAt(t, i) && j == NextHeading(t, i + 1) && NameAt(t, i) != ""
    ensures HeadingAt(RStrip(t[i..j]), 0) && NameAt(RStrip(t[i..j]), 0) == NameAt(t, i)
  {
    BlockStart(t, i, j);
    LineBeforeNext(t, i, j);
    hide NextHeading, HeadingAt, IsSpace, RStrip, Strip, NameAt, AllSpace;
    NameOfStart(t, i, j, RStrip(t[i..j]));
  }

  /** A start of a block that only lacks white space has the block's name. */
  lemma NameOfStart(t: string, i: nat, j: nat, body: string)
    requires HeadingAt(t, i) && LineEnd(t, i) <= j <= |t| && i < j
    requires body <= t[i..j] && AllSpace(t[i..j][|body|..]) && 4 <= |body| && HeadingAt(body, 0)
    ensures NameAt(body, 0) == NameAt(t, i)
  {
    hide HeadingAt, IsSpace, RStrip, LStrip, Strip, NameAt, AllSpace, LineEnd;
    BlockLine(t, i, j, body);
    NameIs(t, i);
    NameIs(body, 0);
    var end := LineEnd(t, i);
    if end - i >= |body| {
      StripAfter(body[2..], t[i + |body|..end]);
      assert body[2..|body|] == body[2..];
    }
  }

  /** A block followed by a line break reads back as its one section. */
  lemma BlockReadsBack(body: string, name: string, z: string)
    requires IsBlock(body, name) && (z == "\n" || z == "\n\n")
    ensures HeadingAt(body + z, 0) && Sections(body + z) == [Section(name, body)]
  {
    BlockHeadings(body, name, z);
    NameBeforeBreak(body, name, z);
    assert AllSpace(z);
    RStripAfter(body, z);
    assert RStrip(body + z) == body;
    OnlySection(body + z, name, body);
  }

  lemma NotEmpty(t: string)
    requires HeadingAt(t, 0)
    ensures 4 <= |t|
  {}

  lemma OnlySection(t: string, name: string, body: string)
    requires HeadingAt(t, 0) && (forall k | 0 < k < |t| :: !HeadingAt(t, k)) && NameAt(t, 0) == name
        && RStrip(t) == body
    ensures Sections(t) == [Section(name, body)]
  {
    hide HeadingAt, NameAt, RStrip, NextHeading;
    NextHeadingIs(t, 0, 0);
    assert 1 <= |t| by { NotEmpty(t); }
    NextHeadingIs(t, 1, |t|);
    assert t[0..|t|] == t;
    SectionsStep(t, 0, |t|);
  }

  lemma BlockHeadings(body: string, name: string, z: string)
    requires IsBlock(body, name) && (z == "\n" || z == "\n\n")
    ensures HeadingAt(body + z, 0)
    ensures forall k | 0 < k < |body + z| :: !HeadingAt(body + z, k)
  {
    hide NameAt, RStrip;
    var t := body + z;
    forall k | 0 < k < |t| ensures !HeadingAt(t, k) {
      assert t[|body|] == '\n';
      if k + 4 <= |body| {
        assert !HeadingAt(body, k);
        assert t[k..k + 4] == body[k..k + 4];
      }
    }
  }

  lemma NameBeforeBreak(body: string, name: string, z: string)
    requires IsBlock(body, name) && (z == "\n" || z == "\n\n") && HeadingAt(body + z, 0)
    ensures NameAt(body + z, 0) == name
  {
    hide RStrip, Strip;
    var t, end := body + z, LineEnd(body, 0);
    LineEndAfterMark(body, 0);
    LineEndIs(t, 0, end);
    assert t[2..end] == body[2..end];
  }

  ghost predicate AllBlocks(sections: seq<Section>) {
    forall i | 0 <= i < |sections| :: IsBlock(sections[i].body, sections[i].name)
  }

  /** Blocks joined by empty lines read back as their sections. */
  lemma {:induction false} BlocksReadBack(sections: seq<Section>)
    requires sections != [] && AllBlocks(sections)
    ensures var t := Join("\n\n", Bodies(sections)) + "\n";
            HeadingAt(t, 0) && Sections(t) == sections
  {
    hide HeadingAt, Sections, RStrip, NameAt;
    var s := sections[0];
    assert IsBlock(s.body, s.name);
    if |sections| == 1 {
      BlockReadsBack(s.body, s.name, "\n");
      assert sections == [Section(s.name, s.body)];
    } else {
      var rest := sections[1..];
      BlocksReadBack(rest);
      BlockReadsBack(s.body, s.name, "\n\n");
      var tail := Join("\n\n", Bodies(rest)) + "\n";
      var head := s.body + "\n\n";
      assert Bodies(sections)[1..] == Bodies(rest);
      assert Join("\n\n", Bodies(sections)) + "\n" == head + tail;
      SectionsConcat(head, tail);
      HeadingInConcat(head, tail, 0);
      assert sections == [Section(s.name, s.body)] + rest;
    }
  }

  /** The bodies end in a character that is not white space, and so does their join. */
  lemma {:induction false} JoinEndsInText(sections: seq<Section>)
    requires sections != [] && AllBlocks(sections)
    ensures var body := Join("\n\n", Bodies(sections));
            body != "" && !IsSpace(body[|body| - 1])
  {
    hide HeadingAt, NameAt, IsSpace;
    var s := sections[0];
    assert IsBlock(s.body, s.name);
    if |sections| > 1 {
      var rest := sections[1..];
      JoinEndsInText(rest);
      assert Bodies(sections)[1..] == Bodies(rest);
      var tail := Join("\n\n", Bodies(rest));
      assert Join("\n\n", Bodies(sections)) == s.body + "\n\n" + tail;
    }
  }

  lemma {:induction false} SelectedAreBlocks(t: string, i: nat, keep: set<string>)
    requires i <= |t| && (i < |t| ==> HeadingAt(t, i)) && "" !in keep
    ensures AllBlocks(Selected(SectionsFrom(t, i), keep))
    decreases |t| - i
  {
    hide HeadingAt, NameAt, RStrip, IsBlock;
    if i < |t| {
      var j := NextHeading(t, i + 1);
      SelectedAreBlocks(t, j, keep);
      SectionsStep(t, i, j);
      if NameAt(t, i) in keep { SectionIsBlock(t, i, j); }
      hide NextHeading, SectionsFrom;
      assert SectionsFrom(t, i)[1..] == SectionsFrom(t, j);
    }
  }
}
