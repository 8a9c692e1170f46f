/** The text of an execution capsule: which sections, title lines and packets it holds, in which order. */
module CapsuleContents {
  import opened Wrappers
  import opened Strings
  import opened CardSections
  import opened ExecutionCapsule
  import opened CapsuleCoverage
  import opened Selections

  function NamedIn(names: set<string>): Section -> bool {
    (s: Section) => s.name in names
  }

  /** The sections of a card that a mode keeps, in the order of the card. */
  ghost predicate Keeps(kept: seq<Section>, text: string, mode: Mode) {
    && (mode == Bootstrap ==> Lists(kept, Sections(text), NamedIn(BOOTSTRAP_SECTIONS)))
    && (mode == Delta ==> Lists(kept, Sections(text), NamedIn(DELTA_SECTIONS)))
  }

  lemma {:induction false} SelectedListed(sections: seq<Section>, names: set<string>)
    ensures Lists(Selected(sections, names), sections, NamedIn(names))
  {
    hide Lists;
    if sections == [] {
      NothingListed(NamedIn(names));
    } else {
      SelectedListed(sections[1..], names);
      ListsCons(Selected(sections[1..], names), sections[1..], NamedIn(names), sections[0]);
      assert [sections[0]] + sections[1..] == sections;
    }
  }

  lemma KeptAreKept(text: string, mode: Mode)
    ensures Keeps(Kept(text, mode), text, mode)
  {
    hide Selected, Sections, Lists, BOOTSTRAP_SECTIONS, DELTA_SECTIONS;
    SelectedListed(Sections(text), KeepSet(mode));
  }

  lemma OneKept(a: seq<Section>, b: seq<Section>, text: string, mode: Mode)
    requires Keeps(a, text, mode) && Keeps(b, text, mode)
    ensures a == b
  {
    hide Lists, Sections, BOOTSTRAP_SECTIONS, DELTA_SECTIONS;
    ListsUnique(a, b, Sections(text), NamedIn(if mode == Delta then DELTA_SECTIONS else BOOTSTRAP_SECTIONS));
  }

  /**
   * Reading a contract-only capsule back gives the sections of its header and then the sections at exactly those
   * positions of the card whose names the mode keeps, in the order of the card.
   */
  lemma CapsuleHoldsKept(text: string, mode: Mode, comments: seq<string>)
    requires AllComments(comments) && Render(text, mode, comments, ["", "", "", ""]).Ok?
    ensures exists kept :: Keeps(kept, text, mode)
                           && Sections(Render(text, mode, comments, ["", "", "", ""]).value)
                              == Sections(HeaderText(comments, Preamble(text))) + kept
  {
    hide *;
    ContractReadsBack(text, mode, comments);
    KeptAreKept(text, mode);
  }

  /** These are all it holds if and only if no copied title line reads as a heading. */
  lemma HoldsKeptExactly(text: string, mode: Mode, comments: seq<string>)
    requires AllComments(comments) && Render(text, mode, comments, ["", "", "", ""]).Ok?
    ensures Keeps(Sections(Render(text, mode, comments, ["", "", "", ""]).value), text, mode) <==>
              Preamble(text) == "" || NoHeadingLine(TitleLines(Preamble(text)))
  {
    hide *;
    ReadsBackExactly(text, mode, comments);
    KeptAreKept(text, mode);
    var read := Sections(Render(text, mode, comments, ["", "", "", ""]).value);
    if Keeps(read, text, mode) { OneKept(read, Kept(text, mode), text, mode); }
  }

  /** In a card whose only line breaks are newlines they always are. */
  lemma OrdinaryCardHoldsKept(text: string, mode: Mode, comments: seq<string>)
    requires forall c | c in text :: BreaksLine(c) ==> c == '\n'
    requires AllComments(comments) && Render(text, mode, comments, ["", "", "", ""]).Ok?
    ensures Keeps(Sections(Render(text, mode, comments, ["", "", "", ""]).value), text, mode)
  {
    hide *;
    OrdinaryCardReadsBack(text, mode, comments);
    KeptAreKept(text, mode);
  }

  /** A card renders unless its mode keeps none of its sections, or keeps none that says what to do. */
  lemma RendersExactly(text: string, mode: Mode, comments: seq<string>, packets: seq<string>)
    ensures var kept := set s | s in Sections(text)
                && s.name in (if mode == Delta then DELTA_SECTIONS else BOOTSTRAP_SECTIONS) :: s.name;
            var goals := {"Goal", "Handoff Contract", "Required Changes", "Required Revisions"};
            && (Render(text, mode, comments, packets) == Err(NoExecutableSections) <==> kept == {})
            && (Render(text, mode, comments, packets) == Err(NoGoal) <==> kept != {} && kept !! goals)
            && (Render(text, mode, comments, packets).Ok? <==> !(kept !! goals))
  {
    SelectedMembers(Sections(text), KeepSet(mode));
    assert GOAL_SECTIONS == {"Goal", "Handoff Contract", "Required Changes", "Required Revisions"};
    hide Selected, Sections, BOOTSTRAP_SECTIONS, DELTA_SECTIONS, GOAL_SECTIONS, Join, HeaderLines, AppendPackets;
    hide RStrip, Preamble;
    var kept := set s | s in Sections(text)
        && s.name in (if mode == Delta then DELTA_SECTIONS else BOOTSTRAP_SECTIONS) :: s.name;
    assert kept == KeptNames(Sections(text), KeepSet(mode));
    NamesOfKept(Sections(text), KeepSet(mode), GOAL_SECTIONS);
  }

  function KeptNames(sections: seq<Section>, keep: set<string>): set<string> {
    set s | s in sections && s.name in keep :: s.name
  }

  lemma NamesOfKept(sections: seq<Section>, keep: set<string>, goals: set<string>)
    ensures var (selected, kept) := (Selected(sections, keep), KeptNames(sections, keep));
            && (selected == [] <==> kept == {})
            && ((exists s | s in selected :: s.name in goals) <==> !(kept !! goals))
  {
    SelectedMembers(sections, keep);
    hide Selected;
    var (selected, kept) := (Selected(sections, keep), KeptNames(sections, keep));
    assert forall s | s in selected :: s.name in kept;
    forall name | name in kept ensures exists s | s in selected :: s.name == name {
      var s :| s in sections && s.name == name && s.name in keep;
      assert s in selected;
    }
    if selected != [] { assert selected[0] in selected; }
  }

  // ----- The header -------------------------------------------------------------------------------------------------

  /** Every line followed by a newline. */
  function Ended(lines: seq<string>): string {
    if lines == [] then "" else lines[0] + "\n" + Ended(lines[1..])
  }

  lemma {:induction false} JoinEnds(lines: seq<string>)
    ensures Join("\n", lines + [""]) == Ended(lines)
  {
    if lines == [] {
      assert lines + [""] == [""];
    } else {
      JoinEnds(lines[1..]);
      assert (lines + [""])[1..] == lines[1..] + [""];
    }
  }

  lemma {:induction false} EndedConcat(a: seq<string>, b: seq<string>)
    ensures Ended(a + b) == Ended(a) + Ended(b)
  {
    if a == [] {
      assert a + b == b;
    } else {
      EndedConcat(a[1..], b);
      assert (a + b)[1..] == a[1..] + b;
    }
  }

  /** The lines with the characters that broke them apart. */
  ghost function Rejoined(lines: seq<string>, breaks: string): string
    requires |lines| == |breaks| + 1
  {
    if breaks == "" then lines[0] else lines[0] + [breaks[0]] + Rejoined(lines[1..], breaks[1..])
  }

  ghost predicate BrokenAt(s: string, lines: seq<string>, breaks: string) {
    |lines| == |breaks| + 1 && s == Rejoined(lines, breaks) && forall c | c in breaks :: BreaksLine(c)
  }

  /** A text is broken into lines at all its line-breaking characters and nowhere else. */
  lemma {:induction false} SplitLinesExactly(s: string)
    ensures exists breaks :: BrokenAt(s, SplitLines(s), breaks)
    ensures forall i | 0 <= i < |SplitLines(s)| :: forall c | c in SplitLines(s)[i] :: !BreaksLine(c)
  {
    hide BreaksLine;
    if s == "" {
      assert BrokenAt(s, SplitLines(s), "");
    } else {
      SplitLinesExactly(s[1..]);
      var (rest, lines) := (SplitLines(s[1..]), SplitLines(s));
      var breaks :| BrokenAt(s[1..], rest, breaks);
      assert s == [s[0]] + s[1..];
      if BreaksLine(s[0]) {
        assert lines[1..] == rest && ([s[0]] + breaks)[1..] == breaks;
        assert BrokenAt(s, lines, [s[0]] + breaks);
      } else {
        assert lines[1..] == rest[1..];
        assert BrokenAt(s, lines, breaks);
      }
    }
  }

  predicate HasText(line: string) {
    Strip(line) != ""
  }

  /** The first eight lines of the preamble that are not blank. */
  lemma TitlesExactly(preamble: string)
    ensures exists lines :: Lists(lines, SplitLines(preamble), HasText)
                            && TitleLines(preamble) == if |lines| <= 8 then lines else lines[..8]
  {
    hide Lists, HasText, SplitLines;
    NonBlankListed(SplitLines(preamble));
    assert TitleLines(preamble) == if |NonBlank(SplitLines(preamble))| <= 8 then NonBlank(SplitLines(preamble))
                                   else NonBlank(SplitLines(preamble))[..8];
  }

  lemma {:induction false} NonBlankListed(lines: seq<string>)
    ensures Lists(NonBlank(lines), lines, HasText)
  {
    hide Lists, Strip;
    if lines == [] {
      NothingListed(HasText);
    } else {
      NonBlankListed(lines[1..]);
      ListsCons(NonBlank(lines[1..]), lines[1..], HasText, lines[0]);
      assert [lines[0]] + lines[1..] == lines;
    }
  }

  /** The whole contract-only capsule: comment lines, after an empty line the title lines of a preamble, then the kept
      bodies with an empty line between any two. */
  lemma ContractIs(text: string, mode: Mode, comments: seq<string>)
    requires Render(text, mode, comments, ["", "", "", ""]).Ok?
    ensures exists kept ::
              && Keeps(kept, text, mode)
              && Render(text, mode, comments, ["", "", "", ""]).value
                 == Ended(comments)
                    + (if Preamble(text) == "" then "" else "\n" + Ended(TitleLines(Preamble(text))))
                    + Join("\n\n", Bodies(kept)) + "\n"
  {
    hide *;
    ContractText(text, mode, comments);
    KeptAreKept(text, mode);
    HeaderIs(comments, Preamble(text));
  }

  lemma HeaderIs(comments: seq<string>, preamble: string)
    ensures HeaderText(comments, preamble)
         == Ended(comments) + if preamble == "" then "" else "\n" + Ended(TitleLines(preamble))
  {
    hide TitleLines, Join;
    if preamble == "" {
      JoinEnds(comments);
      assert comments + [""] + [] == comments + [""];
    } else {
      var titles := TitleLines(preamble);
      JoinEnds(comments + [""] + titles);
      EndedConcat(comments + [""], titles);
      EndedConcat(comments, [""]);
      assert comments + [""] + (titles + [""]) == comments + [""] + titles + [""];
      assert [""][1..] == [];
    }
  }

  // ----- Packets ----------------------------------------------------------------------------------------------------

  predicate IsGiven(packet: string) {
    packet != ""
  }

  /** Every packet after an empty line. */
  function Spaced(packets: seq<string>): string {
    if packets == [] then "" else "\n\n" + packets[0] + Spaced(packets[1..])
  }

  lemma {:induction false} PacketsListed(body: string, packets: seq<string>)
    ensures exists given :: Lists(given, packets, IsGiven) && AppendPackets(body, packets) == body + Spaced(given)
    decreases |packets|
  {
    hide Lists;
    if packets == [] {
      NothingListed(IsGiven);
      assert body + Spaced([]) == body;
    } else {
      var more := if packets[0] != "" then body + "\n\n" + packets[0] else body;
      PacketsListed(more, packets[1..]);
      var given :| Lists(given, packets[1..], IsGiven) && AppendPackets(more, packets[1..]) == more + Spaced(given);
      ListsCons(given, packets[1..], IsGiven, packets[0]);
      assert [packets[0]] + packets[1..] == packets;
      var all := (if IsGiven(packets[0]) then [packets[0]] else []) + given;
      if packets[0] != "" {
        assert all[1..] == given;
        assert more + Spaced(given) == body + ("\n\n" + packets[0] + Spaced(given));
      } else {
        assert all == given;
      }
    }
  }

  lemma {:induction false} RStripJoined(head: string, tail: string)
    requires RStrip(tail) != ""
    ensures RStrip(head + tail) == head + RStrip(tail)
  {
    if IsSpace(tail[|tail| - 1]) {
      var shorter := tail[..|tail| - 1];
      assert (head + tail)[..|head + tail| - 1] == head + shorter;
      RStripJoined(head, shorter);
    }
  }

  /**
   * The capsule that ships is its contract followed, in their order, by every packet that is not empty, each after an
   * empty line, with the white space at the very end replaced by one newline.
   */
  lemma ShipsEveryPacket(text: string, mode: Mode, comments: seq<string>, packets: seq<string>)
    requires Render(text, mode, comments, ["", "", "", ""]).Ok?
    ensures Render(text, mode, comments, packets).Ok?
    ensures var contract := Render(text, mode, comments, ["", "", "", ""]).value;
            contract != ""
            && exists given ::
                 && Lists(given, packets, IsGiven)
                 && Render(text, mode, comments, packets).value
                    == RStrip(contract[..|contract| - 1] + Spaced(given)) + "\n"
  {
    hide *;
    ContractText(text, mode, comments);
    RenderShape(text, mode, comments, packets);
    KeptAreBlocks(text, mode);
    JoinEndsInText(Kept(text, mode));
    var (header, body) := (HeaderText(comments, Preamble(text)), Join("\n\n", Bodies(Kept(text, mode))));
    var contract := header + (body + "\n");
    PacketsListed(body, packets);
    var given :| Lists(given, packets, IsGiven) && AppendPackets(body, packets) == body + Spaced(given);
    assert contract[..|contract| - 1] == header + body;
    assert header + body + Spaced(given) == header + (body + Spaced(given));
    RStripKeeps(body + Spaced(given), |body| - 1);
    RStripJoined(header, body + Spaced(given));
  }

  // ----- Coverage ---------------------------------------------------------------------------------------------------

  function IsIn(sections: seq<Section>): Section -> bool {
    (s: Section) => s in sections
  }

  function IsNotIn(sections: seq<Section>): Section -> bool {
    (s: Section) => s !in sections
  }

  lemma {:induction false} AmongListed(sections: seq<Section>, others: seq<Section>)
    ensures Lists(Among(sections, others, true), sections, IsIn(others))
    ensures Lists(Among(sections, others, false), sections, IsNotIn(others))
  {
    hide Lists;
    if sections == [] {
      NothingListed(IsIn(others));
      NothingListed(IsNotIn(others));
    } else {
      var front, last := sections[..|sections| - 1], sections[|sections| - 1];
      AmongListed(front, others);
      ListsSnoc(Among(front, others, true), front, IsIn(others), last);
      ListsSnoc(Among(front, others, false), front, IsNotIn(others), last);
      assert front + [last] == sections;
    }
  }

  /** A group's report: the sections of the card with its names, split by whether the capsule holds them unchanged. */
  lemma ReportExactly(c: Category, source: seq<Section>, capsule: seq<Section>)
    ensures var report := ReportFor(c, source, capsule);
            && report.category == c && Lists(report.present, source, NamedIn(GroupNames(c)))
            && Lists(report.covered, report.present, IsIn(capsule))
            && Lists(report.dropped, report.present, IsNotIn(capsule))
  {
    hide Lists, GroupNames, Selected, Among;
    SelectedListed(source, GroupNames(c));
    AmongListed(Selected(source, GroupNames(c)), capsule);
  }

  /** The check fails exactly when a section of a hard-contract group is not in the capsule, or completeness is demanded
      and some group has no section. */
  lemma CoverageExactly(source: seq<Section>, capsule: seq<Section>, requireComplete: bool)
    ensures var r := CoverageOf(source, capsule, requireComplete);
            && (r == Err(DroppedSections) <==>
                  exists c, s | c in CATEGORIES && s in source :: s.name in GroupNames(c) && s !in capsule)
            && (r.Ok? <==>
                  && (forall c, s | c in CATEGORIES && s in source :: s.name in GroupNames(c) ==> s in capsule)
                  && (requireComplete ==> forall c | c in CATEGORIES :: exists s | s in source ::
                      s.name in GroupNames(c)))
            && (r.Ok? ==> r.value == Reports(CATEGORIES, source, capsule))
  {
    forall c ensures ReportFor(c, source, capsule).dropped != [] <==>
        exists s | s in source :: s.name in GroupNames(c) && s !in capsule
    {
      DroppedExactly(c, source, capsule);
    }
    MissingExactly(CATEGORIES, source);
    hide ReportFor, GroupNames, CATEGORIES, Missing;
  }

  lemma DroppedExactly(c: Category, source: seq<Section>, capsule: seq<Section>)
    ensures ReportFor(c, source, capsule).dropped != [] <==>
            exists s | s in source :: s.name in GroupNames(c) && s !in capsule
  {
    hide GroupNames, Selected, Among;
    SelectedMembers(source, GroupNames(c));
    AmongMembers(Selected(source, GroupNames(c)), capsule);
    var dropped := ReportFor(c, source, capsule).dropped;
    assert dropped != [] ==> dropped[0] in dropped;
  }

  lemma {:induction false} AmongMembers(sections: seq<Section>, others: seq<Section>)
    ensures forall s :: s in Among(sections, others, false) <==> s in sections && s !in others
  {
    if sections != [] {
      var front := sections[..|sections| - 1];
      AmongMembers(front, others);
      assert sections == front + [sections[|sections| - 1]];
    }
  }

  lemma {:induction false} MissingExactly(categories: seq<Category>, source: seq<Section>)
    ensures Missing(categories, source) == [] <==>
            forall c | c in categories :: exists s | s in source :: s.name in GroupNames(c)
  {
    hide GroupNames, Selected;
    if categories != [] {
      var front, last := categories[..|categories| - 1], categories[|categories| - 1];
      assert categories == front + [last];
      MissingExactly(front, source);
      SelectedMembers(source, GroupNames(last));
      var selected := Selected(source, GroupNames(last));
      assert selected != [] ==> selected[0] in selected;
    }
  }
}
