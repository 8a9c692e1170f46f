/**
 * Sections of a Markdown task card, as `_sections` of scripts/build-execution-capsule.py finds them, and how they
 * behave when texts are put together.
 */
module CardSections {
  import opened Strings

  datatype Section = Section(name: string, body: string)

  /** The heading pattern: two hashes at the start of a line, a blank, and one more character on that line. */
  predicate HeadingAt(t: string, i: nat) {
    && i + 4 <= |t| && (i == 0 || t[i - 1] == '\n')
    && t[i] == '#' && t[i + 1] == '#' && (t[i + 2] == ' ' || t[i + 2] == '\t') && t[i + 3] != '\n'
  }

  /** The first heading at or after `i`, or the end of the text. */
  function NextHeading(t: string, i: nat): (j: nat)
    requires i <= |t|
    ensures i <= j <= |t|
    ensures j < |t| ==> HeadingAt(t, j)
    ensures forall k | i <= k < j :: !HeadingAt(t, k)
    decreases |t| - i
  {
    if i == |t| || HeadingAt(t, i) then i else NextHeading(t, i + 1)
  }

  /** The first line break at or after `i`, or the end of the text. */
  function LineEnd(t: string, i: nat): (j: nat)
    requires i <= |t|
    ensures i <= j <= |t|
    ensures j < |t| ==> t[j] == '\n'
    ensures forall k | i <= k < j :: t[k] != '\n'
    decreases |t| - i
  {
    if i == |t| || t[i] == '\n' then i else LineEnd(t, i + 1)
  }

  /** The stripped text after the hashes of a heading line. */
  function NameAt(t: string, i: nat): string
    requires HeadingAt(t, i)
  {
    LineEndAfterMark(t, i);
    Strip(t[i + 2..LineEnd(t, i)])
  }

  lemma LineEndAfterMark(t: string, i: nat)
    requires HeadingAt(t, i)
    ensures i + 4 <= LineEnd(t, i)
  {
    assert forall k | i <= k < i + 4 :: t[k] != '\n';
  }

  /** The sections from a heading position on. */
  function SectionsFrom(t: string, i: nat): seq<Section>
    requires i <= |t| && (i < |t| ==> HeadingAt(t, i))
    decreases |t| - i
  {
    if i == |t| then []
    else
      var j := NextHeading(t, i + 1);
      [Section(NameAt(t, i), RStrip(t[i..j]))] + SectionsFrom(t, j)
  }

  function Sections(t: string): seq<Section> {
    SectionsFrom(t, NextHeading(t, 0))
  }

  function Preamble(t: string): string {
    RStrip(t[..NextHeading(t, 0)])
  }

  /** The heading positions from a given one on. */
  function Starts(t: string, i: nat): seq<nat>
    requires i <= |t|
    decreases |t| - i
  {
    if i == |t| then [] else [i] + Starts(t, NextHeading(t, i + 1))
  }

  lemma StartsStep(t: string, i: nat)
    requires i < |t|
    ensures Starts(t, NextHeading(t, i)) == (if HeadingAt(t, i) then [i] else []) + Starts(t, NextHeading(t, i + 1))
  {
    hide HeadingAt;
  }

  lemma StartsEnd(t: string)
    ensures Starts(t, NextHeading(t, |t|)) == []
  {}

  lemma StartsHead(t: string, i: nat)
    requires i <= |t|
    ensures Starts(t, i) == [] <==> i == |t|
    ensures i < |t| ==> Starts(t, i)[0] == i
  {}

  /** `_sections`: first all heading positions, then the text between them. */
  method ParseSections(t: string) returns (preamble: string, result: seq<Section>)
    ensures preamble == Preamble(t) && result == Sections(t)
  {
    hide NameAt, HeadingAt, RStrip, Starts, NextHeading, SectionsFrom;
    var matches: seq<nat> := [];
    var scanned := 0;
    assert matches + Starts(t, NextHeading(t, 0)) == Starts(t, NextHeading(t, 0));
    while scanned < |t|
      invariant 0 <= scanned <= |t|
      invariant matches + Starts(t, NextHeading(t, scanned)) == Starts(t, NextHeading(t, 0))
    {
      StartsStep(t, scanned);
      if HeadingAt(t, scanned) { matches := matches + [scanned]; }
      scanned := scanned + 1;
    }
    StartsEnd(t);
    assert matches == Starts(t, NextHeading(t, 0));
    StartsHead(t, NextHeading(t, 0));
    preamble := RStrip(if matches != [] then t[..matches[0]] else t);
    if matches == [] { assert t[..|t|] == t; }
    result := BuildSections(t, matches);
  }

  method BuildSections(t: string, matches: seq<nat>) returns (result: seq<Section>)
    requires matches == Starts(t, NextHeading(t, 0))
    ensures result == Sections(t)
  {
    hide NameAt, HeadingAt, RStrip;
    result := [];
    ghost var at: nat := NextHeading(t, 0);
    for index := 0 to |matches|
      invariant at <= |t| && (at < |t| ==> HeadingAt(t, at)) && matches[index..] == Starts(t, at)
      invariant result + SectionsFrom(t, at) == Sections(t)
    {
      assert matches[index..][1..] == matches[index + 1..];
      assert matches[index..][0] == matches[index];
      assert matches[index] == at;
      var end := if index + 1 < |matches| then matches[index + 1] else |t|;
      at := NextHeading(t, at + 1);
      assert at == end;
      result := result + [Section(NameAt(t, matches[index]), RStrip(t[matches[index]..end]))];
    }
  }

  // ----- Putting texts together -------------------------------------------------------------------------------

  /** A text after which a new line starts. */
  predicate EndsLine(h: string) {
    h == "" || h[|h| - 1] == '\n'
  }

  predicate NoHeading(t: string) {
    forall i | 0 <= i < |t| :: !HeadingAt(t, i)
  }

  /** Where headings are in a text put together at a line start. */
  lemma HeadingInConcat(h: string, b: string, i: nat)
    requires EndsLine(h)
    ensures i < |h| ==> (HeadingAt(h + b, i) <==> HeadingAt(h, i))
    ensures i >= |h| ==> (HeadingAt(h + b, i) <==> HeadingAt(b, i - |h|))
  {
    var t := h + b;
    if i < |h| {
      assert t[|h| - 1] == '\n';
      assert i + 4 <= |h| ==> t[i..i + 4] == h[i..i + 4];
    } else {
      forall k | i <= k < |t| ensures t[k] == b[k - |h|] {}
    }
  }

  lemma NoHeadingConcat(h: string, b: string)
    requires EndsLine(h)
    ensures NoHeading(h + b) <==> NoHeading(h) && NoHeading(b)
  {
    forall i | 0 <= i < |h + b|
      ensures i < |h| ==> (HeadingAt(h + b, i) <==> HeadingAt(h, i))
      ensures i >= |h| ==> (HeadingAt(h + b, i) <==> HeadingAt(b, i - |h|))
    {
      HeadingInConcat(h, b, i);
    }
    hide HeadingAt;
    forall i | 0 <= i < |b| ensures HeadingAt(h + b, i + |h|) <==> HeadingAt(b, i) {
      var k := i + |h|;
      assert HeadingAt(h + b, k) <==> HeadingAt(b, k - |h|);
    }
    if NoHeading(h) && NoHeading(b) {
      forall i | 0 <= i < |h + b| ensures !HeadingAt(h + b, i) {
        assert i < |h| || !HeadingAt(b, i - |h|);
      }
    }
    if NoHeading(h + b) {
      forall i | 0 <= i < |h| ensures !HeadingAt(h, i) { assert !HeadingAt(h + b, i); }
      forall i | 0 <= i < |b| ensures !HeadingAt(b, i) { assert !HeadingAt(h + b, i + |h|); }
    }
  }

  /** `j` is the next heading after `i` when it is one, or the end, and none lies between. */
  lemma NextHeadingIs(t: string, i: nat, j: nat)
    requires i <= j <= |t| && (j < |t| ==> HeadingAt(t, j)) && forall k | i <= k < j :: !HeadingAt(t, k)
    ensures NextHeading(t, i) == j
  {}

  /** In a text put together before a heading, the next heading is found in the first part or starts the second. */
  lemma NextHeadingInConcat(h: string, b: string, i: nat)
    requires EndsLine(h) && HeadingAt(b, 0) && i <= |h|
    ensures NextHeading(h + b, i) == NextHeading(h, i)
  {
    var j := NextHeading(h, i);
    forall k | i <= k < j ensures !HeadingAt(h + b, k) { HeadingInConcat(h, b, k); }
    HeadingInConcat(h, b, j);
    hide HeadingAt;
    NextHeadingIs(h + b, i, j);
  }

  lemma NextHeadingInSecond(h: string, b: string, i: nat)
    requires EndsLine(h) && i <= |b|
    ensures NextHeading(h + b, |h| + i) == |h| + NextHeading(b, i)
  {
    var j := NextHeading(b, i);
    forall k | |h| + i <= k < |h| + j ensures !HeadingAt(h + b, k) { HeadingInConcat(h, b, k); }
    HeadingInConcat(h, b, |h| + j);
    hide HeadingAt;
    NextHeadingIs(h + b, |h| + i, |h| + j);
  }

  lemma LineEndIs(t: string, i: nat, j: nat)
    requires i <= j <= |t| && (j < |t| ==> t[j] == '\n') && forall k | i <= k < j :: t[k] != '\n'
    ensures LineEnd(t, i) == j
  {}

  lemma NameInFirst(h: string, b: string, i: nat)
    requires EndsLine(h) && HeadingAt(h, i) && HeadingAt(h + b, i)
    ensures NameAt(h + b, i) == NameAt(h, i)
  {
    hide Strip;
    var end := LineEnd(h, i);
    assert h[|h| - 1] == '\n' && end < |h|;
    LineEndIs(h + b, i, end);
    LineEndAfterMark(h, i);
    assert (h + b)[i + 2..end] == h[i + 2..end];
  }

  lemma NameInSecond(h: string, b: string, i: nat)
    requires EndsLine(h) && HeadingAt(b, i) && HeadingAt(h + b, |h| + i)
    ensures NameAt(h + b, |h| + i) == NameAt(b, i)
  {
    hide Strip;
    var end := LineEnd(b, i);
    LineEndIs(h + b, |h| + i, |h| + end);
    LineEndAfterMark(b, i);
    assert (h + b)[|h| + i + 2..|h| + end] == b[i + 2..end];
  }

  /** One step of the section list. */
  lemma SectionsStep(t: string, i: nat, j: nat)
    requires HeadingAt(t, i) && NextHeading(t, i + 1) == j
    ensures j <= |t| && SectionsFrom(t, i) == [Section(NameAt(t, i), RStrip(t[i..j]))] + SectionsFrom(t, j)
  {
    hide HeadingAt, NameAt, RStrip;
  }

  /** A heading of the second part opens the same section in the whole. */
  lemma StepInSecond(h: string, b: string, i: nat)
    requires EndsLine(h) && HeadingAt(b, i) && HeadingAt(h + b, |h| + i)
    ensures var j := NextHeading(b, i + 1);
            && NextHeading(h + b, |h| + i + 1) == |h| + j
            && (j < |b| ==> HeadingAt(h + b, |h| + j))
            && NameAt(h + b, |h| + i) == NameAt(b, i) && (h + b)[|h| + i..|h| + j] == b[i..j]
  {
    hide RStrip, NameAt;
    var j := NextHeading(b, i + 1);
    NextHeadingInSecond(h, b, i + 1);
    assert |h| + (i + 1) == |h| + i + 1;
    NameInSecond(h, b, i);
    HeadingInConcat(h, b, |h| + j);
    hide HeadingAt, NextHeading;
    assert (h + b)[|h| + i..|h| + j] == b[i..j];
  }

  lemma {:induction false} SectionsInSecond(h: string, b: string, i: nat)
    requires EndsLine(h) && i <= |b| && (i < |b| ==> HeadingAt(b, i) && HeadingAt(h + b, |h| + i))
    ensures SectionsFrom(h + b, |h| + i) == SectionsFrom(b, i)
    decreases |b| - i
  {
    hide HeadingAt, NextHeading, NameAt, RStrip, EndsLine;
    if i < |b| {
      StepInSecond(h, b, i);
      SectionsInSecond(h, b, NextHeading(b, i + 1));
      SectionsStep(h + b, |h| + i, |h| + NextHeading(b, i + 1));
      SectionsStep(b, i, NextHeading(b, i + 1));
      hide *;
    }
  }

  /** A heading of the first part opens the same section in the whole, which may end where the second part starts. */
  lemma StepInFirst(h: string, b: string, i: nat)
    requires EndsLine(h) && HeadingAt(b, 0) && HeadingAt(h, i) && HeadingAt(h + b, i)
    ensures var j := NextHeading(h, i + 1);
            && NextHeading(h + b, i + 1) == j && HeadingAt(h + b, j)
            && NameAt(h + b, i) == NameAt(h, i) && (h + b)[i..j] == h[i..j]
  {
    hide RStrip, NameAt;
    NextHeadingInConcat(h, b, i + 1);
    NameInFirst(h, b, i);
    HeadingInConcat(h, b, NextHeading(h, i + 1));
    assert (h + b)[i..NextHeading(h, i + 1)] == h[i..NextHeading(h, i + 1)];
  }

  lemma {:induction false} SectionsInFirst(h: string, b: string, i: nat)
    requires EndsLine(h) && HeadingAt(b, 0) && i <= |h| && (i < |h| ==> HeadingAt(h, i)) && HeadingAt(h + b, i)
    ensures SectionsFrom(h + b, i) == SectionsFrom(h, i) + SectionsFrom(b, 0)
    decreases |h| - i
  {
    hide HeadingAt, NextHeading, NameAt, RStrip, EndsLine;
    if i < |h| {
      var j := NextHeading(h, i + 1);
      StepInFirst(h, b, i);
      SectionsInFirst(h, b, j);
      SectionsStep(h + b, i, j);
      SectionsStep(h, i, j);
      hide *;
    } else {
      SectionsInSecond(h, b, 0);
    }
  }

  /** Sections before a heading and the sections from it on make up the sections of the whole. */
  lemma SectionsConcat(h: string, b: string)
    requires EndsLine(h) && HeadingAt(b, 0)
    ensures Sections(h + b) == Sections(h) + Sections(b)
  {
    NextHeadingInConcat(h, b, 0);
    HeadingInConcat(h, b, NextHeading(h, 0));
    hide HeadingAt, SectionsFrom;
    SectionsInFirst(h, b, NextHeading(h, 0));
    assert NextHeading(b, 0) == 0;
  }

  lemma NoSections(t: string)
    ensures Sections(t) == [] <==> NoHeading(t)
  {
    hide HeadingAt, NameAt;
    var first := NextHeading(t, 0);
    if first == |t| {
      forall i | 0 <= i < |t| ensures !HeadingAt(t, i) {}
    }
  }
}
