/** Relative paths as `safe_relative` of scripts/build-scoped-handoff.py normalises them. */
module HandoffPaths {
  import opened Wrappers
  import opened Strings

  // ----- Safe relative paths ----------------------------------------------------------------------------------

  /** The components `PurePosixPath` keeps: neither empty nor a single dot. */
  function KeepParts(parts: seq<string>): seq<string> {
    if parts == [] then []
    else (if parts[0] != "" && parts[0] != "." then [parts[0]] else []) + KeepParts(parts[1..])
  }

  function PartsOf(path: string): seq<string> {
    KeepParts(Split(RStripChar(path, '/'), '/'))
  }

  /** `PurePosixPath.as_posix` for a relative path. */
  function AsPosix(parts: seq<string>): string {
    if parts == [] then "." else Join("/", parts)
  }

  /** The components a path keeps, its back slashes read as slashes and its outer white space cut off. */
  function ComponentsOf(value: string): seq<string> {
    PartsOf(Strip(ReplaceChar(value, '\\', '/')))
  }

  /** `safe_relative`; `None` is the raised error. */
  function SafeRelative(value: string): Option<string> {
    var normalized := Strip(ReplaceChar(value, '\\', '/'));
    var parts := ComponentsOf(value);
    if normalized == "" || normalized[0] == '/' || ".." in parts then None else Some(AsPosix(parts))
  }

  lemma {:induction false} SplitHasNoSeparator(s: string, sep: char)
    ensures forall i | 0 <= i < |Split(s, sep)| :: sep !in Split(s, sep)[i]
  {
    if s != "" { SplitHasNoSeparator(s[1..], sep); }
  }

  lemma {:induction false} KeptParts(parts: seq<string>)
    ensures forall i | 0 <= i < |KeepParts(parts)| ::
              KeepParts(parts)[i] in parts && KeepParts(parts)[i] != "" && KeepParts(parts)[i] != "."
  {
    if parts != [] {
      KeptParts(parts[1..]);
      assert parts == [parts[0]] + parts[1..];
    }
  }

  lemma {:induction false} KeepAll(parts: seq<string>)
    requires forall i | 0 <= i < |parts| :: parts[i] != "" && parts[i] != "."
    ensures KeepParts(parts) == parts
  {
    if parts != [] {
      KeepAll(parts[1..]);
      assert parts == [parts[0]] + parts[1..];
    }
  }

  /** Joining fewer parts gives no longer a text. */
  lemma {:induction false} KeepShortens(parts: seq<string>)
    ensures |Join("/", KeepParts(parts))| <= |Join("/", parts)|
    ensures KeepParts(parts) != [] ==> parts != []
  {
    if parts != [] {
      KeepShortens(parts[1..]);
      assert parts == [parts[0]] + parts[1..];
      var rest := KeepParts(parts[1..]);
      if parts[0] != "" && parts[0] != "." {
        assert ([parts[0]] + rest)[1..] == rest;
      } else {
        assert [] + rest == rest;
      }
    }
  }

  /** Parts without separators, empty strings or dots are read back from their path. */
  lemma PartsReadBack(parts: seq<string>)
    requires parts != []
    requires forall i | 0 <= i < |parts| :: parts[i] != "" && parts[i] != "." && '/' !in parts[i]
    ensures PartsOf(Join("/", parts)) == parts
    ensures Join("/", parts) != "" && Join("/", parts)[0] != '/'
  {
    var joined := Join("/", parts);
    JoinEnds(parts);
    assert RStripChar(joined, '/') == joined by { NoTrailing(joined); }
    forall p | p in parts ensures '/' !in p {
      var i :| 0 <= i < |parts| && parts[i] == p;
    }
    SplitJoin(parts, '/');
    KeepAll(parts);
  }

  lemma NoTrailing(s: string)
    requires s != "" && s[|s| - 1] != '/'
    ensures RStripChar(s, '/') == s
  {}

  lemma {:induction false} JoinEnds(parts: seq<string>)
    requires parts != []
    requires forall i | 0 <= i < |parts| :: parts[i] != "" && '/' !in parts[i]
    ensures var joined := Join("/", parts);
            var last := parts[|parts| - 1];
            && joined != "" && joined[0] == parts[0][0] && joined[|joined| - 1] == last[|last| - 1]
            && joined[0] != '/' && joined[|joined| - 1] != '/'
  {
    assert parts[0][0] in parts[0] && parts[0][|parts[0]| - 1] in parts[0];
    if |parts| > 1 {
      var rest := Join("/", parts[1..]);
      assert Join("/", parts) == parts[0] + "/" + rest;
      hide Join;
      JoinEnds(parts[1..]);
      assert parts[1..][|parts| - 2] == parts[|parts| - 1];
    }
  }

  lemma {:induction false} JoinHasNoBackslash(parts: seq<string>)
    requires forall i | 0 <= i < |parts| :: '\\' !in parts[i]
    ensures '\\' !in Join("/", parts)
  {
    if |parts| > 1 { JoinHasNoBackslash(parts[1..]); }
  }

  /** What the components of an accepted path are. */
  lemma AcceptedParts(value: string)
    requires SafeRelative(value).Some?
    ensures var parts := ComponentsOf(value);
            && SafeRelative(value).value == AsPosix(parts)
            && ".." !in parts
            && forall i | 0 <= i < |parts| :: parts[i] != "" && parts[i] != "." && '/' !in parts[i] && '\\' !in parts[i]
  {
    hide SafeRelative, Strip, ReplaceChar, PartsOf, AsPosix;
    AcceptedMeans(value);
    NormalizedHasNoBackslash(value);
    PartsAreClean(Strip(ReplaceChar(value, '\\', '/')));
  }

  lemma AcceptedMeans(value: string)
    requires SafeRelative(value).Some?
    ensures var parts := ComponentsOf(value);
            SafeRelative(value).value == AsPosix(parts) && ".." !in parts
  {
    hide Strip, ReplaceChar, PartsOf, AsPosix;
  }

  lemma NormalizedHasNoBackslash(value: string)
    ensures '\\' !in Strip(ReplaceChar(value, '\\', '/'))
  {
    assert '\\' !in ReplaceChar(value, '\\', '/');
    StripKeepsChars(ReplaceChar(value, '\\', '/'));
    hide Strip, ReplaceChar;
  }

  lemma PartsAreClean(normalized: string)
    requires '\\' !in normalized
    ensures var parts := PartsOf(normalized);
            forall i | 0 <= i < |parts| :: parts[i] != "" && parts[i] != "." && '/' !in parts[i] && '\\' !in parts[i]
  {
    hide Split, KeepParts, RStripChar;
    var stripped := RStripChar(normalized, '/');
    assert stripped <= normalized;
    var split := Split(stripped, '/');
    SplitHasNoSeparator(stripped, '/');
    SplitKeepsChars(stripped, '/', '\\');
    KeptParts(split);
    var parts := PartsOf(normalized);
    assert parts == KeepParts(split);
    forall i | 0 <= i < |parts| ensures '/' !in parts[i] && '\\' !in parts[i] {
      assert parts[i] in split;
      var k :| 0 <= k < |split| && split[k] == parts[i];
    }
  }

  lemma StripKeepsChars(s: string)
    ensures forall c | c in Strip(s) :: c in s
  {
    var right := RStrip(s);
    assert right <= s;
    assert forall c | c in right :: c in s;
    assert right[|right| - |LStrip(right)|..] == LStrip(right);
  }

  lemma {:induction false} SplitKeepsChars(s: string, sep: char, c: char)
    requires c !in s
    ensures forall i | 0 <= i < |Split(s, sep)| :: c !in Split(s, sep)[i]
  {
    if s != "" {
      assert s[0] in s;
      SplitKeepsChars(s[1..], sep, c);
    }
  }

  /** An accepted path that carries no outer white space is accepted again, unchanged. */
  lemma AcceptedTwice(value: string)
    requires SafeRelative(value).Some? && Strip(SafeRelative(value).value) == SafeRelative(value).value
    ensures SafeRelative(SafeRelative(value).value) == SafeRelative(value)
  {
    AcceptedParts(value);
    var parts, r := ComponentsOf(value), SafeRelative(value).value;
    hide SafeRelative, Strip, KeepParts, Split, Join, RStripChar;
    if parts == [] {
      DotIsAccepted();
    } else {
      JoinHasNoBackslash(parts);
      PartsReadBack(parts);
      assert ReplaceChar(r, '\\', '/') == r;
      AcceptedFrom(r, parts);
    }
  }

  lemma AcceptedFrom(r: string, parts: seq<string>)
    requires ReplaceChar(r, '\\', '/') == r && Strip(r) == r && PartsOf(r) == parts && parts != [] && ".." !in parts
    requires r != "" && r[0] != '/' && r == AsPosix(parts)
    ensures SafeRelative(r) == Some(r)
  {
    hide PartsOf, Strip, ReplaceChar, AsPosix;
  }

  lemma DotIsAccepted()
    ensures SafeRelative(".") == Some(".")
  {
    hide PartsOf, Strip, ReplaceChar;
    DotIsStripped();
    assert ReplaceChar(".", '\\', '/') == ".";
    assert PartsOf(".") == [] by { DotHasNoParts(); }
  }

  lemma StripNonEmpty(s: string)
    requires s != "" && !IsSpace(s[0])
    ensures Strip(s) != ""
  {
    var right := RStrip(s);
    assert s[0] in s;
    assert right != "";
  }

  lemma DotHasNoParts()
    ensures PartsOf(".") == []
  {
    assert RStripChar(".", '/') == ".";
    SplitWhole(".", '/');
    hide Split, RStripChar;
    assert KeepParts(["."]) == KeepParts(["."][1..]);
  }

  lemma StableWhenStripped(value: string)
    requires SafeRelative(value).Some?
    ensures SafeRelative(SafeRelative(value).value) == SafeRelative(value)
            <==> Strip(SafeRelative(value).value) == SafeRelative(value).value
  {
    var r := SafeRelative(value).value;
    if Strip(r) == r {
      AcceptedTwice(value);
    } else {
      AcceptedParts(value);
      var parts := ComponentsOf(value);
      NoBackslash(parts);
      ShorterAfterStrip(r);
    }
  }

  /** The first component starts, or the last one ends, with white space. */
  predicate HasBlankEnd(parts: seq<string>) {
    parts != [] && (
      var first, last := parts[0], parts[|parts| - 1];
      (first != "" && IsSpace(first[0])) || (last != "" && IsSpace(last[|last| - 1]))
    )
  }

  /** Normalising an accepted path a second time changes nothing exactly when neither the first of its components
      starts nor the last one ends with white space. */
  lemma SafeRelativeIsStable(value: string)
    requires SafeRelative(value).Some?
    ensures SafeRelative(SafeRelative(value).value) == SafeRelative(value) <==> !HasBlankEnd(ComponentsOf(value))
  {
    hide SafeRelative, Strip, ReplaceChar, PartsOf, AsPosix, HasBlankEnd;
    AcceptedParts(value);
    StableWhenStripped(value);
    BlankEndsShow(ComponentsOf(value));
  }

  lemma BlankEndsShow(parts: seq<string>)
    requires forall i | 0 <= i < |parts| :: parts[i] != "" && '/' !in parts[i]
    ensures Strip(AsPosix(parts)) == AsPosix(parts) <==> !HasBlankEnd(parts)
  {
    hide IsSpace, Strip;
    if parts == [] {
      DotIsStripped();
    } else {
      JoinEnds(parts);
      StripFixes(Join("/", parts));
    }
  }

  lemma DotIsStripped()
    ensures Strip(".") == "."
  {
    StripShortens(".");
    StripNonEmpty(".");
  }

  /** Stripping changes a text exactly when it starts or ends with white space. */
  lemma StripFixes(s: string)
    requires s != ""
    ensures Strip(s) == s <==> !IsSpace(s[0]) && !IsSpace(s[|s| - 1])
  {
    if IsSpace(s[|s| - 1]) {
      EndsBlank(s);
    } else if IsSpace(s[0]) {
      StripShortens(s[1..]);
      hide IsSpace;
      assert RStrip(s) == s && LStrip(s) == LStrip(s[1..]);
    } else {
      NothingToStrip(s);
    }
  }

  /** Written with slashes, without outer white space, and of components none of which is empty, a dot or a parent
      step. */
  predicate Clean(path: string) {
    && path != "" && '\\' !in path && !IsSpace(path[0]) && !IsSpace(path[|path| - 1])
    && forall i | 0 <= i < |Split(path, '/')| ::
         Split(path, '/')[i] != "" && Split(path, '/')[i] != "." && Split(path, '/')[i] != ".."
  }

  /** Which paths are their own normal form. */
  lemma NormalExactly(path: string)
    ensures SafeRelative(path) == Some(path) <==> path == "." || Clean(path)
  {
    hide SafeRelative, Clean;
    if SafeRelative(path) == Some(path) {
      NormalIsClean(path);
    } else if Clean(path) {
      CleanIsNormal(path);
    } else {
      DotIsAccepted();
    }
  }

  lemma CleanIsNormal(path: string)
    requires Clean(path)
    ensures SafeRelative(path) == Some(path)
  {
    var parts := Split(path, '/');
    SplitHasNoSeparator(path, '/');
    JoinSplit(path, '/');
    hide SafeRelative, IsSpace, Split, PartsOf, Strip;
    PartsReadBack(parts);
    StripFixes(path);
    assert ReplaceChar(path, '\\', '/') == path;
    assert ".." !in parts;
    AcceptedFrom(path, parts);
  }

  lemma NormalIsClean(path: string)
    requires SafeRelative(path) == Some(path)
    ensures path == "." || Clean(path)
  {
    hide SafeRelative, IsSpace, Split, PartsOf, Strip, ReplaceChar, Clean;
    AcceptedParts(path);
    StableWhenStripped(path);
    var parts := ComponentsOf(path);
    if parts != [] {
      NormalOfParts(path, parts);
    }
  }

  lemma NormalOfParts(path: string, parts: seq<string>)
    requires parts != [] && path == Join("/", parts) && Strip(path) == path && ".." !in parts
    requires forall i | 0 <= i < |parts| :: parts[i] != "" && parts[i] != "." && '/' !in parts[i] && '\\' !in parts[i]
    ensures Clean(path)
  {
    hide IsSpace, Split, Strip, Join;
    JoinEnds(parts);
    JoinHasNoBackslash(parts);
    StripFixes(path);
    forall p | p in parts ensures '/' !in p {
      var i :| 0 <= i < |parts| && parts[i] == p;
    }
    SplitJoin(parts, '/');
    forall i | 0 <= i < |parts| ensures parts[i] != ".." {
      assert parts[i] in parts;
    }
  }

  lemma NoBackslash(parts: seq<string>)
    requires forall i | 0 <= i < |parts| :: '\\' !in parts[i]
    ensures ReplaceChar(AsPosix(parts), '\\', '/') == AsPosix(parts)
  {
    JoinHasNoBackslash(parts);
    hide Join;
  }

  lemma ShorterAfterStrip(r: string)
    requires ReplaceChar(r, '\\', '/') == r && Strip(r) != r
    ensures SafeRelative(r) != Some(r)
  {
    var normalized := Strip(r);
    assert |normalized| < |r| by { StripShortens(r); }
    if SafeRelative(r).Some? {
      var stripped := RStripChar(normalized, '/');
      JoinSplit(stripped, '/');
      KeepShortens(Split(stripped, '/'));
      assert |AsPosix(PartsOf(normalized))| <= |normalized| by {
        assert normalized != "";
        assert |stripped| <= |normalized|;
      }
    }
  }

  lemma StripShortens(s: string)
    ensures |Strip(s)| <= |s| && (|Strip(s)| == |s| ==> Strip(s) == s)
  {
    hide RStrip, LStrip;
    var right := RStrip(s);
    assert right <= s;
    assert right[|right| - |LStrip(right)|..] == LStrip(right);
  }

  /** A path that ends in a blank component and a dot: normalising it twice drops the blank component. */
  lemma BlankComponentIsLost()
    ensures SafeRelative("a/ /.") == Some("a/ ")
    ensures SafeRelative("a/ ") != Some("a/ ")
  {
    hide PartsOf, AsPosix, SafeRelative, Strip, ReplaceChar;
    BlankIsAccepted("a/ /.", "a/ ");
    StableWhenStripped("a/ /.");
    EndsBlank("a/ ");
  }

  lemma BlankIsAccepted(raw: string, path: string)
    requires raw == "a/ /." && path == "a/ "
    ensures SafeRelative(raw) == Some(path)
  {
    hide PartsOf, Strip, ReplaceChar, AsPosix;
    NothingToStrip(raw);
    assert ReplaceChar(raw, '\\', '/') == raw;
    BlankParts(raw);
    BlankJoins(path);
  }

  lemma BlankJoins(path: string)
    requires path == "a/ "
    ensures AsPosix(["a", " "]) == path && ".." !in ["a", " "]
  {
    assert ["a", " "][1..] == [" "];
  }

  /** A trailing blank is cut off, so the path is taken for another one. */
  lemma TrailingBlankIsCut()
    ensures SafeRelative("a ") == Some("a")
  {
    hide Strip, PartsOf, ReplaceChar, Join;
    assert Strip("a ") == "a" by { StripsLast("a ", "a"); }
    assert ReplaceChar("a ", '\\', '/') == "a ";
    OneComponent("a");
  }

  lemma PlainNameIsKept()
    ensures SafeRelative("a") == Some("a")
  {
    hide Strip, PartsOf, ReplaceChar, Join;
    assert Strip("a") == "a" by { NothingToStrip("a"); }
    assert ReplaceChar("a", '\\', '/') == "a";
    OneComponent("a");
  }

  lemma OneComponent(name: string)
    requires |name| == 1 && name[0] != '/' && name[0] != '.'
    ensures PartsOf(name) == [name] && Join("/", [name]) == name && ".." !in [name] && AsPosix([name]) == name
  {
    hide PartsOf;
    PartsReadBack([name]);
  }

  lemma StripsLast(s: string, t: string)
    requires t != "" && s == t + " " && !IsSpace(t[0]) && !IsSpace(t[|t| - 1])
    ensures Strip(s) == t
  {
    assert s[..|s| - 1] == t;
    NothingToStrip(t);
  }

  lemma NothingToStrip(s: string)
    requires s != "" && !IsSpace(s[0]) && !IsSpace(s[|s| - 1])
    ensures Strip(s) == s
  {}

  lemma EndsBlank(s: string)
    requires s != "" && IsSpace(s[|s| - 1])
    ensures Strip(s) != s
  {
    StripShortens(s[..|s| - 1]);
    hide LStrip, IsSpace;
    assert Strip(s) == Strip(s[..|s| - 1]);
  }

  lemma BlankParts(raw: string)
    requires raw == "a/ /."
    ensures PartsOf(raw) == ["a", " "]
  {
    var fields := ["a", " ", "."];
    assert Join("/", fields) == raw by {
      assert fields[1..] == [" ", "."] && [" ", "."][1..] == ["."];
    }
    SplitJoin(fields, '/');
    hide Split, Join, RStripChar, KeepParts;
    assert RStripChar(raw, '/') == raw;
    KeepTwo("a", " ", ".");
  }

  lemma KeepTwo(a: string, b: string, dot: string)
    requires |a| == 1 && |b| == 1 && a[0] != '.' && b[0] != '.' && dot == "."
    ensures KeepParts([a, b, dot]) == [a, b]
  {
    assert [a, b, dot][1..] == [b, dot] && [b, dot][1..] == [dot] && [dot][1..] == [];
    assert KeepParts([dot]) == [];
    assert KeepParts([b, dot]) == [b];
  }
}
