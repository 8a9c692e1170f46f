/** The Python string operations the modelled scripts rely on. */
module Strings {

  /** `str.isspace` for one character: the code points Python treats as white space. */
  predicate IsSpace(c: char) {
    || '\t' <= c <= '\r' || '\U{1c}' <= c <= ' ' || c == '\U{85}' || c == '\U{a0}' || c == '\U{1680}'
    || '\U{2000}' <= c <= '\U{200a}' || c == '\U{2028}' || c == '\U{2029}' || c == '\U{202f}'
    || c == '\U{205f}' || c == '\U{3000}'
  }

  predicate AllSpace(s: string) {
    forall c | c in s :: IsSpace(c)
  }

  /** `str.rstrip()` */
  function RStrip(s: string): (r: string)
    ensures r <= s && AllSpace(s[|r|..])
    ensures r == "" || !IsSpace(r[|r| - 1])
  {
    if s != "" && IsSpace(s[|s| - 1]) then
      var t := RStrip(s[..|s| - 1]);
      assert s[|t|..] == s[..|s| - 1][|t|..] + [s[|s| - 1]];
      t
    else s
  }

  /** `str.lstrip()` */
  function LStrip(s: string): (r: string)
    ensures |r| <= |s| && s[|s| - |r|..] == r
    ensures r == "" || !IsSpace(r[0])
  {
    if s != "" && IsSpace(s[0]) then LStrip(s[1..]) else s
  }

  /** `str.strip()` */
  function Strip(s: string): string {
    LStrip(RStrip(s))
  }

  /** `str.rstrip(c)` for a single character. */
  function RStripChar(s: string, c: char): (r: string)
    ensures r <= s
    ensures r == "" || r[|r| - 1] != c
    ensures forall i | |r| <= i < |s| :: s[i] == c
  {
    if s != "" && s[|s| - 1] == c then RStripChar(s[..|s| - 1], c) else s
  }

  /** `str.replace(old, new)` for single characters. */
  function ReplaceChar(s: string, old_: char, new_: char): (r: string)
    ensures |r| == |s|
    ensures forall i | 0 <= i < |s| :: r[i] == if s[i] == old_ then new_ else s[i]
  {
    seq(|s|, i requires 0 <= i < |s| => if s[i] == old_ then new_ else s[i])
  }

  /** `str.lower()` on the ASCII letters. */
  function Lower(s: string): (r: string)
    ensures |r| == |s|
  {
    seq(|s|, i requires 0 <= i < |s| => if 'A' <= s[i] <= 'Z' then s[i] + '\U{20}' else s[i])
  }

  predicate StartsWith(s: string, prefix: string) {
    prefix <= s
  }

  predicate EndsWith(s: string, suffix: string) {
    |suffix| <= |s| && s[|s| - |suffix|..] == suffix
  }

  /** `needle in s` */
  predicate Contains(s: string, needle: string) {
    needle <= s || (s != "" && Contains(s[1..], needle))
  }

  /** `^sha256:[0-9a-f]{64}$` */
  predicate IsDigest(s: string) {
    |s| == 71 && "sha256:" <= s && forall c | c in s[7..] :: '0' <= c <= '9' || 'a' <= c <= 'f'
  }

  /** `sep.join(parts)` */
  function Join(sep: string, parts: seq<string>): string {
    if parts == [] then ""
    else if |parts| == 1 then parts[0]
    else parts[0] + sep + Join(sep, parts[1..])
  }

  /** Joining two non-empty lists puts one separator between the two joined halves. */
  lemma {:induction false} JoinConcat(sep: string, a: seq<string>, b: seq<string>)
    requires a != [] && b != []
    ensures Join(sep, a + b) == Join(sep, a) + sep + Join(sep, b)
  {
    if |a| == 1 {
      assert (a + b)[1..] == b;
    } else {
      JoinConcat(sep, a[1..], b);
      assert (a + b)[1..] == a[1..] + b;
    }
  }

  /** `s.split(sep)` for a single-character separator: always at least one field. */
  function Split(s: string, sep: char): (r: seq<string>)
    ensures |r| >= 1
  {
    if s == "" then [""]
    else if s[0] == sep then [""] + Split(s[1..], sep)
    else
      var rest := Split(s[1..], sep);
      [[s[0]] + rest[0]] + rest[1..]
  }

  /** Splitting undoes joining when no part holds the separator. */
  lemma {:induction false} SplitJoin(parts: seq<string>, sep: char)
    requires parts != []
    requires forall p | p in parts :: sep !in p
    ensures Split(Join([sep], parts), sep) == parts
  {
    var joined := Join([sep], parts);
    if |parts| == 1 {
      SplitWhole(parts[0], sep);
    } else {
      SplitJoin(parts[1..], sep);
      SplitHead(parts[0], Join([sep], parts[1..]), sep);
      assert joined == parts[0] + [sep] + Join([sep], parts[1..]);
    }
  }

  lemma {:induction false} SplitWhole(s: string, sep: char)
    requires sep !in s
    ensures Split(s, sep) == [s]
  {
    if s != "" {
      SplitWhole(s[1..], sep);
      assert s[0] in s && s == [s[0]] + s[1..];
    }
  }

  lemma {:induction false} SplitHead(s: string, rest: string, sep: char)
    requires sep !in s
    ensures Split(s + [sep] + rest, sep) == [s] + Split(rest, sep)
  {
    var whole := s + [sep] + rest;
    if s == "" {
      assert whole[1..] == rest;
    } else {
      SplitHead(s[1..], rest, sep);
      assert s[0] in s && s == [s[0]] + s[1..];
      assert whole[1..] == s[1..] + [sep] + rest;
    }
  }

  /** Adding a character in front of a text changes its first field only, or opens a new one. */
  lemma SplitStep(c: char, s: string, sep: char)
    ensures var rest := Split(s, sep);
            Split([c] + s, sep) == if c == sep then [""] + rest else [[c] + rest[0]] + rest[1..]
  {
    assert ([c] + s)[1..] == s;
  }

  lemma FieldsConcat(c: char, first: seq<string>, more: seq<string>, sep: char)
    requires first != []
    ensures if c == sep then [""] + (first + more) == [""] + first + more
            else [[c] + (first + more)[0]] + (first + more)[1..] == [[c] + first[0]] + first[1..] + more
  {
    assert (first + more)[1..] == first[1..] + more;
  }

  lemma {:induction false} SplitConcat(a: string, b: string, sep: char)
    ensures Split(a + [sep] + b, sep) == Split(a, sep) + Split(b, sep)
  {
    if a == "" {
      assert a + [sep] + b == [sep] + b;
      SplitStep(sep, b, sep);
    } else {
      hide Split;
      SplitConcat(a[1..], b, sep);
      assert a == [a[0]] + a[1..];
      assert a + [sep] + b == [a[0]] + (a[1..] + [sep] + b);
      SplitStep(a[0], a[1..], sep);
      SplitStep(a[0], a[1..] + [sep] + b, sep);
      FieldsConcat(a[0], Split(a[1..], sep), Split(b, sep), sep);
    }
  }

  lemma {:induction false} JoinSplit(s: string, sep: char)
    ensures Join([sep], Split(s, sep)) == s
  {
    if s != "" {
      JoinSplit(s[1..], sep);
      var rest := Split(s[1..], sep);
      assert s == [s[0]] + s[1..];
      if s[0] == sep {
        assert Split(s, sep)[1..] == rest;
      } else {
        assert Split(s, sep)[1..] == rest[1..];
      }
    }
  }

  /** One path is another, or lies below it, exactly when its components start the other's components. */
  lemma PrefixIsAncestry(a: string, b: string, sep: char)
    ensures (a == b || a + [sep] <= b) <==> Split(a, sep) <= Split(b, sep)
  {
    var pa, pb := Split(a, sep), Split(b, sep);
    if a + [sep] <= b {
      var rest := b[|a| + 1..];
      assert b == a + [sep] + rest;
      SplitConcat(a, rest, sep);
    }
    if pa <= pb {
      JoinSplit(a, sep);
      JoinSplit(b, sep);
      if |pa| == |pb| {
        assert pa == pb;
      } else {
        var rest := pb[|pa|..];
        assert pb == pa + rest;
        JoinConcat([sep], pa, rest);
      }
    }
  }
}
