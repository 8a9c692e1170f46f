/**
 * The rule scanner of scripts/build-bazel-context.py: from each rule start it copies the text up to the
 * parenthesis that closes the call, skipping quoted strings. Where rules start is given by the caller.
 */
module BazelRules {
  import opened Wrappers
  import opened Selections

  /** A match of the rule pattern: the rule's name, where it starts, and its opening parenthesis. */
  datatype RuleStart = RuleStart(name: string, start: nat, open: nat)

  predicate IsStart(text: string, r: RuleStart) {
    r.start <= r.open < |text| && text[r.open] == '('
  }

  predicate IsQuote(c: char) {
    c == '\'' || c == '"'
  }

  // ----- The scan -------------------------------------------------------------------------------------------

  datatype Scan = Scan(depth: int, quote: Option<char>, escaped: bool)

  /** How one character changes the scan. */
  function Step(s: Scan, c: char): Scan {
    match s.quote
    case Some(q) =>
      if s.escaped then s.(escaped := false)
      else if c == '\\' then s.(escaped := true)
      else if c == q then s.(quote := None)
      else s
    case None =>
      if IsQuote(c) then s.(quote := Some(c))
      else if c == '(' then s.(depth := s.depth + 1)
      else if c == ')' then s.(depth := s.depth - 1)
      else s
  }

  /** The scan of `text[from..to]` from a clean start. */
  function ScanOf(text: string, from: nat, to: nat): Scan
    requires from <= to <= |text|
  {
    if from == to then Scan(0, None, false) else Step(ScanOf(text, from, to - 1), text[to - 1])
  }

  /** `end` is the first index after whose character the depth is back at zero. */
  ghost predicate ClosesAt(text: string, open: nat, end: nat)
    requires open <= end < |text|
  {
    && ScanOf(text, open, end + 1).depth == 0 && ScanOf(text, open, end + 1).quote == None
    && forall to | open < to <= end :: ScanOf(text, open, to).depth > 0
  }

  /** The character loop of `_rule_blocks` for one rule start. */
  method FindClose(text: string, open: nat) returns (end: Option<nat>)
    requires open < |text| && text[open] == '('
    ensures end.Some? ==> open <= end.value < |text| && ClosesAt(text, open, end.value)
    ensures end.None? ==> forall to | open < to <= |text| :: ScanOf(text, open, to).depth > 0
  {
    var depth: int, quote: Option<char>, escaped := 0, None, false;
    for index := open to |text|
      invariant ScanOf(text, open, index) == Scan(depth, quote, escaped)
      invariant index == open ==> depth == 0 && quote == None
      invariant forall to | open < to <= index :: ScanOf(text, open, to).depth > 0
    {
      var char_ := text[index];
      if quote.Some? {
        if escaped {
          escaped := false;
        } else if char_ == '\\' {
          escaped := true;
        } else if char_ == quote.value {
          quote := None;
        }
        continue;
      }
      if IsQuote(char_) {
        quote := Some(char_);
      } else if char_ == '(' {
        depth := depth + 1;
      } else if char_ == ')' {
        depth := depth - 1;
        if depth == 0 { return Some(index); }
      }
    }
    end := None;
  }

  // ----- Calls as a grammar -----------------------------------------------------------------------------------

  /** The index just after a quoted string whose content starts at `i`; a backslash takes the next character along. */
  function StringEnd(text: string, i: nat, q: char): (end: Option<nat>)
    ensures end.Some? ==> i < end.value <= |text|
    decreases |text| - i
  {
    if i >= |text| then None
    else if text[i] == '\\' then (if i + 1 < |text| then StringEnd(text, i + 2, q) else None)
    else if text[i] == q then Some(i + 1)
    else StringEnd(text, i + 1, q)
  }

  /**
   * The index of the parenthesis that closes a call whose arguments start at `i`: arguments are quoted strings,
   * nested calls and other characters. No counter and no flags: nesting is recursion.
   */
  function CallEnd(text: string, i: nat): (end: Option<nat>)
    ensures end.Some? ==> i <= end.value < |text|
    decreases |text| - i
  {
    if i >= |text| then None
    else if text[i] == ')' then Some(i)
    else if text[i] == '(' then
      match CallEnd(text, i + 1)
      case None => None
      case Some(inner) => CallEnd(text, inner + 1)
    else if text[i] == '\'' || text[i] == '"' then
      match StringEnd(text, i + 1, text[i])
      case None => None
      case Some(after) => CallEnd(text, after)
    else CallEnd(text, i + 1)
  }

  /** The end of the outermost of `depth` calls that are open at `i`. */
  function CloseAll(text: string, i: nat, depth: nat): Option<nat>
    requires depth > 0
    decreases depth
  {
    match CallEnd(text, i)
    case None => None
    case Some(end) => if depth == 1 then Some(end) else CloseAll(text, end + 1, depth - 1)
  }

  /** The scan from state `s` at `i`: where the depth first returns to zero. */
  function Close(text: string, i: nat, s: Scan): Option<nat>
    decreases |text| - i
  {
    if i >= |text| then None
    else if Step(s, text[i]).depth == 0 then Some(i)
    else Close(text, i + 1, Step(s, text[i]))
  }

  lemma {:induction false} CloseSkipsString(text: string, i: nat, depth: int, q: char)
    requires depth > 0
    ensures Close(text, i, Scan(depth, Some(q), false)) ==
            match StringEnd(text, i, q)
            case None => None
            case Some(end) => Close(text, end, Scan(depth, None, false))
    decreases |text| - i
  {
    if i < |text| {
      if text[i] == '\\' {
        if i + 1 < |text| { CloseSkipsString(text, i + 2, depth, q); }
      } else if text[i] != q {
        CloseSkipsString(text, i + 1, depth, q);
      }
    }
  }

  lemma {:induction false} CloseFollowsGrammar(text: string, i: nat, depth: nat)
    requires depth > 0
    ensures Close(text, i, Scan(depth, None, false)) == CloseAll(text, i, depth)
    decreases |text| - i
  {
    if i < |text| {
      var c := text[i];
      if c == ')' {
        if depth > 1 { CloseFollowsGrammar(text, i + 1, depth - 1); }
      } else if c == '(' {
        CloseFollowsGrammar(text, i + 1, depth + 1);
      } else if IsQuote(c) {
        CloseSkipsString(text, i + 1, depth, c);
        var after := StringEnd(text, i + 1, c);
        if after.Some? { CloseFollowsGrammar(text, after.value, depth); }
      } else {
        CloseFollowsGrammar(text, i + 1, depth);
      }
    }
  }

  /** Scanning on from a prefix already scanned. */
  lemma {:induction false} CloseFromPrefix(text: string, open: nat, i: nat, end: nat)
    requires open < i <= end < |text| && ClosesAt(text, open, end)
    ensures Close(text, i, ScanOf(text, open, i)) == Some(end)
    decreases end - i
  {
    assert ScanOf(text, open, i + 1) == Step(ScanOf(text, open, i), text[i]);
    if i < end { CloseFromPrefix(text, open, i + 1, end); }
  }

  lemma {:induction false} NoCloseFromPrefix(text: string, open: nat, i: nat)
    requires open < i <= |text| && forall to | open < to <= |text| :: ScanOf(text, open, to).depth > 0
    ensures Close(text, i, ScanOf(text, open, i)) == None
    decreases |text| - i
  {
    if i < |text| {
      assert ScanOf(text, open, i + 1) == Step(ScanOf(text, open, i), text[i]);
      NoCloseFromPrefix(text, open, i + 1);
    }
  }

  /**
   * The least index at which the depth outside quoted strings returns to zero is the end of the call as the
   * grammar reads it; there is no such index exactly when the grammar finds no end.
   */
  lemma CloseIsCallEnd(text: string, open: nat)
    requires open < |text| && text[open] == '('
    ensures CallEnd(text, open + 1).Some? ==> ClosesAt(text, open, CallEnd(text, open + 1).value)
    ensures CallEnd(text, open + 1).None? ==> forall to | open < to <= |text| :: ScanOf(text, open, to).depth > 0
    ensures forall end | open <= end < |text| && ClosesAt(text, open, end) :: CallEnd(text, open + 1) == Some(end)
  {
    assert ScanOf(text, open, open + 1) == Step(ScanOf(text, open, open), '(') == Scan(1, None, false);
    CloseFollowsGrammar(text, open + 1, 1);
    forall end | open <= end < |text| && ClosesAt(text, open, end) ensures CallEnd(text, open + 1) == Some(end) {
      CloseFromPrefix(text, open, open + 1, end);
    }
    var first := FirstClose(text, open, open + 1);
    if first.None? { NoCloseFromPrefix(text, open, open + 1); }
  }

  /** Some index closes the call, or the depth stays positive to the end of the text. */
  lemma {:induction false} FirstClose(text: string, open: nat, i: nat) returns (end: Option<nat>)
    requires open < i <= |text| && text[open] == '('
    requires forall to | open < to <= i :: ScanOf(text, open, to).depth > 0
    ensures end.Some? ==> open <= end.value < |text| && ClosesAt(text, open, end.value)
    ensures end.None? ==> forall to | open < to <= |text| :: ScanOf(text, open, to).depth > 0
    decreases |text| - i
  {
    if i == |text| { return None; }
    assert ScanOf(text, open, i + 1) == Step(ScanOf(text, open, i), text[i]);
    if ScanOf(text, open, i + 1).depth == 0 { return Some(i); }
    end := FirstClose(text, open, i + 1);
  }

  // ----- All rules ----------------------------------------------------------------------------------------------

  /** The blocks of the rules whose calls end, in order: the rule's name and its text. */
  function Blocks(text: string, starts: seq<RuleStart>): seq<(string, string)>
    requires forall i | 0 <= i < |starts| :: IsStart(text, starts[i])
  {
    if starts == [] then []
    else
      var last := starts[|starts| - 1];
      assert IsStart(text, last);
      Blocks(text, starts[..|starts| - 1]) +
      match CallEnd(text, last.open + 1)
      case None => []
      case Some(end) => [(last.name, text[last.start..end + 1])]
  }

  /** `_rule_blocks` */
  method RuleBlocks(text: string, starts: seq<RuleStart>) returns (blocks: seq<(string, string)>)
    requires forall i | 0 <= i < |starts| :: IsStart(text, starts[i])
    ensures blocks == Blocks(text, starts)
  {
    hide ClosesAt;
    blocks := [];
    for index := 0 to |starts|
      invariant blocks == Blocks(text, starts[..index])
    {
      var rule := starts[index];
      assert IsStart(text, rule);
      assert starts[..index + 1][..index] == starts[..index];
      var end := FindClose(text, rule.open);
      CloseIsCallEnd(text, rule.open);
      if end.Some? {
        blocks := blocks + [(rule.name, text[rule.start..end.value + 1])];
      } else {
        NotClosed(text, rule.open);
      }
    }
    assert starts[..|starts|] == starts;
  }

  /** The text from where the rule starts to the first index at which the depth is back at zero, with its name. */
  ghost predicate IsBlock(text: string, r: RuleStart, block: (string, string)) {
    IsStart(text, r) && exists end | r.open <= end < |text| ::
      ClosesAt(text, r.open, end) && block == (r.name, text[r.start..end + 1])
  }

  ghost function Closed(text: string): RuleStart -> bool {
    r => exists block :: IsBlock(text, r, block)
  }

  ghost predicate AreBlocks(text: string, rules: seq<RuleStart>, blocks: seq<(string, string)>) {
    |blocks| == |rules| && forall k | 0 <= k < |rules| :: IsBlock(text, rules[k], blocks[k])
  }

  /** One block for each rule whose parenthesis closes, in the order of the rules. */
  lemma {:induction false} BlocksExactly(text: string, starts: seq<RuleStart>)
    requires forall i | 0 <= i < |starts| :: IsStart(text, starts[i])
    ensures exists kept :: Lists(kept, starts, Closed(text)) && AreBlocks(text, kept, Blocks(text, starts))
  {
    hide Lists, ScanOf, ClosesAt, CallEnd;
    if starts == [] {
      NothingListed(Closed(text));
      assert AreBlocks(text, [], Blocks(text, starts));
    } else {
      var front, last := starts[..|starts| - 1], starts[|starts| - 1];
      BlocksExactly(text, front);
      var kept :| Lists(kept, front, Closed(text)) && AreBlocks(text, kept, Blocks(text, front));
      ListsSnoc(kept, front, Closed(text), last);
      assert front + [last] == starts;
      BlockOf(text, last);
      var end := CallEnd(text, last.open + 1);
      if end.Some? {
        assert AreBlocks(text, kept + [last], Blocks(text, starts));
      } else {
        assert AreBlocks(text, kept, Blocks(text, starts));
      }
    }
  }

  lemma BlockOf(text: string, r: RuleStart)
    requires IsStart(text, r)
    ensures CallEnd(text, r.open + 1).Some? <==> Closed(text)(r)
    ensures var end := CallEnd(text, r.open + 1);
            end.Some? ==> IsBlock(text, r, (r.name, text[r.start..end.value + 1]))
  {
    CloseIsCallEnd(text, r.open);
    hide ClosesAt, CallEnd;
    var end := CallEnd(text, r.open + 1);
    if end.Some? {
      assert IsBlock(text, r, (r.name, text[r.start..end.value + 1]));
    } else {
      forall block ensures !IsBlock(text, r, block) {}
    }
  }

  lemma NotClosed(text: string, open: nat)
    requires open < |text| && text[open] == '('
    requires forall to | open < to <= |text| :: ScanOf(text, open, to).depth > 0
    ensures CallEnd(text, open + 1).None?
  {
    CloseIsCallEnd(text, open);
  }
}
