/**
 * Cutting a UTF-8 prompt to a byte limit: the walk-back of scripts/advisor-call.py and the lenient decoding of
 * scripts/build_review_packet.py. Well-formed UTF-8 is that of section 4 of RFC 3629.
 */
module PromptTruncation {
  import opened Wrappers

  // ----- UTF-8 --------------------------------------------------------------------------------------------

  predicate IsTail(b: Byte) {
    0x80 <= b <= 0xBF
  }

  predicate StartsThree(a: Byte, b: Byte) {
    || (a == 0xE0 && 0xA0 <= b <= 0xBF) || (0xE1 <= a <= 0xEC && IsTail(b))
    || (a == 0xED && 0x80 <= b <= 0x9F) || (0xEE <= a <= 0xEF && IsTail(b))
  }

  predicate StartsFour(a: Byte, b: Byte) {
    || (a == 0xF0 && 0x90 <= b <= 0xBF) || (0xF1 <= a <= 0xF3 && IsTail(b)) || (a == 0xF4 && 0x80 <= b <= 0x8F)
  }

  /** The length of the well-formed character that a byte string starts with; 0 when there is none. */
  function CharLength(s: Bytes): (n: nat)
    ensures n <= 4 && n <= |s|
  {
    if s == [] then 0
    else if s[0] <= 0x7F then 1
    else if |s| >= 2 && 0xC2 <= s[0] <= 0xDF && IsTail(s[1]) then 2
    else if |s| >= 3 && StartsThree(s[0], s[1]) && IsTail(s[2]) then 3
    else if |s| >= 4 && StartsFour(s[0], s[1]) && IsTail(s[2]) && IsTail(s[3]) then 4
    else 0
  }

  /** `bytes.decode("utf-8")` succeeds. */
  predicate WellFormed(s: Bytes) {
    s == [] || (CharLength(s) > 0 && WellFormed(s[CharLength(s)..]))
  }

  /** `bytes.decode("utf-8", errors="ignore")`, encoded again: characters are kept, other bytes are skipped. */
  function DecodeIgnore(s: Bytes): Bytes {
    if s == [] then []
    else
      var n := CharLength(s);
      if n > 0 then s[..n] + DecodeIgnore(s[n..]) else DecodeIgnore(s[1..])
  }

  /** The length of the longest run of whole characters at the start of `s` that fits in `budget` bytes. */
  function Boundary(s: Bytes, budget: nat): (k: nat)
    ensures k <= budget && k <= |s|
  {
    var n := CharLength(s);
    if n == 0 || budget < n then 0 else n + Boundary(s[n..], budget - n)
  }

  // ----- The two cuts -------------------------------------------------------------------------------------

  /** What the walk-back keeps: the longest well-formed prefix among four candidates, else the fifth unchecked. */
  function WalkBackLength(s: Bytes, budget: nat): (k: nat)
    requires 4 <= budget <= |s|
    ensures budget - 4 <= k <= budget
  {
    if WellFormed(s[..budget]) then budget
    else if WellFormed(s[..budget - 1]) then budget - 1
    else if WellFormed(s[..budget - 2]) then budget - 2
    else if WellFormed(s[..budget - 3]) then budget - 3
    else budget - 4
  }

  /** The retry loop of scripts/advisor-call.py. */
  method WalkBack(original: Bytes, budget: nat) returns (truncated: Bytes)
    requires 4 <= budget <= |original|
    ensures truncated == original[..WalkBackLength(original, budget)]
  {
    hide WellFormed;
    truncated := original[..budget];
    for back := 0 to 4
      invariant truncated == original[..budget - back]
      invariant forall k | budget - back < k <= budget :: !WellFormed(original[..k])
    {
      if WellFormed(truncated) { return; }
      truncated := original[..budget - back - 1];
    }
  }

  /** `None` stands for the refusal because the binding suffix leaves fewer than 512 bytes. */
  function CappedPrompt(original: Bytes, suffix: Bytes, cap: nat): Option<(Bytes, bool)> {
    if |original| + |suffix| <= cap then Some((original + suffix, false))
    else if cap - |suffix| < 512 then None
    else
      var kept := original[..WalkBackLength(original, cap - |suffix|)];
      Some((kept + suffix, true))
  }

  /** The prompt cap of scripts/advisor-call.py: the effective prompt and `truncation_applied`. */
  method CapPrompt(original: Bytes, suffix: Bytes, cap: nat) returns (r: Option<(Bytes, bool)>)
    ensures r == CappedPrompt(original, suffix, cap)
  {
    hide WellFormed;
    var effective := original + suffix;
    if |effective| > cap {
      var budget := cap - |suffix|;
      if budget < 512 { return None; }
      var truncated := WalkBack(original, budget);
      effective := truncated + suffix;
    }
    r := Some((effective, |effective| < |original + suffix|));
  }

  /** The truncation at the end of `render_review_prompt`. */
  function TruncatedPrompt(encoded: Bytes, suffix: Bytes, maxBytes: int): Bytes {
    if |encoded| > maxBytes then
      var budget := if maxBytes - |suffix| < 0 then 0 else maxBytes - |suffix|;
      DecodeIgnore(encoded[..if budget < |encoded| then budget else |encoded|]) + suffix
    else encoded
  }

  // ----- What they keep -------------------------------------------------------------------------------------

  lemma PrefixCharLength(s: Bytes, k: nat)
    requires CharLength(s) <= k <= |s|
    ensures CharLength(s) > 0 ==> CharLength(s[..k]) == CharLength(s)
  {}

  /** A well-formed prefix of a byte string ends on a character boundary, so none within budget is longer. */
  lemma {:induction false} BoundaryIsLongest(s: Bytes, budget: nat, k: nat)
    requires k <= budget && k <= |s| && WellFormed(s[..k])
    ensures k <= Boundary(s, budget)
  {
    if k > 0 {
      var n := CharLength(s[..k]);
      assert n > 0 && CharLength(s) == n;
      assert s[..k][n..] == s[n..][..k - n];
      BoundaryIsLongest(s[n..], budget - n, k - n);
    }
  }

  lemma {:induction false} BoundaryIsWellFormed(s: Bytes, budget: nat)
    ensures WellFormed(s[..Boundary(s, budget)])
  {
    var n := CharLength(s);
    if n > 0 && n <= budget {
      var k := Boundary(s, budget);
      BoundaryIsWellFormed(s[n..], budget - n);
      PrefixCharLength(s, k);
      assert s[..k][n..] == s[n..][..k - n];
    }
  }

  /** Cutting well-formed text costs at most the three bytes of an unfinished character. */
  lemma {:induction false} BoundaryLosesLittle(s: Bytes, budget: nat)
    requires WellFormed(s) && budget <= |s|
    ensures budget - 3 <= Boundary(s, budget)
  {
    var n := CharLength(s);
    if s != [] && n <= budget {
      BoundaryLosesLittle(s[n..], budget - n);
    }
  }

  lemma {:induction false} TailsAreSkipped(s: Bytes)
    requires forall b | b in s :: IsTail(b)
    ensures DecodeIgnore(s) == []
  {
    if s != [] {
      assert IsTail(s[0]);
      TailsAreSkipped(s[1..]);
    }
  }

  /** An unfinished character is skipped entirely. */
  lemma UnfinishedIsSkipped(s: Bytes, k: nat)
    requires k < CharLength(s)
    ensures DecodeIgnore(s[..k]) == []
  {
    if k > 0 {
      var cut := s[..k];
      assert CharLength(cut) == 0;
      forall i | 1 <= i < k ensures IsTail(s[i]) {}
      forall b | b in cut[1..] ensures IsTail(b) {
        var i :| 0 <= i < |cut| - 1 && cut[1..][i] == b;
        assert b == s[i + 1];
      }
      TailsAreSkipped(cut[1..]);
    }
  }

  /** Decoding a cut of well-formed text while ignoring errors keeps exactly its whole characters. */
  lemma {:induction false} DecodeIgnoreKeepsBoundary(s: Bytes, budget: nat)
    requires WellFormed(s) && budget <= |s|
    ensures DecodeIgnore(s[..budget]) == s[..Boundary(s, budget)]
  {
    hide CharLength;
    var n := CharLength(s);
    if s != [] {
      if budget < n {
        UnfinishedIsSkipped(s, budget);
      } else {
        PrefixCharLength(s, budget);
        DecodeIgnoreKeepsBoundary(s[n..], budget - n);
        assert s[..budget][n..] == s[n..][..budget - n];
        assert s[..budget][..n] == s[..n];
        var k := Boundary(s[n..], budget - n);
        assert s[..n] + s[n..][..k] == s[..n + k];
      }
    }
  }

  /** On well-formed text the four-step walk-back finds the longest whole-character prefix within budget. */
  lemma WalkBackKeepsBoundary(s: Bytes, budget: nat)
    requires WellFormed(s) && 4 <= budget <= |s|
    ensures WalkBackLength(s, budget) == Boundary(s, budget)
  {
    var k := Boundary(s, budget);
    BoundaryIsWellFormed(s, budget);
    BoundaryLosesLittle(s, budget);
    forall i | k < i <= budget ensures !WellFormed(s[..i]) {
      if WellFormed(s[..i]) { BoundaryIsLongest(s, budget, i); }
    }
    hide WellFormed, Boundary;
    assert k == budget || k == budget - 1 || k == budget - 2 || k == budget - 3;
  }

  /**
   * The capped advisor prompt: it fits the cap and ends with the whole suffix; `truncation_applied` is true
   * exactly when original bytes were dropped; well-formed text stays well formed, loses at most three bytes of
   * the budget, and is cut exactly where lenient decoding at the same budget would cut it.
   */
  lemma CappedPromptIsFaithful(original: Bytes, suffix: Bytes, cap: nat)
    requires WellFormed(original) && CappedPrompt(original, suffix, cap).Some?
    ensures var (prompt, truncated) := CappedPrompt(original, suffix, cap).value;
            && |prompt| <= cap && |suffix| <= |prompt| && prompt[|prompt| - |suffix|..] == suffix
            && var kept := prompt[..|prompt| - |suffix|];
               && kept <= original && WellFormed(kept)
               && (truncated <==> kept != original)
               && (truncated ==> cap - |suffix| - 3 <= |kept| && kept == DecodeIgnore(original[..cap - |suffix|]))
               && (forall k | |kept| < k <= cap - |suffix| && k <= |original| :: !WellFormed(original[..k]))
  {
    hide DecodeIgnore, WellFormed, WalkBackLength;
    var (prompt, truncated) := CappedPrompt(original, suffix, cap).value;
    var kept := prompt[..|prompt| - |suffix|];
    if truncated {
      WalkBackIsFaithful(original, cap - |suffix|);
      assert kept == original[..WalkBackLength(original, cap - |suffix|)];
    } else {
      assert kept == original;
    }
  }

  /** What the walk-back keeps of well-formed text that is over budget. */
  lemma WalkBackIsFaithful(original: Bytes, budget: nat)
    requires WellFormed(original) && 4 <= budget < |original|
    ensures var n := WalkBackLength(original, budget);
            && budget - 3 <= n <= budget && WellFormed(original[..n])
            && original[..n] == DecodeIgnore(original[..budget])
            && (forall k | n < k <= budget :: !WellFormed(original[..k]))
  {
    hide DecodeIgnore, Boundary, WellFormed, WalkBackLength;
    WalkBackKeepsBoundary(original, budget);
    BoundaryLosesLittle(original, budget);
    BoundaryIsWellFormed(original, budget);
    DecodeIgnoreKeepsBoundary(original, budget);
    forall k | Boundary(original, budget) < k <= budget ensures !WellFormed(original[..k]) {
      if WellFormed(original[..k]) { BoundaryIsLongest(original, budget, k); }
    }
  }

  /**
   * The capped prompt for any bytes, ill-formed ones included. It is refused exactly when it does not fit and the
   * suffix leaves fewer than 512 bytes; a prompt that fits is kept whole. Otherwise what is kept is well formed and no
   * longer cut is, unless none of the four longest cuts is well formed, and then it is four bytes short of the budget.
   */
  lemma CapsExactly(original: Bytes, suffix: Bytes, cap: nat)
    ensures var (r, budget) := (CappedPrompt(original, suffix, cap), cap - |suffix|);
            && (r == None <==> |original| > budget && budget < 512)
            && (|original| <= budget ==> r == Some((original + suffix, false)))
            && (|original| > budget && budget >= 512 ==>
                  exists n | budget - 4 <= n <= budget ::
                    && r == Some((original[..n] + suffix, true))
                    && (n > budget - 4 ==> WellFormed(original[..n]))
                    && forall k | n < k <= budget :: !WellFormed(original[..k]))
  {
    hide WellFormed;
    var budget := cap - |suffix|;
    if |original| > budget && budget >= 512 {
      var n := WalkBackLength(original, budget);
      assert budget - 4 <= n <= budget;
    }
  }

  /**
   * A review prompt within the limit is kept whole. One over it is cut to the longest whole-character prefix within its
   * budget, and then fits the limit if and only if the suffix alone does.
   */
  lemma TruncatedPromptIsFaithful(encoded: Bytes, suffix: Bytes, maxBytes: int)
    requires WellFormed(encoded)
    ensures var prompt := TruncatedPrompt(encoded, suffix, maxBytes);
            var budget := if maxBytes - |suffix| < 0 then 0 else maxBytes - |suffix|;
            && (|encoded| <= maxBytes ==> prompt == encoded)
            && (|encoded| > maxBytes ==> prompt == encoded[..Boundary(encoded, budget)] + suffix
                                         && (|prompt| <= maxBytes <==> |suffix| <= maxBytes))
  {
    hide DecodeIgnore, Boundary, WellFormed;
    if |encoded| > maxBytes {
      var budget := if maxBytes - |suffix| < 0 then 0 else maxBytes - |suffix|;
      DecodeIgnoreKeepsBoundary(encoded, budget);
    }
  }

  /** The fixed suffix of a truncated review prompt: two line breaks and a note of forty characters. */
  const REVIEW_SUFFIX: Bytes := [
    0x0a, 0x0a, 0x2e, 0x2e, 0x2e, 0x20, 0x5b, 0x70, 0x72, 0x6f, 0x6d, 0x70, 0x74, 0x20,
    0x74, 0x72, 0x75, 0x6e, 0x63, 0x61, 0x74, 0x65, 0x64, 0x20, 0x74, 0x6f, 0x20, 0x66,
    0x69, 0x74, 0x20, 0x62, 0x79, 0x74, 0x65, 0x20, 0x6c, 0x69, 0x6d, 0x69, 0x74, 0x5d
  ]

  /** A limit below the length of that suffix is never kept: every longer prompt is cut to the forty-two bytes of it. */
  lemma ShortLimitIsExceeded(encoded: Bytes, maxBytes: int)
    requires maxBytes < 42 && maxBytes < |encoded|
    ensures |TruncatedPrompt(encoded, REVIEW_SUFFIX, maxBytes)| == 42
  {
    assert |REVIEW_SUFFIX| == 42;
    hide REVIEW_SUFFIX;
    assert encoded[..0] == [];
  }
}
