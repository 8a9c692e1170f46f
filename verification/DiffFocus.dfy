/** `build_diff_focus` of scripts/build_review_packet.py: ranking hunks in place and counting changed lines. */
module DiffFocus {
  import opened Wrappers
  import opened DiffHunks
  import opened Permutations

  // ----- Ranking --------------------------------------------------------------------------------------------

  function CountChar(text: string, c: char): nat {
    if text == "" then 0 else (if text[0] == c then 1 else 0) + CountChar(text[1..], c)
  }

  /** How many of the risk patterns match a text; the patterns are given as predicates. */
  function RiskHits(risk: seq<string -> bool>, text: string): nat {
    if risk == [] then 0 else (if risk[0](text) then 1 else 0) + RiskHits(risk[1..], text)
  }

  function Score(risk: seq<string -> bool>, hunk: Hunk): int {
    var density := CountChar(hunk.text, '+') + CountChar(hunk.text, '-');
    3 * RiskHits(risk, hunk.text) + if density < 5 then density else 5
  }

  function Scores(risk: seq<string -> bool>, hunks: seq<Hunk>): (r: seq<int>)
    ensures |r| == |hunks| && forall i | 0 <= i < |r| :: r[i] == Score(risk, hunks[i])
  {
    seq(|hunks|, i requires 0 <= i < |hunks| => Score(risk, hunks[i]))
  }

  /** An entry of the list that is sorted: a score and the hunk's original position. */
  datatype Rank = Rank(score: int, index: nat)

  /** The sort key: higher scores first, then earlier positions. */
  predicate Before(a: Rank, b: Rank) {
    a.score > b.score || (a.score == b.score && a.index < b.index)
  }

  function Insert(ranked: seq<Rank>, r: Rank): seq<Rank> {
    if ranked == [] || Before(r, ranked[0]) then [r] + ranked else [ranked[0]] + Insert(ranked[1..], r)
  }

  /** `sorted(ranked, key=...)` of the entries in their original order. */
  function Ranking(scores: seq<int>): seq<Rank> {
    if scores == [] then []
    else Insert(Ranking(scores[..|scores| - 1]), Rank(scores[|scores| - 1], |scores| - 1))
  }

  ghost predicate Ordered(ranked: seq<Rank>) {
    forall i, j | 0 <= i < j < |ranked| :: Before(ranked[i], ranked[j])
  }

  /** The entries before sorting. */
  function Entries(scores: seq<int>): (r: seq<Rank>)
    ensures |r| == |scores| && forall i | 0 <= i < |r| :: r[i] == Rank(scores[i], i)
  {
    seq(|scores|, i requires 0 <= i < |scores| => Rank(scores[i], i))
  }

  lemma {:induction false} InsertOrders(ranked: seq<Rank>, r: Rank)
    requires Ordered(ranked) && forall x | x in ranked :: x.index != r.index
    ensures Ordered(Insert(ranked, r)) && multiset(Insert(ranked, r)) == multiset(ranked) + multiset{r}
  {
    if ranked != [] {
      assert ranked == [ranked[0]] + ranked[1..];
      assert ranked[0] in ranked;
      if !Before(r, ranked[0]) {
        var rest := Insert(ranked[1..], r);
        InsertOrders(ranked[1..], r);
        forall j | 0 <= j < |rest| ensures Before(ranked[0], rest[j]) {
          assert rest[j] in multiset(rest);
          if rest[j] != r {
            assert rest[j] in ranked[1..];
          }
        }
      }
    }
  }

  /** The sorted entries are in key order and are exactly the entries of the scores. */
  lemma {:induction false} RankingSorts(scores: seq<int>)
    ensures Ordered(Ranking(scores)) && multiset(Ranking(scores)) == multiset(Entries(scores))
  {
    if scores != [] {
      var front, last := scores[..|scores| - 1], Rank(scores[|scores| - 1], |scores| - 1);
      var before := Ranking(front);
      RankingSorts(front);
      forall x | x in before ensures x.index != last.index {
        assert x in multiset(before) && x in multiset(Entries(front));
      }
      InsertOrders(before, last);
      assert Entries(scores) == Entries(front) + [last];
    }
  }

  /** Every sorted entry is a position with its own score. */
  lemma RankedEntries(scores: seq<int>)
    ensures |Ranking(scores)| == |scores|
    ensures forall i | 0 <= i < |scores| ::
              Ranking(scores)[i].index < |scores| && Ranking(scores)[i].score == scores[Ranking(scores)[i].index]
  {
    RankingSorts(scores);
    var ranked := Ranking(scores);
    assert |ranked| == |multiset(ranked)| == |multiset(Entries(scores))|;
    forall i | 0 <= i < |ranked| ensures ranked[i].index < |scores| && ranked[i].score == scores[ranked[i].index] {
      assert ranked[i] in multiset(ranked) && ranked[i] in Entries(scores);
    }
  }

  function At(hunks: seq<Hunk>, r: Rank): Hunk {
    if r.index < |hunks| then hunks[r.index] else Hunk("", "")
  }

  /** The ranked hunks. */
  function Ranked(risk: seq<string -> bool>, hunks: seq<Hunk>): (r: seq<Hunk>) {
    Map(r => At(hunks, r), Ranking(Scores(risk, hunks)))
  }

  /** The in-place rewriting `hunks[:] = ...` at the end of `build_diff_focus`. */
  method RankHunks(risk: seq<string -> bool>, hunks: array<Hunk>)
    modifies hunks
    ensures hunks[..] == Ranked(risk, old(hunks[..]))
  {
    hide Score, Ranking;
    ghost var before := hunks[..];
    var scores: seq<int> := [];
    for index := 0 to hunks.Length
      invariant |scores| == index && forall i | 0 <= i < index :: scores[i] == Score(risk, hunks[i])
    {
      scores := scores + [Score(risk, hunks[index])];
    }
    assert scores == Scores(risk, before);
    var ranked := Ranking(scores);
    RankedEntries(scores);
    var copy := hunks[..];
    for index := 0 to hunks.Length
      invariant forall i | 0 <= i < index :: hunks[i] == copy[ranked[i].index]
    {
      hunks[index] := copy[ranked[index].index];
    }
  }

  /** Ranking permutes the hunks. */
  lemma RankedIsPermutation(risk: seq<string -> bool>, hunks: seq<Hunk>)
    ensures multiset(Ranked(risk, hunks)) == multiset(hunks)
  {
    hide Score, Ranking;
    var scores := Scores(risk, hunks);
    RankingSorts(scores);
    MapPermutes(r => At(hunks, r), Ranking(scores), Entries(scores));
    assert Map(r => At(hunks, r), Entries(scores)) == hunks;
  }

  /** Scores never increase along the ranking, and hunks with equal scores keep their order. */
  lemma RankedIsStable(risk: seq<string -> bool>, hunks: seq<Hunk>, i: nat, j: nat)
    requires i < j < |hunks|
    ensures |Ranked(risk, hunks)| == |hunks|
    ensures var (a, b) := (Ranking(Scores(risk, hunks))[i].index, Ranking(Scores(risk, hunks))[j].index);
            && a < |hunks| && b < |hunks| && a != b
            && Ranked(risk, hunks)[i] == hunks[a] && Ranked(risk, hunks)[j] == hunks[b]
            && Score(risk, hunks[a]) >= Score(risk, hunks[b])
            && (Score(risk, hunks[a]) == Score(risk, hunks[b]) ==> a < b)
  {
    hide Score, Ranking;
    var scores := Scores(risk, hunks);
    RankedEntries(scores);
    RankingSorts(scores);
    assert Before(Ranking(scores)[i], Ranking(scores)[j]);
  }

  // ----- Counting changed lines -----------------------------------------------------------------------------

  datatype Counts = Counts(added: int, deleted: int)

  predicate OpensFile(line: string) {
    "diff --git " <= line
  }

  predicate IsAdded(line: string) {
    !OpensFile(line) && !IsMark(line) && "+" <= line && !("+++" <= line)
  }

  predicate IsDeleted(line: string) {
    !OpensFile(line) && !IsMark(line) && !IsAdded(line) && "-" <= line && !("---" <= line)
  }

  /** The file changes are booked to after some lines. */
  function BookedFile(lines: seq<string>): string {
    if lines == [] then "unknown"
    else
      var line := lines[|lines| - 1];
      if OpensFile(line) then
        match AfterTarget(line)
        case Some(path) => path
        case None => "unknown"
      else BookedFile(lines[..|lines| - 1])
  }

  /** How many lines that satisfy `p` are booked to a file. */
  function Booked(p: string -> bool, lines: seq<string>, file: string): nat {
    if lines == [] then 0
    else
      Booked(p, lines[..|lines| - 1], file)
      + if p(lines[|lines| - 1]) && BookedFile(lines) == file then 1 else 0
  }

  /** How many lines satisfy `p`. */
  function CountLines(p: string -> bool, lines: seq<string>): nat {
    if lines == [] then 0 else CountLines(p, lines[..|lines| - 1]) + if p(lines[|lines| - 1]) then 1 else 0
  }

  function CountOf(files: map<string, Counts>, file: string): Counts {
    if file in files then files[file] else Counts(0, 0)
  }

  ghost function TotalAdded(files: map<string, Counts>): int {
    if files.Keys == {} then 0 else var f :| f in files; files[f].added + TotalAdded(files - {f})
  }

  ghost function TotalDeleted(files: map<string, Counts>): int {
    if files.Keys == {} then 0 else var f :| f in files; files[f].deleted + TotalDeleted(files - {f})
  }

  lemma {:induction false} TotalSplitAdded(files: map<string, Counts>, file: string)
    requires file in files
    ensures TotalAdded(files) == files[file].added + TotalAdded(files - {file})
    decreases |files|
  {
    var f :| f in files && TotalAdded(files) == files[f].added + TotalAdded(files - {f});
    if f != file {
      TotalSplitAdded(files - {f}, file);
      TotalSplitAdded(files - {file}, f);
      assert files - {f} - {file} == files - {file} - {f};
    }
  }

  lemma {:induction false} TotalSplitDeleted(files: map<string, Counts>, file: string)
    requires file in files
    ensures TotalDeleted(files) == files[file].deleted + TotalDeleted(files - {file})
    decreases |files|
  {
    var f :| f in files && TotalDeleted(files) == files[f].deleted + TotalDeleted(files - {f});
    if f != file {
      TotalSplitDeleted(files - {f}, file);
      TotalSplitDeleted(files - {file}, f);
      assert files - {f} - {file} == files - {file} - {f};
    }
  }

  lemma TotalsSplit(files: map<string, Counts>, file: string)
    requires file in files
    ensures TotalAdded(files) == files[file].added + TotalAdded(files - {file})
    ensures TotalDeleted(files) == files[file].deleted + TotalDeleted(files - {file})
  {
    TotalSplitAdded(files, file);
    TotalSplitDeleted(files, file);
  }

  /** Booking to one file moves the totals by what that file gains. */
  lemma TotalsUpdate(files: map<string, Counts>, file: string, c: Counts)
    ensures TotalAdded(files[file := c]) - TotalAdded(files) == c.added - CountOf(files, file).added
    ensures TotalDeleted(files[file := c]) - TotalDeleted(files) == c.deleted - CountOf(files, file).deleted
  {
    var updated := files[file := c];
    TotalsSplit(updated, file);
    assert updated - {file} == files - {file};
    if file in files {
      TotalsSplit(files, file);
    } else {
      assert files - {file} == files;
    }
  }

  /** The counting loop of `build_diff_focus`: per-file counts, whose sums are all added and all deleted lines. */
  method CountChanges(lines: seq<string>) returns (files: map<string, Counts>)
    ensures forall file :: CountOf(files, file) == Counts(Booked(IsAdded, lines, file), Booked(IsDeleted, lines, file))
    ensures TotalAdded(files) == CountLines(IsAdded, lines) && TotalDeleted(files) == CountLines(IsDeleted, lines)
  {
    hide OpensFile, IsMark, AfterTarget, TotalAdded, TotalDeleted;
    files := map[];
    var current := "unknown";
    assert TotalAdded(map[]) == 0 && TotalDeleted(map[]) == 0 by { EmptyTotals(); }
    for index := 0 to |lines|
      invariant current == BookedFile(lines[..index])
      invariant forall file :: CountOf(files, file) ==
                  Counts(Booked(IsAdded, lines[..index], file), Booked(IsDeleted, lines[..index], file))
      invariant TotalAdded(files) == CountLines(IsAdded, lines[..index])
      invariant TotalDeleted(files) == CountLines(IsDeleted, lines[..index])
    {
      var line := lines[index];
      assert lines[..index + 1][..index] == lines[..index];
      if OpensFile(line) {
        current := match AfterTarget(line) case Some(path) => path case None => "unknown";
        TotalsUpdate(files, current, CountOf(files, current));
        files := files[current := CountOf(files, current)];
      } else if IsMark(line) {
      } else if IsAdded(line) {
        var c := CountOf(files, current);
        TotalsUpdate(files, current, c.(added := c.added + 1));
        files := files[current := c.(added := c.added + 1)];
      } else if IsDeleted(line) {
        var c := CountOf(files, current);
        TotalsUpdate(files, current, c.(deleted := c.deleted + 1));
        files := files[current := c.(deleted := c.deleted + 1)];
      }
    }
    assert lines[..|lines|] == lines;
  }

  lemma EmptyTotals()
    ensures TotalAdded(map[]) == 0 && TotalDeleted(map[]) == 0
  {}
}
