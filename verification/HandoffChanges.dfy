/**
 * The change listings of scripts/build-scoped-handoff.py: `name_status`, proved to invert git's printing, and
 * `untracked_paths`.
 */
module HandoffChanges {
  import opened Wrappers
  import opened Strings
  import opened HandoffPaths

  const NUL := '\U{0}'

  /** One changed path; `source` is the other end of a rename or copy. */
  datatype Change = Change(status: string, path: string, source: Option<string>)

  predicate Moves(status: string) {
    status != "" && (status[0] == 'R' || status[0] == 'C')
  }

  // ----- Reading ------------------------------------------------------------------------------------------------

  /** `text.split("\t", 1)` on a text that holds a tab. */
  function SplitTab(text: string): (r: (string, string))
    requires '\t' in text
    ensures text == r.0 + "\t" + r.1 && '\t' !in r.0
  {
    if text[0] == '\t' then ("", text[1..])
    else
      assert text == [text[0]] + text[1..];
      var rest := SplitTab(text[1..]);
      ([text[0]] + rest.0, rest.1)
  }

  /** The status and first path of the next record, and how many fields they take. */
  function ReadHead(fields: seq<string>): (r: Option<(string, string, nat)>)
    requires fields != []
    ensures r.Some? ==> 1 <= r.value.2 <= |fields|
  {
    if '\t' in fields[0] then var split := SplitTab(fields[0]); Some((split.0, split.1, 1))
    else if |fields| == 1 then None
    else Some((fields[0], fields[1], 2))
  }

  /** The next record and how many fields it takes. */
  function ReadChange(fields: seq<string>): (r: Option<(Change, nat)>)
    requires fields != []
    ensures r.Some? ==> 1 <= r.value.1 <= |fields|
  {
    var head := ReadHead(fields);
    if head.None? then None
    else
      var (status, path, used) := head.value;
      var safe := SafeRelative(path);
      if safe.None? then None
      else if !Moves(status) then Some((Change(status, safe.value, None), used))
      else if used == |fields| then None
      else
        var target := SafeRelative(fields[used]);
        if target.None? then None else Some((Change(status, target.value, safe), used + 1))
  }

  /** All records up to the first empty field; `None` is the raised error. */
  function ReadChanges(fields: seq<string>): Option<seq<Change>> {
    if fields == [] || fields[0] == "" then Some([])
    else
      var first := ReadChange(fields);
      if first.None? then None
      else
        var rest := ReadChanges(fields[first.value.1..]);
        if rest.None? then None else Some([first.value.0] + rest.value)
  }

  function Prepend(done: seq<Change>, rest: Option<seq<Change>>): Option<seq<Change>> {
    if rest.None? then None else Some(done + rest.value)
  }

  /** `name_status`: the index-driven loop over the fields of git's output. */
  method NameStatus(raw: string) returns (result: Option<seq<Change>>)
    ensures result == ReadChanges(Split(raw, NUL))
  {
    hide SafeRelative, Split;
    var fields := Split(raw, NUL);
    var changes: seq<Change> := [];
    var index := 0;
    assert fields[0..] == fields;
    PrependNothing(ReadChanges(fields));
    while index < |fields| && fields[index] != ""
      invariant 0 <= index <= |fields|
      invariant ReadChanges(fields) == Prepend(changes, ReadChanges(fields[index..]))
    {
      ghost var rest := fields[index..];
      var status, path;
      var first := fields[index];
      index := index + 1;
      if '\t' in first {
        var split := SplitTab(first);
        status, path := split.0, split.1;
      } else {
        status := first;
        if index >= |fields| { return None; }
        path := fields[index];
        index := index + 1;
      }
      ghost var used := |rest| - |fields[index..]|;
      assert ReadHead(rest) == Some((status, path, used));
      var safe := SafeRelative(path);
      if safe.None? { return None; }
      var change := Change(status, safe.value, None);
      if Moves(status) {
        if index >= |fields| { return None; }
        var target := SafeRelative(fields[index]);
        if target.None? { return None; }
        assert fields[index] == rest[used];
        index := index + 1;
        change := Change(status, target.value, safe);
      }
      assert ReadChange(rest) == Some((change, |rest| - |fields[index..]|));
      assert rest[|rest| - |fields[index..]|..] == fields[index..];
      PrependStep(changes, change, ReadChanges(fields[index..]));
      changes := changes + [change];
    }
    assert changes + [] == changes;
    result := Some(changes);
  }

  lemma PrependNothing(rest: Option<seq<Change>>)
    ensures Prepend([], rest) == rest
  {
    if rest.Some? { assert [] + rest.value == rest.value; }
  }

  lemma PrependStep(done: seq<Change>, next: Change, rest: Option<seq<Change>>)
    ensures Prepend(done, Prepend([next], rest)) == Prepend(done + [next], rest)
  {
    if rest.Some? { assert done + ([next] + rest.value) == done + [next] + rest.value; }
  }

  // ----- As git wrote it ----------------------------------------------------------------------------------------

  /** The same records with their paths as git wrote them. */
  function ReadRaw(fields: seq<string>): seq<Change> {
    if fields == [] || fields[0] == "" || ReadHead(fields).None? then []
    else
      var (status, path, used) := ReadHead(fields).value;
      if !Moves(status) then [Change(status, path, None)] + ReadRaw(fields[used..])
      else if used == |fields| then []
      else [Change(status, fields[used], Some(path))] + ReadRaw(fields[used + 1..])
  }

  ghost predicate Normalizes(c: Change, raw: Change) {
    && c.status == raw.status && SafeRelative(raw.path) == Some(c.path)
    && (if raw.source.Some? then SafeRelative(raw.source.value) == c.source && c.source.Some? else c.source.None?)
  }

  /** The listing holds the normal form of every path git wrote, in order and without omission. */
  lemma {:induction false} ListingNormalizesRaw(fields: seq<string>)
    requires ReadChanges(fields).Some?
    ensures |ReadChanges(fields).value| == |ReadRaw(fields)|
    ensures forall i | 0 <= i < |ReadRaw(fields)| :: Normalizes(ReadChanges(fields).value[i], ReadRaw(fields)[i])
  {
    hide SafeRelative;
    if fields != [] && fields[0] != "" {
      ListingNormalizesRaw(fields[ReadChange(fields).value.1..]);
    }
  }

  // ----- Untracked paths ----------------------------------------------------------------------------------------

  /** The paths of `untracked_paths`; `None` is the raised error. */
  function ReadUntracked(fields: seq<string>): Option<set<string>> {
    if fields == [] then Some({})
    else
      var rest := ReadUntracked(fields[1..]);
      if fields[0] == "" then rest
      else
        var safe := SafeRelative(fields[0]);
        if safe.None? || rest.None? then None else Some({safe.value} + rest.value)
  }

  /** They are read when every path git wrote is safe, and are then exactly the normal forms of these. */
  lemma {:induction false} UntrackedNormalizesRaw(fields: seq<string>)
    ensures ReadUntracked(fields).Some? <==> forall raw | raw in fields && raw != "" :: SafeRelative(raw).Some?
    ensures ReadUntracked(fields).Some? ==>
              forall path :: path in ReadUntracked(fields).value <==>
                exists raw | raw in fields && raw != "" :: SafeRelative(raw) == Some(path)
  {
    hide SafeRelative;
    if fields != [] {
      UntrackedNormalizesRaw(fields[1..]);
      assert fields == [fields[0]] + fields[1..];
    }
  }

  /** Two untracked files that are listed as one. */
  lemma UntrackedFallTogether()
    ensures ReadUntracked(["a", "a ", ""]) == Some({"a"})
  {
    TrailingBlankIsCut();
    PlainNameIsKept();
    hide SafeRelative, ReadUntracked;
    var fields := ["a", "a ", ""];
    UntrackedNormalizesRaw(fields);
    assert fields[0] == "a" && fields[0] in fields;
    assert ReadUntracked(fields).value == {"a"};
  }

  // ----- Printing -----------------------------------------------------------------------------------------------

  /** A change git can print: a non-empty status, normalised paths, and a second path exactly for moves. */
  ghost predicate Printable(c: Change) {
    && c.status != "" && '\t' !in c.status && NUL !in c.status
    && (c.source.Some? <==> Moves(c.status))
    && Normal(c.path) && (c.source.Some? ==> Normal(c.source.value))
  }

  ghost predicate Normal(path: string) {
    SafeRelative(path) == Some(path) && NUL !in path
  }

  /** The fields of one change; `tabbed` puts its status and first path into one field. */
  ghost function Fields(c: Change, tabbed: bool): seq<string> {
    var first := if c.source.Some? then c.source.value else c.path;
    (if tabbed then [c.status + "\t" + first] else [c.status, first])
    + (if c.source.Some? then [c.path] else [])
  }

  ghost function AllFields(changes: seq<Change>, tabbed: seq<bool>): seq<string>
    requires |tabbed| == |changes|
  {
    if changes == [] then [] else Fields(changes[0], tabbed[0]) + AllFields(changes[1..], tabbed[1..])
  }

  /** Every field followed by a NUL. */
  ghost function Terminated(fields: seq<string>): string {
    if fields == [] then "" else fields[0] + [NUL] + Terminated(fields[1..])
  }

  ghost function Printed(changes: seq<Change>, tabbed: seq<bool>): string
    requires |tabbed| == |changes|
  {
    Terminated(AllFields(changes, tabbed))
  }

  lemma {:induction false} SplitTerminated(fields: seq<string>)
    requires forall i | 0 <= i < |fields| :: NUL !in fields[i]
    ensures Split(Terminated(fields), NUL) == fields + [""]
  {
    if fields == [] {
      assert fields + [""] == [""];
    } else {
      SplitTerminated(fields[1..]);
      SplitHead(fields[0], Terminated(fields[1..]), NUL);
      hide Split;
      assert fields + [""] == [fields[0]] + (fields[1..] + [""]);
    }
  }

  lemma {:induction false} SplitTabOf(status: string, path: string)
    requires '\t' !in status
    ensures '\t' in status + "\t" + path && SplitTab(status + "\t" + path) == (status, path)
  {
    var text := status + "\t" + path;
    assert text[|status|] == '\t';
    if status == "" {
      assert text[1..] == path;
    } else {
      SplitTabOf(status[1..], path);
      assert status[0] in status;
      assert status == [status[0]] + status[1..];
      assert text[1..] == status[1..] + "\t" + path;
    }
  }

  /** Reading the printed fields of one change gives that change back. */
  lemma ReadPrinted(c: Change, tabbed: bool, rest: seq<string>)
    requires Printable(c)
    ensures Fields(c, tabbed) != [] && Fields(c, tabbed)[0] != ""
    ensures ReadChange(Fields(c, tabbed) + rest) == Some((c, |Fields(c, tabbed)|))
  {
    hide SafeRelative;
    var first := if c.source.Some? then c.source.value else c.path;
    var fields := Fields(c, tabbed) + rest;
    if tabbed {
      SplitTabOf(c.status, first);
      assert fields[0] == c.status + "\t" + first;
    } else {
      assert fields[0] == c.status && fields[1] == first;
    }
    assert ReadHead(fields) == Some((c.status, first, if tabbed then 1 else 2));
  }

  lemma {:induction false} ReadAllPrinted(changes: seq<Change>, tabbed: seq<bool>)
    requires |tabbed| == |changes| && forall i | 0 <= i < |changes| :: Printable(changes[i])
    ensures ReadChanges(AllFields(changes, tabbed) + [""]) == Some(changes)
  {
    hide SafeRelative, ReadChange, Fields, Printable;
    if changes == [] {
      assert AllFields(changes, tabbed) + [""] == [""];
    } else {
      var head, tail := Fields(changes[0], tabbed[0]), AllFields(changes[1..], tabbed[1..]) + [""];
      ReadAllPrinted(changes[1..], tabbed[1..]);
      ReadPrinted(changes[0], tabbed[0], tail);
      assert AllFields(changes, tabbed) + [""] == head + tail;
      assert (head + tail)[|head|..] == tail;
      assert changes == [changes[0]] + changes[1..];
    }
  }

  lemma {:induction false} FieldsHaveNoNul(changes: seq<Change>, tabbed: seq<bool>)
    requires |tabbed| == |changes| && forall i | 0 <= i < |changes| :: Printable(changes[i])
    ensures forall i | 0 <= i < |AllFields(changes, tabbed)| :: NUL !in AllFields(changes, tabbed)[i]
  {
    hide SafeRelative;
    if changes != [] {
      FieldsHaveNoNul(changes[1..], tabbed[1..]);
      assert Printable(changes[0]);
    }
  }

  /** `name_status` inverts printing, whatever mixture of the two field layouts the printer chose. */
  lemma NameStatusInvertsPrinting(changes: seq<Change>, tabbed: seq<bool>)
    requires |tabbed| == |changes| && forall i | 0 <= i < |changes| :: Printable(changes[i])
    ensures ReadChanges(Split(Printed(changes, tabbed), NUL)) == Some(changes)
  {
    FieldsHaveNoNul(changes, tabbed);
    SplitTerminated(AllFields(changes, tabbed));
    ReadAllPrinted(changes, tabbed);
  }

  /** Every path the listing yields is relative and has no empty, dot or parent component, and exactly the renames
      and copies carry a second one. */
  lemma {:induction false} ReadPathsAreSafe(fields: seq<string>)
    requires ReadChanges(fields).Some?
    ensures forall i | 0 <= i < |ReadChanges(fields).value| :: SafeChange(ReadChanges(fields).value[i])
  {
    hide ReadChange, SafeChange;
    if fields != [] && fields[0] != "" {
      ReadChangeIsSafe(fields);
      ReadPathsAreSafe(fields[ReadChange(fields).value.1..]);
    }
  }

  ghost predicate SafeChange(c: Change) {
    Safe(c.path) && (c.source.Some? ==> Safe(c.source.value)) && (c.source.Some? <==> Moves(c.status))
  }

  lemma ReadChangeIsSafe(fields: seq<string>)
    requires fields != [] && ReadChange(fields).Some?
    ensures SafeChange(ReadChange(fields).value.0)
  {
    hide SafeRelative, Safe, ReadHead;
    var head := ReadHead(fields).value;
    SafeWhenAccepted(head.1);
    if Moves(head.0) { SafeWhenAccepted(fields[head.2]); }
  }

  ghost predicate Safe(path: string) {
    path == "." || (
      && path != ""
      && forall i | 0 <= i < |Split(path, '/')| ::
           Split(path, '/')[i] != "" && Split(path, '/')[i] != "." && Split(path, '/')[i] != "..")
  }

  lemma SafeWhenAccepted(value: string)
    requires SafeRelative(value).Some?
    ensures Safe(SafeRelative(value).value)
  {
    AcceptedParts(value);
    var parts := ComponentsOf(value);
    hide SafeRelative, PartsOf, Strip, ReplaceChar, Split;
    if parts != [] {
      forall p | p in parts ensures '/' !in p {
        var i :| 0 <= i < |parts| && parts[i] == p;
      }
      SplitJoin(parts, '/');
      JoinEnds(parts);
      hide Join;
    }
  }
}
