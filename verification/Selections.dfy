/** Elements of a list chosen by position: all that satisfy a condition, in order. */
module Selections {

  ghost predicate Increasing(positions: seq<nat>) {
    forall i, j | 0 <= i < j < |positions| :: positions[i] < positions[j]
  }

  ghost predicate Within<T>(positions: seq<nat>, all: seq<T>) {
    forall i | 0 <= i < |positions| :: positions[i] < |all|
  }

  /** The positions are, in increasing order, exactly those at which the condition holds. */
  ghost predicate AreWhere<T>(positions: seq<nat>, all: seq<T>, wanted: T -> bool) {
    && Increasing(positions)
    && forall k | 0 <= k < |all| :: k in positions <==> wanted(all[k])
  }

  function At<T>(all: seq<T>, positions: seq<nat>): (r: seq<T>)
    requires Within(positions, all)
    ensures |r| == |positions| && forall i | 0 <= i < |r| :: r[i] == all[positions[i]]
  {
    seq(|positions|, i requires 0 <= i < |positions| => all[positions[i]])
  }

  /** One list holds exactly the elements of another that satisfy the condition, in order. */
  ghost predicate Lists<T>(chosen: seq<T>, all: seq<T>, wanted: T -> bool) {
    exists positions: seq<nat> ::
      Within(positions, all) && AreWhere(positions, all, wanted) && chosen == At(all, positions)
  }

  lemma NothingListed<T>(wanted: T -> bool)
    ensures Lists([], [], wanted)
  {
    var none: seq<nat>, all: seq<T> := [], [];
    assert Within(none, all) && AreWhere(none, all, wanted) && At(all, none) == [];
  }

  lemma ListIs<T>(chosen: seq<T>, all: seq<T>, wanted: T -> bool, positions: seq<nat>)
    requires Within(positions, all) && AreWhere(positions, all, wanted) && |chosen| == |positions|
    requires forall i | 0 <= i < |chosen| :: chosen[i] == all[positions[i]]
    ensures Lists(chosen, all, wanted)
  {
    hide Increasing;
    assert chosen == At(all, positions);
  }

  /** One more element at the end. */
  lemma ListsSnoc<T>(chosen: seq<T>, all: seq<T>, wanted: T -> bool, last: T)
    requires Lists(chosen, all, wanted)
    ensures Lists(chosen + (if wanted(last) then [last] else []), all + [last], wanted)
  {
    hide AreWhere;
    var positions: seq<nat> :|
      Within(positions, all) && AreWhere(positions, all, wanted) && chosen == At(all, positions);
    var more := positions + (if wanted(last) then [|all|] else []);
    var longer := chosen + (if wanted(last) then [last] else []);
    ExtendedAre(positions, all, wanted, last);
    hide Lists, At;
    assert |longer| == |more|;
    forall i | 0 <= i < |longer| ensures longer[i] == (all + [last])[more[i]] {
      if i < |chosen| { assert longer[i] == chosen[i]; }
    }
    ListIs(longer, all + [last], wanted, more);
  }

  lemma ExtendedAre<T>(positions: seq<nat>, all: seq<T>, wanted: T -> bool, last: T)
    requires Within(positions, all) && AreWhere(positions, all, wanted)
    ensures var more := positions + (if wanted(last) then [|all|] else []);
            AreWhere(more, all + [last], wanted) && Within(more, all + [last])
  {
    var more := positions + (if wanted(last) then [|all|] else []);
    forall k | 0 <= k < |all + [last]| ensures k in more <==> wanted((all + [last])[k]) {
      if k < |all| {
        assert k in more <==> k in positions;
      } else {
        assert k !in positions;
      }
    }
  }

  /** One more element at the front. */
  lemma ListsCons<T>(chosen: seq<T>, all: seq<T>, wanted: T -> bool, first: T)
    requires Lists(chosen, all, wanted)
    ensures Lists((if wanted(first) then [first] else []) + chosen, [first] + all, wanted)
  {
    hide AreWhere;
    var positions: seq<nat> :|
      Within(positions, all) && AreWhere(positions, all, wanted) && chosen == At(all, positions);
    var more := (if wanted(first) then [0] else []) + Shifted(positions);
    var longer := (if wanted(first) then [first] else []) + chosen;
    ShiftedAre(positions, all, wanted, first);
    hide Lists, At, Shifted;
    assert |longer| == |more|;
    forall i | 0 <= i < |longer| ensures longer[i] == ([first] + all)[more[i]] {
      var skipped := if wanted(first) then 1 else 0;
      if i >= skipped {
        assert longer[i] == chosen[i - skipped] && more[i] == positions[i - skipped] + 1;
      }
    }
    ListIs(longer, [first] + all, wanted, more);
  }

  function Shifted(positions: seq<nat>): (r: seq<nat>)
    ensures |r| == |positions| && forall i | 0 <= i < |r| :: r[i] == positions[i] + 1
  {
    seq(|positions|, i requires 0 <= i < |positions| => positions[i] + 1)
  }

  lemma ShiftedAre<T>(positions: seq<nat>, all: seq<T>, wanted: T -> bool, first: T)
    requires Within(positions, all) && AreWhere(positions, all, wanted)
    ensures var more := (if wanted(first) then [0] else []) + Shifted(positions);
            AreWhere(more, [first] + all, wanted) && Within(more, [first] + all)
  {
    var shifted := Shifted(positions);
    forall k: nat ensures k in shifted <==> k > 0 && k - 1 in positions {
      if k > 0 && k - 1 in positions {
        var i :| 0 <= i < |positions| && positions[i] == k - 1;
        assert shifted[i] == k;
      }
      if k in shifted {
        var i :| 0 <= i < |shifted| && shifted[i] == k;
        assert positions[i] in positions;
      }
    }
    var more := (if wanted(first) then [0] else []) + shifted;
    assert Increasing(more) && Within(more, [first] + all);
    forall k | 0 <= k < |[first] + all| ensures k in more <==> wanted(([first] + all)[k]) {
      assert k in more <==> k in shifted || (k == 0 && wanted(first));
    }
  }

  /** The condition decides the list. */
  lemma ListsUnique<T>(a: seq<T>, b: seq<T>, all: seq<T>, wanted: T -> bool)
    requires Lists(a, all, wanted) && Lists(b, all, wanted)
    ensures a == b
  {
    var p: seq<nat> :| Within(p, all) && AreWhere(p, all, wanted) && a == At(all, p);
    var q: seq<nat> :| Within(q, all) && AreWhere(q, all, wanted) && b == At(all, q);
    forall k: nat ensures k in p <==> k in q {
      assert k in p ==> k < |all|;
      assert k in q ==> k < |all|;
    }
    hide At;
    SamePositions(p, q);
  }

  lemma {:induction false} SamePositions(p: seq<nat>, q: seq<nat>)
    requires Increasing(p) && Increasing(q) && forall k: nat :: k in p <==> k in q
    ensures p == q
  {
    HasElements(p, q);
    if p != [] {
      assert p[0] in q && q[0] in p;
      assert p[0] == q[0];
      forall k: nat ensures k in p[1..] <==> k in q[1..] {
        assert k in p <==> k == p[0] || k in p[1..];
        assert k in q <==> k == q[0] || k in q[1..];
      }
      SamePositions(p[1..], q[1..]);
      assert p == [p[0]] + p[1..] && q == [q[0]] + q[1..];
    }
  }

  lemma HasElements(p: seq<nat>, q: seq<nat>)
    requires forall k: nat :: k in p <==> k in q
    ensures p == [] <==> q == []
  {
    assert p != [] ==> p[0] in q;
    assert q != [] ==> q[0] in p;
  }
}
