/** Python's `sorted` on strings: lexicographic by code point, one listing for each set. */
module Ordering {

  predicate Leq(a: string, b: string) {
    a == "" || (b != "" && (a[0] < b[0] || (a[0] == b[0] && Leq(a[1..], b[1..]))))
  }

  lemma LeqReflexive(a: string)
    ensures Leq(a, a)
  {}

  lemma {:induction false} LeqTotal(a: string, b: string)
    ensures Leq(a, b) || Leq(b, a)
  {
    if a != "" && b != "" && a[0] == b[0] {
      LeqTotal(a[1..], b[1..]);
    }
  }

  lemma {:induction false} LeqAntisymmetric(a: string, b: string)
    requires Leq(a, b) && Leq(b, a)
    ensures a == b
  {
    if a != "" && b != "" {
      LeqAntisymmetric(a[1..], b[1..]);
      assert a == [a[0]] + a[1..] && b == [b[0]] + b[1..];
    }
  }

  lemma {:induction false} LeqTransitive(a: string, b: string, c: string)
    requires Leq(a, b) && Leq(b, c)
    ensures Leq(a, c)
  {
    if a != "" && a[0] == b[0] == c[0] {
      LeqTransitive(a[1..], b[1..], c[1..]);
    }
  }

  /** A string sorts before every longer string it starts. */
  lemma {:induction false} LeqPrefix(a: string, b: string)
    requires a <= b
    ensures Leq(a, b)
  {
    if a != "" {
      LeqPrefix(a[1..], b[1..]);
    }
  }

  predicate IsMin(m: string, s: set<string>) {
    m in s && forall y | y in s :: Leq(m, y)
  }

  lemma {:induction false} MinExists(s: set<string>)
    requires s != {}
    ensures exists m :: IsMin(m, s)
  {
    var x :| x in s;
    if s == {x} {
      LeqReflexive(x);
      assert IsMin(x, s);
    } else {
      MinExists(s - {x});
      var m :| IsMin(m, s - {x});
      LeqTotal(x, m);
      LeqReflexive(x);
      if Leq(x, m) {
        forall y | y in s ensures Leq(x, y) {
          if y != x { LeqTransitive(x, m, y); }
        }
        assert IsMin(x, s);
      } else {
        assert IsMin(m, s);
      }
    }
  }

  lemma MinUnique(s: set<string>)
    ensures forall m, n | IsMin(m, s) && IsMin(n, s) :: m == n
  {
    forall m, n | IsMin(m, s) && IsMin(n, s) ensures m == n {
      LeqAntisymmetric(m, n);
    }
  }

  function Min(s: set<string>): (m: string)
    requires s != {}
    ensures IsMin(m, s)
  {
    MinExists(s);
    MinUnique(s);
    assert exists m :: m in s && IsMin(m, s);
    var m :| m in s && IsMin(m, s);
    m
  }

  /** `sorted(s)` */
  function Sorted(s: set<string>): (r: seq<string>)
    ensures forall x :: x in r <==> x in s
  {
    if s == {} then []
    else var m := Min(s); [m] + Sorted(s - {m})
  }

  lemma {:induction false} SortedAscends(s: set<string>)
    ensures Ascending(Sorted(s)) && Unique(Sorted(s)) && |Sorted(s)| == |s|
  {
    if s != {} {
      hide Leq;
      var m := Min(s);
      SortedAscends(s - {m});
      LeastFirst(m, Sorted(s - {m}));
      hide Ascending, Unique;
    }
  }

  lemma LeastFirst(m: string, rest: seq<string>)
    requires Ascending(rest) && Unique(rest) && forall x | x in rest :: Leq(m, x) && x != m
    ensures Ascending([m] + rest) && Unique([m] + rest)
  {
    hide Leq;
    forall i | 0 <= i < |rest| ensures Leq(m, rest[i]) && rest[i] != m {
      assert rest[i] in rest;
    }
  }

  ghost predicate Ascending(r: seq<string>) {
    forall i, j | 0 <= i < j < |r| :: Leq(r[i], r[j])
  }

  ghost predicate Unique<T(!new)>(r: seq<T>) {
    forall i, j | 0 <= i < j < |r| :: r[i] != r[j]
  }

  /** Sorted, each element once. */
  predicate Sorts(list: seq<string>) {
    forall i, j | 0 <= i < j < |list| :: Leq(list[i], list[j]) && list[i] != list[j]
  }

  lemma SortedSorts(s: set<string>)
    ensures Sorts(Sorted(s))
  {
    SortedAscends(s);
    hide Leq, Sorted;
  }

  /** Ascending lists without repeats are determined by their elements. */
  lemma {:induction false} SortedUnique(a: seq<string>, b: seq<string>)
    requires Ascending(a) && Unique(a) && Ascending(b) && Unique(b)
    requires forall x :: x in a <==> x in b
    ensures a == b
  {
    assert b != [] ==> b[0] in b;
    if a != [] {
      assert a[0] in a && a[0] in b;
      assert b[0] in b && b[0] in a;
      LeqReflexive(a[0]);
      LeqReflexive(b[0]);
      assert Leq(a[0], b[0]) && Leq(b[0], a[0]);
      LeqAntisymmetric(a[0], b[0]);
      forall x ensures x in a[1..] <==> x in b[1..] {
        assert x in a <==> x == a[0] || x in a[1..];
        assert x in b <==> x == b[0] || x in b[1..];
      }
      SortedUnique(a[1..], b[1..]);
      assert a == [a[0]] + a[1..] && b == [b[0]] + b[1..];
    }
  }

  function SetOf(xs: seq<string>): set<string> {
    set x | x in xs
  }

  /** `len(xs) == len(set(xs))` */
  predicate Distinct(xs: seq<string>) {
    |SetOf(xs)| == |xs|
  }

  lemma {:induction false} SetOfSize(xs: seq<string>)
    ensures |SetOf(xs)| <= |xs|
    ensures Distinct(xs) <==> Unique(xs)
  {
    if xs != [] {
      var last := |xs| - 1;
      var front := xs[..last];
      SetOfSize(front);
      assert SetOf(xs) == SetOf(front) + {xs[last]};
      if xs[last] in front {
        assert SetOf(xs) == SetOf(front);
        var i :| 0 <= i < last && front[i] == xs[last];
        assert xs[i] == xs[last];
      } else {
        assert |SetOf(xs)| == |SetOf(front)| + 1;
        assert Unique(xs) <==> Unique(front) by {
          assert forall i | 0 <= i < last :: xs[i] == front[i] && front[i] in front;
        }
      }
    }
  }

  /** `sorted` of a set lists exactly that set, without repeats. */
  lemma SortedDistinct(s: set<string>)
    ensures Distinct(Sorted(s)) && SetOf(Sorted(s)) == s
  {
    SortedAscends(s);
    SetOfSize(Sorted(s));
  }

  function Filter(xs: seq<string>, p: string -> bool): seq<string> {
    if xs == [] then []
    else
      var last := xs[|xs| - 1];
      Filter(xs[..|xs| - 1], p) + (if p(last) then [last] else [])
  }

  /** Keeping some entries of a sorted listing gives the sorted listing of the entries kept. */
  lemma {:induction false} FilterSorted(xs: seq<string>, p: string -> bool)
    requires Ascending(xs) && Unique(xs)
    ensures Ascending(Filter(xs, p)) && Unique(Filter(xs, p))
    ensures forall x :: x in Filter(xs, p) <==> x in xs && p(x)
  {
    if xs != [] {
      var last := |xs| - 1;
      FilterSorted(xs[..last], p);
      assert xs == xs[..last] + [xs[last]];
      var front := Filter(xs[..last], p);
      forall i | 0 <= i < |front| ensures Leq(front[i], xs[last]) && front[i] != xs[last] {
        assert front[i] in xs[..last];
        var j :| 0 <= j < last && xs[j] == front[i];
      }
    }
  }
}
