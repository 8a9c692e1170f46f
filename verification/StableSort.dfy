/** Python's stable `list.sort` by a key of three strings. */
module StableSort {
  import opened Ordering
  import opened Permutations

  type Triple = (string, string, string)

  /** Tuples compare by the first components that differ. */
  predicate Before(a: Triple, b: Triple) {
    if a.0 != b.0 then Leq(a.0, b.0) else if a.1 != b.1 then Leq(a.1, b.1) else Leq(a.2, b.2)
  }

  lemma BeforeTotal(a: Triple, b: Triple)
    ensures Before(a, b) || Before(b, a)
  {
    LeqTotal(a.0, b.0);
    LeqTotal(a.1, b.1);
    LeqTotal(a.2, b.2);
  }

  lemma BeforeAntisymmetric(a: Triple, b: Triple)
    requires Before(a, b) && Before(b, a)
    ensures a == b
  {
    if a.0 != b.0 {
      LeqAntisymmetric(a.0, b.0);
    } else if a.1 != b.1 {
      LeqAntisymmetric(a.1, b.1);
    } else {
      LeqAntisymmetric(a.2, b.2);
    }
  }

  lemma BeforeTransitive(a: Triple, b: Triple, c: Triple)
    requires Before(a, b) && Before(b, c)
    ensures Before(a, c)
  {
    hide Leq;
    if Leq(a.0, b.0) && Leq(b.0, c.0) {
      LeqTransitive(a.0, b.0, c.0);
      if a.0 == c.0 && a.0 != b.0 { LeqAntisymmetric(a.0, b.0); }
    }
    if Leq(a.1, b.1) && Leq(b.1, c.1) {
      LeqTransitive(a.1, b.1, c.1);
      if a.1 == c.1 && a.1 != b.1 { LeqAntisymmetric(a.1, b.1); }
    }
    if Leq(a.2, b.2) && Leq(b.2, c.2) { LeqTransitive(a.2, b.2, c.2); }
  }

  ghost predicate Ascends<T>(key: T -> Triple, xs: seq<T>) {
    forall i, j | 0 <= i < j < |xs| :: Before(key(xs[i]), key(xs[j]))
  }

  ghost predicate KeysApart<T>(key: T -> Triple, xs: seq<T>) {
    forall i, j | 0 <= i < j < |xs| :: key(xs[i]) != key(xs[j])
  }

  /** Puts an element behind all that do not have to come after it. */
  function InsertBy<T>(key: T -> Triple, x: T, xs: seq<T>): seq<T> {
    if xs == [] then [x]
    else
      var last := |xs| - 1;
      if Before(key(xs[last]), key(x)) then xs + [x] else InsertBy(key, x, xs[..last]) + [xs[last]]
  }

  /** `xs.sort(key=key)` */
  function SortBy<T>(key: T -> Triple, xs: seq<T>): seq<T> {
    if xs == [] then [] else InsertBy(key, xs[|xs| - 1], SortBy(key, xs[..|xs| - 1]))
  }

  lemma {:induction false} InsertPermutes<T>(key: T -> Triple, x: T, xs: seq<T>)
    ensures multiset(InsertBy(key, x, xs)) == multiset(xs) + multiset{x}
  {
    if xs != [] {
      var last := |xs| - 1;
      assert xs == xs[..last] + [xs[last]];
      InsertPermutes(key, x, xs[..last]);
    }
  }

  lemma {:induction false} SortPermutes<T>(key: T -> Triple, xs: seq<T>)
    ensures multiset(SortBy(key, xs)) == multiset(xs)
  {
    if xs != [] {
      var last := |xs| - 1;
      assert xs == xs[..last] + [xs[last]];
      SortPermutes(key, xs[..last]);
      InsertPermutes(key, xs[last], SortBy(key, xs[..last]));
    }
  }

  lemma {:induction false} InsertAscends<T>(key: T -> Triple, x: T, xs: seq<T>)
    requires Ascends(key, xs)
    ensures Ascends(key, InsertBy(key, x, xs))
  {
    hide Before;
    if xs != [] {
      var last := |xs| - 1;
      BeforeTotal(key(x), key(xs[last]));
      if Before(key(xs[last]), key(x)) {
        forall i | 0 <= i < |xs| ensures Before(key(xs[i]), key(x)) {
          if i < last { BeforeTransitive(key(xs[i]), key(xs[last]), key(x)); }
        }
      } else {
        var rest := InsertBy(key, x, xs[..last]);
        InsertAscends(key, x, xs[..last]);
        InsertPermutes(key, x, xs[..last]);
        forall i | 0 <= i < |rest| ensures Before(key(rest[i]), key(xs[last])) {
          assert rest[i] in multiset(rest);
          if rest[i] != x {
            assert rest[i] in xs[..last];
          }
        }
      }
    }
  }

  lemma {:induction false} SortAscends<T>(key: T -> Triple, xs: seq<T>)
    ensures Ascends(key, SortBy(key, xs))
  {
    if xs != [] {
      SortAscends(key, xs[..|xs| - 1]);
      InsertAscends(key, xs[|xs| - 1], SortBy(key, xs[..|xs| - 1]));
    }
  }

  /** A list that ascends already stays as it is, elements of equal keys included. */
  lemma {:induction false} SortedStays<T>(key: T -> Triple, xs: seq<T>)
    requires Ascends(key, xs)
    ensures SortBy(key, xs) == xs
  {
    if xs != [] {
      var last := |xs| - 1;
      SortedStays(key, xs[..last]);
      assert xs == xs[..last] + [xs[last]];
      assert last > 0 ==> Before(key(xs[last - 1]), key(xs[last]));
    }
  }

  /** Elements under one key keep their order. */
  lemma {:induction false} SortIsStable<T>(key: T -> Triple, xs: seq<T>, k: Triple)
    ensures Keep(x => key(x) == k, SortBy(key, xs)) == Keep(x => key(x) == k, xs)
  {
    if xs != [] {
      var last := |xs| - 1;
      assert xs == xs[..last] + [xs[last]];
      KeepConcat(x => key(x) == k, xs[..last], [xs[last]]);
      SortIsStable(key, xs[..last], k);
      InsertIsStable(key, xs[last], SortBy(key, xs[..last]), k);
    }
  }

  lemma {:induction false} InsertIsStable<T>(key: T -> Triple, x: T, xs: seq<T>, k: Triple)
    ensures Keep(y => key(y) == k, InsertBy(key, x, xs)) == Keep(y => key(y) == k, xs) + Keep(y => key(y) == k, [x])
  {
    var p := (y: T) => key(y) == k;
    if xs != [] {
      var last := |xs| - 1;
      assert xs == xs[..last] + [xs[last]];
      if Before(key(xs[last]), key(x)) {
        KeepConcat(p, xs, [x]);
      } else {
        InsertIsStable(key, x, xs[..last], k);
        KeepConcat(p, InsertBy(key, x, xs[..last]), [xs[last]]);
        KeepConcat(p, xs[..last], [xs[last]]);
        assert key(x) != key(xs[last]) by { BeforeTotal(key(x), key(x)); }
        hide InsertBy, Before;
        assert [xs[last]][1..] == [] && [x][1..] == [];
      }
    } else {
      assert [x] == [] + [x];
    }
  }

  /** Without two elements under one key, the order before sorting does not matter. */
  lemma {:induction false} SortIgnoresOrder<T>(key: T -> Triple, a: seq<T>, b: seq<T>)
    requires multiset(a) == multiset(b) && KeysApart(key, a)
    ensures SortBy(key, a) == SortBy(key, b)
  {
    SortPermutes(key, a);
    SortPermutes(key, b);
    SortAscends(key, a);
    SortAscends(key, b);
    ApartPermutes(key, a, SortBy(key, a));
    hide SortBy;
    AscendingIsUnique(key, SortBy(key, a), SortBy(key, b));
  }

  lemma {:induction false} ApartPermutes<T>(key: T -> Triple, a: seq<T>, b: seq<T>)
    requires multiset(a) == multiset(b) && KeysApart(key, a)
    ensures KeysApart(key, b)
  {
    if a != [] {
      var i := TakeOut(a, b);
      var rest := Without(b, i);
      assert KeysApart(key, a[1..]);
      ApartPermutes(key, a[1..], rest);
      forall x | x in rest ensures key(x) != key(a[0]) {
        assert x in multiset(a[1..]) && x in a[1..];
        var j :| 0 <= j < |a[1..]| && a[1..][j] == x;
        assert a[j + 1] == x;
      }
      forall j, k | 0 <= j < k < |b| ensures key(b[j]) != key(b[k]) {
        if j == i {
          assert b[k] == rest[k - 1] && b[k] in rest;
        } else if k == i {
          assert b[j] == rest[j] && b[j] in rest;
        } else {
          assert b[j] == rest[if j < i then j else j - 1] && b[k] == rest[if k < i then k else k - 1];
        }
      }
    } else {
      assert |multiset(b)| == 0;
    }
  }

  lemma {:induction false} AscendingIsUnique<T>(key: T -> Triple, a: seq<T>, b: seq<T>)
    requires multiset(a) == multiset(b) && Ascends(key, a) && Ascends(key, b) && KeysApart(key, a)
    ensures a == b
  {
    assert |a| == |multiset(a)| == |multiset(b)| == |b|;
    if a != [] {
      SameHead(key, a, b);
      assert b == [b[0]] + b[1..] && a == [a[0]] + a[1..];
      assert multiset(a[1..]) == multiset(a) - multiset{a[0]};
      assert multiset(b[1..]) == multiset(b) - multiset{b[0]};
      hide Before;
      AscendsFrom(key, a, 1);
      AscendsFrom(key, b, 1);
      hide Ascends, KeysApart;
      AscendingIsUnique(key, a[1..], b[1..]);
    }
  }

  lemma AscendsFrom<T>(key: T -> Triple, xs: seq<T>, i: nat)
    requires i <= |xs| && Ascends(key, xs)
    ensures Ascends(key, xs[i..]) && (KeysApart(key, xs) ==> KeysApart(key, xs[i..]))
  {
    hide Before;
  }

  lemma SameHead<T>(key: T -> Triple, a: seq<T>, b: seq<T>)
    requires multiset(a) == multiset(b) && Ascends(key, a) && Ascends(key, b) && KeysApart(key, a) && a != [] && b != []
    ensures a[0] == b[0]
  {
    hide Before;
    assert a[0] in multiset(b) && b[0] in multiset(a);
    var i :| 0 <= i < |b| && b[i] == a[0];
    var j :| 0 <= j < |a| && a[j] == b[0];
    if j != 0 && i != 0 {
      BeforeAntisymmetric(key(a[0]), key(b[0]));
    }
  }
}
