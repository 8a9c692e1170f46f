/** Lists as multisets: mapping, filtering and summing do not depend on the order of a list. */
module Permutations {

  function Map<A, B>(f: A -> B, xs: seq<A>): (r: seq<B>)
    ensures |r| == |xs| && forall i | 0 <= i < |r| :: r[i] == f(xs[i])
  {
    seq(|xs|, i requires 0 <= i < |xs| => f(xs[i]))
  }

  function Keep<A>(p: A -> bool, xs: seq<A>): seq<A> {
    if xs == [] then [] else (if p(xs[0]) then [xs[0]] else []) + Keep(p, xs[1..])
  }

  function Sum<A>(f: A -> real, xs: seq<A>): real {
    if xs == [] then 0.0 else f(xs[0]) + Sum(f, xs[1..])
  }

  /** Removes the element at a position. */
  function Without<A>(xs: seq<A>, i: nat): (r: seq<A>)
    requires i < |xs|
    ensures |r| == |xs| - 1
  {
    xs[..i] + xs[i + 1..]
  }

  lemma WithoutMultiset<A>(xs: seq<A>, i: nat)
    requires i < |xs|
    ensures multiset(xs) == multiset{xs[i]} + multiset(Without(xs, i))
  {
    assert xs == xs[..i] + [xs[i]] + xs[i + 1..];
  }

  /** Lists with the same elements: the first element of one can be taken out of the other. */
  lemma TakeOut<A>(a: seq<A>, b: seq<A>) returns (i: nat)
    requires a != [] && multiset(a) == multiset(b)
    ensures i < |b| && b[i] == a[0] && multiset(a[1..]) == multiset(Without(b, i))
  {
    assert a[0] in multiset(b);
    i :| 0 <= i < |b| && b[i] == a[0];
    WithoutMultiset(b, i);
    assert a == [a[0]] + a[1..];
    assert multiset(a[1..]) == multiset(a) - multiset{a[0]};
    assert multiset(Without(b, i)) == multiset(b) - multiset{b[i]};
  }

  lemma {:induction false} MapPermutes<A, B>(f: A -> B, a: seq<A>, b: seq<A>)
    requires multiset(a) == multiset(b)
    ensures multiset(Map(f, a)) == multiset(Map(f, b))
  {
    if a == [] {
      assert |multiset(b)| == 0;
    } else {
      var i := TakeOut(a, b);
      MapPermutes(f, a[1..], Without(b, i));
      assert Map(f, a) == [f(a[0])] + Map(f, a[1..]);
      assert Map(f, Without(b, i)) == Without(Map(f, b), i);
      WithoutMultiset(Map(f, b), i);
    }
  }

  lemma KeepStep<A>(p: A -> bool, x: A, rest: seq<A>)
    ensures Keep(p, [x] + rest) == (if p(x) then [x] else []) + Keep(p, rest)
  {
    assert ([x] + rest)[1..] == rest;
  }

  lemma {:induction false} KeepConcat<A>(p: A -> bool, a: seq<A>, b: seq<A>)
    ensures Keep(p, a + b) == Keep(p, a) + Keep(p, b)
  {
    if a == [] {
      assert a + b == b;
    } else {
      KeepConcat(p, a[1..], b);
      KeepStep(p, a[0], a[1..]);
      KeepStep(p, a[0], a[1..] + b);
      hide Keep;
      assert a == [a[0]] + a[1..];
      assert a + b == [a[0]] + (a[1..] + b);
    }
  }

  lemma KeepWithout<A>(p: A -> bool, xs: seq<A>, i: nat)
    requires i < |xs|
    ensures multiset(Keep(p, xs)) ==
        multiset(Keep(p, Without(xs, i))) + (if p(xs[i]) then multiset{xs[i]} else multiset{})
  {
    var rest := xs[i + 1..];
    assert xs == xs[..i] + ([xs[i]] + rest);
    KeepConcat(p, xs[..i], [xs[i]] + rest);
    KeepConcat(p, xs[..i], rest);
    assert ([xs[i]] + rest)[1..] == rest;
  }

  lemma {:induction false} KeepPermutes<A>(p: A -> bool, a: seq<A>, b: seq<A>)
    requires multiset(a) == multiset(b)
    ensures multiset(Keep(p, a)) == multiset(Keep(p, b))
  {
    if a == [] {
      assert |multiset(b)| == 0;
    } else {
      var i := TakeOut(a, b);
      KeepPermutes(p, a[1..], Without(b, i));
      KeepWithout(p, b, i);
    }
  }

  lemma {:induction false} SumConcat<A>(f: A -> real, a: seq<A>, b: seq<A>)
    ensures Sum(f, a + b) == Sum(f, a) + Sum(f, b)
  {
    if a == [] {
      assert a + b == b;
    } else {
      SumConcat(f, a[1..], b);
      assert (a + b)[1..] == a[1..] + b;
    }
  }

  lemma {:induction false} SumPermutes<A>(f: A -> real, a: seq<A>, b: seq<A>)
    requires multiset(a) == multiset(b)
    ensures Sum(f, a) == Sum(f, b)
  {
    if a == [] {
      assert |multiset(b)| == 0;
    } else {
      var i := TakeOut(a, b);
      SumPermutes(f, a[1..], Without(b, i));
      var rest := b[i + 1..];
      assert b == b[..i] + ([b[i]] + rest);
      SumConcat(f, b[..i], [b[i]] + rest);
      SumConcat(f, b[..i], rest);
      assert ([b[i]] + rest)[1..] == rest;
    }
  }

  lemma WithoutDistinct<A>(xs: seq<A>, i: nat)
    requires i < |xs| && forall j, k | 0 <= j < k < |xs| :: xs[j] != xs[k]
    ensures forall j, k | 0 <= j < k < |Without(xs, i)| :: Without(xs, i)[j] != Without(xs, i)[k]
    ensures forall x :: x in Without(xs, i) <==> x in xs && x != xs[i]
  {
    var rest := Without(xs, i);
    assert forall j | 0 <= j < |rest| :: rest[j] == xs[if j < i then j else j + 1];
    forall x | x in xs && x != xs[i] ensures x in rest {
      var j :| 0 <= j < |xs| && xs[j] == x;
      assert x == rest[if j < i then j else j - 1];
    }
  }

  /** Lists without repeats and with the same elements are permutations of one another. */
  lemma {:induction false} DistinctPermutes<A>(a: seq<A>, b: seq<A>)
    requires (forall i, j | 0 <= i < j < |a| :: a[i] != a[j]) && (forall i, j | 0 <= i < j < |b| :: b[i] != b[j])
    requires forall x | x in a :: x in b
    requires forall x | x in b :: x in a
    ensures multiset(a) == multiset(b)
    decreases |a|
  {
    assert b != [] ==> b[0] in a;
    if a != [] {
      assert a[0] in a;
      var i :| 0 <= i < |b| && b[i] == a[0];
      WithoutMultiset(a, 0);
      WithoutMultiset(b, i);
      WithoutDistinct(a, 0);
      WithoutDistinct(b, i);
      var restA, restB := Without(a, 0), Without(b, i);
      hide Without;
      forall x ensures x in restA <==> x in restB {
        assert x in a <==> x in b;
      }
      DistinctPermutes(restA, restB);
    }
  }

  lemma MapCons<A, B>(f: A -> B, x: A, rest: seq<A>)
    ensures multiset(Map(f, [x] + rest)) == multiset{f(x)} + multiset(Map(f, rest))
  {
    assert Map(f, [x] + rest) == [f(x)] + Map(f, rest);
  }

  /** A list splits into what a predicate keeps and what it does not. */
  lemma {:induction false} MapSplits<A(!new), B>(f: A -> B, p: A -> bool, q: A -> bool, xs: seq<A>)
    requires forall x :: q(x) <==> !p(x)
    ensures multiset(Map(f, xs)) == multiset(Map(f, Keep(p, xs))) + multiset(Map(f, Keep(q, xs)))
  {
    hide Map;
    if xs != [] {
      var x, rest := xs[0], xs[1..];
      MapSplits(f, p, q, rest);
      assert xs == [x] + rest;
      MapCons(f, x, rest);
      if p(x) {
        MapCons(f, x, Keep(p, rest));
        assert Keep(q, xs) == Keep(q, rest);
      } else {
        MapCons(f, x, Keep(q, rest));
        assert Keep(p, xs) == Keep(p, rest);
      }
    } else {
      assert Keep(p, xs) == Keep(q, xs) == xs;
      assert |multiset(Map(f, xs))| == 0;
    }
  }

  /** Mapping and keeping commute when the predicate looks through the map. */
  lemma {:induction false} KeepMap<A(!new), B>(f: A -> B, p: B -> bool, q: A -> bool, xs: seq<A>)
    requires forall x :: q(x) <==> p(f(x))
    ensures Keep(p, Map(f, xs)) == Map(f, Keep(q, xs))
  {
    if xs != [] {
      KeepMap(f, p, q, xs[1..]);
      assert Map(f, xs) == [f(xs[0])] + Map(f, xs[1..]);
      assert Map(f, xs)[1..] == Map(f, xs[1..]);
    }
  }

  lemma {:induction false} KeepMembers<A(!new)>(p: A -> bool, xs: seq<A>)
    ensures forall x :: x in Keep(p, xs) <==> x in xs && p(x)
  {
    if xs != [] {
      KeepMembers(p, xs[1..]);
      assert xs == [xs[0]] + xs[1..];
    }
  }

  lemma {:induction false} KeepAll<A>(p: A -> bool, xs: seq<A>)
    requires forall x | x in xs :: p(x)
    ensures Keep(p, xs) == xs
  {
    if xs != [] {
      KeepAll(p, xs[1..]);
      assert xs == [xs[0]] + xs[1..];
    }
  }

  lemma {:induction false} KeepNone<A>(p: A -> bool, xs: seq<A>)
    requires forall y | y in xs :: !p(y)
    ensures Keep(p, xs) == []
  {
    if xs != [] { KeepNone(p, xs[1..]); }
  }

  lemma {:induction false} KeepOne<A>(xs: seq<A>, x: A)
    requires x in xs && forall i, j | 0 <= i < j < |xs| :: xs[i] != xs[j]
    ensures Keep(y => y == x, xs) == [x]
  {
    var p := y => y == x;
    if xs[0] == x {
      forall y | y in xs[1..] ensures !p(y) {}
      KeepNone(p, xs[1..]);
    } else {
      KeepOne(xs[1..], x);
    }
  }

  function Except<A(==)>(x: A): A -> bool {
    y => y != x
  }

  /** One element of a list without repeats, and the others. */
  lemma MapSplitsOne<A(!new), B>(f: A -> B, xs: seq<A>, x: A)
    requires x in xs && forall i, j | 0 <= i < j < |xs| :: xs[i] != xs[j]
    ensures multiset(Map(f, xs)) == multiset{f(x)} + multiset(Map(f, Keep(Except(x), xs)))
  {
    hide Keep;
    MapSplits(f, y => y == x, Except(x), xs);
    KeepOne(xs, x);
    assert Map(f, [x]) == [f(x)];
  }

  lemma OnlyElement<T>(xs: seq<T>, x: T)
    requires multiset(xs) == multiset{x}
    ensures xs == [x]
  {
    assert |xs| == |multiset(xs)| == 1;
    assert xs[0] in multiset(xs);
  }
}
