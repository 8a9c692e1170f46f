/** JSON values as Python reads them, and its `==` on them: a boolean equals a number, an integer equals a float. */
module JsonValues {

  /** The member names that the audit looks at, and any other name. */
  datatype Name =
    | CallId | SourceRef | ProximateTrigger | RootCause | BookendCounterfactual | ClassificationConfidence
    | PolicyRequired | UserTriggered | SemanticDecisionRequired | Iteration | EvidenceRefs | Other(name: string)

  /** What `json.loads` returns for a JSON text; `Infinite` is a float literal too large for a double. */
  datatype Json =
    | Null | Bool(b: bool) | Int(n: int) | Float(r: real) | Infinite(positive: bool) | Text(s: string)
    | List(items: seq<Json>) | Object(fields: map<Name, Json>)

  /** A value read up to `==`: booleans, integers and floats are all numbers. */
  datatype Meaning =
    | Nothing | Number(value: real) | Unbounded(positive: bool) | Word(s: string)
    | Sequence(items: seq<Meaning>) | Record(fields: map<Name, Meaning>)

  function MeaningOf(j: Json): Meaning {
    match j
    case Null => Nothing
    case Bool(b) => Number(if b then 1.0 else 0.0)
    case Int(n) => Number(n as real)
    case Float(r) => Number(r)
    case Infinite(positive) => Unbounded(positive)
    case Text(s) => Word(s)
    case List(items) => Sequence(seq(|items|, i requires 0 <= i < |items| => MeaningOf(items[i])))
    case Object(fields) => Record(map name | name in fields :: MeaningOf(fields[name]))
  }

  /** `a == b` */
  predicate Same(a: Json, b: Json) {
    MeaningOf(a) == MeaningOf(b)
  }

  /** `==` unfolded: numbers by value across the three number kinds, lists by position, objects by member. */
  lemma SameUnfolds(a: Json, b: Json)
    ensures Same(a, b) <==>
              match a
              case Null => b.Null?
              case Text(s) => b == Text(s)
              case Infinite(positive) => b == Infinite(positive)
              case List(items) =>
                b.List? && |items| == |b.items| && forall i | 0 <= i < |items| :: Same(items[i], b.items[i])
              case Object(fields) =>
                b.Object? && fields.Keys == b.fields.Keys && forall name | name in fields ::
                    Same(fields[name], b.fields[name])
              case _ => (b.Bool? || b.Int? || b.Float?) && NumberOf(a) == NumberOf(b)
  {
    if a.List? && b.List? {
      var (ma, mb) := (MeaningOf(a).items, MeaningOf(b).items);
      assert forall i | 0 <= i < |ma| :: ma[i] == MeaningOf(a.items[i]);
      assert forall i | 0 <= i < |mb| :: mb[i] == MeaningOf(b.items[i]);
    } else if a.Object? && b.Object? {
      var (ma, mb) := (MeaningOf(a).fields, MeaningOf(b).fields);
      assert ma.Keys == a.fields.Keys && mb.Keys == b.fields.Keys;
      assert forall name | name in ma :: ma[name] == MeaningOf(a.fields[name]);
      assert forall name | name in mb :: mb[name] == MeaningOf(b.fields[name]);
      if ma.Keys == mb.Keys && forall name | name in a.fields :: Same(a.fields[name], b.fields[name]) {
        assert ma == mb;
      }
    }
  }

  /** The value of a boolean or a finite number. */
  function NumberOf(j: Json): real
    requires j.Bool? || j.Int? || j.Float?
  {
    MeaningOf(j).value
  }

  /** `value.get(name)`: an absent member reads as null. */
  function Get(fields: map<Name, Json>, name: Name): Json {
    if name in fields then fields[name] else Null
  }

  /** Members of equal objects are equal. */
  lemma SameMember(a: map<Name, Json>, b: map<Name, Json>, name: Name)
    requires Same(Object(a), Object(b))
    ensures Same(Get(a, name), Get(b, name)) && (name in a <==> name in b)
  {
    SameUnfolds(Object(a), Object(b));
    assert a.Keys == b.Keys;
    hide MeaningOf;
  }

  /** Python's truth value. */
  predicate Truthy(j: Json) {
    match j
    case Null => false
    case Bool(b) => b
    case Int(n) => n != 0
    case Float(r) => r != 0.0
    case Infinite(_) => true
    case Text(s) => s != ""
    case List(items) => items != []
    case Object(fields) => fields != map[]
  }

  /** Lists and objects cannot be looked up in a set: Python raises a TypeError. */
  predicate Unhashable(j: Json) {
    j.List? || j.Object?
  }

  predicate IsText(j: Json, words: set<string>) {
    j.Text? && j.s in words
  }

  /** Whether a value is true, unhashable or one of some words does not depend on its kind. */
  lemma SameReading(a: Json, b: Json, words: set<string>)
    requires Same(a, b)
    ensures Truthy(a) == Truthy(b) && Unhashable(a) == Unhashable(b) && IsText(a, words) == IsText(b, words)
    ensures a.Null? == b.Null? && a.Text? == b.Text? && (a.Text? ==> a == b)
  {
    SameUnfolds(a, b);
    if a.Object? {
      assert a.fields == map[] <==> a.fields.Keys == {};
      assert b.fields == map[] <==> b.fields.Keys == {};
    }
  }
}
