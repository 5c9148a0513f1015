/** The tuples by which the validator compares values, under Python's own equality. */
module Hashing {
  import opened PyValue

  datatype Hashed =
    | Tuple(parts: seq<Hashed>)
    | Scalar(v: Value)

  /** Sorting a set of keys gives each key once. */
  ghost predicate Enumerates(sorted: set<string> -> seq<string>) {
    forall keys: set<string> :: IsListing(sorted(keys), keys)
  }

  ghost predicate IsListing(listed: seq<string>, keys: set<string>) {
    && (forall k :: k in listed <==> k in keys)
    && forall i, j :: 0 <= i < j < |listed| ==> listed[i] != listed[j]
  }

  /** Python compares booleans, integers and floats by numeric value. */
  predicate LooselyEqual(a: Value, b: Value) {
    if IsNumeric(a) && IsNumeric(b) then Numeric(a) == Numeric(b)
    else a == b
  }

  predicate IsNumeric(v: Value) {
    v.PyBool? || v.PyInt? || v.PyFloat?
  }

  function Numeric(v: Value): real
    requires IsNumeric(v)
  {
    match v
    case PyBool(b) => if b then 1.0 else 0.0
    case PyInt(i) => i as real
    case PyFloat(r) => r
  }

  predicate TupleEqual(a: Hashed, b: Hashed) {
    match a
    case Scalar(v) => b.Scalar? && LooselyEqual(v, b.v)
    case Tuple(parts) =>
      b.Tuple? && |parts| == |b.parts| && forall i :: 0 <= i < |parts| ==> TupleEqual(parts[i], b.parts[i])
  }

  function TypeName(v: Value): string {
    match v
    case PyNone => "NoneType"
    case PyBool(_) => "bool"
    case PyInt(_) => "int"
    case PyFloat(_) => "float"
    case PyStr(_) => "str"
    case PyList(_) => "list"
    case PyDict(_) => "dict"
  }

  function Tagged(tag: string, payload: Hashed): Hashed {
    Tuple([Scalar(PyStr(tag)), payload])
  }

  function Hashable(v: Value, sorted: set<string> -> seq<string>): Hashed
    requires Enumerates(sorted)
  {
    match v
    case PyDict(members) =>
      var keys := sorted(members.Keys);
      assert IsListing(keys, members.Keys);
      Tagged("<obj>", Tuple(seq(|keys|, i requires 0 <= i < |keys| =>
        Tuple([Scalar(PyStr(keys[i])), Hashable(members[keys[i]], sorted)]))))
    case PyList(items) =>
      Tagged("<arr>", Tuple(seq(|items|, i requires 0 <= i < |items| => Hashable(items[i], sorted))))
    case PyBool(_) => Tagged("<bool>", Scalar(v))
    case _ => Tagged(TypeName(v), Scalar(v))
  }

  lemma TaggedEqual(s: string, t: string, x: Hashed, y: Hashed)
    ensures TupleEqual(Tagged(s, x), Tagged(t, y)) <==> s == t && TupleEqual(x, y)
  {
    var a, b := Tagged(s, x), Tagged(t, y);
    assert a.parts[0] == Scalar(PyStr(s)) && b.parts[0] == Scalar(PyStr(t)) && a.parts[1] == x && b.parts[1] == y;
  }

  /**
   Loose equality of the tuples is strict equality of the values: 1, 1.0 and True
   hash apart, and the order of dictionary entries does not matter.
   */
  lemma {:induction false} HashesAreFaithful(a: Value, b: Value, sorted: set<string> -> seq<string>)
    requires Enumerates(sorted)
    ensures TupleEqual(Hashable(a, sorted), Hashable(b, sorted)) <==> a == b
    decreases a
  {
    if a.PyList? && b.PyList? {
      ListsAreFaithful(a, b, sorted);
    } else if a.PyDict? && b.PyDict? {
      DictsAreFaithful(a, b, sorted);
    } else {
      LeavesAreFaithful(a, b, sorted);
    }
  }

  lemma LeavesAreFaithful(a: Value, b: Value, sorted: set<string> -> seq<string>)
    requires Enumerates(sorted)
    requires !(a.PyList? && b.PyList?) && !(a.PyDict? && b.PyDict?)
    ensures TupleEqual(Hashable(a, sorted), Hashable(b, sorted)) <==> a == b
  {
    var x, y := Hashable(a, sorted), Hashable(b, sorted);
    TaggedEqual(x.parts[0].v.s, y.parts[0].v.s, x.parts[1], y.parts[1]);
    assert x == Tagged(x.parts[0].v.s, x.parts[1]) && y == Tagged(y.parts[0].v.s, y.parts[1]);
  }

  lemma {:induction false} ListsAreFaithful(a: Value, b: Value, sorted: set<string> -> seq<string>)
    requires Enumerates(sorted) && a.PyList? && b.PyList?
    ensures TupleEqual(Hashable(a, sorted), Hashable(b, sorted)) <==> a == b
    decreases a, 0
  {
    var x, y := Hashable(a, sorted).parts[1], Hashable(b, sorted).parts[1];
    TaggedEqual("<arr>", "<arr>", x, y);
    if |a.items| == |b.items| {
      forall i | 0 <= i < |a.items|
        ensures TupleEqual(x.parts[i], y.parts[i]) <==> a.items[i] == b.items[i]
      {
        HashesAreFaithful(a.items[i], b.items[i], sorted);
      }
      assert TupleEqual(x, y) <==> a.items == b.items;
    }
  }

  lemma {:induction false} DictsAreFaithful(a: Value, b: Value, sorted: set<string> -> seq<string>)
    requires Enumerates(sorted) && a.PyDict? && b.PyDict?
    ensures TupleEqual(Hashable(a, sorted), Hashable(b, sorted)) <==> a == b
    decreases a, 0
  {
    var x, y := Hashable(a, sorted).parts[1], Hashable(b, sorted).parts[1];
    TaggedEqual("<obj>", "<obj>", x, y);
    var ka, kb := sorted(a.members.Keys), sorted(b.members.Keys);
    assert IsListing(ka, a.members.Keys) && IsListing(kb, b.members.Keys);
    forall i | 0 <= i < |ka| && i < |kb|
      ensures TupleEqual(x.parts[i], y.parts[i]) <==> ka[i] == kb[i] && a.members[ka[i]] == b.members[kb[i]]
    {
      assert ka[i] in ka && kb[i] in kb;
      var h, g := Hashable(a.members[ka[i]], sorted), Hashable(b.members[kb[i]], sorted);
      assert x.parts[i] == Tagged(ka[i], h) && y.parts[i] == Tagged(kb[i], g);
      TaggedEqual(ka[i], kb[i], h, g);
      HashesAreFaithful(a.members[ka[i]], b.members[kb[i]], sorted);
    }
    if TupleEqual(x, y) {
      assert ka == kb;
      assert a.members.Keys == b.members.Keys;
      forall k | k in a.members
        ensures a.members[k] == b.members[k]
      {
        assert k in ka;
      }
      assert a.members == b.members;
    }
  }
}
