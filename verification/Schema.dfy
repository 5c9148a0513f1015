/** The validator itself, which appends to an error list as it walks. */
module Schema {
  import opened Wrappers
  import opened Sequences
  import opened PyValue
  import opened SchemaMeaning
  import opened SchemaGraph

  datatype Segment =
    | Branch(keyword: string, index: nat)
    | Item(index: nat)
    | Key(key: string)
    | NameOf(key: string)

  type Location = seq<Segment>

  datatype Problem =
    | SchemaIsFalse | MalformedSchema | UnresolvableRef | WrongType | NotInEnum | NotTheConst
    | NoBranch | NotOneBranch(matched: nat) | MatchesNot
    | OutOfBounds(keyword: string) | NoMatch | NotUnique | NothingContained
    | Missing(required: Value) | Unexpected(key: string)

  datatype ValidationError = ValidationError(path: Location, problem: Problem)

  const HANDLED: set<string> := {
    "$schema", "$id", "$comment", "$ref", "$defs", "title", "description",
    "default", "examples", "deprecated", "readOnly", "writeOnly",
    "type", "enum", "const", "required", "properties", "additionalProperties",
    "patternProperties", "propertyNames", "minProperties", "maxProperties",
    "items", "prefixItems", "minItems", "maxItems", "uniqueItems", "contains",
    "minLength", "maxLength", "pattern", "format",
    "minimum", "maximum", "exclusiveMinimum", "exclusiveMaximum", "multipleOf",
    "allOf", "anyOf", "oneOf", "not", "if", "then", "else" }

  /** A list of errors that callers share and only ever append to. */
  class ErrorLog {
    var entries: seq<ValidationError>

    constructor ()
      ensures entries == []
    {
      entries := [];
    }

    method Append(path: Location, problem: Problem)
      modifies this
      ensures entries == old(entries) + [ValidationError(path, problem)]
    {
      entries := entries + [ValidationError(path, problem)];
    }
  }

  /** Nothing reported is lost, nothing is added exactly when `ok`, and what is added is at `path` or below. */
  ghost predicate Grew(path: Location, before: seq<ValidationError>, after: seq<ValidationError>, ok: bool) {
    && before <= after
    && (|before| == |after| <==> ok)
    && forall i :: |before| <= i < |after| ==> path <= after[i].path
  }

  lemma GrewTwice(path: Location, a: seq<ValidationError>, b: seq<ValidationError>, d: seq<ValidationError>, p: bool, q: bool)
    requires Grew(path, a, b, p) && Grew(path, b, d, q)
    ensures Grew(path, a, d, p && q)
  {
  }

  ghost predicate Increasing(s: seq<nat>) {
    forall i, j :: 0 <= i < j < |s| ==> s[i] < s[j]
  }

  /** Keywords that no part of the validator knows about. */
  function Unhandled(schema: Value): set<string> {
    if schema.PyDict? then schema.members.Keys - HANDLED else {}
  }

  /** Keywords only accumulate, and each stands in some schema unhandled. */
  ghost predicate Noted(nodes: set<Value>, before: set<string>, after: set<string>) {
    && before <= after
    && forall k :: k in after && k !in before ==> exists s :: s in nodes && k in Unhandled(s)
  }

  lemma GrewBelow(path: Location, step: Segment, a: seq<ValidationError>, b: seq<ValidationError>, ok: bool)
    requires Grew(path + [step], a, b, ok)
    ensures Grew(path, a, b, ok)
  {
    forall i | |a| <= i < |b|
      ensures path <= b[i].path
    {
      assert path <= path + [step] <= b[i].path;
    }
  }

  lemma GrewNot(path: Location, a: seq<ValidationError>)
    ensures Grew(path, a, a, true)
  {
  }

  lemma GrewBy(path: Location, a: seq<ValidationError>, e: ValidationError)
    requires e.path == path
    ensures Grew(path, a, a + [e], false)
  {
  }

  /** An increasing list of the accepting positions has length one exactly when one accepts. */
  lemma OnlyOne(accepting: seq<bool>, passing: seq<nat>)
    requires Increasing(passing)
    requires forall i :: i in passing <==> 0 <= i < |accepting| && accepting[i]
    ensures |passing| == 1 <==> Single(accepting)
  {
    if |passing| == 1 {
      assert passing[0] in passing;
      assert forall j :: 0 <= j < |accepting| && accepting[j] ==> j in passing;
    }
    assert |passing| >= 2 ==> passing[0] < passing[1] && passing[0] in passing && passing[1] in passing;
    if Single(accepting) {
      var i :| 0 <= i < |accepting| && accepting[i] && forall j :: 0 <= j < |accepting| && accepting[j] ==> j == i;
      assert i in passing;
    }
  }

  class Validator {
    const c: Context
    var unknown: set<string>

    constructor (c: Context)
      ensures this.c == c && unknown == {}
    {
      this.c := c;
      unknown := {};
    }

    method ResolvePointer(ref: Value) returns (target: Option<Value>)
      ensures target == Pointer(c, ref)
    {
      if !ref.PyStr? || ref.s == "" || ref.s[0] != '#' {
        return None;
      }
      var frag := ref.s[1..];
      if frag != "" && frag[0] == '/' {
        frag := frag[1..];
      }
      var node := c.root;
      if frag == "" {
        return Some(node);
      }
      var raws := SplitOn(frag, '/');
      var k := 0;
      while k < |raws|
        invariant 0 <= k <= |raws|
        invariant Walk(c, c.root, raws) == Walk(c, node, raws[k..])
      {
        assert raws[k..][0] == raws[k] && raws[k..][1..] == raws[k + 1..];
        var next := StepInto(c, node, Token(raws[k]));
        if next.None? {
          return None;
        }
        node := next.value;
        k := k + 1;
      }
      return Some(node);
    }

    method ValidateString(text: string, schema: Value, path: Location, errors: ErrorLog)
      requires schema.PyDict? && OperandsOk(schema)
      modifies errors
      ensures Grew(path, old(errors.entries), errors.entries, StringOk(c, text, schema))
    {
      var s := schema.members;
      if "minLength" in s && |text| as real < Bound(schema, "minLength").value {
        errors.Append(path, OutOfBounds("minLength"));
      }
      if "maxLength" in s && |text| as real > Bound(schema, "maxLength").value {
        errors.Append(path, OutOfBounds("maxLength"));
      }
      if "pattern" in s && !c.search(s["pattern"].s, text) {
        errors.Append(path, NoMatch);
      }
    }

    method ValidateNumber(inst: Value, schema: Value, path: Location, errors: ErrorLog)
      requires IsNumber(inst) && schema.PyDict? && OperandsOk(schema)
      modifies errors
      ensures Grew(path, old(errors.entries), errors.entries, NumberOk(c, inst, schema))
    {
      hide Bound, OperandsOk, AsReal, InclusiveOk;
      var s, x := schema.members, AsReal(inst);
      CheckInclusive(x, schema, path, errors);
      if "exclusiveMinimum" in s && x <= Bound(schema, "exclusiveMinimum").value {
        errors.Append(path, OutOfBounds("exclusiveMinimum"));
      }
      if "exclusiveMaximum" in s && x >= Bound(schema, "exclusiveMaximum").value {
        errors.Append(path, OutOfBounds("exclusiveMaximum"));
      }
      if "multipleOf" in s && !c.multiple(inst, s["multipleOf"]) {
        errors.Append(path, OutOfBounds("multipleOf"));
      }
    }

    method CheckInclusive(x: real, schema: Value, path: Location, errors: ErrorLog)
      requires schema.PyDict? && OperandsOk(schema)
      modifies errors
      ensures Grew(path, old(errors.entries), errors.entries, InclusiveOk(schema, x))
    {
      var s := schema.members;
      if "minimum" in s && x < Bound(schema, "minimum").value {
        errors.Append(path, OutOfBounds("minimum"));
      }
      if "maximum" in s && x > Bound(schema, "maximum").value {
        errors.Append(path, OutOfBounds("maximum"));
      }
    }

    /** The assertions of `_validate_array`. */
    method CheckArray(items: seq<Value>, schema: Value, path: Location, errors: ErrorLog)
      requires schema.PyDict? && OperandsOk(schema)
      modifies errors
      ensures Grew(path, old(errors.entries), errors.entries, ArrayOk(items, schema))
    {
      var s := schema.members;
      if "minItems" in s && |items| as real < Bound(schema, "minItems").value {
        errors.Append(path, OutOfBounds("minItems"));
      }
      if "maxItems" in s && |items| as real > Bound(schema, "maxItems").value {
        errors.Append(path, OutOfBounds("maxItems"));
      }
      if "uniqueItems" in s && Truthy(s["uniqueItems"]) {
        SetSize(items);
        if |set x | x in items| != |items| {
          errors.Append(path, NotUnique);
        }
      }
    }

    method CheckRequired(members: map<string, Value>, required: seq<Value>, path: Location, errors: ErrorLog)
      modifies errors
      ensures Grew(path, old(errors.entries), errors.entries, forall x :: x in required ==> Present(x, members))
    {
      hide Present;
      var k := 0;
      while k < |required|
        invariant 0 <= k <= |required|
        invariant Grew(path, old(errors.entries), errors.entries, forall i :: 0 <= i < k ==> Present(required[i], members))
      {
        if !Present(required[k], members) {
          errors.Append(path, Missing(required[k]));
        }
        k := k + 1;
      }
    }

    /** The assertions of `_validate_object`. */
    method CheckObject(members: map<string, Value>, schema: Value, path: Location, errors: ErrorLog)
      requires schema.PyDict? && OperandsOk(schema)
      modifies errors
      ensures Grew(path, old(errors.entries), errors.entries, ObjectOk(members, schema))
    {
      var s := schema.members;
      CheckRequired(members, Elements(Get(schema, "required")), path, errors);
      if "minProperties" in s && |members| as real < Bound(schema, "minProperties").value {
        errors.Append(path, OutOfBounds("minProperties"));
      }
      if "maxProperties" in s && |members| as real > Bound(schema, "maxProperties").value {
        errors.Append(path, OutOfBounds("maxProperties"));
      }
    }

    // ---- the recursive walk ---------------------------------------------------------

    method IterErrors(inst: Value) returns (errors: seq<ValidationError>)
      requires WellFounded(c)
      modifies this`unknown
      ensures errors == [] <==> Satisfies(c, inst)
      ensures Noted(Schemas(c), {}, unknown) && Unhandled(c.root) <= unknown
    {
      RankedExactlyWhenWellFounded(c);
      unknown := {};
      var log := new ErrorLog();
      Validate(inst, c.root, [], log, Schemas(c), Height(c));
      errors := log.entries;
    }

    method IsValid(inst: Value) returns (ok: bool)
      requires WellFounded(c)
      modifies this`unknown
      ensures ok <==> Satisfies(c, inst)
    {
      var errors := IterErrors(inst);
      ok := errors == [];
    }

    method Validate(inst: Value, schema: Value, path: Location, errors: ErrorLog,
                    ghost nodes: set<Value>, ghost rank: Value -> nat)
      requires Ranked(c, nodes, rank) && schema in nodes
      modifies this`unknown, errors
      decreases Weight(inst), inst, rank(schema), 4
      ensures Grew(path, old(errors.entries), errors.entries, Valid(c, nodes, rank, inst, schema))
      ensures Noted(nodes, old(unknown), unknown) && Unhandled(schema) <= unknown
    {
      hide Pointer, OperandsOk, Elements, PartInstance, RefOk, EnumOk, CombinedOk, ConditionalOk, ShapeOk, Grew;
      if schema == PyBool(true) {
        GrewNot(path, errors.entries);
        return;
      }
      if !schema.PyDict? {
        GrewBy(path, errors.entries, ValidationError(path, if schema.PyBool? then SchemaIsFalse else MalformedSchema));
        errors.Append(path, if schema.PyBool? then SchemaIsFalse else MalformedSchema);
        return;
      }
      unknown := unknown + Unhandled(schema);
      ghost var e0 := errors.entries;
      var stop := ValidateRef(inst, schema, path, errors, nodes, rank);
      if stop {
        return;
      }
      ghost var e1 := errors.entries;
      if !TypeOk(inst, schema) {
        GrewBy(path, e1, ValidationError(path, WrongType));
        errors.Append(path, WrongType);
        GrewTwice(path, e0, e1, errors.entries, RefOk(c, nodes, rank, inst, schema), false);
        return;
      }
      CheckEnum(inst, schema, path, errors);
      ghost var e2 := errors.entries;
      Combine(inst, schema, path, errors, nodes, rank);
      ghost var e3 := errors.entries;
      Branches(inst, schema, path, errors, nodes, rank);
      ghost var e4 := errors.entries;
      ByShape(inst, schema, path, errors, nodes, rank);
      GrewTwice(path, e0, e1, e2, RefOk(c, nodes, rank, inst, schema), EnumOk(inst, schema));
      GrewTwice(path, e0, e2, e3, RefOk(c, nodes, rank, inst, schema) && EnumOk(inst, schema), CombinedOk(c, nodes, rank, inst, schema));
      GrewTwice(path, e3, e4, errors.entries, ConditionalOk(c, nodes, rank, inst, schema), ShapeOk(c, nodes, rank, inst, schema));
      GrewTwice(path, e0, e3, errors.entries,
        RefOk(c, nodes, rank, inst, schema) && EnumOk(inst, schema) && CombinedOk(c, nodes, rank, inst, schema),
        ConditionalOk(c, nodes, rank, inst, schema) && ShapeOk(c, nodes, rank, inst, schema));
    }

    /** Whether the instance passes, judged on an error list of its own. */
    method SubErrors(inst: Value, schema: Value, path: Location, ghost nodes: set<Value>, ghost rank: Value -> nat)
      returns (errs: seq<ValidationError>)
      requires Ranked(c, nodes, rank) && schema in nodes
      modifies this`unknown
      decreases Weight(inst), inst, rank(schema), 5
      ensures errs == [] <==> Valid(c, nodes, rank, inst, schema)
      ensures Noted(nodes, old(unknown), unknown)
    {
      hide Valid;
      var log := new ErrorLog();
      Validate(inst, schema, path, log, nodes, rank);
      errs := log.entries;
    }

    /** A reference that does not resolve ends the validation of this schema. */
    method ValidateRef(inst: Value, schema: Value, path: Location, errors: ErrorLog,
                       ghost nodes: set<Value>, ghost rank: Value -> nat) returns (stop: bool)
      requires Ranked(c, nodes, rank) && schema in nodes && schema.PyDict?
      modifies this`unknown, errors
      decreases Weight(inst), inst, rank(schema), 0
      ensures Grew(path, old(errors.entries), errors.entries, RefOk(c, nodes, rank, inst, schema))
      ensures stop ==> !RefOk(c, nodes, rank, inst, schema)
      ensures Noted(nodes, old(unknown), unknown)
    {
      hide Pointer, OperandsOk, Elements, PartInstance, Valid;
      stop := false;
      if "$ref" in schema.members {
        var target := ResolvePointer(schema.members["$ref"]);
        if target.None? {
          errors.Append(path, UnresolvableRef);
          return true;
        }
        assert SameInstance(c, schema, target.value);
        Validate(inst, target.value, path, errors, nodes, rank);
      }
    }

    method CheckEnum(inst: Value, schema: Value, path: Location, errors: ErrorLog)
      requires schema.PyDict? && OperandsOk(schema)
      modifies errors
      ensures Grew(path, old(errors.entries), errors.entries, EnumOk(inst, schema))
    {
      var s := schema.members;
      if "enum" in s && inst !in s["enum"].items {
        errors.Append(path, NotInEnum);
      }
      if "const" in s && inst != s["const"] {
        errors.Append(path, NotTheConst);
      }
    }

    /** `allOf`, `anyOf`, `oneOf` and `not`. */
    method Combine(inst: Value, schema: Value, path: Location, errors: ErrorLog,
                   ghost nodes: set<Value>, ghost rank: Value -> nat)
      requires Ranked(c, nodes, rank) && schema in nodes && schema.PyDict?
      modifies this`unknown, errors
      decreases Weight(inst), inst, rank(schema), 3
      ensures Grew(path, old(errors.entries), errors.entries, CombinedOk(c, nodes, rank, inst, schema))
      ensures Noted(nodes, old(unknown), unknown)
    {
      hide Pointer, PartInstance, Valid, Increasing, ChoiceOk;
      var s := schema.members;
      if "allOf" in s {
        All(inst, s["allOf"].items, schema, path, errors, nodes, rank);
      }
      Choose(inst, schema, path, errors, nodes, rank);
      if "not" in s {
        assert SameInstance(c, schema, s["not"]);
        var errs := SubErrors(inst, s["not"], path, nodes, rank);
        if errs == [] {
          errors.Append(path, MatchesNot);
        }
      }
    }

    method Choose(inst: Value, schema: Value, path: Location, errors: ErrorLog,
                  ghost nodes: set<Value>, ghost rank: Value -> nat)
      requires Ranked(c, nodes, rank) && schema in nodes && schema.PyDict?
      modifies this`unknown, errors
      decreases Weight(inst), inst, rank(schema), 2
      ensures Grew(path, old(errors.entries), errors.entries, ChoiceOk(c, nodes, rank, inst, schema))
      ensures Noted(nodes, old(unknown), unknown)
    {
      hide Pointer, PartInstance, Valid, Increasing, Single;
      var s := schema.members;
      if "anyOf" in s {
        var passing := Passing(inst, s["anyOf"].items, schema, path, nodes, rank);
        assert passing != [] ==> passing[0] in passing;
        if passing == [] {
          errors.Append(path, NoBranch);
        }
      }
      if "oneOf" in s {
        var passing := Passing(inst, s["oneOf"].items, schema, path, nodes, rank);
        OnlyOne(Accepting(c, nodes, rank, inst, schema), passing);
        if |passing| != 1 {
          errors.Append(path, NotOneBranch(|passing|));
        }
      }
    }

    method All(inst: Value, subs: seq<Value>, schema: Value, path: Location, errors: ErrorLog,
               ghost nodes: set<Value>, ghost rank: Value -> nat)
      requires Ranked(c, nodes, rank) && schema in nodes
      requires forall i :: 0 <= i < |subs| ==> SameInstance(c, schema, subs[i])
      modifies this`unknown, errors
      decreases Weight(inst), inst, rank(schema), 2
      ensures Grew(path, old(errors.entries), errors.entries,
                   forall i :: 0 <= i < |subs| ==> Valid(c, nodes, rank, inst, subs[i]))
      ensures Noted(nodes, old(unknown), unknown)
    {
      hide Pointer, PartInstance, Valid, OperandsOk, SameInstance;
      var i := 0;
      while i < |subs|
        invariant 0 <= i <= |subs|
        invariant Grew(path, old(errors.entries), errors.entries,
                       forall j :: 0 <= j < i ==> Valid(c, nodes, rank, inst, subs[j]))
        invariant Noted(nodes, old(unknown), unknown)
      {
        ghost var mid := errors.entries;
        Validate(inst, subs[i], path + [Branch("allOf", i)], errors, nodes, rank);
        GrewBelow(path, Branch("allOf", i), mid, errors.entries, Valid(c, nodes, rank, inst, subs[i]));
        i := i + 1;
      }
    }

    /** The positions of a list of schemas that accept the instance, in order. */
    method Passing(inst: Value, subs: seq<Value>, schema: Value, path: Location,
                   ghost nodes: set<Value>, ghost rank: Value -> nat) returns (passing: seq<nat>)
      requires Ranked(c, nodes, rank) && schema in nodes
      requires forall i :: 0 <= i < |subs| ==> SameInstance(c, schema, subs[i])
      modifies this`unknown
      decreases Weight(inst), inst, rank(schema), 1
      ensures Increasing(passing)
      ensures forall i :: i in passing ==> i < |subs|
      ensures forall i :: 0 <= i < |subs| ==> (i in passing <==> Valid(c, nodes, rank, inst, subs[i]))
      ensures Noted(nodes, old(unknown), unknown)
    {
      hide Pointer, PartInstance, Valid, OperandsOk, SameInstance;
      passing := [];
      var i := 0;
      while i < |subs|
        invariant 0 <= i <= |subs|
        invariant Increasing(passing)
        invariant forall a :: 0 <= a < |passing| ==> passing[a] < i
        invariant forall j :: 0 <= j < i ==> (j in passing <==> Valid(c, nodes, rank, inst, subs[j]))
        invariant Noted(nodes, old(unknown), unknown)
      {
        var errs := SubErrors(inst, subs[i], path, nodes, rank);
        if errs == [] {
          passing := passing + [i];
        }
        i := i + 1;
      }
    }

    method Branches(inst: Value, schema: Value, path: Location, errors: ErrorLog,
                    ghost nodes: set<Value>, ghost rank: Value -> nat)
      requires Ranked(c, nodes, rank) && schema in nodes && schema.PyDict?
      modifies this`unknown, errors
      decreases Weight(inst), inst, rank(schema), 2
      ensures Grew(path, old(errors.entries), errors.entries, ConditionalOk(c, nodes, rank, inst, schema))
      ensures Noted(nodes, old(unknown), unknown)
    {
      hide Pointer, PartInstance, Valid, OperandsOk;
      var s := schema.members;
      if "if" in s {
        assert SameInstance(c, schema, s["if"]);
        var errs := SubErrors(inst, s["if"], path, nodes, rank);
        var branch := if errs == [] then "then" else "else";
        if branch in s {
          assert SameInstance(c, schema, s[branch]);
          Validate(inst, s[branch], path, errors, nodes, rank);
        }
      }
    }

    method ByShape(inst: Value, schema: Value, path: Location, errors: ErrorLog,
                   ghost nodes: set<Value>, ghost rank: Value -> nat)
      requires Ranked(c, nodes, rank) && schema in nodes && schema.PyDict?
      modifies this`unknown, errors
      decreases Weight(inst), inst, rank(schema), 3
      ensures Grew(path, old(errors.entries), errors.entries, ShapeOk(c, nodes, rank, inst, schema))
      ensures Noted(nodes, old(unknown), unknown)
    {
      hide StringOk, NumberOk, ArrayOk, ObjectOk, ItemsOk, PropertiesOk, OperandsOk;
      ghost var e0 := errors.entries;
      match inst
      case PyStr(text) => ValidateString(text, schema, path, errors);
      case PyInt(_) => ValidateNumber(inst, schema, path, errors);
      case PyFloat(_) => ValidateNumber(inst, schema, path, errors);
      case PyList(items) =>
        CheckArray(items, schema, path, errors);
        ValidateItems(inst, schema, path, errors, nodes, rank);
      case PyDict(members) =>
        CheckObject(members, schema, path, errors);
        ValidateProperties(inst, schema, path, errors, nodes, rank);
      case _ =>
    }

    method ValidateItems(inst: Value, schema: Value, path: Location, errors: ErrorLog,
                         ghost nodes: set<Value>, ghost rank: Value -> nat)
      requires Ranked(c, nodes, rank) && schema in nodes && schema.PyDict? && inst.PyList?
      modifies this`unknown, errors
      decreases Weight(inst), inst, rank(schema), 2
      ensures Grew(path, old(errors.entries), errors.entries, ItemsOk(c, nodes, rank, inst, schema))
      ensures Noted(nodes, old(unknown), unknown)
    {
      hide Pointer, Valid, OperandsOk, SameInstance;
      var s, items, prefix := schema.members, inst.items, Prefix(schema);
      var i := 0;
      while i < |prefix| && i < |items|
        invariant 0 <= i <= |items| && i <= |prefix|
        invariant Grew(path, old(errors.entries), errors.entries,
                       forall j :: 0 <= j < i ==> Valid(c, nodes, rank, items[j], prefix[j]))
        invariant Noted(nodes, old(unknown), unknown)
      {
        assert PartInstance(schema, prefix[i]);
        ghost var mid := errors.entries;
        Validate(items[i], prefix[i], path + [Item(i)], errors, nodes, rank);
        GrewBelow(path, Item(i), mid, errors.entries, Valid(c, nodes, rank, items[i], prefix[i]));
        i := i + 1;
      }
      if "items" in s {
        Rest(items, |prefix|, s["items"], inst, schema, path, errors, nodes, rank);
      }
      if "contains" in s {
        var found := Contains(inst, schema, path, nodes, rank);
        if !found {
          errors.Append(path, NothingContained);
        }
      }
    }

    method Rest(items: seq<Value>, start: nat, sub: Value, inst: Value, schema: Value, path: Location, errors: ErrorLog,
                ghost nodes: set<Value>, ghost rank: Value -> nat)
      requires Ranked(c, nodes, rank) && schema in nodes && PartInstance(schema, sub) && inst == PyList(items)
      modifies this`unknown, errors
      decreases Weight(inst), inst, rank(schema), 1
      ensures Grew(path, old(errors.entries), errors.entries,
                   forall i :: start <= i < |items| ==> Valid(c, nodes, rank, items[i], sub))
      ensures Noted(nodes, old(unknown), unknown)
    {
      hide Pointer, Valid, OperandsOk, SameInstance, PartInstance;
      var i := start;
      while i < |items|
        invariant start <= i
        invariant Grew(path, old(errors.entries), errors.entries,
                       forall j :: start <= j < i && j < |items| ==> Valid(c, nodes, rank, items[j], sub))
        invariant Noted(nodes, old(unknown), unknown)
      {
        ghost var mid := errors.entries;
        Validate(items[i], sub, path + [Item(i)], errors, nodes, rank);
        GrewBelow(path, Item(i), mid, errors.entries, Valid(c, nodes, rank, items[i], sub));
        i := i + 1;
      }
    }

    /** Stops at the first item that matches. */
    method Contains(inst: Value, schema: Value, path: Location, ghost nodes: set<Value>, ghost rank: Value -> nat)
      returns (found: bool)
      requires Ranked(c, nodes, rank) && schema in nodes && schema.PyDict? && inst.PyList?
      requires "contains" in schema.members
      modifies this`unknown
      decreases Weight(inst), inst, rank(schema), 1
      ensures found <==> exists i :: 0 <= i < |inst.items| && Valid(c, nodes, rank, inst.items[i], schema.members["contains"])
      ensures Noted(nodes, old(unknown), unknown)
    {
      hide Pointer, Valid, OperandsOk, SameInstance;
      var items, sub := inst.items, schema.members["contains"];
      assert PartInstance(schema, sub);
      var i := 0;
      while i < |items|
        invariant 0 <= i <= |items|
        invariant forall j :: 0 <= j < i ==> !Valid(c, nodes, rank, items[j], sub)
        invariant Noted(nodes, old(unknown), unknown)
      {
        var errs := SubErrors(items[i], sub, path, nodes, rank);
        if errs == [] {
          return true;
        }
        i := i + 1;
      }
      return false;
    }

    /** Dictionaries are walked in any order. */
    method ValidateProperties(inst: Value, schema: Value, path: Location, errors: ErrorLog,
                              ghost nodes: set<Value>, ghost rank: Value -> nat)
      requires Ranked(c, nodes, rank) && schema in nodes && schema.PyDict? && inst.PyDict?
      modifies this`unknown, errors
      decreases Weight(inst), inst, rank(schema), 2
      ensures Grew(path, old(errors.entries), errors.entries, PropertiesOk(c, nodes, rank, inst, schema))
      ensures Noted(nodes, old(unknown), unknown)
    {
      hide Pointer, Valid, OperandsOk, SameInstance, PropertyOk, Additional;
      var members, matched, todo := inst.members, {}, inst.members.Keys;
      while todo != {}
        invariant todo <= members.Keys && matched !! todo
        invariant forall k :: k in members && k !in todo ==> (k in matched <==> !Additional(c, schema, k))
        invariant Grew(path, old(errors.entries), errors.entries,
                       forall k :: k in members && k !in todo ==> PropertyOk(c, nodes, rank, inst, schema, k))
        invariant Noted(nodes, old(unknown), unknown)
      {
        var key :| key in todo;
        var hit := ValidateProperty(inst, key, schema, path, errors, nodes, rank);
        if hit {
          matched := matched + {key};
        }
        todo := todo - {key};
      }
      if "additionalProperties" in schema.members {
        ValidateAdditional(inst, matched, schema, path, errors, nodes, rank);
      }
    }

    /** One key: its own schema, every pattern it matches, and its name. */
    method ValidateProperty(inst: Value, key: string, schema: Value, path: Location, errors: ErrorLog,
                            ghost nodes: set<Value>, ghost rank: Value -> nat) returns (hit: bool)
      requires Ranked(c, nodes, rank) && schema in nodes && schema.PyDict? && inst.PyDict? && key in inst.members
      modifies this`unknown, errors
      decreases Weight(inst), inst, rank(schema), 1
      ensures Grew(path, old(errors.entries), errors.entries, PropertyOk(c, nodes, rank, inst, schema, key))
      ensures hit <==> !Additional(c, schema, key)
      ensures Noted(nodes, old(unknown), unknown)
    {
      hide Pointer, Valid, OperandsOk, SameInstance;
      var child, value, props := path + [Key(key)], inst.members[key], Entries(Get(schema, "properties"));
      ghost var start := errors.entries;
      hit := false;
      if key in props {
        hit := true;
        assert PartInstance(schema, props[key]);
        Validate(value, props[key], child, errors, nodes, rank);
        GrewBelow(path, Key(key), start, errors.entries, Valid(c, nodes, rank, value, props[key]));
      }
      ghost var mid := errors.entries;
      var matches := ValidatePatterns(inst, key, schema, child, errors, nodes, rank);
      GrewBelow(path, Key(key), mid, errors.entries,
        forall pat :: pat in Entries(Get(schema, "patternProperties")) && c.search(pat, key) ==>
          Valid(c, nodes, rank, value, Entries(Get(schema, "patternProperties"))[pat]));
      hit := hit || matches;
      if "propertyNames" in schema.members {
        assert PartInstance(schema, schema.members["propertyNames"]);
        ghost var before := errors.entries;
        Validate(PyStr(key), schema.members["propertyNames"], path + [NameOf(key)], errors, nodes, rank);
        GrewBelow(path, NameOf(key), before, errors.entries,
          Valid(c, nodes, rank, PyStr(key), schema.members["propertyNames"]));
      }
    }

    method ValidatePatterns(inst: Value, key: string, schema: Value, child: Location, errors: ErrorLog,
                            ghost nodes: set<Value>, ghost rank: Value -> nat) returns (hit: bool)
      requires Ranked(c, nodes, rank) && schema in nodes && schema.PyDict? && inst.PyDict? && key in inst.members
      modifies this`unknown, errors
      decreases Weight(inst), inst, rank(schema), 0
      ensures Grew(child, old(errors.entries), errors.entries,
                   forall pat :: pat in Entries(Get(schema, "patternProperties")) && c.search(pat, key) ==>
                     Valid(c, nodes, rank, inst.members[key], Entries(Get(schema, "patternProperties"))[pat]))
      ensures hit <==> exists pat :: pat in Entries(Get(schema, "patternProperties")) && c.search(pat, key)
      ensures Noted(nodes, old(unknown), unknown)
    {
      hide Pointer, Valid, OperandsOk, SameInstance;
      var value, patterns := inst.members[key], Entries(Get(schema, "patternProperties"));
      var todo := patterns.Keys;
      hit := false;
      while todo != {}
        invariant todo <= patterns.Keys
        invariant hit <==> exists pat :: pat in patterns && pat !in todo && c.search(pat, key)
        invariant Grew(child, old(errors.entries), errors.entries,
                       forall pat :: pat in patterns && pat !in todo && c.search(pat, key) ==>
                         Valid(c, nodes, rank, value, patterns[pat]))
        invariant Noted(nodes, old(unknown), unknown)
      {
        var pat :| pat in todo;
        if c.search(pat, key) {
          hit := true;
          assert PartInstance(schema, patterns[pat]);
          Validate(value, patterns[pat], child, errors, nodes, rank);
        }
        todo := todo - {pat};
      }
    }

    method ValidateAdditional(inst: Value, matched: set<string>, schema: Value, path: Location, errors: ErrorLog,
                              ghost nodes: set<Value>, ghost rank: Value -> nat)
      requires Ranked(c, nodes, rank) && schema in nodes && schema.PyDict? && inst.PyDict?
      requires "additionalProperties" in schema.members
      requires forall k :: k in inst.members ==> (k in matched <==> !Additional(c, schema, k))
      modifies this`unknown, errors
      decreases Weight(inst), inst, rank(schema), 1
      ensures Grew(path, old(errors.entries), errors.entries,
                   forall k :: k in inst.members ==> AdditionalOk(c, nodes, rank, inst, schema, k))
      ensures Noted(nodes, old(unknown), unknown)
    {
      hide Pointer, OperandsOk, SameInstance, Additional, RefOk, TypeOk, EnumOk, CombinedOk, ConditionalOk, ShapeOk;
      var ap, members, todo := schema.members["additionalProperties"], inst.members, inst.members.Keys;
      assert PartInstance(schema, ap);
      while todo != {}
        invariant todo <= members.Keys
        invariant Grew(path, old(errors.entries), errors.entries,
                       forall k :: k in members && k !in todo ==> AdditionalOk(c, nodes, rank, inst, schema, k))
        invariant Noted(nodes, old(unknown), unknown)
      {
        var key :| key in todo;
        if key !in matched {
          if ap == PyBool(false) {
            errors.Append(path, Unexpected(key));
          } else if ap != PyBool(true) {
            ghost var mid := errors.entries;
            Validate(members[key], ap, path + [Key(key)], errors, nodes, rank);
            GrewBelow(path, Key(key), mid, errors.entries, Valid(c, nodes, rank, members[key], ap));
          }
        }
        todo := todo - {key};
      }
    }
  }
}
