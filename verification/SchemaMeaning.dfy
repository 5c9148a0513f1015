/**
 What it means for an instance to satisfy a schema: the applicators of sections
 10.2 and 10.3 of JSON Schema Core 2020-12 and the assertions of section 6 of
 JSON Schema Validation 2020-12 that the validator supports.
 */
module SchemaMeaning {
  import opened Wrappers
  import opened Sequences
  import opened PyValue

  /**
   The schema document, and what is left uninterpreted: the regular expression
   search, the multiple test and the integer a pointer token spells.
   */
  datatype Context = Context(
    root: Value,
    search: (string, string) -> bool,
    multiple: (Value, Value) -> bool,
    toInt: string -> Option<int>)

  // ---- local references -----------------------------------------------------------

  function SplitOn(s: string, c: char): (parts: seq<string>)
    ensures parts != []
  {
    if s == "" then [""]
    else
      var rest := SplitOn(s[1..], c);
      if s[0] == c then [""] + rest else [[s[0]] + rest[0]] + rest[1..]
  }

  /** str.replace of a two-character pattern by one character. */
  function Replace2(s: string, a: char, b: char, c: char): string {
    if |s| < 2 then s
    else if s[0] == a && s[1] == b then [c] + Replace2(s[2..], a, b, c)
    else [s[0]] + Replace2(s[1..], a, b, c)
  }

  function Token(raw: string): string {
    Replace2(Replace2(raw, '~', '1', '/'), '~', '0', '~')
  }

  /** One step of a pointer; list indices count from the end when negative. */
  function StepInto(c: Context, node: Value, token: string): Option<Value> {
    match node
    case PyList(items) =>
      var i := c.toInt(token);
      if i.None? then None
      else
        var k := if i.value < 0 then |items| + i.value else i.value;
        if 0 <= k < |items| then Some(items[k]) else None
    case PyDict(members) => if token in members then Some(members[token]) else None
    case _ => None
  }

  function Walk(c: Context, node: Value, raws: seq<string>): Option<Value> {
    if raws == [] then Some(node)
    else
      match StepInto(c, node, Token(raws[0]))
      case None => None
      case Some(next) => Walk(c, next, raws[1..])
  }

  /** A local reference, or None where the code raises. */
  function Pointer(c: Context, ref: Value): Option<Value> {
    if !ref.PyStr? || ref.s == "" || ref.s[0] != '#' then None
    else
      var frag := ref.s[1..];
      var path := if frag != "" && frag[0] == '/' then frag[1..] else frag;
      if path == "" then Some(c.root) else Walk(c, c.root, SplitOn(path, '/'))
  }

  // ---- the graph of sub-schemas -----------------------------------------------------

  function Elements(v: Option<Value>): seq<Value> {
    if v.Some? && v.value.PyList? then v.value.items else []
  }

  function Entries(v: Option<Value>): map<string, Value> {
    if v.Some? && v.value.PyDict? then v.value.members else map[]
  }

  /** Falsy values stand for no prefix at all. */
  function Prefix(s: Value): seq<Value> {
    Elements(Get(s, "prefixItems"))
  }

  function Target(c: Context, s: Value): Option<Value> {
    match Get(s, "$ref")
    case None => None
    case Some(ref) => Pointer(c, ref)
  }

  /** `t` is applied to the same instance as `s`. */
  predicate SameInstance(c: Context, s: Value, t: Value) {
    || Target(c, s) == Some(t)
    || t in Elements(Get(s, "allOf")) || t in Elements(Get(s, "anyOf")) || t in Elements(Get(s, "oneOf"))
    || Get(s, "not") == Some(t) || Get(s, "if") == Some(t)
    || (Get(s, "if").Some? && (Get(s, "then") == Some(t) || Get(s, "else") == Some(t)))
  }

  /** `t` is applied to a part of the instance of `s`. */
  predicate PartInstance(s: Value, t: Value) {
    || t in Prefix(s) || Get(s, "items") == Some(t) || Get(s, "contains") == Some(t)
    || t in Entries(Get(s, "properties")).Values || t in Entries(Get(s, "patternProperties")).Values
    || Get(s, "propertyNames") == Some(t) || Get(s, "additionalProperties") == Some(t)
  }

  predicate NumericKeyword(key: string) {
    key in {"minLength", "maxLength", "minimum", "maximum", "exclusiveMinimum", "exclusiveMaximum",
            "multipleOf", "minItems", "maxItems", "minProperties", "maxProperties"}
  }

  /** The operand of a keyword has the type that the meta-schema prescribes. */
  predicate OperandOk(key: string, v: Value) {
    if NumericKeyword(key) then IsNumber(v)
    else if key in {"allOf", "anyOf", "oneOf", "enum"} then v.PyList?
    else if key == "required" then v.PyList? && forall x :: x in v.items ==> !x.PyList? && !x.PyDict?
    else if key == "type" then v.PyStr? || (v.PyList? && forall x :: x in v.items ==> x.PyStr?)
    else if key == "pattern" then v.PyStr?
    else if key == "prefixItems" then v.PyList? || !Truthy(v)
    else if key in {"properties", "patternProperties"} then v.PyDict?
    else true
  }

  /**
   Every operand is well typed. This restricts the model: the code tolerates some
   others, as long as no instance brings it to use them.
   */
  predicate OperandsOk(s: Value) {
    s.PyDict? ==> forall key :: key in s.members ==> OperandOk(key, s.members[key])
  }

  /**
   `nodes` holds the schema and everything it can apply, and `rank` falls along
   every step that stays on the same instance.
   */
  ghost predicate Ranked(c: Context, nodes: set<Value>, rank: Value -> nat) {
    && c.root in nodes
    && (forall s :: s in nodes ==> OperandsOk(s))
    && (forall s, t :: s in nodes && SameInstance(c, s, t) ==> t in nodes && rank(t) < rank(s))
    && (forall s, t :: s in nodes && PartInstance(s, t) ==> t in nodes)
  }

  // ---- the meaning ---------------------------------------------------------------

  /** Strings are below everything else; parts of an instance are below it. */
  function Weight(inst: Value): nat {
    if inst.PyStr? then 0 else 1
  }

  predicate TypeMatches(name: string, v: Value) {
    match name
    case "null" => v.PyNone?
    case "boolean" => v.PyBool?
    case "object" => v.PyDict?
    case "array" => v.PyList?
    case "number" => IsNumber(v)
    case "integer" => v.PyInt? || (v.PyFloat? && v.r.Floor as real == v.r)
    case "string" => v.PyStr?
    case _ => false
  }

  /** `type` names one of the instance's types. */
  predicate TypeOk(inst: Value, s: Value)
    requires OperandsOk(s)
  {
    match Get(s, "type")
    case None => true
    case Some(PyList(names)) => exists n :: n in names && n.PyStr? && TypeMatches(n.s, inst)
    case Some(t) => t.PyStr? && TypeMatches(t.s, inst)
  }

  function Bound(s: Value, key: string): (r: Option<real>)
    requires OperandsOk(s) && NumericKeyword(key)
    ensures r.Some? <==> Get(s, key).Some?
  {
    match Get(s, key)
    case None => None
    case Some(v) => Some(AsReal(v))
  }

  predicate AtLeast(s: Value, key: string, x: real)
    requires OperandsOk(s) && NumericKeyword(key)
  {
    Bound(s, key).Some? ==> Bound(s, key).value <= x
  }

  predicate AtMost(s: Value, key: string, x: real)
    requires OperandsOk(s) && NumericKeyword(key)
  {
    Bound(s, key).Some? ==> x <= Bound(s, key).value
  }

  predicate EnumOk(inst: Value, s: Value)
    requires OperandsOk(s)
  {
    && (Get(s, "enum").Some? ==> inst in Elements(Get(s, "enum")))
    && (Get(s, "const").Some? ==> inst == Get(s, "const").value)
  }

  predicate StringOk(c: Context, text: string, s: Value)
    requires OperandsOk(s)
  {
    && AtLeast(s, "minLength", |text| as real) && AtMost(s, "maxLength", |text| as real)
    && (Get(s, "pattern").Some? && Get(s, "pattern").value.PyStr? ==> c.search(Get(s, "pattern").value.s, text))
  }

  predicate InclusiveOk(s: Value, x: real)
    requires OperandsOk(s)
  {
    AtLeast(s, "minimum", x) && AtMost(s, "maximum", x)
  }

  predicate NumberOk(c: Context, inst: Value, s: Value)
    requires OperandsOk(s) && IsNumber(inst)
  {
    var x := AsReal(inst);
    && InclusiveOk(s, x)
    && (Bound(s, "exclusiveMinimum").Some? ==> Bound(s, "exclusiveMinimum").value < x)
    && (Bound(s, "exclusiveMaximum").Some? ==> x < Bound(s, "exclusiveMaximum").value)
    && (Get(s, "multipleOf").Some? ==> c.multiple(inst, Get(s, "multipleOf").value))
  }

  predicate ArrayOk(items: seq<Value>, s: Value)
    requires OperandsOk(s)
  {
    && AtLeast(s, "minItems", |items| as real) && AtMost(s, "maxItems", |items| as real)
    && (Get(s, "uniqueItems").Some? && Truthy(Get(s, "uniqueItems").value) ==> Distinct(items))
  }

  predicate Present(key: Value, members: map<string, Value>) {
    key.PyStr? && key.s in members
  }

  predicate ObjectOk(members: map<string, Value>, s: Value)
    requires OperandsOk(s)
  {
    && (forall x :: x in Elements(Get(s, "required")) ==> Present(x, members))
    && AtLeast(s, "minProperties", |members| as real) && AtMost(s, "maxProperties", |members| as real)
  }

  /** The instance satisfies the schema. */
  ghost predicate Valid(c: Context, nodes: set<Value>, rank: Value -> nat, inst: Value, s: Value)
    requires Ranked(c, nodes, rank) && s in nodes
    decreases Weight(inst), inst, rank(s), 4
  {
    || s == PyBool(true)
    || (&& s.PyDict?
        && RefOk(c, nodes, rank, inst, s)
        && TypeOk(inst, s)
        && EnumOk(inst, s)
        && CombinedOk(c, nodes, rank, inst, s)
        && ConditionalOk(c, nodes, rank, inst, s)
        && ShapeOk(c, nodes, rank, inst, s))
  }

  /** What depends on the kind of instance; a keyword for another kind says nothing. */
  ghost predicate ShapeOk(c: Context, nodes: set<Value>, rank: Value -> nat, inst: Value, s: Value)
    requires Ranked(c, nodes, rank) && s in nodes
    decreases Weight(inst), inst, rank(s), 3
  {
    match inst
    case PyStr(text) => StringOk(c, text, s)
    case PyInt(_) => NumberOk(c, inst, s)
    case PyFloat(_) => NumberOk(c, inst, s)
    case PyList(items) => ArrayOk(items, s) && ItemsOk(c, nodes, rank, inst, s)
    case PyDict(members) => ObjectOk(members, s) && PropertiesOk(c, nodes, rank, inst, s)
    case _ => true
  }

  ghost predicate RefOk(c: Context, nodes: set<Value>, rank: Value -> nat, inst: Value, s: Value)
    requires Ranked(c, nodes, rank) && s in nodes
    decreases Weight(inst), inst, rank(s), 0
  {
    hide Pointer, OperandsOk, Elements, PartInstance;
    Get(s, "$ref").Some? ==> Target(c, s).Some? && Valid(c, nodes, rank, inst, Target(c, s).value)
  }

  /** Section 10.2.1 of the core specification: several schemas for the instance itself. */
  ghost predicate CombinedOk(c: Context, nodes: set<Value>, rank: Value -> nat, inst: Value, s: Value)
    requires Ranked(c, nodes, rank) && s in nodes
    decreases Weight(inst), inst, rank(s), 3
  {
    hide Pointer, OperandsOk, Elements, PartInstance;
    && (forall t :: t in Elements(Get(s, "allOf")) ==> Valid(c, nodes, rank, inst, t))
    && ChoiceOk(c, nodes, rank, inst, s)
    && (Get(s, "not").Some? ==> !Valid(c, nodes, rank, inst, Get(s, "not").value))
  }

  ghost predicate ChoiceOk(c: Context, nodes: set<Value>, rank: Value -> nat, inst: Value, s: Value)
    requires Ranked(c, nodes, rank) && s in nodes
    decreases Weight(inst), inst, rank(s), 2
  {
    hide Pointer, OperandsOk, Elements, PartInstance;
    && (Get(s, "anyOf").Some? ==>
          exists t :: t in Elements(Get(s, "anyOf")) && Valid(c, nodes, rank, inst, t))
    && (Get(s, "oneOf").Some? ==> Single(Accepting(c, nodes, rank, inst, s)))
  }

  /** Section 10.2.2: one schema chosen by another. */
  ghost predicate ConditionalOk(c: Context, nodes: set<Value>, rank: Value -> nat, inst: Value, s: Value)
    requires Ranked(c, nodes, rank) && s in nodes
    decreases Weight(inst), inst, rank(s), 1
  {
    hide Pointer, OperandsOk, Elements, PartInstance;
    Get(s, "if").Some? ==>
      if Valid(c, nodes, rank, inst, Get(s, "if").value)
      then Get(s, "then").Some? ==> Valid(c, nodes, rank, inst, Get(s, "then").value)
      else Get(s, "else").Some? ==> Valid(c, nodes, rank, inst, Get(s, "else").value)
  }

  /** Which positions of `oneOf` accept the instance. */
  ghost function Accepting(c: Context, nodes: set<Value>, rank: Value -> nat, inst: Value, s: Value): (r: seq<bool>)
    requires Ranked(c, nodes, rank) && s in nodes
    ensures |r| == |Elements(Get(s, "oneOf"))|
    decreases Weight(inst), inst, rank(s), 0
  {
    hide Pointer, OperandsOk, Elements, PartInstance;
    var subs := Elements(Get(s, "oneOf"));
    seq(|subs|, i requires 0 <= i < |subs| => Valid(c, nodes, rank, inst, subs[i]))
  }

  /** True at one position and no other. */
  predicate Single(b: seq<bool>) {
    exists i :: 0 <= i < |b| && b[i] && forall j :: 0 <= j < |b| && b[j] ==> j == i
  }

  /** Section 10.3.1: applied to the items of a list. */
  ghost predicate ItemsOk(c: Context, nodes: set<Value>, rank: Value -> nat, inst: Value, s: Value)
    requires Ranked(c, nodes, rank) && s in nodes && inst.PyList?
    decreases Weight(inst), inst, rank(s), 0
  {
    hide Pointer, OperandsOk, SameInstance;
    var prefix, items := Prefix(s), inst.items;
    && (forall i :: 0 <= i < |items| && i < |prefix| ==> Valid(c, nodes, rank, items[i], prefix[i]))
    && (Get(s, "items").Some? ==>
          forall i :: |prefix| <= i < |items| ==> Valid(c, nodes, rank, items[i], Get(s, "items").value))
    && (Get(s, "contains").Some? ==>
          exists i :: 0 <= i < |items| && Valid(c, nodes, rank, items[i], Get(s, "contains").value))
  }

  /** A key that neither `properties` nor any pattern claims. */
  predicate Additional(c: Context, s: Value, key: string) {
    && key !in Entries(Get(s, "properties"))
    && forall pat :: pat in Entries(Get(s, "patternProperties")) ==> !c.search(pat, key)
  }

  /** Section 10.3.2: applied to the values, and the names, of a dictionary. */
  ghost predicate PropertiesOk(c: Context, nodes: set<Value>, rank: Value -> nat, inst: Value, s: Value)
    requires Ranked(c, nodes, rank) && s in nodes && inst.PyDict?
    decreases Weight(inst), inst, rank(s), 1
  {
    forall key :: key in inst.members ==> PropertyOk(c, nodes, rank, inst, s, key)
                                          && AdditionalOk(c, nodes, rank, inst, s, key)
  }

  ghost predicate PropertyOk(c: Context, nodes: set<Value>, rank: Value -> nat, inst: Value, s: Value, key: string)
    requires Ranked(c, nodes, rank) && s in nodes && inst.PyDict? && key in inst.members
    decreases Weight(inst), inst, rank(s), 0
  {
    hide Pointer, OperandsOk, Entries, SameInstance;
    var props, patterns := Entries(Get(s, "properties")), Entries(Get(s, "patternProperties"));
    && (key in props ==> Valid(c, nodes, rank, inst.members[key], props[key]))
    && (forall pat :: pat in patterns && c.search(pat, key) ==>
                        Valid(c, nodes, rank, inst.members[key], patterns[pat]))
    && (Get(s, "propertyNames").Some? ==> Valid(c, nodes, rank, PyStr(key), Get(s, "propertyNames").value))
  }

  ghost predicate AdditionalOk(c: Context, nodes: set<Value>, rank: Value -> nat, inst: Value, s: Value, key: string)
    requires Ranked(c, nodes, rank) && s in nodes && inst.PyDict? && key in inst.members
    decreases Weight(inst), inst, rank(s), 0
  {
    Get(s, "additionalProperties").Some? && Additional(c, s, key) ==>
      Valid(c, nodes, rank, inst.members[key], Get(s, "additionalProperties").value)
  }
}
