/** What each keyword means, read off the members of a schema one by one. */
module SchemaKeywords {
  import opened Wrappers
  import opened Sequences
  import opened PyValue
  import opened SchemaMeaning
  import opened SchemaGraph
  import Schema

  function ItemsOf(v: Value): seq<Value> {
    if v.PyList? then v.items else []
  }

  function MembersOf(v: Value): map<string, Value> {
    if v.PyDict? then v.members else map[]
  }

  // ---- assertions --------------------------------------------------------------------

  /** The instances that a type name stands for. */
  predicate Named(name: string, inst: Value) {
    || (name == "null" && inst.PyNone?)
    || (name == "boolean" && inst.PyBool?)
    || (name == "object" && inst.PyDict?)
    || (name == "array" && inst.PyList?)
    || (name == "string" && inst.PyStr?)
    || (name == "number" && (inst.PyInt? || inst.PyFloat?))
    || (name == "integer" && (inst.PyInt? || (inst.PyFloat? && inst.r == inst.r.Floor as real)))
  }

  /** One name, or a list of which one is enough; an unknown name fits nothing. */
  predicate TypeDemands(operand: Value, inst: Value) {
    if operand.PyStr? then Named(operand.s, inst)
    else exists x :: x in ItemsOf(operand) && x.PyStr? && Named(x.s, inst)
  }

  /** The number an operand or instance is. */
  function Amount(v: Value): real {
    match v
    case PyInt(n) => n as real
    case PyFloat(x) => x
    case _ => 0.0
  }

  /** The operands that Python takes for false. */
  predicate Falsy(v: Value) {
    v == PyNone || v == PyBool(false) || v == PyInt(0) || v == PyFloat(0.0) || v == PyStr("") || v == PyList([])
    || v == PyDict(map[])
  }

  predicate StringDemands(c: Context, key: string, operand: Value, text: string) {
    && (key == "minLength" ==> Amount(operand) <= |text| as real)
    && (key == "maxLength" ==> |text| as real <= Amount(operand))
    && (key == "pattern" && operand.PyStr? ==> c.search(operand.s, text))
  }

  predicate NumberDemands(c: Context, key: string, operand: Value, inst: Value) {
    && (key == "minimum" ==> Amount(operand) <= Amount(inst))
    && (key == "maximum" ==> Amount(inst) <= Amount(operand))
    && (key == "exclusiveMinimum" ==> Amount(operand) < Amount(inst))
    && (key == "exclusiveMaximum" ==> Amount(inst) < Amount(operand))
    && (key == "multipleOf" ==> c.multiple(inst, operand))
  }

  predicate ArrayDemands(key: string, operand: Value, items: seq<Value>) {
    && (key == "minItems" ==> Amount(operand) <= |items| as real)
    && (key == "maxItems" ==> |items| as real <= Amount(operand))
    && (key == "uniqueItems" && !Falsy(operand) ==> forall i, j :: 0 <= i < j < |items| ==> items[i] != items[j])
  }

  ghost predicate ObjectDemands(key: string, operand: Value, members: map<string, Value>) {
    && (key == "minProperties" ==> Amount(operand) <= |members| as real)
    && (key == "maxProperties" ==> |members| as real <= Amount(operand))
    && (key == "required" ==> forall x :: x in ItemsOf(operand) ==> exists k :: k in members && x == PyStr(k))
  }

  /** What a keyword of one kind of instance asks of it, and it asks nothing of the others. */
  ghost predicate KindDemands(c: Context, key: string, operand: Value, inst: Value) {
    match inst
    case PyStr(text) => StringDemands(c, key, operand, text)
    case PyInt(_) => NumberDemands(c, key, operand, inst)
    case PyFloat(_) => NumberDemands(c, key, operand, inst)
    case PyList(items) => ArrayDemands(key, operand, items)
    case PyDict(members) => ObjectDemands(key, operand, members)
    case _ => true
  }

  /** What a keyword asks of an instance by itself. */
  ghost predicate Demands(c: Context, key: string, operand: Value, inst: Value) {
    && (key == "type" ==> TypeDemands(operand, inst))
    && (key == "enum" ==> inst in ItemsOf(operand))
    && (key == "const" ==> inst == operand)
    && KindDemands(c, key, operand, inst)
  }

  lemma NumberOperand(key: string, operand: Value)
    requires OperandOk(key, operand) && NumericKeyword(key)
    ensures IsNumber(operand) && AsReal(operand) == Amount(operand)
  {
  }

  lemma BoundIs(s: Value, key: string)
    requires s.PyDict? && OperandsOk(s) && NumericKeyword(key)
    ensures Bound(s, key) == if key in s.members then Some(Amount(s.members[key])) else None
  {
    hide OperandOk, NumericKeyword;
    if key in s.members {
      NumberOperand(key, s.members[key]);
    }
  }

  lemma TypeShape(s: Value, inst: Value)
    requires s.PyDict? && OperandsOk(s)
    ensures TypeOk(inst, s) <==> ("type" in s.members ==> TypeDemands(s.members["type"], inst))
  {
    hide OperandsOk, OperandOk, TypeMatches, Named;
    forall name: string
      ensures TypeMatches(name, inst) <==> Named(name, inst)
    {
      TypeNames(name, inst);
    }
  }

  lemma TypeNames(name: string, inst: Value)
    ensures TypeMatches(name, inst) <==> Named(name, inst)
  {
  }

  lemma StringShape(c: Context, s: Value, text: string)
    requires s.PyDict? && OperandsOk(s)
    ensures StringOk(c, text, s) <==> forall key :: key in s.members ==> StringDemands(c, key, s.members[key], text)
  {
    hide OperandsOk, Bound;
    assert NumericKeyword("minLength") && NumericKeyword("maxLength");
    BoundIs(s, "minLength");
    BoundIs(s, "maxLength");
  }

  lemma NumberShape(c: Context, s: Value, inst: Value)
    requires s.PyDict? && OperandsOk(s) && IsNumber(inst)
    ensures NumberOk(c, inst, s) <==> forall key :: key in s.members ==> NumberDemands(c, key, s.members[key], inst)
  {
    hide OperandsOk, Bound;
    assert NumericKeyword("minimum") && NumericKeyword("maximum");
    assert NumericKeyword("exclusiveMinimum") && NumericKeyword("exclusiveMaximum");
    BoundIs(s, "minimum");
    BoundIs(s, "maximum");
    BoundIs(s, "exclusiveMinimum");
    BoundIs(s, "exclusiveMaximum");
  }

  lemma ArrayShape(s: Value, items: seq<Value>)
    requires s.PyDict? && OperandsOk(s)
    ensures ArrayOk(items, s) <==> forall key :: key in s.members ==> ArrayDemands(key, s.members[key], items)
  {
    hide OperandsOk, Bound;
    assert NumericKeyword("minItems") && NumericKeyword("maxItems");
    BoundIs(s, "minItems");
    BoundIs(s, "maxItems");
  }

  lemma ObjectShape(s: Value, members: map<string, Value>)
    requires s.PyDict? && OperandsOk(s)
    ensures ObjectOk(members, s) <==> forall key :: key in s.members ==> ObjectDemands(key, s.members[key], members)
  {
    hide OperandsOk, Bound;
    assert NumericKeyword("minProperties") && NumericKeyword("maxProperties");
    BoundIs(s, "minProperties");
    BoundIs(s, "maxProperties");
    forall x: Value
      ensures Present(x, members) <==> exists k :: k in members && x == PyStr(k)
    {
      if Present(x, members) {
        assert x.s in members && x == PyStr(x.s);
      }
    }
    hide Present;
    assert Elements(Get(s, "required")) == if "required" in s.members then ItemsOf(s.members["required"]) else [];
  }

  /** The assertions alone decide. */
  predicate ShapeAlone(c: Context, inst: Value, s: Value)
    requires OperandsOk(s)
  {
    match inst
    case PyStr(text) => StringOk(c, text, s)
    case PyInt(_) => NumberOk(c, inst, s)
    case PyFloat(_) => NumberOk(c, inst, s)
    case PyList(items) => ArrayOk(items, s)
    case PyDict(members) => ObjectOk(members, s)
    case _ => true
  }

  lemma KindShape(c: Context, s: Value, inst: Value)
    requires s.PyDict? && OperandsOk(s)
    ensures ShapeAlone(c, inst, s) <==> forall key :: key in s.members ==> KindDemands(c, key, s.members[key], inst)
  {
    hide OperandsOk, StringOk, NumberOk, ArrayOk, ObjectOk, StringDemands, NumberDemands, ArrayDemands, ObjectDemands;
    match inst
    case PyStr(text) => StringShape(c, s, text);
    case PyInt(_) => NumberShape(c, s, inst);
    case PyFloat(_) => NumberShape(c, s, inst);
    case PyList(items) => ArrayShape(s, items);
    case PyDict(members) => ObjectShape(s, members);
    case _ =>
  }

  /** The assertions of a schema ask what its members ask one by one. */
  lemma AssertionsExactly(c: Context, s: Value, inst: Value)
    requires s.PyDict? && OperandsOk(s)
    ensures TypeOk(inst, s) && EnumOk(inst, s) && ShapeAlone(c, inst, s)
            <==> forall key :: key in s.members ==> Demands(c, key, s.members[key], inst)
  {
    TypeShape(s, inst);
    KindShape(c, s, inst);
    hide OperandsOk, TypeOk, ShapeAlone, TypeDemands, KindDemands;
    assert "type" in s.members ==> (Demands(c, "type", s.members["type"], inst) ==> TypeDemands(s.members["type"], inst));
    assert "enum" in s.members ==> (Demands(c, "enum", s.members["enum"], inst) ==> inst in ItemsOf(s.members["enum"]));
    assert "const" in s.members ==> (Demands(c, "const", s.members["const"], inst) ==> inst == s.members["const"]);
  }

  // ---- applicators -------------------------------------------------------------------------

  ghost predicate Accepts(c: Context, nodes: set<Value>, rank: Value -> nat, inst: Value, t: Value)
    requires Ranked(c, nodes, rank)
  {
    t in nodes && Valid(c, nodes, rank, inst, t)
  }

  /** One position accepts and no other does. */
  ghost predicate AcceptedByOne(c: Context, nodes: set<Value>, rank: Value -> nat, subs: seq<Value>, inst: Value)
    requires Ranked(c, nodes, rank)
  {
    exists i :: 0 <= i < |subs| && Accepts(c, nodes, rank, inst, subs[i])
                && forall j :: 0 <= j < |subs| && j != i ==> !Accepts(c, nodes, rank, inst, subs[j])
  }

  /** References, and schemas for the instance itself. */
  ghost predicate Combines(c: Context, nodes: set<Value>, rank: Value -> nat, m: map<string, Value>, inst: Value)
    requires Ranked(c, nodes, rank)
  {
    && ("$ref" in m ==> Pointer(c, m["$ref"]).Some? && Accepts(c, nodes, rank, inst, Pointer(c, m["$ref"]).value))
    && ("allOf" in m ==> forall t :: t in ItemsOf(m["allOf"]) ==> Accepts(c, nodes, rank, inst, t))
    && ("anyOf" in m ==> exists t :: t in ItemsOf(m["anyOf"]) && Accepts(c, nodes, rank, inst, t))
    && ("oneOf" in m ==> AcceptedByOne(c, nodes, rank, ItemsOf(m["oneOf"]), inst))
    && ("not" in m ==> !Accepts(c, nodes, rank, inst, m["not"]))
  }

  /** One schema chosen by another. */
  ghost predicate Chooses(c: Context, nodes: set<Value>, rank: Value -> nat, m: map<string, Value>, inst: Value)
    requires Ranked(c, nodes, rank)
  {
    "if" in m ==>
      if Accepts(c, nodes, rank, inst, m["if"]) then "then" in m ==> Accepts(c, nodes, rank, inst, m["then"])
      else "else" in m ==> Accepts(c, nodes, rank, inst, m["else"])
  }

  /** Schemas for the items. */
  ghost predicate Lists(c: Context, nodes: set<Value>, rank: Value -> nat, m: map<string, Value>, items: seq<Value>)
    requires Ranked(c, nodes, rank)
  {
    var prefix := if "prefixItems" in m then ItemsOf(m["prefixItems"]) else [];
    && (forall i :: 0 <= i < |items| ==>
          if i < |prefix| then Accepts(c, nodes, rank, items[i], prefix[i])
          else "items" in m ==> Accepts(c, nodes, rank, items[i], m["items"]))
    && ("contains" in m ==> exists i :: 0 <= i < |items| && Accepts(c, nodes, rank, items[i], m["contains"]))
  }

  /** The schemas for one key and its value; the additional one when no other claims the key. */
  ghost predicate Keeps(c: Context, nodes: set<Value>, rank: Value -> nat, m: map<string, Value>, key: string, v: Value)
    requires Ranked(c, nodes, rank)
  {
    var props := if "properties" in m then MembersOf(m["properties"]) else map[];
    var patterns := if "patternProperties" in m then MembersOf(m["patternProperties"]) else map[];
    && (key in props ==> Accepts(c, nodes, rank, v, props[key]))
    && (forall pat :: pat in patterns && c.search(pat, key) ==> Accepts(c, nodes, rank, v, patterns[pat]))
    && ("propertyNames" in m ==> Accepts(c, nodes, rank, PyStr(key), m["propertyNames"]))
    && ("additionalProperties" in m && key !in props && (forall pat :: pat in patterns ==> !c.search(pat, key)) ==>
          Accepts(c, nodes, rank, v, m["additionalProperties"]))
  }

  ghost predicate Applied(c: Context, nodes: set<Value>, rank: Value -> nat, m: map<string, Value>, inst: Value)
    requires Ranked(c, nodes, rank)
  {
    && Combines(c, nodes, rank, m, inst)
    && Chooses(c, nodes, rank, m, inst)
    && (inst.PyList? ==> Lists(c, nodes, rank, m, inst.items))
    && (inst.PyDict? ==>
          forall key :: key in inst.members ==> Keeps(c, nodes, rank, m, key, inst.members[key]))
  }

  lemma Inside(c: Context, nodes: set<Value>, rank: Value -> nat, s: Value, t: Value)
    requires Ranked(c, nodes, rank) && s in nodes && (SameInstance(c, s, t) || PartInstance(s, t))
    ensures t in nodes
  {
    hide SameInstance, PartInstance, OperandsOk;
  }

  lemma OneIs(c: Context, nodes: set<Value>, rank: Value -> nat, inst: Value, s: Value)
    requires Ranked(c, nodes, rank) && s in nodes && s.PyDict? && "oneOf" in s.members
    requires forall t :: t in ItemsOf(s.members["oneOf"]) ==> t in nodes
    ensures Single(Accepting(c, nodes, rank, inst, s)) <==> AcceptedByOne(c, nodes, rank, ItemsOf(s.members["oneOf"]), inst)
  {
    hide Ranked, Pointer, Valid, OperandsOk, PartInstance, SameInstance;
    var subs, b := ItemsOf(s.members["oneOf"]), Accepting(c, nodes, rank, inst, s);
    assert Elements(Get(s, "oneOf")) == subs && |b| == |subs|;
    assert forall i :: 0 <= i < |subs| ==> subs[i] in nodes && (b[i] <==> Accepts(c, nodes, rank, inst, subs[i]));
  }

  lemma ListIs(c: Context, nodes: set<Value>, rank: Value -> nat, s: Value, key: string)
    requires Ranked(c, nodes, rank) && s in nodes && s.PyDict?
    ensures Elements(Get(s, key)) == if key in s.members then ItemsOf(s.members[key]) else []
    ensures key == "allOf" || key == "anyOf" || key == "oneOf" ==> forall t :: t in Elements(Get(s, key)) ==> t in nodes
  {
    forall t | SameInstance(c, s, t)
      ensures t in nodes
    {
      Inside(c, nodes, rank, s, t);
    }
    hide Ranked, Pointer, PartInstance;
  }

  lemma RefIs(c: Context, nodes: set<Value>, rank: Value -> nat, inst: Value, s: Value)
    requires Ranked(c, nodes, rank) && s in nodes && s.PyDict?
    ensures RefOk(c, nodes, rank, inst, s) && CombinedOk(c, nodes, rank, inst, s)
            <==> Combines(c, nodes, rank, s.members, inst)
  {
    forall t | SameInstance(c, s, t)
      ensures t in nodes
    {
      Inside(c, nodes, rank, s, t);
    }
    ListIs(c, nodes, rank, s, "allOf");
    ListIs(c, nodes, rank, s, "anyOf");
    ListIs(c, nodes, rank, s, "oneOf");
    hide Ranked, Pointer, Valid, OperandsOk, PartInstance, Single, Accepting, AcceptedByOne, Elements, ItemsOf;
    if "oneOf" in s.members {
      OneIs(c, nodes, rank, inst, s);
    }
  }

  lemma ConditionalIs(c: Context, nodes: set<Value>, rank: Value -> nat, inst: Value, s: Value)
    requires Ranked(c, nodes, rank) && s in nodes && s.PyDict?
    ensures ConditionalOk(c, nodes, rank, inst, s) <==> Chooses(c, nodes, rank, s.members, inst)
  {
    forall t | SameInstance(c, s, t)
      ensures t in nodes
    {
      Inside(c, nodes, rank, s, t);
    }
    hide Ranked, Pointer, Valid, OperandsOk, PartInstance;
  }

  lemma ItemsAre(c: Context, nodes: set<Value>, rank: Value -> nat, inst: Value, s: Value)
    requires Ranked(c, nodes, rank) && s in nodes && s.PyDict? && inst.PyList?
    ensures ItemsOk(c, nodes, rank, inst, s) <==> Lists(c, nodes, rank, s.members, inst.items)
  {
    forall t | PartInstance(s, t)
      ensures t in nodes
    {
      Inside(c, nodes, rank, s, t);
    }
    hide Ranked, Pointer, Valid, OperandsOk, SameInstance;
  }

  lemma PropertyIs(c: Context, nodes: set<Value>, rank: Value -> nat, inst: Value, s: Value, key: string)
    requires Ranked(c, nodes, rank) && s in nodes && s.PyDict? && inst.PyDict? && key in inst.members
    ensures PropertyOk(c, nodes, rank, inst, s, key) && AdditionalOk(c, nodes, rank, inst, s, key)
            <==> Keeps(c, nodes, rank, s.members, key, inst.members[key])
  {
    forall t | PartInstance(s, t)
      ensures t in nodes
    {
      Inside(c, nodes, rank, s, t);
    }
    hide Ranked, Pointer, Valid, OperandsOk, SameInstance;
  }

  lemma ShapeIs(c: Context, nodes: set<Value>, rank: Value -> nat, inst: Value, s: Value)
    requires Ranked(c, nodes, rank) && s in nodes && s.PyDict?
    ensures ShapeOk(c, nodes, rank, inst, s) <==>
              && ShapeAlone(c, inst, s)
              && (inst.PyList? ==> Lists(c, nodes, rank, s.members, inst.items))
              && (inst.PyDict? ==> forall key :: key in inst.members ==> Keeps(c, nodes, rank, s.members, key, inst.members[key]))
  {
    if inst.PyList? {
      ItemsAre(c, nodes, rank, inst, s);
    } else if inst.PyDict? {
      forall key | key in inst.members
        ensures PropertyOk(c, nodes, rank, inst, s, key) && AdditionalOk(c, nodes, rank, inst, s, key)
                <==> Keeps(c, nodes, rank, s.members, key, inst.members[key])
      {
        PropertyIs(c, nodes, rank, inst, s, key);
      }
    }
    hide Ranked, Valid, StringOk, NumberOk, ArrayOk, ObjectOk, ItemsOk, PropertyOk, AdditionalOk, Lists, Keeps;
  }

  /** What a schema asks, member by member. */
  lemma ValidExactly(c: Context, nodes: set<Value>, rank: Value -> nat, inst: Value, s: Value)
    requires Ranked(c, nodes, rank) && s in nodes
    ensures Valid(c, nodes, rank, inst, s) <==>
              || s == PyBool(true)
              || (&& s.PyDict?
                  && (forall key :: key in s.members ==> Demands(c, key, s.members[key], inst))
                  && Applied(c, nodes, rank, s.members, inst))
  {
    if s.PyDict? {
      RefIs(c, nodes, rank, inst, s);
      ConditionalIs(c, nodes, rank, inst, s);
      ShapeIs(c, nodes, rank, inst, s);
      AssertionsExactly(c, s, inst);
    }
    hide Ranked, RefOk, TypeOk, EnumOk, CombinedOk, ConditionalOk, ShapeOk, ShapeAlone, Combines, Chooses, Lists, Keeps, Demands;
  }

  /** The same for the document itself. */
  lemma SatisfiesExactly(c: Context, inst: Value)
    requires WellFounded(c)
    ensures Ranked(c, Schemas(c), Height(c))
    ensures Satisfies(c, inst) <==>
              || c.root == PyBool(true)
              || (&& c.root.PyDict?
                  && (forall key :: key in c.root.members ==> Demands(c, key, c.root.members[key], inst))
                  && Applied(c, Schemas(c), Height(c), c.root.members, inst))
  {
    RankedExactlyWhenWellFounded(c);
    hide Valid, Demands, Applied, WellFounded, OperandsOk, SameInstance, PartInstance;
    assert c.root in Schemas(c);
    ValidExactly(c, Schemas(c), Height(c), inst, c.root);
  }

  // ---- documents of one keyword ----------------------------------------------------------------

  predicate Applicator(key: string) {
    key in {"$ref", "allOf", "anyOf", "oneOf", "not", "if", "then", "else", "prefixItems", "items", "contains",
            "properties", "patternProperties", "propertyNames", "additionalProperties"}
  }

  /** A document of one keyword. */
  function Only(key: string, operand: Value): Value {
    PyDict(map[key := operand])
  }

  lemma AppliesNothing(c: Context, s: Value)
    requires s.PyDict? && forall key :: Applicator(key) ==> key !in s.members
    ensures forall t :: !Applies(c, s, t) && !SameInstance(c, s, t)
  {
    hide Pointer;
    assert Get(s, "$ref").None? && Get(s, "allOf").None? && Get(s, "anyOf").None? && Get(s, "oneOf").None?;
    assert Get(s, "not").None? && Get(s, "if").None? && Get(s, "items").None? && Get(s, "contains").None?;
    assert Get(s, "prefixItems").None? && Get(s, "properties").None? && Get(s, "patternProperties").None?;
    assert Get(s, "propertyNames").None? && Get(s, "additionalProperties").None?;
  }

  lemma IsWellFounded(c: Context)
    requires c.root.PyDict? && OperandsOk(c.root) && forall key :: Applicator(key) ==> key !in c.root.members
    ensures WellFounded(c)
  {
    AppliesNothing(c, c.root);
    hide Applies, SameInstance, OperandsOk, Path, Chain, OnCycle, Applicator;
    forall s | Reachable(c, s)
      ensures OperandsOk(s) && !OnCycle(c, s)
    {
      var p :| Path(c, p) && p[0] == c.root && p[|p| - 1] == s;
      FirstStep(c, p);
      CycleStarts(c, s);
    }
  }

  /** A keyword that applies no schema asks by itself what it asks among others. */
  lemma Alone(c: Context, key: string, operand: Value, inst: Value)
    requires c.root == Only(key, operand) && !Applicator(key) && OperandOk(key, operand)
    ensures WellFounded(c)
    ensures Satisfies(c, inst) <==> Demands(c, key, operand, inst)
  {
    hide OperandOk, Demands, Satisfies, WellFounded, Ranked, Applied, Applicator;
    assert forall k :: k in c.root.members <==> k == key;
    assert c.root.members[key] == operand;
    IsWellFounded(c);
    hide OperandsOk;
    SatisfiesExactly(c, inst);
    NothingApplied(c, Schemas(c), Height(c), c.root.members, inst);
  }

  lemma NothingApplied(c: Context, nodes: set<Value>, rank: Value -> nat, m: map<string, Value>, inst: Value)
    requires Ranked(c, nodes, rank) && forall key :: Applicator(key) ==> key !in m
    ensures Applied(c, nodes, rank, m, inst)
  {
    hide Ranked, Pointer, Accepts;
    assert "$ref" !in m && "allOf" !in m && "anyOf" !in m && "oneOf" !in m && "not" !in m && "if" !in m;
    assert "prefixItems" !in m && "items" !in m && "contains" !in m;
    assert "properties" !in m && "patternProperties" !in m && "propertyNames" !in m && "additionalProperties" !in m;
  }

  lemma TypeMeans(c: Context, operand: Value, inst: Value)
    requires c.root == Only("type", operand) && OperandOk("type", operand)
    ensures WellFounded(c)
    ensures Satisfies(c, inst) <==> TypeDemands(operand, inst)
  {
    Alone(c, "type", operand, inst);
    hide OperandOk, Satisfies, WellFounded, TypeDemands;
  }

  // ---- what is known ------------------------------------------------------------------------

  predicate Annotation(key: string) {
    key in {"$schema", "$id", "$comment", "$defs", "title", "description", "default", "examples", "deprecated",
            "readOnly", "writeOnly", "format"}
  }

  predicate OtherAssertion(key: string) {
    key in {"type", "enum", "const", "pattern", "required", "uniqueItems"}
  }

  /** Known are exactly the keywords that validity can depend on, and the annotations. */
  lemma KnownExactly(key: string)
    ensures key in Schema.HANDLED <==>
            Applicator(key) || NumericKeyword(key) || OtherAssertion(key) || Annotation(key)
  {
  }
}
