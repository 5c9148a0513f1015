/** Validation is a property of instance and document alone. */
module SchemaLaws {
  import opened PyValue
  import opened SchemaMeaning
  import opened SchemaGraph

  ghost predicate Agree(c: Context, m: set<Value>, p: Value -> nat, n: set<Value>, q: Value -> nat, inst: Value, s: Value)
    requires Ranked(c, m, p) && Ranked(c, n, q) && s in m && s in n
  {
    Valid(c, m, p, inst, s) == Valid(c, n, q, inst, s)
  }

  /** Agreement on everything that `s` applies to the instance or to its parts. */
  ghost predicate Below(c: Context, m: set<Value>, p: Value -> nat, n: set<Value>, q: Value -> nat, inst: Value, s: Value)
    requires Ranked(c, m, p) && Ranked(c, n, q) && s in m && s in n
  {
    && (forall t :: SameInstance(c, s, t) ==> Agree(c, m, p, n, q, inst, t))
    && (forall t, part :: PartInstance(s, t) && PartOf(inst, part) ==> Agree(c, m, p, n, q, part, t))
  }

  predicate PartOf(inst: Value, part: Value) {
    match inst
    case PyList(items) => part in items
    case PyDict(members) => part in members.Values || (part.PyStr? && part.s in members)
    case _ => false
  }

  /** Any two rankings give one meaning. */
  lemma {:induction false} OneMeaning(c: Context, m: set<Value>, p: Value -> nat, n: set<Value>, q: Value -> nat,
                                      inst: Value, s: Value)
    requires Ranked(c, m, p) && Ranked(c, n, q) && s in m && s in n
    ensures Valid(c, m, p, inst, s) <==> Valid(c, n, q, inst, s)
    decreases Weight(inst), inst, p(s)
  {
    hide SameInstance, PartInstance, OperandsOk, RefOk, EnumOk, CombinedOk, ConditionalOk, ShapeOk;
    forall t | SameInstance(c, s, t)
      ensures Agree(c, m, p, n, q, inst, t)
    {
      OneMeaning(c, m, p, n, q, inst, t);
    }
    forall t, part | PartInstance(s, t) && PartOf(inst, part)
      ensures Agree(c, m, p, n, q, part, t)
    {
      PartIsSmaller(inst, part);
      OneMeaning(c, m, p, n, q, part, t);
    }
    assert Below(c, m, p, n, q, inst, s);
    SameInPlace(c, m, p, n, q, inst, s);
    SameChoice(c, m, p, n, q, inst, s);
    SameShape(c, m, p, n, q, inst, s);
  }

  lemma PartIsSmaller(inst: Value, part: Value)
    requires PartOf(inst, part)
    ensures Weight(part) < Weight(inst) || (Weight(part) == Weight(inst) && part < inst)
  {
  }

  lemma SameInPlace(c: Context, m: set<Value>, p: Value -> nat, n: set<Value>, q: Value -> nat, inst: Value, s: Value)
    requires Ranked(c, m, p) && Ranked(c, n, q) && s in m && s in n && Below(c, m, p, n, q, inst, s)
    ensures RefOk(c, m, p, inst, s) <==> RefOk(c, n, q, inst, s)
    ensures ConditionalOk(c, m, p, inst, s) <==> ConditionalOk(c, n, q, inst, s)
  {
    hide Valid, PartInstance, OperandsOk, Elements, Pointer;
    assert Target(c, s).Some? ==> SameInstance(c, s, Target(c, s).value);
    assert Get(s, "if").Some? ==> SameInstance(c, s, Get(s, "if").value);
    assert Get(s, "if").Some? && Get(s, "then").Some? ==> SameInstance(c, s, Get(s, "then").value);
    assert Get(s, "if").Some? && Get(s, "else").Some? ==> SameInstance(c, s, Get(s, "else").value);
  }

  lemma SameChoice(c: Context, m: set<Value>, p: Value -> nat, n: set<Value>, q: Value -> nat, inst: Value, s: Value)
    requires Ranked(c, m, p) && Ranked(c, n, q) && s in m && s in n && Below(c, m, p, n, q, inst, s)
    ensures CombinedOk(c, m, p, inst, s) <==> CombinedOk(c, n, q, inst, s)
  {
    hide Valid, PartInstance, OperandsOk, Elements, Pointer;
    assert forall t :: t in Elements(Get(s, "allOf")) || t in Elements(Get(s, "anyOf")) ==> SameInstance(c, s, t);
    assert Get(s, "not").Some? ==> SameInstance(c, s, Get(s, "not").value);
    SameAccepting(c, m, p, n, q, inst, s);
    hide Single, Accepting;
    assert ChoiceOk(c, m, p, inst, s) == ChoiceOk(c, n, q, inst, s);
  }

  lemma SameAccepting(c: Context, m: set<Value>, p: Value -> nat, n: set<Value>, q: Value -> nat, inst: Value, s: Value)
    requires Ranked(c, m, p) && Ranked(c, n, q) && s in m && s in n && Below(c, m, p, n, q, inst, s)
    ensures Accepting(c, m, p, inst, s) == Accepting(c, n, q, inst, s)
  {
    hide Valid, PartInstance, OperandsOk, Elements, Pointer;
    var subs := Elements(Get(s, "oneOf"));
    forall i | 0 <= i < |subs|
      ensures Accepting(c, m, p, inst, s)[i] == Accepting(c, n, q, inst, s)[i]
    {
      assert SameInstance(c, s, subs[i]);
    }
  }

  lemma SameShape(c: Context, m: set<Value>, p: Value -> nat, n: set<Value>, q: Value -> nat, inst: Value, s: Value)
    requires Ranked(c, m, p) && Ranked(c, n, q) && s in m && s in n && Below(c, m, p, n, q, inst, s)
    ensures ShapeOk(c, m, p, inst, s) <==> ShapeOk(c, n, q, inst, s)
  {
    hide Valid, StringOk, NumberOk, ArrayOk, ObjectOk, ItemsOk, PropertiesOk, Ranked, Below;
    if inst.PyList? {
      SameItems(c, m, p, n, q, inst, s);
    } else if inst.PyDict? {
      SameProperties(c, m, p, n, q, inst, s);
    }
  }

  lemma SameItems(c: Context, m: set<Value>, p: Value -> nat, n: set<Value>, q: Value -> nat, inst: Value, s: Value)
    requires Ranked(c, m, p) && Ranked(c, n, q) && s in m && s in n && Below(c, m, p, n, q, inst, s) && inst.PyList?
    ensures ItemsOk(c, m, p, inst, s) <==> ItemsOk(c, n, q, inst, s)
  {
    hide Valid, SameInstance, OperandsOk, Elements, Prefix, Entries;
    var items, prefix := inst.items, Prefix(s);
    forall i | 0 <= i < |items| && i < |prefix|
      ensures prefix[i] in m && prefix[i] in n && Agree(c, m, p, n, q, items[i], prefix[i])
    {
      assert PartInstance(s, prefix[i]) && PartOf(inst, items[i]);
    }
    assert forall i :: 0 <= i < |items| ==> PartOf(inst, items[i]);
    assert Get(s, "items").Some? ==> PartInstance(s, Get(s, "items").value);
    assert Get(s, "contains").Some? ==> PartInstance(s, Get(s, "contains").value);
  }

  lemma SameProperties(c: Context, m: set<Value>, p: Value -> nat, n: set<Value>, q: Value -> nat, inst: Value, s: Value)
    requires Ranked(c, m, p) && Ranked(c, n, q) && s in m && s in n && Below(c, m, p, n, q, inst, s) && inst.PyDict?
    ensures PropertiesOk(c, m, p, inst, s) <==> PropertiesOk(c, n, q, inst, s)
  {
    hide Below, SameInstance, PartInstance, OperandsOk, PropertyOk, AdditionalOk;
    forall key | key in inst.members
      ensures PropertyOk(c, m, p, inst, s, key) <==> PropertyOk(c, n, q, inst, s, key)
      ensures AdditionalOk(c, m, p, inst, s, key) <==> AdditionalOk(c, n, q, inst, s, key)
    {
      SameProperty(c, m, p, n, q, inst, s, key);
      SameAdditional(c, m, p, n, q, inst, s, key);
    }
  }

  lemma SameProperty(c: Context, m: set<Value>, p: Value -> nat, n: set<Value>, q: Value -> nat, inst: Value, s: Value,
                     key: string)
    requires Ranked(c, m, p) && Ranked(c, n, q) && s in m && s in n && Below(c, m, p, n, q, inst, s)
    requires inst.PyDict? && key in inst.members
    ensures PropertyOk(c, m, p, inst, s, key) <==> PropertyOk(c, n, q, inst, s, key)
  {
    hide Valid, SameInstance, OperandsOk, Entries, Additional, Prefix;
    var value, props, patterns := inst.members[key], Entries(Get(s, "properties")), Entries(Get(s, "patternProperties"));
    assert PartOf(inst, value) && PartOf(inst, PyStr(key));
    assert key in props ==> PartInstance(s, props[key]);
    forall pat | pat in patterns
      ensures patterns[pat] in m && patterns[pat] in n && Agree(c, m, p, n, q, value, patterns[pat])
    {
      assert PartInstance(s, patterns[pat]);
    }
    assert Get(s, "propertyNames").Some? ==> PartInstance(s, Get(s, "propertyNames").value);
  }

  lemma SameAdditional(c: Context, m: set<Value>, p: Value -> nat, n: set<Value>, q: Value -> nat, inst: Value, s: Value,
                       key: string)
    requires Ranked(c, m, p) && Ranked(c, n, q) && s in m && s in n && Below(c, m, p, n, q, inst, s)
    requires inst.PyDict? && key in inst.members
    ensures AdditionalOk(c, m, p, inst, s, key) <==> AdditionalOk(c, n, q, inst, s, key)
  {
    hide Valid, SameInstance, OperandsOk, Entries, Additional;
    assert PartOf(inst, inst.members[key]);
    assert Get(s, "additionalProperties").Some? ==> PartInstance(s, Get(s, "additionalProperties").value);
  }
}
