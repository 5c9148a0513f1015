/** Enrichment is an idempotent extension that no later check holds against the contract. */
module EnrichmentLaws {
  import opened Wrappers
  import opened PyValue
  import opened Enrichment

  // ---- nothing is altered ------------------------------------------------------------

  /** `r` is `v` with some of the added keys, at any depth, and nothing else changed. */
  predicate Extends(v: Value, r: Value)
    decreases v
  {
    match v
    case PyDict(m) =>
      && r.PyDict?
      && (forall k :: k in m ==> k in r.members && Extends(m[k], r.members[k]))
      && (forall k :: k in r.members && k !in m ==> Added(k))
    case PyList(items) =>
      r.PyList? && |r.items| == |items| && forall i :: 0 <= i < |items| ==> Extends(items[i], r.items[i])
    case _ => r == v
  }

  lemma {:induction false} ExtendsItself(v: Value)
    ensures Extends(v, v)
    decreases v
  {
    match v
    case PyDict(m) =>
      forall k | k in m
        ensures Extends(m[k], m[k])
      {
        ExtendsItself(m[k]);
      }
    case PyList(items) =>
      forall i | 0 <= i < |items|
        ensures Extends(items[i], items[i])
      {
        ExtendsItself(items[i]);
      }
    case _ =>
  }

  lemma {:induction false} EnrichExtends(v: Value, path: seq<string>, slug: string -> string, index: nat -> string)
    ensures Extends(v, Enrich(v, path, slug, index))
    decreases v
  {
    hide Defaulted, Added, Skipped;
    match v
    case PyDict(m) =>
      DefaultedExtends(m, path, slug);
      var r := Enrich(v, path, slug, index).members;
      forall k | k in m
        ensures Extends(m[k], r[k])
      {
        EnrichExtends(m[k], path + [k], slug, index);
        ExtendsItself(m[k]);
      }
    case PyList(items) =>
      forall i | 0 <= i < |items|
        ensures Extends(items[i], Enrich(items[i], path + [index(i)], slug, index))
      {
        EnrichExtends(items[i], path + [index(i)], slug, index);
      }
    case _ =>
  }

  // ---- a second pass changes nothing -------------------------------------------------------

  /** As far as one dictionary's classification can see. */
  predicate LooksLike(v: Value, r: Value) {
    r == v || (v.PyList? && r.PyList?) || (v.PyDict? && r.PyDict?)
  }

  predicate Classifier(key: string) {
    key in {"name", "visibility", "kind", "parameters", "returns", "async", "type"}
  }

  ghost predicate SameClass(m: Members, e: Members) {
    forall k :: Classifier(k) ==> (k in e <==> k in m) && (k in m ==> LooksLike(m[k], e[k]))
  }

  lemma ClassesSurvive(m: Members, e: Members)
    requires SameClass(m, e)
    ensures Documentable(e) <==> Documentable(m)
    ensures CallableValue(e) <==> CallableValue(m)
    ensures FieldValue(e) <==> FieldValue(m)
    ensures KindRaises(e) <==> KindRaises(m)
    ensures HasBool(e, "async") <==> HasBool(m, "async")
    ensures HasBool(m, "async") ==> e["async"] == m["async"]
  {
    assert Classifier("name") && Classifier("visibility") && Classifier("kind") && Classifier("parameters");
    assert Classifier("returns") && Classifier("async") && Classifier("type");
  }

  lemma EnrichLooksLike(v: Value, path: seq<string>, slug: string -> string, index: nat -> string)
    ensures LooksLike(v, Enrich(v, path, slug, index))
  {
  }

  lemma EnrichedClass(v: Value, path: seq<string>, slug: string -> string, index: nat -> string)
    requires v.PyDict?
    ensures SameClass(v.members, Enrich(v, path, slug, index).members)
  {
    hide Defaulted;
    var m, e := v.members, Enrich(v, path, slug, index).members;
    DefaultedExtends(m, path, slug);
    forall k | Classifier(k)
      ensures (k in e <==> k in m) && (k in m ==> LooksLike(m[k], e[k]))
    {
      assert !Added(k);
      if k in m {
        EnrichLooksLike(m[k], path + [k], slug, index);
      }
    }
  }

  /** The keys that a dictionary of this class is given. */
  lemma DefaultsPresent(m: Members, path: seq<string>, slug: string -> string)
    ensures Documentable(m) || CallableValue(m) || FieldValue(m) ==>
              {"documentationId", "stability", "deprecation"} <= Defaulted(m, path, slug).Keys
    ensures CallableValue(m) ==> {"behavior", "auth"} <= Defaulted(m, path, slug).Keys
  {
    hide Documentable, FieldValue, CallableValue, Identifier, Lineage;
  }

  lemma NoMoreDefaults(m: Members, e: Members, path: seq<string>, slug: string -> string)
    requires SameClass(m, e) && e.Keys == Defaulted(m, path, slug).Keys
    ensures Defaulted(e, path, slug) == e
  {
    ClassesSurvive(m, e);
    DefaultsPresent(m, path, slug);
    hide Documentable, FieldValue, CallableValue, Identifier, Lineage;
    assert Documentable(m) || CallableValue(m) || FieldValue(m) ==>
             "documentationId" in e && "stability" in e && "deprecation" in e;
    assert CallableValue(m) ==> "behavior" in e && "auth" in e;
  }

  /** A default that is not skipped is text, which a further pass leaves alone. */
  lemma DefaultsAreSettled(m: Members, path: seq<string>, slug: string -> string, k: string, below: seq<string>,
                           index: nat -> string)
    requires k in Defaulted(m, path, slug) && k !in m && !Skipped(k)
    ensures Enrich(Defaulted(m, path, slug)[k], below, slug, index) == Defaulted(m, path, slug)[k]
  {
    hide Documentable, FieldValue, CallableValue, Identifier, Lineage, Enrich;
    assert Defaulted(m, path, slug)[k].PyStr?;
    StringsStay(Defaulted(m, path, slug)[k], below, slug, index);
  }

  lemma StringsStay(v: Value, path: seq<string>, slug: string -> string, index: nat -> string)
    requires v.PyStr?
    ensures Enrich(v, path, slug, index) == v
  {
  }

  lemma {:induction false} EnrichIsIdempotent(v: Value, path: seq<string>, slug: string -> string, index: nat -> string)
    ensures Enrich(Enrich(v, path, slug, index), path, slug, index) == Enrich(v, path, slug, index)
    decreases v
  {
    match v
    case PyDict(m) =>
      DictIsSettled(v, path, slug, index);
    case PyList(items) =>
      var r := Enrich(v, path, slug, index);
      forall i | 0 <= i < |items|
        ensures Enrich(r.items[i], path + [index(i)], slug, index) == r.items[i]
      {
        EnrichIsIdempotent(items[i], path + [index(i)], slug, index);
      }
      assert Enrich(r, path, slug, index).items == r.items;
    case _ =>
  }

  lemma {:induction false} DictIsSettled(v: Value, path: seq<string>, slug: string -> string, index: nat -> string)
    requires v.PyDict?
    ensures Enrich(Enrich(v, path, slug, index), path, slug, index) == Enrich(v, path, slug, index)
    decreases v, 0
  {
    hide Defaulted, Skipped, Added;
    var m, d, e := v.members, Defaulted(v.members, path, slug), Enrich(v, path, slug, index).members;
    EnrichedClass(v, path, slug, index);
    NoMoreDefaults(m, e, path, slug);
    forall k | k in e && !Skipped(k)
      ensures Enrich(e[k], path + [k], slug, index) == e[k]
    {
      if k in m {
        EnrichIsIdempotent(m[k], path + [k], slug, index);
      } else {
        DefaultsAreSettled(m, path, slug, k, path + [k], index);
      }
    }
    EnrichIs(PyDict(e), path, slug, index, e);
  }

  /** Whether the walk raises does not change either, so the second call reports no change. */
  lemma {:induction false} WalkableStays(v: Value, path: seq<string>, slug: string -> string, index: nat -> string)
    ensures Walkable(Enrich(v, path, slug, index)) <==> Walkable(v)
    decreases v
  {
    match v
    case PyDict(m) =>
      hide Defaulted, Skipped, KindRaises;
      var e := Enrich(v, path, slug, index).members;
      EnrichedClass(v, path, slug, index);
      ClassesSurvive(m, e);
      DefaultedExtends(m, path, slug);
      forall k | k in e && !Skipped(k)
        ensures Walkable(e[k]) <==> (k in m ==> Walkable(m[k]))
      {
        if k in m {
          WalkableStays(m[k], path + [k], slug, index);
        } else {
          DefaultIsWalkable(m, path, slug, k);
        }
      }
    case PyList(items) =>
      var r := Enrich(v, path, slug, index);
      forall i | 0 <= i < |items|
        ensures Walkable(r.items[i]) <==> Walkable(items[i])
      {
        WalkableStays(items[i], path + [index(i)], slug, index);
      }
    case _ =>
  }

  lemma DefaultIsWalkable(m: Members, path: seq<string>, slug: string -> string, k: string)
    requires k in Defaulted(m, path, slug) && k !in m && !Skipped(k)
    ensures Walkable(Defaulted(m, path, slug)[k])
  {
    hide Documentable, FieldValue, CallableValue, Identifier, Lineage;
    assert Defaulted(m, path, slug)[k].PyStr?;
  }

  // ---- the check of behaviour and deprecation ---------------------------------------------

  datatype Finding = SyncMarkedAsync | NotMarkedAsync | LacksDeprecation

  /** A callable, named or not. */
  predicate CallableShape(m: Members) {
    "parameters" in m && "returns" in m && HasBool(m, "async")
  }

  predicate SyncConflict(m: Members) {
    CallableShape(m) && Get(PyDict(m), "behavior") == Some(PyStr("sync")) && m["async"].b
  }

  predicate AsyncConflict(m: Members) {
    && CallableShape(m) && !m["async"].b
    && (Get(PyDict(m), "behavior") == Some(PyStr("async")) || Get(PyDict(m), "behavior") == Some(PyStr("streaming")))
  }

  predicate DeprecationMissing(m: Members) {
    && Get(PyDict(m), "stability") == Some(PyStr("deprecated"))
    && (Get(PyDict(m), "deprecation").None? || Get(PyDict(m), "deprecation") == Some(PyNone))
  }

  /** Testing the behaviour against a set of texts raises when it cannot be hashed. */
  predicate BehaviorRaises(m: Members) {
    CallableShape(m) && "behavior" in m && (m["behavior"].PyList? || m["behavior"].PyDict?)
  }

  predicate Inspectable(v: Value)
    decreases v
  {
    match v
    case PyDict(m) => !BehaviorRaises(m) && forall k :: k in m ==> Inspectable(m[k])
    case PyList(items) => forall i :: 0 <= i < |items| ==> Inspectable(items[i])
    case _ => true
  }

  predicate NodeConsistent(m: Members) {
    !SyncConflict(m) && !AsyncConflict(m) && !DeprecationMissing(m)
  }

  /** No dictionary anywhere in the tree contradicts itself. */
  predicate Consistent(v: Value)
    decreases v
  {
    match v
    case PyDict(m) => NodeConsistent(m) && forall k :: k in m ==> Consistent(m[k])
    case PyList(items) => forall i :: 0 <= i < |items| ==> Consistent(items[i])
    case _ => true
  }

  method Inspect(v: Value) returns (r: Result<seq<Finding>>)
    decreases v
    ensures r.Ok? <==> Inspectable(v)
    ensures r.Ok? ==> (r.value == [] <==> Consistent(v))
  {
    match v
    case PyDict(m) =>
      if BehaviorRaises(m) {
        return Raised;
      }
      var found: seq<Finding> := InspectNode(m);
      var todo := m.Keys;
      while todo != {}
        invariant todo <= m.Keys
        invariant forall k :: k in m && k !in todo ==> Inspectable(m[k])
        invariant found == [] <==> NodeConsistent(m) && forall k :: k in m && k !in todo ==> Consistent(m[k])
      {
        var key :| key in todo;
        var child := Inspect(m[key]);
        if child.Raised? {
          return Raised;
        }
        found, todo := found + child.value, todo - {key};
      }
      r := Ok(found);
    case PyList(items) =>
      var found: seq<Finding>, i := [], 0;
      while i < |items|
        invariant 0 <= i <= |items|
        invariant forall k :: 0 <= k < i ==> Inspectable(items[k])
        invariant found == [] <==> forall k :: 0 <= k < i ==> Consistent(items[k])
      {
        var child := Inspect(items[i]);
        if child.Raised? {
          return Raised;
        }
        found, i := found + child.value, i + 1;
      }
      r := Ok(found);
    case _ =>
      r := Ok([]);
  }

  method InspectNode(m: Members) returns (found: seq<Finding>)
    ensures found == [] <==> NodeConsistent(m)
    ensures SyncMarkedAsync in found <==> SyncConflict(m)
    ensures NotMarkedAsync in found <==> AsyncConflict(m)
    ensures LacksDeprecation in found <==> DeprecationMissing(m)
  {
    found := [];
    if SyncConflict(m) {
      found := found + [SyncMarkedAsync];
    }
    if AsyncConflict(m) {
      found := found + [NotMarkedAsync];
    }
    if DeprecationMissing(m) {
      found := found + [LacksDeprecation];
    }
  }

  /** Where a verdict looks, an old value looks the same and a new one is the default. */
  ghost predicate DefaultsOnly(m: Members, e: Members) {
    && SameClass(m, e)
    && ("behavior" in m ==> "behavior" in e && LooksLike(m["behavior"], e["behavior"]))
    && ("stability" in m ==> "stability" in e && LooksLike(m["stability"], e["stability"]))
    && ("deprecation" in m ==> "deprecation" in e && e["deprecation"] == m["deprecation"])
    && ("behavior" in e && "behavior" !in m ==>
          HasBool(m, "async") && e["behavior"] == PyStr(if m["async"].b then "async" else "sync"))
    && ("stability" in e && "stability" !in m ==> e["stability"] == PyStr("stable"))
    && ("deprecation" in e && "deprecation" !in m ==> e["deprecation"] == PyNone)
  }

  lemma EnrichedDefaultsOnly(v: Value, path: seq<string>, slug: string -> string, index: nat -> string)
    requires v.PyDict?
    ensures DefaultsOnly(v.members, Enrich(v, path, slug, index).members)
  {
    var m, e := v.members, Enrich(v, path, slug, index).members;
    EnrichedClass(v, path, slug, index);
    DefaultedExtends(m, path, slug);
    hide Defaulted, SameClass, Enrich, Skipped;
    NewKeys(v, path, slug, index);
    DefaultValues(m, path, slug);
    assert Skipped("deprecation") by {
      DeprecationIsSkipped();
    }
    forall k | k in m
      ensures k in e && LooksLike(m[k], e[k]) && (Skipped(k) ==> e[k] == m[k])
    {
      OldKeys(v, path, slug, index, k);
    }
  }

  lemma DeprecationIsSkipped()
    ensures Skipped("deprecation")
  {
  }

  lemma DefaultValues(m: Members, path: seq<string>, slug: string -> string)
    ensures var d := Defaulted(m, path, slug);
            && ("behavior" in d && "behavior" !in m ==>
                  HasBool(m, "async") && d["behavior"] == PyStr(if m["async"].b then "async" else "sync"))
            && ("stability" in d && "stability" !in m ==> d["stability"] == PyStr("stable"))
            && ("deprecation" in d && "deprecation" !in m ==> d["deprecation"] == PyNone)
  {
    hide Documentable, FieldValue, Identifier, Lineage;
  }

  lemma NewKeys(v: Value, path: seq<string>, slug: string -> string, index: nat -> string)
    requires v.PyDict?
    ensures var e, d := Enrich(v, path, slug, index).members, Defaulted(v.members, path, slug);
            e.Keys == d.Keys && forall k :: k in e && k !in v.members ==> e[k] == d[k]
  {
    hide Defaulted;
  }

  lemma OldKeys(v: Value, path: seq<string>, slug: string -> string, index: nat -> string, k: string)
    requires v.PyDict? && k in v.members
    ensures var e := Enrich(v, path, slug, index).members;
            k in e && LooksLike(v.members[k], e[k]) && (Skipped(k) ==> e[k] == v.members[k])
  {
    DefaultedExtends(v.members, path, slug);
    hide Defaulted;
    EnrichLooksLike(v.members[k], path + [k], slug, index);
  }

  lemma NodeVerdictStays(m: Members, e: Members)
    requires DefaultsOnly(m, e)
    ensures NodeConsistent(e) <==> NodeConsistent(m)
    ensures BehaviorRaises(e) <==> BehaviorRaises(m)
  {
    ClassesSurvive(m, e);
    assert CallableShape(e) <==> CallableShape(m) by {
      assert Classifier("parameters") && Classifier("returns");
    }
    hide SameClass;
    hide CallableShape;
  }

  /** Every default passes, and enrichment neither brings in nor hides a finding. */
  lemma {:induction false} VerdictStays(v: Value, path: seq<string>, slug: string -> string, index: nat -> string)
    ensures Inspectable(Enrich(v, path, slug, index)) <==> Inspectable(v)
    ensures Consistent(Enrich(v, path, slug, index)) <==> Consistent(v)
    decreases v
  {
    match v
    case PyDict(m) =>
      hide Defaulted, Skipped, NodeConsistent, BehaviorRaises;
      var e := Enrich(v, path, slug, index).members;
      EnrichedDefaultsOnly(v, path, slug, index);
      NodeVerdictStays(m, e);
      DefaultedExtends(m, path, slug);
      forall k | k in e
        ensures Inspectable(e[k]) <==> (k in m ==> Inspectable(m[k]))
        ensures Consistent(e[k]) <==> (k in m ==> Consistent(m[k]))
      {
        if k in m {
          VerdictStays(m[k], path + [k], slug, index);
        } else {
          DefaultIsConsistent(m, path, slug, k);
        }
      }
    case PyList(items) =>
      var r := Enrich(v, path, slug, index);
      forall i | 0 <= i < |items|
        ensures Inspectable(r.items[i]) <==> Inspectable(items[i])
        ensures Consistent(r.items[i]) <==> Consistent(items[i])
      {
        VerdictStays(items[i], path + [index(i)], slug, index);
      }
    case _ =>
  }

  lemma DefaultIsConsistent(m: Members, path: seq<string>, slug: string -> string, k: string)
    requires k in Defaulted(m, path, slug) && k !in m
    ensures Inspectable(Defaulted(m, path, slug)[k]) && Consistent(Defaulted(m, path, slug)[k])
  {
    hide Documentable, FieldValue, CallableValue, Identifier, Lineage;
    var d := Defaulted(m, path, slug)[k];
    assert d.PyStr? || d.PyNone? || d == NO_AUTH;
    NoAuthIsConsistent();
  }

  lemma NoAuthIsConsistent()
    ensures Inspectable(NO_AUTH) && Consistent(NO_AUTH)
  {
    var m := NO_AUTH.members;
    assert m.Keys == {"mode", "schemes", "scopes"};
  }

  /** No dictionary anywhere has a `behavior` or a `stability` key. */
  predicate Undecided(v: Value)
    decreases v
  {
    match v
    case PyDict(m) => "behavior" !in m && "stability" !in m && forall k :: k in m ==> Undecided(m[k])
    case PyList(items) => forall i :: 0 <= i < |items| ==> Undecided(items[i])
    case _ => true
  }

  lemma {:induction false} UndecidedIsClean(v: Value, path: seq<string>, slug: string -> string, index: nat -> string)
    requires Undecided(v)
    ensures Inspectable(Enrich(v, path, slug, index)) && Consistent(Enrich(v, path, slug, index))
  {
    UndecidedIsConsistent(v);
    VerdictStays(v, path, slug, index);
  }

  lemma {:induction false} UndecidedIsConsistent(v: Value)
    requires Undecided(v)
    ensures Inspectable(v) && Consistent(v)
    decreases v
  {
    match v
    case PyDict(m) =>
      forall k | k in m
        ensures Inspectable(m[k]) && Consistent(m[k])
      {
        UndecidedIsConsistent(m[k]);
      }
    case PyList(items) =>
      forall i | 0 <= i < |items|
        ensures Inspectable(items[i]) && Consistent(items[i])
      {
        UndecidedIsConsistent(items[i]);
      }
    case _ =>
  }

  /** A dictionary's own verdict, key by key. */
  lemma NodeVerdictIs(m: Members)
    ensures NodeConsistent(m) <==>
            && ("parameters" in m && "returns" in m && "async" in m && "behavior" in m ==>
                  && (m["async"] == PyBool(true) ==> m["behavior"] != PyStr("sync"))
                  && (m["async"] == PyBool(false) ==> m["behavior"] != PyStr("async") && m["behavior"] != PyStr("streaming")))
            && ("stability" in m && m["stability"] == PyStr("deprecated") ==>
                  "deprecation" in m && m["deprecation"] != PyNone)
  {
  }

  /** Where the two walks raise: a kind, or a behaviour, that is a list or a dictionary. */
  lemma RaisesExactly(m: Members)
    ensures KindRaises(m) <==>
              TextAt(m, "name") && TextAt(m, "visibility") && "kind" in m && (m["kind"].PyList? || m["kind"].PyDict?)
    ensures BehaviorRaises(m) <==>
              "parameters" in m && "returns" in m && "async" in m && m["async"].PyBool?
              && "behavior" in m && (m["behavior"].PyList? || m["behavior"].PyDict?)
  {
  }

  // ---- which dictionaries are given what ----------------------------------------------------

  predicate TextAt(m: Members, key: string) {
    key in m && m[key].PyStr?
  }

  /** A named callable. */
  predicate Calls(m: Members) {
    TextAt(m, "name") && "parameters" in m && "returns" in m && "async" in m && m["async"].PyBool?
  }

  /** A named callable, a visible declaration of a known kind, or a visible member with a type. */
  predicate Declares(m: Members) {
    || Calls(m)
    || (&& TextAt(m, "name") && TextAt(m, "visibility")
        && ("type" in m
            || ("kind" in m && (m["kind"] == PyStr("class") || m["kind"] == PyStr("interface")
                                || m["kind"] == PyStr("function") || m["kind"] == PyStr("type")))))
  }

  function Dots(parts: seq<string>, slug: string -> string): string {
    if parts == [] then "" else "." + slug(parts[0]) + Dots(parts[1..], slug)
  }

  lemma {:induction false} IdentifierIs(parts: seq<string>, slug: string -> string)
    ensures Identifier(parts, slug) == "api" + Dots(parts, slug)
  {
    if parts != [] {
      var init, last := parts[..|parts| - 1], parts[|parts| - 1];
      IdentifierIs(init, slug);
      DotsLast(init, last, slug);
      assert parts == init + [last];
      assert ("api" + Dots(init, slug)) + "." + slug(last) == "api" + (Dots(init, slug) + "." + slug(last));
    }
  }

  lemma {:induction false} DotsLast(parts: seq<string>, last: string, slug: string -> string)
    ensures Dots(parts + [last], slug) == Dots(parts, slug) + "." + slug(last)
  {
    if parts == [] {
      assert parts + [last] == [last] && [last][1..] == [];
      assert Dots([last], slug) == "." + slug(last) + "";
      assert "" + "." + slug(last) == "." + slug(last);
    } else {
      DotsLast(parts[1..], last, slug);
      assert (parts + [last])[1..] == parts[1..] + [last];
      var head, rest := "." + slug(parts[0]), Dots(parts[1..], slug);
      assert head + (rest + "." + slug(last)) == (head + rest) + "." + slug(last);
    }
  }

  /** The document id of a declaration: its place in the tree, and its name unless that is empty. */
  function IdOf(m: Members, path: seq<string>, slug: string -> string): string
    requires TextAt(m, "name")
  {
    "api" + Dots(if m["name"].s == "" then path else path + [m["name"].s], slug)
  }

  /** Exactly the declarations are documented, exactly the callables get behaviour and auth, and with these values. */
  lemma DefaultsExactly(m: Members, path: seq<string>, slug: string -> string)
    ensures var d := Defaulted(m, path, slug);
            && ("documentationId" in d <==> "documentationId" in m || Declares(m))
            && ("stability" in d <==> "stability" in m || Declares(m))
            && ("deprecation" in d <==> "deprecation" in m || Declares(m))
            && ("behavior" in d <==> "behavior" in m || Calls(m))
            && ("auth" in d <==> "auth" in m || Calls(m))
            && ("documentationId" !in m && Declares(m) ==> d["documentationId"] == PyStr(IdOf(m, path, slug)))
            && ("stability" !in m && Declares(m) ==> d["stability"] == PyStr("stable"))
            && ("deprecation" !in m && Declares(m) ==> d["deprecation"] == PyNone)
            && ("behavior" !in m && Calls(m) ==> d["behavior"] == PyStr(if m["async"].b then "async" else "sync"))
            && ("auth" !in m && Calls(m) ==>
                  d["auth"] == PyDict(map["mode" := PyStr("none"), "schemes" := PyList([]), "scopes" := PyList([])]))
            && (forall k :: k in d && k !in m ==>
                  k == "documentationId" || k == "stability" || k == "deprecation" || k == "behavior" || k == "auth")
  {
    ClassesAre(m);
    IdentifierIs(Lineage(m, path), slug);
    hide Identifier, Dots, Documentable, CallableValue, FieldValue, Declares;
  }

  lemma ClassesAre(m: Members)
    ensures Documentable(m) || CallableValue(m) || FieldValue(m) <==> Declares(m)
    ensures CallableValue(m) <==> Calls(m)
    ensures Declares(m) ==> TextAt(m, "name")
  {
  }

  // ---- at every place ---------------------------------------------------------------------------

  datatype Place = Member(key: string) | Item(index: nat)

  function Into(v: Value, p: Place): Option<Value> {
    match p
    case Member(key) => if v.PyDict? && key in v.members then Some(v.members[key]) else None
    case Item(i) => if v.PyList? && i < |v.items| then Some(v.items[i]) else None
  }

  function At(v: Value, places: seq<Place>): Option<Value> {
    if places == [] then Some(v)
    else
      match Into(v, places[0])
      case None => None
      case Some(next) => At(next, places[1..])
  }

  function Labels(places: seq<Place>, index: nat -> string): seq<string> {
    if places == [] then []
    else [match places[0] case Member(key) => key case Item(i) => index(i)] + Labels(places[1..], index)
  }

  predicate LeftAlone(key: string) {
    key == "documentationId" || key == "deprecation" || key == "auth"
  }

  predicate Walked(places: seq<Place>) {
    forall i :: 0 <= i < |places| && places[i].Member? ==> !LeftAlone(places[i].key)
  }

  /** Under three keys what stands is never touched. */
  lemma LeftAloneStays(v: Value, key: string, path: seq<string>, slug: string -> string, index: nat -> string)
    requires v.PyDict? && key in v.members && LeftAlone(key)
    ensures Into(Enrich(v, path, slug, index), Member(key)) == Some(v.members[key])
  {
    DefaultedExtends(v.members, path, slug);
    hide Defaulted;
  }

  /** Whatever stands anywhere in the tree is enriched for its own place. */
  lemma {:induction false} EnrichedInPlace(v: Value, places: seq<Place>, path: seq<string>, slug: string -> string,
                                           index: nat -> string)
    requires Walked(places) && At(v, places).Some?
    ensures At(Enrich(v, path, slug, index), places)
         == Some(Enrich(At(v, places).value, path + Labels(places, index), slug, index))
    decreases |places|
  {
    hide Defaulted, LeftAlone;
    if places == [] {
      assert path + [] == path;
    } else {
      var next := Into(v, places[0]).value;
      var own := Labels(places, index)[0];
      assert places[0].Member? ==> !LeftAlone(places[0].key);
      IntoEnriched(v, places[0], path, slug, index);
      EnrichedInPlace(next, places[1..], path + [own], slug, index);
      assert path + [own] + Labels(places[1..], index) == path + Labels(places, index);
    }
  }

  lemma IntoEnriched(v: Value, p: Place, path: seq<string>, slug: string -> string, index: nat -> string)
    requires Into(v, p).Some? && (p.Member? ==> !LeftAlone(p.key))
    ensures Into(Enrich(v, path, slug, index), p)
         == Some(Enrich(Into(v, p).value, path + [match p case Member(key) => key case Item(i) => index(i)], slug, index))
  {
    if p.Member? {
      DefaultedExtends(v.members, path, slug);
    }
    hide Defaulted;
  }
}
