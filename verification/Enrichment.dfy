/** Metadata that the repository's contracts are given, and the check they then pass. */
module Enrichment {
  import opened Wrappers
  import opened PyValue

  type Members = map<string, Value>

  /** The keys whose values are not walked. */
  predicate Skipped(key: string) {
    key == "documentationId" || key == "deprecation" || key == "auth"
  }

  predicate Added(key: string) {
    Skipped(key) || key == "stability" || key == "behavior"
  }

  predicate HasString(m: Members, key: string) {
    key in m && m[key].PyStr?
  }

  predicate HasBool(m: Members, key: string) {
    key in m && m[key].PyBool?
  }

  predicate IsDeclarationKind(v: Value) {
    v == PyStr("class") || v == PyStr("interface") || v == PyStr("function") || v == PyStr("type")
  }

  predicate Documentable(m: Members) {
    HasString(m, "name") && HasString(m, "visibility") && "kind" in m && IsDeclarationKind(m["kind"])
  }

  predicate CallableValue(m: Members) {
    HasString(m, "name") && "parameters" in m && "returns" in m && HasBool(m, "async")
  }

  predicate FieldValue(m: Members) {
    && HasString(m, "name") && HasString(m, "visibility") && "type" in m
    && !CallableValue(m) && !Documentable(m)
  }

  /** Membership in a set of kinds raises for a value that cannot be hashed. */
  predicate KindRaises(m: Members) {
    HasString(m, "name") && HasString(m, "visibility") && "kind" in m && (m["kind"].PyList? || m["kind"].PyDict?)
  }

  function Default(m: Members, key: string, value: Value): Members {
    if key in m then m else m[key := value]
  }

  const NO_AUTH: Value := PyDict(map["mode" := PyStr("none"), "schemes" := PyList([]), "scopes" := PyList([])])

  /** The dotted identifier of a place in the tree; `slug` cleans each part. */
  function Identifier(parts: seq<string>, slug: string -> string): string {
    if parts == [] then "api" else Identifier(parts[..|parts| - 1], slug) + "." + slug(parts[|parts| - 1])
  }

  function Lineage(m: Members, path: seq<string>): seq<string> {
    if HasString(m, "name") && m["name"].s != "" then path + [m["name"].s] else path
  }

  /** One dictionary with its defaults, its children untouched. */
  function Defaulted(m: Members, path: seq<string>, slug: string -> string): Members {
    var d :=
      if Documentable(m) || CallableValue(m) || FieldValue(m) then
        Default(Default(Default(m, "documentationId", PyStr(Identifier(Lineage(m, path), slug))),
                        "stability", PyStr("stable")),
                "deprecation", PyNone)
      else m;
    if CallableValue(m) then
      Default(Default(d, "behavior", PyStr(if m["async"].b then "async" else "sync")), "auth", NO_AUTH)
    else d
  }

  /** What a whole tree becomes. */
  function Enrich(v: Value, path: seq<string>, slug: string -> string, index: nat -> string): Value
    decreases v
  {
    match v
    case PyDict(m) =>
      var d := Defaulted(m, path, slug);
      PyDict(map k | k in d :: if k in m && !Skipped(k) then Enrich(m[k], path + [k], slug, index) else d[k])
    case PyList(items) =>
      PyList(seq(|items|, i requires 0 <= i < |items| => Enrich(items[i], path + [index(i)], slug, index)))
    case _ => v
  }

  /** Nowhere in the walked part of the tree is a kind tested that cannot be hashed. */
  predicate Walkable(v: Value)
    decreases v
  {
    match v
    case PyDict(m) => !KindRaises(m) && forall k :: k in m && !Skipped(k) ==> Walkable(m[k])
    case PyList(items) => forall i :: 0 <= i < |items| ==> Walkable(items[i])
    case _ => true
  }

  // ---- the walk ----------------------------------------------------------------------

  /** Sets a default on one dictionary and notes whether that changed it. */
  method SetDefault(m: Members, key: string, value: Value, changed: bool) returns (d: Members, c: bool)
    ensures d == Default(m, key, value)
    ensures c <==> changed || d != m
  {
    if key !in m {
      d, c := m[key := value], true;
    } else {
      d, c := m, changed;
    }
  }

  method SetDefaults(m: Members, path: seq<string>, slug: string -> string) returns (d: Members, changed: bool)
    ensures d == Defaulted(m, path, slug)
    ensures changed <==> d != m
  {
    hide Identifier, Lineage;
    d, changed := m, false;
    if Documentable(m) || CallableValue(m) || FieldValue(m) {
      d, changed := SetDefault(d, "documentationId", PyStr(Identifier(Lineage(m, path), slug)), changed);
      d, changed := SetDefault(d, "stability", PyStr("stable"), changed);
      d, changed := SetDefault(d, "deprecation", PyNone, changed);
    }
    if CallableValue(m) {
      d, changed := SetDefault(d, "behavior", PyStr(if m["async"].b then "async" else "sync"), changed);
      d, changed := SetDefault(d, "auth", NO_AUTH, changed);
    }
  }

  method Visit(v: Value, path: seq<string>, slug: string -> string, index: nat -> string)
    returns (r: Result<Value>, changed: bool)
    decreases v
    ensures r.Ok? <==> Walkable(v)
    ensures r.Ok? ==> r.value == Enrich(v, path, slug, index) && (changed <==> r.value != v)
  {
    match v
    case PyDict(m) =>
      if KindRaises(m) {
        return Raised, false;
      }
      var d, defaulted := SetDefaults(m, path, slug);
      r, changed := VisitMembers(v, d, path, defaulted, slug, index);
    case PyList(items) =>
      r, changed := VisitItems(v, path, slug, index);
    case _ =>
      r, changed := Ok(v), false;
  }

  /** The children; a default that was just added is text, or skipped, and stays as it is. */
  method VisitMembers(v: Value, d: Members, path: seq<string>, defaulted: bool, slug: string -> string, index: nat -> string)
    returns (r: Result<Value>, changed: bool)
    requires v.PyDict? && !KindRaises(v.members)
    requires d == Defaulted(v.members, path, slug) && (defaulted <==> d != v.members)
    decreases v, 0
    ensures r.Ok? <==> Walkable(v)
    ensures r.Ok? ==> r.value == Enrich(v, path, slug, index) && (changed <==> r.value != v)
  {
    hide Skipped, KindRaises, Defaulted, Enrich, Walkable;
    DefaultedExtends(v.members, path, slug);
    WalkableIs(v);
    var m := v.members;
    var walked := set k | k in m && !Skipped(k);
    var out, todo := d, walked;
    changed := defaulted;
    while todo != {}
      invariant todo <= walked
      invariant forall k :: k in walked - todo ==> Walkable(m[k])
      invariant out.Keys == d.Keys
      invariant forall k :: k in d ==>
                  out[k] == if k in walked - todo then Enrich(m[k], path + [k], slug, index) else d[k]
      invariant changed <==> out != m
    {
      var key :| key in todo;
      var child, childChanged := Visit(m[key], path + [key], slug, index);
      if child.Raised? {
        return Raised, false;
      }
      PutDiffers(m, out, key, child.value);
      out, changed, todo := out[key := child.value], changed || childChanged, todo - {key};
    }
    EnrichIs(v, path, slug, index, out);
    r := Ok(PyDict(out));
  }

  lemma WalkableListIs(v: Value)
    requires v.PyList?
    ensures Walkable(v) <==> forall i :: 0 <= i < |v.items| ==> Walkable(v.items[i])
  {
  }

  lemma EnrichListIs(v: Value, path: seq<string>, slug: string -> string, index: nat -> string, out: seq<Value>)
    requires v.PyList? && |out| == |v.items|
    requires forall i :: 0 <= i < |out| ==> out[i] == Enrich(v.items[i], path + [index(i)], slug, index)
    ensures Enrich(v, path, slug, index) == PyList(out)
  {
  }

  lemma WalkableIs(v: Value)
    requires v.PyDict? && !KindRaises(v.members)
    ensures Walkable(v) <==> forall k :: k in (set k | k in v.members && !Skipped(k)) ==> Walkable(v.members[k])
  {
  }

  lemma EnrichIs(v: Value, path: seq<string>, slug: string -> string, index: nat -> string, out: Members)
    requires v.PyDict? && out.Keys == Defaulted(v.members, path, slug).Keys
    requires forall k :: k in out ==>
               out[k] == if k in v.members && !Skipped(k) then Enrich(v.members[k], path + [k], slug, index)
                         else Defaulted(v.members, path, slug)[k]
    ensures Enrich(v, path, slug, index) == PyDict(out)
  {
    hide Defaulted, Skipped;
  }

  lemma DefaultAdds(d: Members, key: string, value: Value)
    ensures d.Keys <= Default(d, key, value).Keys && Default(d, key, value).Keys <= d.Keys + {key}
    ensures forall k :: k in d ==> Default(d, key, value)[k] == d[k]
  {
  }

  lemma CallableIsAsync(m: Members)
    requires CallableValue(m)
    ensures HasBool(m, "async")
  {
  }

  lemma FiveAdded()
    ensures Added("documentationId") && Added("stability") && Added("deprecation") && Added("behavior") && Added("auth")
  {
  }

  lemma DefaultedExtends(m: Members, path: seq<string>, slug: string -> string)
    ensures m.Keys <= Defaulted(m, path, slug).Keys
    ensures forall k :: k in m ==> Defaulted(m, path, slug)[k] == m[k]
    ensures forall k :: k in Defaulted(m, path, slug) && k !in m ==> Added(k)
  {
    hide Documentable, CallableValue, FieldValue, Identifier, Lineage, Default, Added;
    FiveAdded();
    var id := PyStr(Identifier(Lineage(m, path), slug));
    var d1 := Default(m, "documentationId", id);
    var d2 := Default(d1, "stability", PyStr("stable"));
    var d3 := Default(d2, "deprecation", PyNone);
    DefaultAdds(m, "documentationId", id);
    DefaultAdds(d1, "stability", PyStr("stable"));
    DefaultAdds(d2, "deprecation", PyNone);
    if CallableValue(m) {
      CallableIsAsync(m);
      var behavior := PyStr(if m["async"].b then "async" else "sync");
      DefaultAdds(d3, "behavior", behavior);
      DefaultAdds(Default(d3, "behavior", behavior), "auth", NO_AUTH);
    }
  }

  lemma PutDiffers(m: Members, out: Members, key: string, value: Value)
    requires key in m && key in out && out[key] == m[key]
    ensures out[key := value] != m <==> out != m || value != m[key]
  {
    if out[key := value] == m {
      assert forall k :: k in out <==> k in out[key := value];
      assert forall k :: k in m && k != key ==> out[k] == out[key := value][k];
      assert out[key := value][key] == value;
      assert out == m;
    }
  }

  method VisitItems(v: Value, path: seq<string>, slug: string -> string, index: nat -> string)
    returns (r: Result<Value>, changed: bool)
    requires v.PyList?
    decreases v, 0
    ensures r.Ok? <==> Walkable(v)
    ensures r.Ok? ==> r.value == Enrich(v, path, slug, index) && (changed <==> r.value != v)
  {
    hide Enrich, Walkable;
    WalkableListIs(v);
    var items, out, i := v.items, [], 0;
    changed := false;
    while i < |items|
      invariant 0 <= i == |out| <= |items|
      invariant forall k :: 0 <= k < i ==> Walkable(items[k])
      invariant forall k :: 0 <= k < i ==> out[k] == Enrich(items[k], path + [index(k)], slug, index)
      invariant changed <==> out != items[..i]
    {
      var child, childChanged := Visit(items[i], path + [index(i)], slug, index);
      if child.Raised? {
        return Raised, false;
      }
      assert items[..i + 1] == items[..i] + [items[i]];
      assert (out + [child.value])[..i] == out && (out + [child.value])[i] == child.value;
      out, changed, i := out + [child.value], changed || childChanged, i + 1;
    }
    assert items[..i] == items;
    EnrichListIs(v, path, slug, index, out);
    r := Ok(PyList(out));
  }
}
