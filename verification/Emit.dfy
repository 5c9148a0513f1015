/** From an operation of the manifest to the path that a generated client requests. */
module Emit {
  import opened Wrappers
  import opened Sequences
  import opened PathTemplate

  datatype Param = Param(name: string, location: string, optional: bool)

  datatype Operation = Operation(path: string, params: seq<Param>)

  /** Parameters `in: path`, in manifest order. */
  function PathNames(params: seq<Param>): seq<string> {
    if params == [] then []
    else (if params[0].location == "path" then [params[0].name] else []) + PathNames(params[1..])
  }

  // ---- what the projection accepts ---------------------------------------------------

  predicate Located(p: Param) {
    p.location == "path" || p.location == "query" || p.location == "body"
  }

  ghost predicate ParamsOk(params: seq<Param>) {
    && (forall i :: 0 <= i < |params| ==> Located(params[i]))
    && (forall i, j :: 0 <= i < j < |params| ==> params[i].name != params[j].name)
  }

  /** Each name has one place, and the path names exactly the parameters that go there. */
  ghost predicate Accepted(op: Operation) {
    && Parse(op.path).Template?
    && ParamsOk(op.params)
    && (forall n :: n in PathNames(op.params) <==> n in Parse(op.path).names)
    && (forall p :: p in op.params && p.location == "path" ==> !p.optional)
  }

  method Derive(op: Operation) returns (path: Result<seq<string>>)
    ensures path.Ok? <==> Accepted(op)
    ensures path.Ok? ==> path.value == PathNames(op.params)
  {
    var placeholders := PathPlaceholders(op.path);
    if placeholders.Error? {
      return Raised;
    }
    var ok, section, someOptional := Sections(op.params);
    if !ok {
      return Raised;
    }
    SameElements(section, placeholders.names);
    if (set n | n in section) != (set n | n in placeholders.names) || someOptional {
      return Raised;
    }
    return Ok(section);
  }

  method Sections(params: seq<Param>) returns (ok: bool, section: seq<string>, someOptional: bool)
    ensures ok <==> ParamsOk(params)
    ensures ok ==> section == PathNames(params)
    ensures ok ==> (someOptional <==> exists p :: p in params && p.location == "path" && p.optional)
  {
    hide PathNames, Located;
    ok, section, someOptional := true, [], false;
    var names: set<string>, i := {}, 0;
    assert PathNames(params) == PathNames(params[0..]) by {
      assert params == params[0..];
    }
    while i < |params|
      invariant 0 <= i <= |params|
      invariant forall k :: 0 <= k < i ==> Located(params[k])
      invariant forall j, k :: 0 <= j < k < i ==> params[j].name != params[k].name
      invariant names == set k | 0 <= k < i :: params[k].name
      invariant section + PathNames(params[i..]) == PathNames(params)
      invariant someOptional <==> exists k :: 0 <= k < i && params[k].location == "path" && params[k].optional
    {
      var param := params[i];
      PathNamesStep(params, i);
      if param.name in names {
        return false, [], false;
      }
      names := names + {param.name};
      if param.location == "path" {
        section := section + [param.name];
        someOptional := someOptional || param.optional;
      } else if param.location != "query" && param.location != "body" {
        assert !Located(param) by {
          NotLocated(param);
        }
        return false, [], false;
      }
      assert Located(param) by {
        IsLocated(param);
      }
      i := i + 1;
    }
    NoPathNames(params);
  }

  lemma NotLocated(p: Param)
    requires p.location != "path" && p.location != "query" && p.location != "body"
    ensures !Located(p)
  {
  }

  lemma IsLocated(p: Param)
    requires p.location == "path" || p.location == "query" || p.location == "body"
    ensures Located(p)
  {
  }

  lemma PathNamesStep(params: seq<Param>, i: nat)
    requires i < |params|
    ensures var rest := PathNames(params[i + 1..]);
            PathNames(params[i..]) == if params[i].location == "path" then [params[i].name] + rest else rest
  {
    assert [] + PathNames(params[i + 1..]) == PathNames(params[i + 1..]);
    assert params[i..][0] == params[i] && params[i..][1..] == params[i + 1..];
  }

  lemma NoPathNames(params: seq<Param>)
    ensures PathNames(params[|params|..]) == []
  {
  }

  lemma SameElements(a: seq<string>, b: seq<string>)
    ensures (set n | n in a) == (set n | n in b) <==> forall n :: n in a <==> n in b
  {
    var s, t := set n | n in a, set n | n in b;
    if s == t {
      assert forall n :: n in a <==> n in s;
      assert forall n :: n in b <==> n in t;
    }
  }

  lemma {:induction false} PathNamesAre(params: seq<Param>)
    ensures forall n :: n in PathNames(params) <==> exists k :: 0 <= k < |params| && params[k].location == "path" && params[k].name == n
    ensures ParamsOk(params) ==> Distinct(PathNames(params))
  {
    if params != [] {
      var rest := params[1..];
      PathNamesAre(rest);
      assert forall k :: 0 <= k < |rest| ==> rest[k] == params[k + 1];
      assert params[0].location == "path" ==> PathNames(params)[0] == params[0].name && PathNames(params)[1..] == PathNames(rest);
      if ParamsOk(params) {
        assert ParamsOk(rest);
        assert params[0].name !in PathNames(rest);
      }
    }
  }

  lemma {:induction false} SameLength(a: seq<string>, b: seq<string>)
    requires Distinct(a) && Distinct(b)
    requires forall n :: n in a <==> n in b
    ensures |a| == |b|
  {
    SetSize(a);
    SetSize(b);
    assert (set n | n in a) == (set n | n in b);
  }

  // ---- textual replacement ----------------------------------------------------------

  /** Every occurrence, from the left, without rescanning what was put in. */
  function Replace(s: string, what: string, put: string): string
    requires what != ""
    decreases |s|
  {
    if s == "" then ""
    else if what <= s then put + Replace(s[|what|..], what, put)
    else [s[0]] + Replace(s[1..], what, put)
  }

  /** `what` cannot start anywhere in `t`, whatever follows. */
  ghost predicate Blocks(t: string, what: string) {
    forall i :: 0 <= i < |t| ==> Mismatch(t, i, what)
  }

  ghost predicate Mismatch(t: string, i: nat, what: string) {
    exists j :: i <= j < |t| && j - i < |what| && t[j] != what[j - i]
  }

  lemma {:induction false} ReplacePast(t: string, rest: string, what: string, put: string)
    requires what != "" && Blocks(t, what)
    ensures Replace(t + rest, what, put) == t + Replace(rest, what, put)
    decreases |t|
  {
    if t == "" {
      assert t + rest == rest;
      assert t + Replace(rest, what, put) == Replace(rest, what, put);
    } else {
      NotHere(t, rest, what);
      BlocksTail(t, what);
      ReplacePast(t[1..], rest, what, put);
      assert (t + rest)[1..] == t[1..] + rest;
      assert t == [t[0]] + t[1..];
      assert [t[0]] + (t[1..] + Replace(rest, what, put)) == t + Replace(rest, what, put);
    }
  }

  lemma NotHere(t: string, rest: string, what: string)
    requires t != "" && Blocks(t, what)
    ensures !(what <= t + rest)
  {
    assert Mismatch(t, 0, what);
    var j :| 0 <= j < |t| && j < |what| && t[j] != what[j];
    assert (t + rest)[j] == t[j];
  }

  lemma BlocksTail(t: string, what: string)
    requires t != "" && Blocks(t, what)
    ensures Blocks(t[1..], what)
  {
    forall i | 0 <= i < |t[1..]|
      ensures Mismatch(t[1..], i, what)
    {
      assert Mismatch(t, i + 1, what);
      var j :| i + 1 <= j < |t| && j - (i + 1) < |what| && t[j] != what[j - (i + 1)];
      assert t[1..][j - 1] == t[j];
    }
  }

  lemma ReplaceHere(rest: string, what: string, put: string)
    requires what != ""
    ensures Replace(what + rest, what, put) == put + Replace(rest, what, put)
  {
    assert what <= what + rest && (what + rest)[|what|..] == rest;
  }

  lemma LiteralBlocks(t: string, x: string)
    requires '{' !in t
    ensures Blocks(t, Braced(x))
  {
    forall i | 0 <= i < |t|
      ensures Mismatch(t, i, Braced(x))
    {
      assert t[i] != Braced(x)[i - i];
    }
  }

  lemma OtherNameBlocks(m: string, x: string)
    requires IsName(m) && IsName(x) && m != x
    ensures Blocks(Braced(m), Braced(x))
  {
    var t, what := Braced(m), Braced(x);
    var j := FirstDifference(m, x);
    assert t[j + 1] != what[j + 1 - 0];
    assert Mismatch(t, 0, what);
    forall i | 1 <= i < |t|
      ensures Mismatch(t, i, what)
    {
      assert t[i] != what[i - i];
    }
  }

  /** Where the names, or one name and the other's closing brace, differ. */
  lemma FirstDifference(m: string, x: string) returns (j: nat)
    requires IsName(m) && IsName(x) && m != x
    ensures j <= |m| && j <= |x| && Braced(m)[j + 1] != Braced(x)[j + 1]
  {
    j := 0;
    while j < |m| && j < |x| && m[j] == x[j]
      invariant j <= |m| && j <= |x|
      invariant m[..j] == x[..j]
    {
      j := j + 1;
    }
    assert m[..|m|] == m && x[..|x|] == x;
  }

  lemma {:induction false} ReplaceHoles(literals: seq<string>, holes: seq<string>, x: string, put: string, out: seq<string>)
    requires |literals| == |holes| + 1 == |out| + 1
    requires forall k :: 0 <= k < |literals| ==> '{' !in literals[k]
    requires forall k :: 0 <= k < |holes| ==>
               if holes[k] == Braced(x) then out[k] == put else out[k] == holes[k] && Blocks(holes[k], Braced(x))
    ensures Replace(Compose(literals, holes), Braced(x), put) == Compose(literals, out)
    decreases |holes|
  {
    hide Replace, Blocks, Braced;
    LiteralBlocks(literals[0], x);
    if holes == [] {
      ReplacePast(literals[0], "", Braced(x), put);
      ReplaceNothing(Braced(x), put);
      assert literals[0] + "" == literals[0];
    } else {
      var rest := Compose(literals[1..], holes[1..]);
      ReplaceHoles(literals[1..], holes[1..], x, put, out[1..]);
      ReplacePast(literals[0], holes[0] + rest, Braced(x), put);
      if holes[0] == Braced(x) {
        ReplaceHere(rest, Braced(x), put);
      } else {
        ReplacePast(holes[0], rest, Braced(x), put);
      }
    }
  }

  lemma ReplaceNothing(what: string, put: string)
    requires what != ""
    ensures Replace("", what, put) == ""
  {
  }

  // ---- one replacement after another ----------------------------------------------------

  function SubstituteAll(text: string, names: seq<string>, insert: string -> string): string
    decreases |names|
  {
    if names == [] then text
    else SubstituteAll(Replace(text, Braced(names[0]), insert(names[0])), names[1..], insert)
  }

  /** The loop of every emitter. */
  method EmitPath(op: Operation, insert: string -> string) returns (fmt: string)
    ensures fmt == SubstituteAll(op.path, PathNames(op.params), insert)
  {
    hide Replace, PathNames;
    fmt := op.path;
    assert op.params[0..] == op.params;
    var i := 0;
    while i < |op.params|
      invariant 0 <= i <= |op.params|
      invariant SubstituteAll(fmt, PathNames(op.params[i..]), insert) ==
                SubstituteAll(op.path, PathNames(op.params), insert)
    {
      var x := op.params[i];
      PathNamesStep(op.params, i);
      if x.location == "path" {
        assert PathNames(op.params[i..])[0] == x.name;
        assert PathNames(op.params[i..])[1..] == PathNames(op.params[i + 1..]);
        fmt := Replace(fmt, Braced(x.name), insert(x.name));
      }
      i := i + 1;
    }
    NoPathNames(op.params);
  }

  /** Inserted text never looks like a placeholder. */
  ghost predicate Inert(insert: string -> string, names: seq<string>) {
    forall n, x :: n in names && IsName(x) ==> Blocks(insert(n), Braced(x))
  }

  function Filled(names: seq<string>, done: seq<string>, insert: string -> string): (r: seq<string>)
    ensures |r| == |names|
  {
    seq(|names|, k requires 0 <= k < |names| => if names[k] in done then insert(names[k]) else Braced(names[k]))
  }

  lemma BracedIsInjective(m: string, n: string)
    ensures Braced(m) == Braced(n) <==> m == n
  {
    if Braced(m) == Braced(n) {
      assert m == Braced(m)[1..|m| + 1] && n == Braced(n)[1..|n| + 1];
    }
  }

  /** One replacement fills one hole and disturbs nothing that was put in before. */
  lemma ReplaceFills(literals: seq<string>, names: seq<string>, done: seq<string>, x: string, insert: string -> string)
    requires Fits(literals, names) && Inert(insert, names) && x in names
    ensures Replace(Compose(literals, Filled(names, done, insert)), Braced(x), insert(x))
         == Compose(literals, Filled(names, done + [x], insert))
  {
    var holes, out := Filled(names, done, insert), Filled(names, done + [x], insert);
    forall k | 0 <= k < |holes|
      ensures if holes[k] == Braced(x) then out[k] == insert(x) else out[k] == holes[k] && Blocks(holes[k], Braced(x))
    {
      BracedIsInjective(names[k], x);
      if names[k] in done {
        assert Blocks(insert(names[k]), Braced(x));
        NotItself(holes[k], Braced(x));
      } else if names[k] != x {
        OtherNameBlocks(names[k], x);
      }
    }
    ReplaceHoles(literals, holes, x, insert(x), out);
  }

  lemma NotItself(t: string, what: string)
    requires Blocks(t, what) && what != ""
    ensures t != what
  {
    if t != "" {
      assert Mismatch(t, 0, what);
    }
  }

  /** Sequential replacement, in any order, is simultaneous replacement. */
  lemma {:induction false} SequentialIsSimultaneous(literals: seq<string>, names: seq<string>, done: seq<string>,
                                                    todo: seq<string>, insert: string -> string)
    requires Fits(literals, names) && Inert(insert, names)
    requires forall n :: n in todo ==> n in names
    ensures SubstituteAll(Compose(literals, Filled(names, done, insert)), todo, insert)
         == Compose(literals, Filled(names, done + todo, insert))
    decreases |todo|
  {
    hide Compose, Filled, Replace, Fits, Inert;
    if todo == [] {
      assert done + todo == done;
    } else {
      ReplaceFills(literals, names, done, todo[0], insert);
      SequentialIsSimultaneous(literals, names, done + [todo[0]], todo[1..], insert);
      assert done + [todo[0]] + todo[1..] == done + todo;
    }
  }

  // ---- what the generated code evaluates to ------------------------------------------------

  function Values(names: seq<string>, value: string -> string): (r: seq<string>)
    ensures |r| == |names|
  {
    seq(|names|, k requires 0 <= k < |names| => value(names[k]))
  }

  /** Each placeholder stands for the encoded argument of its own name. */
  function Meaning(op: Operation, value: string -> string): string
    requires Parse(op.path).Template?
  {
    var t := Parse(op.path);
    ParseExactly(op.path, t.literals, t.names);
    Compose(t.literals, Values(t.names, value))
  }

  function Prepend(s: string, rest: Option<string>): Option<string> {
    match rest
    case None => None
    case Some(t) => Some(s + t)
  }

  /**
   A format string with positional markers. None stands for a wrong number of
   arguments and for any other use of a marker's characters.
   */
  function Positional(fmt: string, marker: string, special: string, args: seq<string>): Option<string>
    requires marker != ""
    decreases |fmt|
  {
    if fmt == "" then if args == [] then Some("") else None
    else if marker <= fmt then
      if args == [] then None else Prepend(args[0], Positional(fmt[|marker|..], marker, special, args[1..]))
    else if fmt[0] in special then None
    else Prepend([fmt[0]], Positional(fmt[1..], marker, special, args))
  }

  /** Whether a quoted literal, without escapes, denotes its own text. */
  predicate Quotable(text: string, reserved: string) {
    forall i :: 0 <= i < |text| ==> text[i] !in reserved
  }

  /** A language whose emitter formats the encoded arguments in declaration order. */
  datatype Language = Language(marker: string, special: string, reserved: string)

  const PYTHON := Language("%s", "%", "\"\\\n\r")
  const RUST := Language("{}", "{}", "\"\\")

  predicate IsLanguage(l: Language) {
    l == PYTHON || l == RUST
  }

  function FormattedPath(l: Language, op: Operation, value: string -> string): Option<string>
    requires IsLanguage(l)
  {
    var names := PathNames(op.params);
    var fmt := SubstituteAll(op.path, names, (n: string) => l.marker);
    if !Quotable(fmt, l.reserved) then None
    else if names == [] then Some(fmt)
    else Positional(fmt, l.marker, l.special, Values(names, value))
  }

  /** Literal text that a language takes at face value. */
  predicate Plain(literals: seq<string>, reserved: string) {
    forall k :: 0 <= k < |literals| ==> Quotable(literals[k], reserved)
  }

  lemma {:induction false} PositionalPast(s: string, fmt: string, marker: string, special: string, args: seq<string>)
    requires marker != "" && marker[0] in special && Quotable(s, special)
    ensures Positional(s + fmt, marker, special, args) == Prepend(s, Positional(fmt, marker, special, args))
    decreases |s|
  {
    if s == "" {
      assert s + fmt == fmt;
      PrependNothing(Positional(fmt, marker, special, args));
    } else {
      assert (s + fmt)[0] == s[0] && (s + fmt)[1..] == s[1..] + fmt;
      assert s[0] !in special;
      PositionalPast(s[1..], fmt, marker, special, args);
      assert s == [s[0]] + s[1..];
      PrependTwice([s[0]], s[1..], Positional(fmt, marker, special, args));
    }
  }

  lemma PrependNothing(rest: Option<string>)
    ensures Prepend("", rest) == rest
  {
    if rest.Some? {
      assert "" + rest.value == rest.value;
    }
  }

  lemma PrependTwice(a: string, b: string, rest: Option<string>)
    ensures Prepend(a, Prepend(b, rest)) == Prepend(a + b, rest)
  {
    if rest.Some? {
      assert a + (b + rest.value) == a + b + rest.value;
    }
  }

  function Markers(n: nat, marker: string): (r: seq<string>)
    ensures |r| == n
  {
    seq(n, k => marker)
  }

  lemma {:induction false} PositionalFills(literals: seq<string>, marker: string, special: string, args: seq<string>)
    requires |literals| == |args| + 1 && Plain(literals, special)
    requires marker != "" && marker[0] in special
    ensures Positional(Compose(literals, Markers(|args|, marker)), marker, special, args) == Some(Compose(literals, args))
    decreases |args|
  {
    var holes := Markers(|args|, marker);
    if args == [] {
      PositionalPast(literals[0], "", marker, special, []);
      assert literals[0] + "" == literals[0];
    } else {
      var rest := Compose(literals[1..], holes[1..]);
      assert holes[1..] == Markers(|args| - 1, marker);
      PositionalPast(literals[0], marker + rest, marker, special, args);
      assert marker <= marker + rest && (marker + rest)[|marker|..] == rest;
      PositionalFills(literals[1..], marker, special, args[1..]);
    }
  }
}
