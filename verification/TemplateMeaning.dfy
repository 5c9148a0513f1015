/** The generated clients request the path that the template means. */
module TemplateMeaning {
  import opened Wrappers
  import opened Sequences
  import opened PathTemplate
  import opened Emit
  import Names
  import NameLaws

  // ---- positional formats ------------------------------------------------------------

  lemma MarkerBlocks(l: Language, x: string)
    requires IsLanguage(l) && IsName(x)
    ensures Blocks(l.marker, Braced(x))
  {
    if l == PYTHON {
      LiteralBlocks(l.marker, x);
    } else {
      assert l.marker[1] != Braced(x)[1 - 0];
      assert Mismatch(l.marker, 0, Braced(x));
      assert l.marker[1] != Braced(x)[1 - 1];
    }
  }

  lemma NothingFilled(names: seq<string>, insert: string -> string)
    ensures Filled(names, [], insert) == AllBraced(names)
  {
  }

  /** Replacing every placeholder of an accepted operation, in declaration order. */
  lemma AllReplaced(op: Operation, insert: string -> string)
    requires Accepted(op) && Inert(insert, Parse(op.path).names)
    ensures var t := Parse(op.path);
            |t.literals| == |t.names| + 1 &&
            SubstituteAll(op.path, PathNames(op.params), insert) == Compose(t.literals, Values(t.names, insert))
  {
    var t, declared := Parse(op.path), PathNames(op.params);
    ParseExactly(op.path, t.literals, t.names);
    NothingFilled(t.names, insert);
    SequentialIsSimultaneous(t.literals, t.names, [], declared, insert);
    assert [] + declared == declared;
    assert Filled(t.names, declared, insert) == Values(t.names, insert);
  }

  lemma {:induction false} ComposeQuotable(literals: seq<string>, texts: seq<string>, reserved: string)
    requires |literals| == |texts| + 1 && Plain(literals, reserved)
    requires forall k :: 0 <= k < |texts| ==> Quotable(texts[k], reserved)
    ensures Quotable(Compose(literals, texts), reserved)
    decreases |texts|
  {
    if texts != [] {
      ComposeQuotable(literals[1..], texts[1..], reserved);
    }
  }

  lemma DeclaredAreAll(op: Operation)
    requires Accepted(op)
    ensures Distinct(PathNames(op.params)) && |PathNames(op.params)| == |Parse(op.path).names|
  {
    var t := Parse(op.path);
    ParseExactly(op.path, t.literals, t.names);
    PathNamesAre(op.params);
    SameLength(PathNames(op.params), t.names);
  }

  /** The k-th placeholder gets the k-th declared parameter. */
  lemma FormattedMeans(l: Language, op: Operation, value: string -> string)
    requires IsLanguage(l) && Accepted(op)
    requires Plain(Parse(op.path).literals, l.special) && Plain(Parse(op.path).literals, l.reserved)
    ensures var t := Parse(op.path);
            |t.literals| == |PathNames(op.params)| + 1 &&
            FormattedPath(l, op, value) == Some(Compose(t.literals, Values(PathNames(op.params), value)))
  {
    hide Positional, SubstituteAll, PathNames, Compose, Parse, Fits;
    var t, declared := Parse(op.path), PathNames(op.params);
    var insert := (n: string) => l.marker;
    forall n, x | n in t.names && IsName(x)
      ensures Blocks(insert(n), Braced(x))
    {
      MarkerBlocks(l, x);
    }
    DeclaredAreAll(op);
    AllReplaced(op, insert);
    var fmt := SubstituteAll(op.path, declared, insert);
    var args := Values(declared, value);
    assert Values(t.names, insert) == Markers(|args|, l.marker);
    assert Quotable(l.marker, l.reserved);
    ComposeQuotable(t.literals, Markers(|args|, l.marker), l.reserved);
    if declared == [] {
      assert args == Markers(0, l.marker);
    } else {
      PositionalFills(t.literals, l.marker, l.special, args);
    }
  }

  /** Texts of equal widths in the same gaps can be told apart. */
  lemma {:induction false} GapsAreApart(literals: seq<string>, f: seq<string>, g: seq<string>)
    requires |literals| == |f| + 1 == |g| + 1
    requires forall k :: 0 <= k < |f| ==> |f[k]| == |g[k]|
    requires Compose(literals, f) == Compose(literals, g)
    ensures f == g
    decreases |f|
  {
    if f != [] {
      var a, b := f[0] + Compose(literals[1..], f[1..]), g[0] + Compose(literals[1..], g[1..]);
      assert (literals[0] + a)[|literals[0]|..] == a && (literals[0] + b)[|literals[0]|..] == b;
      assert a[..|f[0]|] == f[0] && b[..|g[0]|] == g[0];
      assert a[|f[0]|..] == Compose(literals[1..], f[1..]) && b[|g[0]|..] == Compose(literals[1..], g[1..]);
      GapsAreApart(literals[1..], f[1..], g[1..]);
      assert f == [f[0]] + f[1..] && g == [g[0]] + g[1..];
    }
  }

  /**
   The positional clients request the meant path for all arguments exactly when
   the manifest declares the path parameters in placeholder order.
   */
  lemma ArgumentsInOrder(l: Language, op: Operation)
    requires IsLanguage(l) && Accepted(op)
    requires Plain(Parse(op.path).literals, l.special) && Plain(Parse(op.path).literals, l.reserved)
    ensures (forall value: string -> string :: FormattedPath(l, op, value) == Some(Meaning(op, value))) <==>
            PathNames(op.params) == Parse(op.path).names
  {
    hide FormattedPath, PathNames, Plain, Parse;
    var t, declared := Parse(op.path), PathNames(op.params);
    if declared == t.names {
      forall value: string -> string
        ensures FormattedPath(l, op, value) == Some(Meaning(op, value))
      {
        FormattedMeans(l, op, value);
      }
    } else {
      DeclaredAreAll(op);
      var k := Differ(declared, t.names);
      var value := (n: string) => if n == t.names[k] then "x" else "y";
      FormattedMeans(l, op, value);
      var f, g := Values(declared, value), Values(t.names, value);
      assert f[k] == "y" && g[k] == "x";
      if FormattedPath(l, op, value) == Some(Meaning(op, value)) {
        GapsAreApart(t.literals, f, g);
        assert false;
      }
    }
  }

  lemma Differ(a: seq<string>, b: seq<string>) returns (k: nat)
    requires |a| == |b| && a != b
    ensures k < |a| && a[k] != b[k]
  {
    k :| 0 <= k < |a| && a[k] != b[k];
  }

  /** The projection does not check that order. */
  lemma OrderIsNotChecked()
    ensures exists op :: Accepted(op) && PathNames(op.params) != Parse(op.path).names
  {
    hide Parse, PathNames, Fits, Compose, AllBraced;
    var op := Operation("/{a}/{b}", [Param("b", "path", false), Param("a", "path", false)]);
    TwoHoles();
    TwoHolesFit();
    ParseExactly(op.path, ["/", "/", ""], ["a", "b"]);
    TwoParams(op.params[0], op.params[1]);
    assert PathNames(op.params) == ["b", "a"];
    assert ["a", "b"][0] == "a" && ["b", "a"][0] == "b";
    assert Accepted(op);
  }

  lemma TwoParams(p: Param, q: Param)
    requires p.location == q.location == "path"
    ensures PathNames([p, q]) == [p.name, q.name]
  {
    assert [p, q][1..] == [q] && [q][1..] == [];
    assert PathNames([]) == [];
    assert PathNames([q]) == [q.name] + [];
  }

  lemma TwoHolesFit()
    ensures Fits(["/", "/", ""], ["a", "b"])
  {
    EndIsTemplate("", []);
    hide Fits;
    FitsStep("/", "b", [""], []);
    FitsStep("/", "a", ["/", ""], ["b"]);
    assert ["/"] + [""] == ["/", ""] && ["b"] + [] == ["b"];
    assert ["/"] + ["/", ""] == ["/", "/", ""] && ["a"] + ["b"] == ["a", "b"];
    assert "a" != "b" by {
      assert "a"[0] != "b"[0];
    }
  }

  lemma TwoHoles()
    ensures Compose(["/", "/", ""], AllBraced(["a", "b"])) == "/{a}/{b}"
  {
    ComposeStep("/", "b", [""], []);
    ComposeStep("/", "a", ["/", ""], ["b"]);
    EndIsTemplate("", []);
    assert ["/"] + [""] == ["/", ""] && ["b"] + [] == ["b"];
    assert ["/"] + ["/", ""] == ["/", "/", ""] && ["a"] + ["b"] == ["a", "b"];
    assert Braced("b") + "" == "{b}";
    assert "/" + "{b}" == "/{b}";
    assert Braced("a") + "/{b}" == "{a}/{b}";
  }

  // ---- substitution in place ----------------------------------------------------------

  function TsHole(local: string): string {
    "${enc(String(" + local + "))}"
  }

  /** `enc(String(x))`; the environment holds the encoded variables. */
  function Expression(e: string, env: string -> string): Option<string> {
    if |e| >= 13 && e[..11] == "enc(String(" && e[|e| - 2..] == "))" then Some(env(e[11..|e| - 2])) else None
  }

  /** A template literal without escapes. */
  function TsTemplate(fmt: string, env: string -> string): Option<string>
    decreases |fmt|
  {
    if fmt == "" then Some("")
    else if "${" <= fmt then
      var k := Find(fmt[2..], '}');
      if k == |fmt[2..]| then None
      else
        match Expression(fmt[2..][..k], env)
        case None => None
        case Some(v) => Prepend(v, TsTemplate(fmt[2..][k + 1..], env))
    else if fmt[0] in "`\\\r" then None
    else Prepend([fmt[0]], TsTemplate(fmt[1..], env))
  }

  function TsPath(op: Operation, local: string -> string, env: string -> string): Option<string> {
    TsTemplate(SubstituteAll(op.path, PathNames(op.params), (n: string) => TsHole(local(n))), env)
  }

  predicate BraceFree(s: string) {
    '{' !in s && '}' !in s
  }

  lemma TsHoleBlocks(local: string, x: string)
    requires BraceFree(local) && IsName(x)
    ensures Blocks(TsHole(local), Braced(x))
  {
    var t, what, head := TsHole(local), Braced(x), "${enc(String(";
    forall i | 0 <= i < |t|
      ensures Mismatch(t, i, what)
    {
      if i == 1 {
        var k := if |x| >= 4 then 4 else |x| + 1;
        assert t[i + k] == head[i + k];
        assert t[i + k] != what[i + k - i];
      } else {
        assert t[i] != what[i - i];
      }
    }
  }

  lemma TsHoleValue(local: string, rest: string, env: string -> string)
    requires BraceFree(local)
    ensures TsTemplate(TsHole(local) + rest, env) == Prepend(env(local), TsTemplate(rest, env))
  {
    var fmt, e := TsHole(local) + rest, "enc(String(" + local + "))";
    assert fmt[2..] == e + (['}'] + rest);
    FindIs(fmt[2..], '}', |e|);
    assert fmt[2..][..|e|] == e && fmt[2..][|e| + 1..] == rest;
    assert e[11..|e| - 2] == local && e[..11] == "enc(String(" && e[|e| - 2..] == "))";
    assert fmt[..2] == "${";
  }

  lemma {:induction false} TsPast(s: string, fmt: string, env: string -> string)
    requires '{' !in s && Quotable(s, "`\\\r")
    requires fmt != "" ==> fmt[0] != '{'
    ensures TsTemplate(s + fmt, env) == Prepend(s, TsTemplate(fmt, env))
    decreases |s|
  {
    if s == "" {
      assert s + fmt == fmt;
      PrependNothing(TsTemplate(fmt, env));
    } else {
      var all := s + fmt;
      assert all[0] == s[0] && all[1..] == s[1..] + fmt;
      assert |all| > 1 ==> all[1] != '{';
      assert !("${" <= all) by {
        assert "${"[1] == '{';
      }
      TsPast(s[1..], fmt, env);
      assert s == [s[0]] + s[1..];
      PrependTwice([s[0]], s[1..], TsTemplate(fmt, env));
    }
  }

  lemma {:induction false} TsFills(literals: seq<string>, locals: seq<string>, env: string -> string)
    requires |literals| == |locals| + 1 && Plain(literals, "`\\\r")
    requires forall k :: 0 <= k < |literals| ==> '{' !in literals[k]
    requires forall k :: 0 <= k < |locals| ==> BraceFree(locals[k])
    ensures TsTemplate(Compose(literals, Values(locals, TsHole)), env) == Some(Compose(literals, Values(locals, env)))
    decreases |locals|
  {
    var holes, args := Values(locals, TsHole), Values(locals, env);
    hide TsTemplate, TsHole;
    if locals == [] {
      TsPast(literals[0], "", env);
      TsNothing(env);
      assert literals[0] + "" == literals[0];
    } else {
      assert holes[1..] == Values(locals[1..], TsHole) && args[1..] == Values(locals[1..], env);
      var rest := Compose(literals[1..], holes[1..]);
      StartsWithDollar(locals[0], rest);
      TsPast(literals[0], holes[0] + rest, env);
      TsHoleValue(locals[0], rest, env);
      TsFills(literals[1..], locals[1..], env);
    }
  }

  lemma TsNothing(env: string -> string)
    ensures TsTemplate("", env) == Some("")
  {
  }

  lemma StartsWithDollar(local: string, rest: string)
    ensures TsHole(local) + rest != "" && (TsHole(local) + rest)[0] == '$'
  {
  }

  /**
   The TypeScript client requests the meant path whatever the order of declaration,
   each placeholder reading the variable named after it.
   */
  lemma SubstitutionInPlace(op: Operation, local: string -> string, env: string -> string)
    requires Accepted(op) && Plain(Parse(op.path).literals, "`\\\r")
    requires forall n :: n in Parse(op.path).names ==> BraceFree(local(n))
    ensures TsPath(op, local, env) == Some(Meaning(op, (n: string) => env(local(n))))
  {
    hide TsTemplate, SubstituteAll, PathNames, Compose, Blocks;
    var t, insert := Parse(op.path), (n: string) => TsHole(local(n));
    ParseExactly(op.path, t.literals, t.names);
    forall n, x | n in t.names && IsName(x)
      ensures Blocks(insert(n), Braced(x))
    {
      TsHoleBlocks(local(n), x);
    }
    AllReplaced(op, insert);
    var locals := Values(t.names, local);
    assert Values(t.names, insert) == Values(locals, TsHole);
    TsFills(t.literals, locals, env);
    assert Values(t.names, (n: string) => env(local(n))) == Values(locals, env);
  }

  // ---- the names of the variables ------------------------------------------------------

  predicate KeepsApart(local: string -> string, names: seq<string>) {
    forall i, j :: 0 <= i < j < |names| ==> local(names[i]) != local(names[j])
  }

  ghost predicate Supplies(env: string -> string, local: string -> string, names: seq<string>, value: string -> string) {
    forall n :: n in names ==> env(local(n)) == value(n)
  }

  ghost predicate Suppliable(local: string -> string, names: seq<string>, value: string -> string) {
    exists env :: Supplies(env, local, names, value)
  }

  /** Every assignment of arguments can be made exactly when no two placeholders share a variable. */
  lemma ArgumentsSuppliable(local: string -> string, names: seq<string>)
    requires Distinct(names)
    ensures (forall value: string -> string :: Suppliable(local, names, value)) <==> KeepsApart(local, names)
  {
    if KeepsApart(local, names) {
      forall value: string -> string
        ensures Suppliable(local, names, value)
      {
        var env := EnvironmentFor(local, names, value);
      }
    } else {
      var i, j :| 0 <= i < j < |names| && local(names[i]) == local(names[j]);
      var value := (n: string) => if n == names[i] then "x" else "y";
      assert value(names[i]) != value(names[j]);
      forall env
        ensures !Supplies(env, local, names, value)
      {
        assert names[i] in names && names[j] in names;
      }
      assert !Suppliable(local, names, value);
    }
  }

  lemma {:induction false} EnvironmentFor(local: string -> string, names: seq<string>, value: string -> string)
    returns (env: string -> string)
    requires KeepsApart(local, names)
    ensures Supplies(env, local, names, value)
  {
    if names == [] {
      env := (v: string) => "";
    } else {
      var init, last := names[..|names| - 1], names[|names| - 1];
      var rest := EnvironmentFor(local, init, value);
      env := (v: string) => if v == local(last) then value(last) else rest(v);
      forall n | n in names
        ensures env(local(n)) == value(n)
      {
        var k :| 0 <= k < |names| && names[k] == n;
        assert k < |names| - 1 ==> n == init[k] && local(n) != local(last);
      }
    }
  }

  /** Where variables are kept apart, all arguments reach their own placeholders. */
  lemma SubstitutionMeans(op: Operation, local: string -> string, value: string -> string) returns (env: string -> string)
    requires Accepted(op) && Plain(Parse(op.path).literals, "`\\\r")
    requires forall n :: n in Parse(op.path).names ==> BraceFree(local(n))
    requires KeepsApart(local, Parse(op.path).names)
    ensures Supplies(env, local, Parse(op.path).names, value)
    ensures TsPath(op, local, env) == Some(Meaning(op, value))
  {
    hide TsPath, Compose, Parse, Fits, PathNames;
    var names := Parse(op.path).names;
    env := EnvironmentFor(local, names, value);
    SubstitutionInPlace(op, local, env);
    assert Values(names, (n: string) => env(local(n))) == Values(names, value);
  }

  // ---- camel case ------------------------------------------------------------------------

  function LowerFirst(w: string): string {
    if w == "" then "" else [Names.ToLower(w[0])] + w[1..]
  }

  /** Underscores go, and what follows one starts with a capital. */
  function PascalFrom(s: string, start: bool): string {
    if s == "" then ""
    else if s[0] == '_' then PascalFrom(s[1..], true)
    else [if start then Names.ToUpper(s[0]) else s[0]] + PascalFrom(s[1..], false)
  }

  /** The variable that the TypeScript emitter names after a parameter. */
  function CamelCase(s: string): string {
    LowerFirst(PascalFrom(s, true))
  }

  lemma {:induction false} PascalKeepsNameChars(s: string, start: bool)
    requires forall i :: 0 <= i < |s| ==> IsNameChar(s[i])
    ensures BraceFree(PascalFrom(s, start))
    decreases |s|
  {
    if s != "" {
      assert IsNameChar(s[0]);
      PascalKeepsNameChars(s[1..], s[0] == '_');
    }
  }

  /** A placeholder's variable never has a brace. */
  lemma CamelIsBraceFree(name: string)
    requires IsName(name)
    ensures BraceFree(CamelCase(name))
  {
    PascalKeepsNameChars(name, true);
  }

  /** Different placeholders may share one: `a_b` and `aB`. */
  lemma CamelCollides()
    ensures IsName("a_b") && IsName("aB") && CamelCase("a_b") == CamelCase("aB") == "aB"
    ensures !KeepsApart(CamelCase, ["a_b", "aB"])
  {
    assert "a_b"[1..] == "_b" && "_b"[1..] == "b" && "b"[1..] == "" && "aB"[1..] == "B" && "B"[1..] == "";
    assert PascalFrom("", false) == "";
    assert PascalFrom("b", true) == "B" && PascalFrom("B", false) == "B";
    assert PascalFrom("_b", false) == "B";
    assert PascalFrom("a_b", true) == "AB" && PascalFrom("aB", true) == "AB";
    assert LowerFirst("AB") == "aB";
    assert ["a_b", "aB"][0] == "a_b" && ["a_b", "aB"][1] == "aB";
  }

  lemma {:induction false} PascalWord(w: string, rest: string, start: bool)
    requires '_' !in w
    ensures PascalFrom(w + rest, start) ==
              (if w != "" && start then [Names.ToUpper(w[0])] + w[1..] else w) + PascalFrom(rest, start && w == "")
    decreases |w|
  {
    if w == "" {
      assert w + rest == rest && "" + PascalFrom(rest, start) == PascalFrom(rest, start);
    } else {
      PascalWord(w[1..], rest, false);
      assert (w + rest)[1..] == w[1..] + rest && w[0] != '_';
      assert w == [w[0]] + w[1..];
      var head := if start then Names.ToUpper(w[0]) else w[0];
      assert [head] + (w[1..] + PascalFrom(rest, false)) == ([head] + w[1..]) + PascalFrom(rest, false);
    }
  }

  lemma RisenWord(w: string)
    requires NameLaws.IsWord(w)
    ensures [Names.ToUpper(w[0])] + w[1..] == Names.Capital(w) && '_' !in w
  {
    assert NameLaws.IsWordChar(w[0]);
    assert forall k :: 1 <= k < |w| ==> NameLaws.IsWordChar(w[k]);
    assert Names.Lower(w[1..]) == w[1..];
  }

  lemma {:induction false} PascalOfJoin(ws: seq<string>)
    requires NameLaws.AreWords(ws)
    ensures PascalFrom(Names.Join(ws, '_'), true) == Names.Capitals(ws)
    decreases |ws|
  {
    hide Names.Capital, PascalFrom;
    var w := ws[0];
    RisenWord(w);
    if |ws| == 1 {
      PascalWord(w, "", true);
      PascalNothing();
      assert w + "" == w && ws[1..] == [] && Names.Capitals([]) == "";
    } else {
      var rest := Names.Join(ws[1..], '_');
      PascalWord(w, ['_'] + rest, true);
      PascalUnderscore(rest);
      PascalOfJoin(ws[1..]);
    }
  }

  lemma PascalNothing()
    ensures PascalFrom("", false) == ""
  {
  }

  lemma PascalUnderscore(rest: string)
    ensures PascalFrom(['_'] + rest, false) == PascalFrom(rest, true)
  {
    assert (['_'] + rest)[1..] == rest;
  }

  /** On names of lower-case words this is the camel spelling that the surface check expects. */
  lemma CamelIsCamel(ws: seq<string>)
    requires NameLaws.AreWords(ws)
    ensures CamelCase(Names.Join(ws, '_')) == Names.RenderWords(ws, Names.Camel)
  {
    PascalOfJoin(ws);
    NameLaws.LowerKeepsWord(ws[0]);
    RisenWord(ws[0]);
    hide Names.Join, Names.Capital;
    var c, rest := Names.Capital(ws[0]), Names.Capitals(ws[1..]);
    LowerFirstIs(ws[0], c, rest);
  }

  lemma LowerFirstIs(w: string, c: string, rest: string)
    requires NameLaws.IsWord(w) && c == [Names.ToUpper(w[0])] + w[1..]
    ensures LowerFirst(c + rest) == w + rest
  {
    assert NameLaws.IsWordChar(w[0]);
    var tail := w[1..] + rest;
    assert c + rest == [Names.ToUpper(w[0])] + tail;
    assert w + rest == [w[0]] + tail;
    assert ([Names.ToUpper(w[0])] + tail)[1..] == tail;
  }

  /** The markers of the languages. */
  lemma MarkersAre()
    ensures PYTHON.marker == "%s" && RUST.marker == "{}"
  {
  }
}
