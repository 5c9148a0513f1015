/** Local references are JSON pointers (RFC 6901), except to the empty key alone. */
module SchemaPointer {
  import opened Wrappers
  import opened PyValue
  import opened SchemaMeaning

  datatype Step = Key(key: string) | Index(index: nat)

  function To(v: Value, step: Step): Option<Value> {
    match step
    case Key(key) => if v.PyDict? && key in v.members then Some(v.members[key]) else None
    case Index(i) => if v.PyList? && i < |v.items| then Some(v.items[i]) else None
  }

  /** The value at the end of the steps. */
  function Follow(v: Value, steps: seq<Step>): Option<Value> {
    if steps == [] then Some(v)
    else
      match To(v, steps[0])
      case None => None
      case Some(next) => Follow(next, steps[1..])
  }

  /** Section 3: a tilde is written `~0` and a slash `~1`. */
  function Escaped(key: string): string {
    if key == "" then ""
    else (if key[0] == '~' then "~0" else if key[0] == '/' then "~1" else [key[0]]) + Escaped(key[1..])
  }

  function Raw(step: Step, decimal: nat -> string): string {
    match step
    case Key(key) => Escaped(key)
    case Index(i) => decimal(i)
  }

  function Written(steps: seq<Step>, decimal: nat -> string): string {
    if steps == [] then "" else "/" + Raw(steps[0], decimal) + Written(steps[1..], decimal)
  }

  /** The text of an index has neither tilde nor slash, and reads back. */
  ghost predicate Reads(c: Context, decimal: nat -> string) {
    forall i :: c.toInt(decimal(i)) == Some(i as int) && decimal(i) != ""
                && '~' !in decimal(i) && '/' !in decimal(i)
  }

  // ---- escapes ---------------------------------------------------------------------

  /** Between the two replacements: slashes are back, tildes are not. */
  function HalfEscaped(key: string): string {
    if key == "" then "" else (if key[0] == '~' then "~0" else [key[0]]) + HalfEscaped(key[1..])
  }

  lemma Replace2Skips(x: char, s: string, a: char, b: char, r: char)
    requires x != a || (s != "" ==> s[0] != b)
    ensures Replace2([x] + s, a, b, r) == [x] + Replace2(s, a, b, r)
  {
    assert ([x] + s)[1..] == s;
    if s == "" {
      assert [x] + s == [x];
    }
  }

  lemma Replace2Takes(s: string, a: char, b: char, r: char)
    ensures Replace2([a, b] + s, a, b, r) == [r] + Replace2(s, a, b, r)
  {
    assert ([a, b] + s)[2..] == s;
  }

  lemma {:induction false} SlashesReturn(key: string)
    ensures Replace2(Escaped(key), '~', '1', '/') == HalfEscaped(key)
  {
    hide Replace2;
    if key == "" {
      Replace2Nothing('~', '1', '/');
    } else {
      var rest := Escaped(key[1..]);
      SlashesReturn(key[1..]);
      if key[0] == '~' {
        Replace2Skips('0', rest, '~', '1', '/');
        Replace2Skips('~', ['0'] + rest, '~', '1', '/');
        assert "~0" + rest == ['~'] + (['0'] + rest);
        assert ['~'] + (['0'] + HalfEscaped(key[1..])) == "~0" + HalfEscaped(key[1..]);
      } else if key[0] == '/' {
        Replace2Takes(rest, '~', '1', '/');
        assert "~1" + rest == ['~', '1'] + rest;
      } else {
        Replace2Skips(key[0], rest, '~', '1', '/');
      }
    }
  }

  lemma Replace2Nothing(a: char, b: char, r: char)
    ensures Replace2("", a, b, r) == ""
  {
  }

  lemma {:induction false} TildesReturn(key: string)
    ensures Replace2(HalfEscaped(key), '~', '0', '~') == key
  {
    hide Replace2;
    if key == "" {
      Replace2Nothing('~', '0', '~');
    } else {
      var rest := HalfEscaped(key[1..]);
      TildesReturn(key[1..]);
      assert key == [key[0]] + key[1..];
      if key[0] == '~' {
        Replace2Takes(rest, '~', '0', '~');
        assert "~0" + rest == ['~', '0'] + rest;
      } else {
        Replace2Skips(key[0], rest, '~', '0', '~');
      }
    }
  }

  /** Unescaping in this order gives every key back. */
  lemma TokenReturns(key: string)
    ensures Token(Escaped(key)) == key
  {
    SlashesReturn(key);
    TildesReturn(key);
  }

  lemma {:induction false} PlainToken(s: string)
    requires '~' !in s
    ensures Replace2(s, '~', '1', '/') == s && Replace2(s, '~', '0', '~') == s
  {
    if |s| >= 2 {
      PlainToken(s[1..]);
      assert s == [s[0]] + s[1..];
    }
  }

  // ---- splitting ---------------------------------------------------------------------

  lemma {:induction false} EscapedHasNoSlash(key: string)
    ensures '/' !in Escaped(key)
  {
    if key != "" {
      EscapedHasNoSlash(key[1..]);
    }
  }

  lemma {:induction false} SplitToken(s: string, rest: string)
    requires '/' !in s
    ensures SplitOn(s + ("/" + rest), '/') == [s] + SplitOn(rest, '/')
    ensures SplitOn(s, '/') == [s]
  {
    var all := s + ("/" + rest);
    if s == "" {
      assert all[0] == '/' && all[1..] == rest;
    } else {
      SplitToken(s[1..], rest);
      assert all[0] == s[0] && all[1..] == s[1..] + ("/" + rest);
      assert [s[0]] + s[1..] == s;
      assert ([s[1..]] + SplitOn(rest, '/'))[1..] == SplitOn(rest, '/');
    }
  }

  function Raws(steps: seq<Step>, decimal: nat -> string): seq<string> {
    if steps == [] then [] else [Raw(steps[0], decimal)] + Raws(steps[1..], decimal)
  }

  lemma {:induction false} SplitWritten(c: Context, steps: seq<Step>, decimal: nat -> string)
    requires steps != [] && Reads(c, decimal)
    ensures var text := Written(steps, decimal);
            text != "" && text[0] == '/' && SplitOn(text[1..], '/') == Raws(steps, decimal)
  {
    hide SplitOn, Escaped;
    var raw, rest := Raw(steps[0], decimal), steps[1..];
    RawHasNoSlash(c, steps[0], decimal);
    assert Written(steps, decimal)[1..] == raw + Written(rest, decimal);
    if rest == [] {
      SplitToken(raw, "");
      assert raw + "" == raw;
    } else {
      SplitWritten(c, rest, decimal);
      var tail := Written(rest, decimal);
      assert tail == "/" + tail[1..];
      SplitToken(raw, tail[1..]);
    }
  }

  lemma RawHasNoSlash(c: Context, step: Step, decimal: nat -> string)
    requires Reads(c, decimal)
    ensures '/' !in Raw(step, decimal)
  {
    if step.Key? {
      EscapedHasNoSlash(step.key);
    }
  }

  lemma TokenOfRaw(c: Context, step: Step, decimal: nat -> string)
    requires Reads(c, decimal)
    ensures Token(Raw(step, decimal)) == match step case Key(key) => key case Index(i) => decimal(i)
  {
    hide Replace2, Escaped;
    match step
    case Key(key) => TokenReturns(key);
    case Index(i) => PlainToken(decimal(i));
  }

  /** No index is taken for a key: on a dictionary a step is by key, on a list by index. */
  ghost predicate Fits(v: Value, steps: seq<Step>)
    decreases |steps|
  {
    steps != [] ==>
      && (if steps[0].Key? then !v.PyList? else !v.PyDict?)
      && (To(v, steps[0]).Some? ==> Fits(To(v, steps[0]).value, steps[1..]))
  }

  lemma {:induction false} WalkFollows(c: Context, v: Value, steps: seq<Step>, decimal: nat -> string)
    requires Reads(c, decimal) && Fits(v, steps)
    ensures Walk(c, v, Raws(steps, decimal)) == Follow(v, steps)
    decreases |steps|
  {
    hide Token, Raw;
    if steps != [] {
      TokenOfRaw(c, steps[0], decimal);
      assert Raws(steps, decimal)[0] == Raw(steps[0], decimal) && Raws(steps, decimal)[1..] == Raws(steps[1..], decimal);
      assert steps[0].Index? ==> c.toInt(decimal(steps[0].index)) == Some(steps[0].index as int);
      assert StepInto(c, v, Token(Raws(steps, decimal)[0])) == To(v, steps[0]);
      if To(v, steps[0]).Some? {
        WalkFollows(c, To(v, steps[0]).value, steps[1..], decimal);
      }
    }
  }

  /** A reference resolves to what its steps lead to, or to nothing with them. */
  lemma PointerFollows(c: Context, steps: seq<Step>, decimal: nat -> string)
    requires Reads(c, decimal) && Fits(c.root, steps) && steps != [Key("")]
    ensures Pointer(c, PyStr("#" + Written(steps, decimal))) == Follow(c.root, steps)
  {
    hide Written, SplitOn, Walk, Token;
    var text := Written(steps, decimal);
    assert ("#" + text)[1..] == text;
    if steps == [] {
      NothingWritten(decimal);
    } else {
      SplitWritten(c, steps, decimal);
      WalkFollows(c, c.root, steps, decimal);
      LongerThanSlash(c, steps, decimal);
    }
  }

  lemma NothingWritten(decimal: nat -> string)
    ensures Written([], decimal) == ""
  {
  }

  lemma LongerThanSlash(c: Context, steps: seq<Step>, decimal: nat -> string)
    requires Reads(c, decimal) && steps != [] && steps != [Key("")]
    ensures Written(steps, decimal)[1..] != ""
  {
    var raw, rest := Raw(steps[0], decimal), Written(steps[1..], decimal);
    assert Written(steps, decimal)[1..] == raw + rest;
    if steps[0].Key? && steps[0].key != "" {
      assert Escaped(steps[0].key) != "";
    } else if steps[0].Key? {
      assert steps[1..] != [];
    }
  }

  /** A negative index counts from the end, as it does in Python. */
  lemma FromTheEnd(c: Context, items: seq<Value>, token: string, back: nat)
    requires c.toInt(token) == Some(-(back as int)) && 1 <= back
    ensures StepInto(c, PyList(items), token) == if back <= |items| then Some(items[|items| - back]) else None
  {
  }

  /** The exception: the key of no characters is taken for the document itself. */
  lemma EmptyKeyIsRoot(c: Context, decimal: nat -> string)
    ensures Written([Key("")], decimal) == "/"
    ensures Pointer(c, PyStr("#/")) == Some(c.root)
  {
    assert Escaped("") == "" && Written([], decimal) == "";
  }
}
