/**
 The Java client's reader and writer as they run: a cursor that moves over the
 text, and a builder that is appended to. Both are proved against the functions
 of Json.dfy for every text and every value.
 */
module JavaJson {
  import opened Wrappers
  import opened Json

  /** A method that reads `expected` returns its value and leaves the cursor after it, or raises. */
  predicate Follows<T(==)>(expected: Result<Parsed<T>>, r: Result<T>, cursor: nat) {
    match expected
    case Raised => r.Raised?
    case Ok(p) => r == Ok(p.value) && cursor == p.next
  }

  class Reader {
    const s: Text
    var i: nat

    constructor (s: Text)
      ensures this.s == s && i == 0
    {
      this.s := s;
      i := 0;
    }

    method SkipWs()
      modifies this
      ensures i == WsEnd(s, old(i))
    {
      while i < |s| && IsWhitespace(s[i])
        invariant WsEnd(s, i) == WsEnd(s, old(i))
      {
        i := i + 1;
      }
    }

    method ReadString() returns (r: Result<Text>)
      modifies this
      ensures Follows(ParseString(s, old(i)), r, i)
    {
      var b: Text := [];
      i := i + 1;
      while true
        invariant ParseStringBody(s, i, b) == ParseString(s, old(i))
        decreases Left(s, i)
      {
        if i >= |s| {
          return Raised;
        }
        var c := s[i];
        i := i + 1;
        if c == QUOTE {
          break;
        }
        if c == BACKSLASH {
          if i >= |s| {
            return Raised;
          }
          var e := s[i];
          i := i + 1;
          if e == LOWER_U {
            if i + 4 > |s| {
              return Raised;
            }
            var u := ParseUnit(s[i..i + 4]);
            if u.None? {
              return Raised;
            }
            b := b + [u.value];
            i := i + 4;
          } else {
            b := b + [Unescape(e)];
          }
        } else {
          b := b + [c];
        }
      }
      r := Ok(b);
    }

    method ReadNumber() returns (r: Result<Value>)
      requires i <= |s|
      modifies this
      ensures Follows(ParseNumber(s, old(i)), r, i)
    {
      var start := i;
      while i < |s| && IsNumeric(s[i])
        invariant start <= i <= |s| && NumEnd(s, i) == NumEnd(s, start)
      {
        i := i + 1;
      }
      var lexeme := s[start..i];
      r := if IsDouble(lexeme) then Ok(Number(lexeme)) else Raised;
    }

    method ReadValue() returns (r: Result<Value>)
      modifies this
      ensures Follows(ParseValue(s, old(i)), r, i)
      decreases Left(s, i), 2
    {
      SkipWs();
      StartsAt(s, old(i));
      if i >= |s| {
        return Raised;
      }
      var c := s[i];
      if c == OPEN_BRACE {
        r := ReadObject();
      } else if c == OPEN_BRACKET {
        r := ReadArray();
      } else if c == QUOTE {
        var t := ReadString();
        r := if t.Ok? then Ok(Str(t.value)) else Raised;
      } else if c == LOWER_T {
        i := i + 4;
        r := Ok(Boolean(true));
      } else if c == LOWER_F {
        i := i + 5;
        r := Ok(Boolean(false));
      } else if c == LOWER_N {
        i := i + 4;
        r := Ok(Null);
      } else {
        r := ReadNumber();
      }
    }

    method ReadObject() returns (r: Result<Value>)
      requires i < |s| && s[i] == OPEN_BRACE && WsEnd(s, i) == i
      modifies this
      ensures Follows(ParseValue(s, old(i)), r, i)
      decreases Left(s, i), 1
    {
      var m: seq<Field> := [];
      i := i + 1;
      SkipWs();
      if i >= |s| {
        return Raised;
      }
      if s[i] == CLOSE_BRACE {
        i := i + 1;
        return Ok(Obj(m));
      }
      var last := false;
      while !last
        invariant !last ==> i > old(i) && ParseFields(s, i, m) == ParseValue(s, old(i))
        invariant last ==> ParseValue(s, old(i)) == Ok(Parsed(Obj(m), i))
        decreases !last, Left(s, i)
      {
        var step := ReadMember(m);
        if step.Raised? {
          return Raised;
        }
        m, last := step.value.0, step.value.1;
      }
      r := Ok(Obj(m));
    }

    /** One turn of the object loop: the fields after it, and whether the brace closed. */
    method ReadMember(m: seq<Field>) returns (r: Result<(seq<Field>, bool)>)
      modifies this
      ensures r.Raised? ==> ParseFields(s, old(i), m).Raised?
      ensures r.Ok? && r.value.1 ==> ParseFields(s, old(i), m) == Ok(Parsed(Obj(r.value.0), i))
      ensures r.Ok? && !r.value.1 ==>
                old(i) < i && old(i) < |s| && ParseFields(s, old(i), m) == ParseFields(s, i, r.value.0)
      decreases Left(s, i), 0
    {
      hide ParseItems, ParseValue, ParseString, WsEnd;
      SkipWs();
      var k := ReadString();
      if k.Raised? {
        return Raised;
      }
      SkipWs();
      i := i + 1;
      var v := ReadValue();
      if v.Raised? {
        return Raised;
      }
      SkipWs();
      if i >= |s| {
        return Raised;
      }
      var c := s[i];
      i := i + 1;
      r := Ok((Put(m, k.value, v.value), c == CLOSE_BRACE));
    }

    method ReadArray() returns (r: Result<Value>)
      requires i < |s| && s[i] == OPEN_BRACKET && WsEnd(s, i) == i
      modifies this
      ensures Follows(ParseValue(s, old(i)), r, i)
      decreases Left(s, i), 1
    {
      hide ParseFields, ParseString;
      var l: seq<Value> := [];
      i := i + 1;
      SkipWs();
      if i >= |s| {
        return Raised;
      }
      if s[i] == CLOSE_BRACKET {
        i := i + 1;
        return Ok(List(l));
      }
      while true
        invariant i > old(i) && ParseItems(s, i, l) == ParseValue(s, old(i))
        decreases Left(s, i)
      {
        var v := ReadValue();
        if v.Raised? {
          return Raised;
        }
        l := l + [v.value];
        SkipWs();
        if i >= |s| {
          return Raised;
        }
        var c := s[i];
        i := i + 1;
        if c == CLOSE_BRACKET {
          break;
        }
      }
      r := Ok(List(l));
    }
  }

  /** Skipping whitespace first is what reading a value does anyway. */
  lemma StartsAt(s: Text, i: nat)
    ensures WsEnd(s, WsEnd(s, i)) == WsEnd(s, i)
    ensures ParseValue(s, WsEnd(s, i)) == ParseValue(s, i)
  {
    hide ParseItems, ParseFields, ParseString;
    WsEndStays(s, i);
  }

  lemma {:induction false} WsEndStays(s: Text, i: nat)
    ensures WsEnd(s, WsEnd(s, i)) == WsEnd(s, i)
    decreases |s| - i
  {
    if i < |s| && IsWhitespace(s[i]) {
      WsEndStays(s, i + 1);
    }
  }

  method ParseText(s: Text) returns (r: Result<Value>)
    ensures r == Parse(s)
  {
    if s == [] {
      return Ok(Null);
    }
    var j := new Reader(s);
    j.SkipWs();
    r := j.ReadValue();
  }

  class StringBuilder {
    var text: Text

    constructor ()
      ensures text == []
    {
      text := [];
    }

    method Append(t: Text)
      modifies this
      ensures text == old(text) + t
    {
      text := text + t;
    }
  }

  method WriteString(b: StringBuilder, s: Text)
    modifies b
    ensures b.text == old(b.text) + PrintString(s)
  {
    hide EscapeUnit;
    b.Append([QUOTE]);
    ghost var start := b.text;
    for n := 0 to |s|
      invariant b.text + Escape(s[n..]) == start + Escape(s)
    {
      ghost var before := b.text;
      b.Append(EscapeUnit(s[n]));
      assert s[n..][1..] == s[n + 1..];
      assert before + (EscapeUnit(s[n]) + Escape(s[n + 1..])) == b.text + Escape(s[n + 1..]);
    }
    assert b.text + Escape(s[|s|..]) == b.text;
    b.Append([QUOTE]);
    assert old(b.text) + [QUOTE] + Escape(s) + [QUOTE] == old(b.text) + PrintString(s);
  }

  method Write(b: StringBuilder, v: Value)
    modifies b
    ensures b.text == old(b.text) + Print(v)
    decreases v
  {
    match v {
      case Null => b.Append(NULL_TEXT);
      case Boolean(x) => b.Append(if x then TRUE_TEXT else FALSE_TEXT);
      case Number(lexeme) => b.Append(lexeme);
      case Str(s) => WriteString(b, s);
      case List(items) => WriteList(b, v);
      case Obj(fields) => WriteObject(b, v);
    }
  }

  /** What the loop still has to write before item `n`: a comma unless it is the first. */
  function RestOfItems(items: seq<Value>, n: nat): Text
    requires n <= |items|
  {
    if n == |items| then [] else (if n == 0 then [] else [COMMA]) + PrintItems(items[n..])
  }

  lemma RestOfItemsStep(items: seq<Value>, n: nat, start: Text)
    requires n < |items|
    ensures start + RestOfItems(items, n)
            == (start + (if n == 0 then [] else [COMMA]) + Print(items[n])) + RestOfItems(items, n + 1)
  {
    hide Print;
    assert items[n..][1..] == items[n + 1..];
    var comma, text, rest := if n == 0 then [] else [COMMA], Print(items[n]), RestOfItems(items, n + 1);
    assert RestOfItems(items, n) == comma + (text + rest);
    assert start + (comma + (text + rest)) == (start + comma + text) + rest;
  }

  method WriteList(b: StringBuilder, v: Value)
    requires v.List?
    modifies b
    ensures b.text == old(b.text) + Print(v)
    decreases v, 0
  {
    PrintNoItems();
    hide PrintItems;
    var items := v.items;
    b.Append([OPEN_BRACKET]);
    ghost var start := b.text;
    var first := true;
    assert items[0..] == items;
    for n := 0 to |items|
      invariant first == (n == 0)
      invariant b.text + RestOfItems(items, n) == start + PrintItems(items)
    {
      RestOfItemsStep(items, n, b.text);
      if !first {
        b.Append([COMMA]);
      }
      first := false;
      Write(b, items[n]);
    }
    b.Append([CLOSE_BRACKET]);
    assert start + PrintItems(items) + [CLOSE_BRACKET] == old(b.text) + Print(v);
  }

  function RestOfFields(fields: seq<Field>, n: nat): Text
    requires n <= |fields|
  {
    if n == |fields| then [] else (if n == 0 then [] else [COMMA]) + PrintFields(fields[n..])
  }

  lemma RestOfFieldsStep(fields: seq<Field>, n: nat, start: Text)
    requires n < |fields|
    ensures start + RestOfFields(fields, n)
            == (start + (if n == 0 then [] else [COMMA]) + PrintString(fields[n].key) + [COLON]
                + Print(fields[n].value)) + RestOfFields(fields, n + 1)
  {
    hide Print, PrintString;
    assert fields[n..][1..] == fields[n + 1..];
    var comma, f, rest := if n == 0 then [] else [COMMA], fields[n], RestOfFields(fields, n + 1);
    assert RestOfFields(fields, n) == comma + (PrintField(f) + rest);
    assert start + (comma + (PrintString(f.key) + [COLON] + Print(f.value) + rest))
           == (start + comma + PrintString(f.key) + [COLON] + Print(f.value)) + rest;
  }

  lemma PrintNoItems()
    ensures PrintItems([]) == []
  {
  }

  lemma PrintNoFields()
    ensures PrintFields([]) == []
  {
  }

  method WriteObject(b: StringBuilder, v: Value)
    requires v.Obj?
    modifies b
    ensures b.text == old(b.text) + Print(v)
    decreases v, 0
  {
    PrintNoFields();
    hide PrintString, PrintFields, PrintField;
    var fields := v.fields;
    b.Append([OPEN_BRACE]);
    ghost var start := b.text;
    var first := true;
    assert fields[0..] == fields;
    for n := 0 to |fields|
      invariant first == (n == 0)
      invariant b.text + RestOfFields(fields, n) == start + PrintFields(fields)
    {
      RestOfFieldsStep(fields, n, b.text);
      if !first {
        b.Append([COMMA]);
      }
      first := false;
      WriteString(b, fields[n].key);
      b.Append([COLON]);
      Write(b, fields[n].value);
    }
    b.Append([CLOSE_BRACE]);
    assert start + PrintFields(fields) + [CLOSE_BRACE] == old(b.text) + Print(v);
  }

  method Stringify(v: Value) returns (t: Text)
    ensures t == Print(v)
  {
    var b := new StringBuilder();
    Write(b, v);
    t := b.text;
  }
}
