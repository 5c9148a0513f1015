/**
 The C client's growable buffer and the JSON object builder over it. Sizes are
 64-bit and wrap, and every reallocation may fail.
 */
module CBuffer {
  import opened Wrappers
  import opened Json
  import JsonRoundTrip

  const SIZE_MAX := 0xFFFF_FFFF_FFFF_FFFF

  /** size_t multiplication by two. */
  function Doubled(n: nat): nat {
    n * 2 % 0x1_0000_0000_0000_0000
  }

  /** `heap` is the allocator: its answer to request number k. */
  class Sbuf {
    const heap: nat -> bool
    var asked: nat
    var data: array?<int>
    var len: nat
    var cap: nat
    var err: bool

    /** Capacity is what was allocated: none, 64, or less than twice what is used. */
    ghost predicate Valid()
      reads this, data
    {
      && (data == null <==> cap == 0)
      && (data == null ==> len == 0)
      && (data != null ==> data.Length == cap && len < cap <= SIZE_MAX)
      && (cap <= 64 || cap < 2 * (len + 1))
    }

    /** The bytes are a C string. */
    ghost predicate Terminated()
      requires Valid()
      reads this, data
    {
      data != null ==> data[len] == 0
    }

    ghost function Contents(): (r: seq<int>)
      requires Valid()
      reads this, data
      ensures |r| == len
    {
      Bytes(data, len)
    }

    /** Nothing can go wrong for `more` bytes: the allocator always grants, and no size wraps. */
    ghost predicate Roomy(more: nat)
      reads this
    {
      (forall k :: heap(k)) && !err && len + more < 0x8000_0000_0000_0000
    }

    constructor (heap: nat -> bool)
      ensures Valid() && Terminated() && Contents() == [] && !err && data == null && this.heap == heap
    {
      this.heap := heap;
      asked := 0;
      data := null;
      len, cap, err := 0, 0, false;
    }

    /** Room for `extra` bytes and a NUL; false latches the error. */
    method Reserve(extra: nat) returns (ok: bool)
      requires Valid()
      modifies this
      ensures len == old(len) && Bytes(data, len) == old(Bytes(data, len))
      ensures data == old(data) || fresh(data)
      ensures ok <==> !err
      ensures old(err) ==> err
      ensures !ok ==> data == old(data) && cap == old(cap)
      ensures ok ==> data != null && data.Length == cap && len + extra < cap <= SIZE_MAX
      ensures ok ==> cap == old(cap) || cap <= 64 || cap < 2 * (len + extra + 1)
      ensures old(Roomy(extra)) ==> ok
    {
      if err {
        return false;
      }
      if extra > SIZE_MAX - 1 || len > SIZE_MAX - 1 - extra {
        err := true;
        return false;
      }
      var need := len + extra + 1;
      if need <= cap {
        return true;
      }
      var ncap := if cap != 0 then cap else 64;
      var wrapped;
      ncap, wrapped := GrowTo(ncap, need);
      if wrapped {
        err := true;
        return false;
      }
      var granted := heap(asked);
      asked := asked + 1;
      if !granted {
        err := true;
        return false;
      }
      data := Realloc(data, len, ncap);
      cap := ncap;
      return true;
    }

    /** Append, or latch the error and change nothing. */
    method PutN(p: seq<int>)
      requires Valid() && Terminated()
      modifies this, data
      ensures Valid() && Terminated()
      ensures data == old(data) || fresh(data)
      ensures Contents() == if err then old(Contents()) else old(Contents()) + p
      ensures old(err) ==> err
      ensures old(Roomy(|p|)) ==> !err
    {
      var ok := Reserve(|p|);
      if !ok {
        return;
      }
      CopyIn(data, len, p);
      len := len + |p|;
      data[len] := 0;
    }

    /** A JSON string literal, null as an empty one; a failed append keeps what is there. */
    method PutJsonString(p: Option<seq<int>>)
      requires Valid() && Terminated()
      modifies this, data
      ensures Valid() && Terminated()
      ensures data == old(data) || fresh(data)
      ensures old(err) ==> err && Contents() == old(Contents())
      ensures old(Contents()) <= Contents()
      ensures !err ==> Contents() == old(Contents()) + PrintString(p.GetOr([]))
      ensures old(Roomy(|PrintString(p.GetOr([]))|)) ==> !err
    {
      var s := p.GetOr([]);
      hide PrintString, Escape, EscapeUnit;
      PrintedLength(s);
      assert s[0..] == s;
      PutN([QUOTE]);
      ghost var start := Contents();
      for n := 0 to |s|
        invariant Valid() && Terminated()
        invariant data == old(data) || fresh(data)
        invariant old(err) ==> err && Contents() == old(Contents())
        invariant old(Contents()) <= Contents()
        invariant !err ==> start == old(Contents()) + [QUOTE]
        invariant !err ==> Contents() + Escape(s[n..]) == start + Escape(s)
        invariant old(Roomy(|Escape(s)| + 2)) ==> !err && |start| == old(len) + 1
      {
        EscapeStep(Contents(), s, n);
        PutN(EscapeUnit(s[n]));
      }
      PutN([QUOTE]);
      Quoted(old(Contents()), s);
    }
  }

  /** Doubling until the need is met, or the size wraps around. */
  method GrowTo(cap: nat, need: nat) returns (ncap: nat, wrapped: bool)
    requires 0 < cap <= SIZE_MAX && need <= SIZE_MAX
    ensures !wrapped ==> need <= ncap <= SIZE_MAX && (ncap == cap || ncap < 2 * need)
    ensures wrapped ==> need > 0x8000_0000_0000_0000
  {
    ncap, wrapped := cap, false;
    while ncap < need
      invariant 0 < ncap <= SIZE_MAX
      invariant ncap == cap || ncap < 2 * need
      decreases need - ncap
    {
      var doubled := Doubled(ncap);
      if doubled < ncap {
        return ncap, true;
      }
      ncap := doubled;
    }
  }

  /** A larger array that starts with the bytes in use. */
  method Realloc(data: array?<int>, len: nat, ncap: nat) returns (nd: array<int>)
    requires len < ncap && (if data == null then len == 0 else len < data.Length)
    ensures fresh(nd) && nd.Length == ncap && Bytes(nd, len) == Bytes(data, len)
  {
    nd := new int[ncap];
    var k := 0;
    while k < len
      invariant k <= len
      invariant data != null ==> nd[..k] == data[..k]
    {
      nd[k] := data[k];
      k := k + 1;
    }
  }

  /** memcpy into an array. */
  method CopyIn(data: array<int>, at: nat, p: seq<int>)
    requires at + |p| < data.Length
    modifies data
    ensures data[..at + |p|] == old(data[..at]) + p
  {
    var k := 0;
    while k < |p|
      invariant k <= |p|
      invariant data[..at] == old(data[..at]) && data[at..at + k] == p[..k]
    {
      data[at + k] := p[k];
      k := k + 1;
    }
    assert data[..at + |p|] == data[..at] + data[at..at + |p|];
  }

  ghost function Bytes(data: array?<int>, len: nat): seq<int>
    reads data
  {
    if data == null || len > data.Length then [] else data[..len]
  }

  lemma EscapeStep(done: seq<int>, s: seq<int>, n: nat)
    requires n < |s|
    ensures done + Escape(s[n..]) == (done + EscapeUnit(s[n])) + Escape(s[n + 1..])
  {
    hide EscapeUnit;
    assert s[n..][1..] == s[n + 1..];
  }

  lemma PrintedLength(s: seq<int>)
    ensures |PrintString(s)| == |Escape(s)| + 2
  {
    hide Escape;
  }

  lemma Quoted(before: seq<int>, s: seq<int>)
    ensures ((before + [QUOTE]) + Escape(s)) + [QUOTE] == before + PrintString(s)
    ensures Escape(s[|s|..]) == []
  {
    hide EscapeUnit, Escape;
    var body := Escape(s);
    assert before + ([QUOTE] + body) == (before + [QUOTE]) + body;
    assert before + (([QUOTE] + body) + [QUOTE]) == (before + ([QUOTE] + body)) + [QUOTE];
    EscapeEmpty(s[|s|..]);
  }

  lemma EscapeEmpty(s: seq<int>)
    requires s == []
    ensures Escape(s) == []
  {
  }

  /** The digits of a long, as printf writes them. */
  function Decimal(v: int): Text {
    if v < 0 then [MINUS] + Digits(-v) else Digits(v)
  }

  function Digits(n: nat): (t: Text)
    ensures t != [] && forall i :: 0 <= i < |t| ==> IsDigit(t[i])
  {
    if n < 10 then [48 + n] else Digits(n / 10) + [48 + n % 10]
  }

  lemma {:induction false} DigitsTaken(t: Text, i: nat)
    requires i <= |t| && forall k :: i <= k < |t| ==> IsDigit(t[k])
    ensures SkipDigits(t, i) == |t|
    decreases |t| - i
  {
    if i < |t| {
      DigitsTaken(t, i + 1);
    }
  }

  /** Every printed long is a number lexeme. */
  lemma DecimalIsLexeme(v: int)
    ensures JsonRoundTrip.IsLexeme(Decimal(v))
  {
    var t := Decimal(v);
    DigitsTaken(t, if v < 0 then 1 else 0);
  }

  /** The number that decimal digits stand for, by position. */
  function Worth(t: Text): int {
    if t == [] then 0 else 10 * Worth(t[..|t| - 1]) + (t[|t| - 1] - 48)
  }

  lemma {:induction false} DigitsWorth(n: nat)
    ensures Worth(Digits(n)) == n && Digits(n) != []
    ensures forall i :: 0 <= i < |Digits(n)| ==> 48 <= Digits(n)[i] <= 57
    ensures n > 0 ==> Digits(n)[0] != 48
    ensures n == 0 ==> Digits(n) == [48]
    decreases n
  {
    if n >= 10 {
      DigitsWorth(n / 10);
      assert Digits(n)[..|Digits(n)| - 1] == Digits(n / 10);
    } else {
      assert Digits(n)[..0] == [];
    }
  }

  /** A minus for a negative number, and digits worth its magnitude, without leading zeros. */
  lemma DecimalIsWorth(v: int)
    ensures var t := Decimal(v);
            var digits := if v < 0 then t[1..] else t;
            && t != [] && (v < 0 <==> t[0] == 45) && digits != []
            && (forall i :: 0 <= i < |digits| ==> 48 <= digits[i] <= 57)
            && Worth(digits) == (if v < 0 then -v else v)
            && (digits[0] == 48 ==> v == 0 && digits == [48])
  {
    DigitsWorth(if v < 0 then -v else v);
    hide Digits, Worth;
    if v < 0 {
      assert Decimal(v)[1..] == Digits(-v);
    }
  }

  lemma {:induction false} DigitsInjective(m: nat, n: nat)
    requires Digits(m) == Digits(n)
    ensures m == n
  {
    var s, t := Digits(m), Digits(n);
    if m >= 10 && n >= 10 {
      assert s[..|s| - 1] == Digits(m / 10) && t[..|t| - 1] == Digits(n / 10);
      assert s[|s| - 1] == 48 + m % 10 && t[|t| - 1] == 48 + n % 10;
      DigitsInjective(m / 10, n / 10);
    }
  }

  lemma {:induction false} PrintFieldsAppend(fields: seq<Field>, f: Field)
    ensures PrintFields(fields + [f])
            == PrintFields(fields) + (if fields == [] then [] else [COMMA]) + PrintField(f)
  {
    hide PrintField;
    if fields == [] {
      assert [] + [f] == [f];
    } else {
      PrintFieldsAppend(fields[1..], f);
      assert (fields + [f])[1..] == fields[1..] + [f];
      assert (fields + [f])[0] == fields[0];
    }
  }

  /** The object builder; `fields` is what was put in so far. */
  class Jobj {
    const s: Sbuf
    var n: nat
    ghost var fields: seq<Field>

    ghost predicate Valid()
      reads this, s, s.data
    {
      && s.Valid() && s.Terminated() && n == |fields|
      && (forall f :: f in fields ==> Plain(f.value))
      && (!s.err ==> s.Contents() == [OPEN_BRACE] + PrintFields(fields))
    }

    constructor (heap: nat -> bool)
      ensures Valid() && fields == [] && fresh(s) && s.heap == heap
      ensures s.data != null ==> fresh(s.data)
    {
      var buffer := new Sbuf(heap);
      buffer.PutN([OPEN_BRACE]);
      s := buffer;
      n := 0;
      fields := [];
    }

    /** The separator, the key and the colon. */
    method Key(key: seq<int>)
      requires Valid()
      modifies this, s, s.data
      ensures s.Valid() && s.Terminated() && n == old(n) + 1 && fields == old(fields)
      ensures s.data == old(s.data) || fresh(s.data)
      ensures old(s.err) ==> s.err
      ensures !s.err ==> s.Contents() == [OPEN_BRACE] + PrintFields(fields)
                                         + (if fields == [] then [] else [COMMA]) + PrintString(key) + [COLON]
      ensures old(s.Roomy(|PrintString(key)| + 2)) ==> !s.err
    {
      hide PrintFields, PrintString;
      ghost var base := [OPEN_BRACE] + PrintFields(fields);
      n := n + 1;
      if n > 1 {
        s.PutN([COMMA]);
      } else {
        assert base + [] == base;
      }
      assert !s.err ==> s.Contents() == base + if fields == [] then [] else [COMMA];
      s.PutJsonString(Some(key));
      s.PutN([COLON]);
    }

    ghost method Record(f: Field)
      requires s.Valid() && s.Terminated() && n == |fields| + 1
      requires Plain(f.value) && forall g :: g in fields ==> Plain(g.value)
      requires !s.err ==> s.Contents() == [OPEN_BRACE] + PrintFields(fields)
                                          + (if fields == [] then [] else [COMMA]) + PrintString(f.key) + [COLON]
                                          + Print(f.value)
      modifies this`fields
      ensures Valid() && fields == old(fields) + [f]
    {
      hide PrintField, PrintString, Print, PrintFields;
      FieldText([OPEN_BRACE] + PrintFields(fields) + (if fields == [] then [] else [COMMA]), f);
      PrintFieldsAppend(fields, f);
      fields := fields + [f];
    }

    method PutStr(key: seq<int>, val: Option<seq<int>>)
      requires Valid()
      modifies this, s, s.data
      ensures Valid() && fields == old(fields) + [Field(key, Str(val.GetOr([])))]
      ensures s.data == old(s.data) || fresh(s.data)
      ensures old(s.err) ==> s.err
      ensures old(s.Roomy(|PrintString(key)| + 2 + |PrintString(val.GetOr([]))|)) ==> !s.err
    {
      hide PrintFields, PrintString, Print;
      PrintText(val.GetOr([]));
      Key(key);
      s.PutJsonString(val);
      Record(Field(key, Str(val.GetOr([]))));
    }

    method PutLong(key: seq<int>, val: int)
      requires Valid()
      modifies this, s, s.data
      ensures Valid() && fields == old(fields) + [Field(key, Number(Decimal(val)))]
      ensures s.data == old(s.data) || fresh(s.data)
      ensures old(s.err) ==> s.err
      ensures old(s.Roomy(|PrintString(key)| + 2 + |Decimal(val)|)) ==> !s.err
    {
      hide PrintFields, PrintString, Decimal, Print;
      PrintNumber(Decimal(val));
      DecimalIsLexeme(val);
      Key(key);
      s.PutN(Decimal(val));
      Record(Field(key, Number(Decimal(val))));
    }

    method PutBool(key: seq<int>, val: bool)
      requires Valid()
      modifies this, s, s.data
      ensures Valid() && fields == old(fields) + [Field(key, Boolean(val))]
      ensures s.data == old(s.data) || fresh(s.data)
      ensures old(s.err) ==> s.err
      ensures old(s.Roomy(|PrintString(key)| + 2 + 5)) ==> !s.err
    {
      hide PrintFields, PrintString, Print;
      PrintBoolean(val);
      var text := if val then TRUE_TEXT else FALSE_TEXT;
      Key(key);
      s.PutN(text);
      Record(Field(key, Boolean(val)));
    }

    /** The finished text, or None when any append failed. */
    method Finish() returns (r: Option<seq<int>>)
      requires Valid()
      modifies this, s, s.data
      ensures r.Some? ==> r.value == Print(Obj(old(fields)))
      ensures r.Some? && DistinctKeys(old(fields)) ==> Parse(r.value) == Ok(Obj(old(fields)))
      ensures r.None? <==> s.err
      ensures old(s.err) ==> r.None?
      ensures old(s.Roomy(1)) ==> r.Some?
    {
      hide PrintFields;
      s.PutN([CLOSE_BRACE]);
      if s.err {
        return None;
      }
      r := Some(s.data[..s.len]);
      if DistinctKeys(fields) {
        FinishedObjectReadsBack(fields);
      }
    }
  }

  lemma FieldText(before: seq<int>, f: Field)
    ensures before + PrintString(f.key) + [COLON] + Print(f.value) == before + PrintField(f)
  {
    hide PrintString, Print;
    var key, text := PrintString(f.key), Print(f.value);
    assert before + (key + [COLON]) == before + key + [COLON];
    assert before + ((key + [COLON]) + text) == (before + (key + [COLON])) + text;
  }

  lemma PrintText(s: seq<int>)
    ensures Print(Str(s)) == PrintString(s)
  {
  }

  lemma PrintBoolean(b: bool)
    ensures Print(Boolean(b)) == if b then TRUE_TEXT else FALSE_TEXT
  {
  }

  lemma PrintNumber(lexeme: seq<int>)
    ensures Print(Number(lexeme)) == lexeme
  {
  }

  /** The values the builder's three operations put in. */
  predicate Plain(v: Value) {
    v.Str? || v.Boolean? || (v.Number? && JsonRoundTrip.IsLexeme(v.lexeme))
  }

  ghost predicate DistinctKeys(fields: seq<Field>) {
    forall i, j :: 0 <= i < j < |fields| ==> fields[i].key != fields[j].key
  }

  /** A finished object with distinct keys reads back, in the other client's reader, as its fields. */
  lemma FinishedObjectReadsBack(fields: seq<Field>)
    requires forall f :: f in fields ==> Plain(f.value)
    requires DistinctKeys(fields)
    ensures Parse(Print(Obj(fields))) == Ok(Obj(fields))
  {
    JsonRoundTrip.PrintParse(Obj(fields));
  }
}
