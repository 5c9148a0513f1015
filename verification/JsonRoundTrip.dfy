/**
 Reading back what was printed: a document is a value with whitespace chosen
 freely at every place between its tokens, and every document parses to its
 value and leaves the cursor right after it.
 */
module JsonRoundTrip {
  import opened Wrappers
  import opened Json

  /** A value with whitespace between its tokens; `inner` is that of an empty list or object. */
  datatype Doc =
    | Leaf(v: Value)
    | ListDoc(inner: Text, items: seq<Slot>)
    | ObjDoc(inner: Text, members: seq<Member>)

  datatype Slot = Slot(pre: Text, doc: Doc, post: Text)

  datatype Member = Member(beforeKey: Text, key: Text, afterKey: Text, slot: Slot)

  predicate IsBlank(t: Text) {
    forall i :: 0 <= i < |t| ==> IsWhitespace(t[i])
  }

  predicate IsLexeme(t: Text) {
    IsDouble(t) && forall i :: 0 <= i < |t| ==> IsNumeric(t[i])
  }

  function Show(d: Doc): Text {
    match d
    case Leaf(v) => Print(v)
    case ListDoc(inner, items) =>
      [OPEN_BRACKET] + (if items == [] then inner else ShowItems(items)) + [CLOSE_BRACKET]
    case ObjDoc(inner, members) =>
      [OPEN_BRACE] + (if members == [] then inner else ShowMembers(members)) + [CLOSE_BRACE]
  }

  function ShowSlot(x: Slot): Text {
    x.pre + (Show(x.doc) + x.post)
  }

  function ShowItems(items: seq<Slot>): Text
    requires items != []
  {
    ShowSlot(items[0]) + (if |items| == 1 then [] else [COMMA] + ShowItems(items[1..]))
  }

  function ShowMember(m: Member): Text {
    m.beforeKey + (PrintString(m.key) + (m.afterKey + ([COLON] + ShowSlot(m.slot))))
  }

  function ShowMembers(members: seq<Member>): Text
    requires members != []
  {
    ShowMember(members[0]) + (if |members| == 1 then [] else [COMMA] + ShowMembers(members[1..]))
  }

  function Erase(d: Doc): Value {
    match d
    case Leaf(v) => v
    case ListDoc(_, items) => List(EraseItems(items))
    case ObjDoc(_, members) => Obj(EraseMembers(members))
  }

  function EraseItems(items: seq<Slot>): seq<Value> {
    if items == [] then [] else [Erase(items[0].doc)] + EraseItems(items[1..])
  }

  function EraseMembers(members: seq<Member>): seq<Field> {
    if members == [] then []
    else [Field(members[0].key, Erase(members[0].slot.doc))] + EraseMembers(members[1..])
  }

  predicate WellDoc(d: Doc) {
    match d
    case Leaf(v) => !v.List? && !v.Obj? && (v.Number? ==> IsLexeme(v.lexeme))
    case ListDoc(inner, items) =>
      IsBlank(inner) && forall i :: 0 <= i < |items| ==> WellSlot(items[i])
    case ObjDoc(inner, members) =>
      && IsBlank(inner)
      && (forall i :: 0 <= i < |members| ==>
            IsBlank(members[i].beforeKey) && IsBlank(members[i].afterKey) && WellSlot(members[i].slot))
      && DistinctKeys(members)
  }

  predicate WellSlot(x: Slot) {
    IsBlank(x.pre) && WellDoc(x.doc) && IsBlank(x.post)
  }

  predicate DistinctKeys(members: seq<Member>) {
    forall i, j :: 0 <= i < j < |members| ==> members[i].key != members[j].key
  }

  // ---- positions ----------------------------------------------------------------

  /** `t` stands in `s` at index `i`. */
  predicate At(s: Text, i: nat, t: Text) {
    i + |t| <= |s| && s[i..i + |t|] == t
  }

  lemma AtSplit(s: Text, i: nat, a: Text, b: Text)
    requires At(s, i, a + b)
    ensures At(s, i, a) && At(s, i + |a|, b)
  {
    var t := s[i..i + |a| + |b|];
    assert s[i..i + |a|] == t[..|a|] == a;
    assert s[i + |a|..i + |a| + |b|] == t[|a|..] == b;
  }

  lemma AtIndex(s: Text, i: nat, t: Text, k: nat)
    requires At(s, i, t) && k < |t|
    ensures s[i + k] == t[k]
  {
    assert s[i..i + |t|][k] == s[i + k];
  }

  lemma AtUnit(s: Text, i: nat, c: Unit)
    requires At(s, i, [c])
    ensures i < |s| && s[i] == c
  {
    assert s[i..i + 1][0] == s[i];
  }

  /** Index `i` is the end of the text or holds something no number contains. */
  predicate EndsNumber(s: Text, i: nat) {
    i >= |s| || !IsNumeric(s[i])
  }

  lemma {:induction false} BlankSkipped(s: Text, i: nat, w: Text)
    requires At(s, i, w) && IsBlank(w)
    requires i + |w| >= |s| || !IsWhitespace(s[i + |w|])
    ensures WsEnd(s, i) == i + |w|
    decreases |w|
  {
    if w != [] {
      AtSplit(s, i, w[..1], w[1..]);
      assert w == w[..1] + w[1..];
      assert s[i] == w[0];
      BlankSkipped(s, i + 1, w[1..]);
    }
  }

  lemma {:induction false} LexemeTaken(s: Text, i: nat, t: Text)
    requires At(s, i, t) && forall k :: 0 <= k < |t| ==> IsNumeric(t[k])
    requires EndsNumber(s, i + |t|)
    ensures NumEnd(s, i) == i + |t|
    decreases |t|
  {
    if t != [] {
      assert t == t[..1] + t[1..];
      AtSplit(s, i, t[..1], t[1..]);
      assert s[i] == t[0];
      LexemeTaken(s, i + 1, t[1..]);
    }
  }

  // ---- strings ------------------------------------------------------------------

  lemma HexPair(c: Unit)
    requires 0 <= c < 32
    ensures ParseUnit([48, 48, HexDigit(c / 16), HexDigit(c % 16)]) == Some(c)
  {
    var t: Text := [48, 48, HexDigit(c / 16), HexDigit(c % 16)];
    assert t[..3][..2][..1][..0] == [];
    assert HexNumber(t[..3][..2][..1]) == Some(0);
    assert HexNumber(t[..3][..2]) == Some(0);
    assert HexNumber(t[..3]) == Some(c / 16);
    assert HexNumber(t) == Some(c);
  }

  /** One escaped unit is read back as that unit. */
  lemma UnitRoundTrip(s: Text, i: nat, c: Unit, acc: Text)
    requires At(s, i, EscapeUnit(c))
    ensures ParseStringBody(s, i, acc) == ParseStringBody(s, i + |EscapeUnit(c)|, acc + [c])
  {
    var t := EscapeUnit(c);
    AtIndex(s, i, t, 0);
    if |t| > 1 {
      AtIndex(s, i, t, 1);
    }
    if |t| == 6 {
      assert s[i + 2..i + 6] == s[i..i + 6][2..] == t[2..];
      assert t[2..] == [48, 48, HexDigit(c / 16), HexDigit(c % 16)];
      HexPair(c);
    }
  }

  lemma {:induction false} BodyRoundTrip(s: Text, i: nat, t: Text, acc: Text)
    requires At(s, i, Escape(t) + [QUOTE])
    ensures ParseStringBody(s, i, acc) == Ok(Parsed(acc + t, i + |Escape(t)| + 1))
    decreases |t|
  {
    hide ParseStringBody, EscapeUnit, At;
    if t == [] {
      assert Escape(t) + [QUOTE] == [QUOTE];
      BodyEnd(s, i, acc);
      assert acc + t == acc;
    } else {
      var head, tail := EscapeUnit(t[0]), Escape(t[1..]) + [QUOTE];
      assert Escape(t) + [QUOTE] == head + tail;
      AtSplit(s, i, head, tail);
      UnitRoundTrip(s, i, t[0], acc);
      BodyRoundTrip(s, i + |head|, t[1..], acc + [t[0]]);
      AppendOne(acc, t[0], t[1..]);
      assert [t[0]] + t[1..] == t;
    }
  }

  lemma BodyEnd(s: Text, i: nat, acc: Text)
    requires At(s, i, [QUOTE])
    ensures ParseStringBody(s, i, acc) == Ok(Parsed(acc, i + 1))
  {
    AtUnit(s, i, QUOTE);
  }

  lemma StringRoundTrip(s: Text, i: nat, t: Text)
    requires At(s, i, PrintString(t))
    ensures ParseString(s, i) == Ok(Parsed(t, i + |PrintString(t)|))
    ensures i < |s| && s[i] == QUOTE
  {
    assert PrintString(t) == [QUOTE] + (Escape(t) + [QUOTE]);
    AtSplit(s, i, [QUOTE], Escape(t) + [QUOTE]);
    AtUnit(s, i, QUOTE);
    BodyRoundTrip(s, i + 1, t, []);
    assert [] + t == t;
  }

  // ---- documents ------------------------------------------------------------------

  /** No value starts with whitespace, a comma or a closing bracket. */
  lemma FirstUnit(d: Doc)
    requires WellDoc(d)
    ensures Show(d) != [] && !IsWhitespace(Show(d)[0])
    ensures Show(d)[0] != CLOSE_BRACKET && Show(d)[0] != CLOSE_BRACE
  {
  }

  lemma LeafRoundTrip(s: Text, i: nat, d: Doc)
    requires d.Leaf? && WellDoc(d) && At(s, i, Show(d)) && EndsNumber(s, i + |Show(d)|)
    ensures ParseValue(s, i) == Ok(Parsed(Erase(d), i + |Show(d)|))
  {
    var t := Show(d);
    FirstUnit(d);
    assert s[i..i + |t|][0] == s[i];
    hide ParseItems, ParseFields, ParseString, PrintString, Escape;
    match d.v {
      case Number(lexeme) => LexemeTaken(s, i, lexeme);
      case Str(x) => StringRoundTrip(s, i, x);
      case _ =>
    }
  }

  /** Leading whitespace before a document is skipped by the parser itself. */
  lemma SkipBefore(s: Text, i: nat, pre: Text, d: Doc)
    requires IsBlank(pre) && WellDoc(d) && At(s, i, pre) && At(s, i + |pre|, Show(d))
    ensures WsEnd(s, i) == i + |pre| == WsEnd(s, i + |pre|)
    ensures ParseValue(s, i) == ParseValue(s, i + |pre|)
    ensures i + |pre| < |s| && s[i + |pre|] == Show(d)[0]
  {
    hide ParseValue, Print, Show;
    FirstUnit(d);
    AtIndex(s, i + |pre|, Show(d), 0);
    BlankSkipped(s, i, pre);
    BlankSkipped(s, i + |pre|, []);
    SameStart(s, i, i + |pre|);
  }

  lemma SameStart(s: Text, i: nat, j: nat)
    requires WsEnd(s, i) == WsEnd(s, j)
    ensures ParseValue(s, i) == ParseValue(s, j)
  {
    hide ParseItems, ParseFields, ParseString, WsEnd;
  }

  /** Whitespace and what follows it. */
  lemma SkipTo(s: Text, i: nat, w: Text, c: Unit)
    requires At(s, i, w) && IsBlank(w) && At(s, i + |w|, [c]) && !IsWhitespace(c)
    ensures WsEnd(s, i) == i + |w| < |s| && s[i + |w|] == c
  {
    AtUnit(s, i + |w|, c);
    BlankSkipped(s, i, w);
  }

  /** Whitespace or a closing or separating mark ends a number. */
  lemma AfterSlot(s: Text, i: nat, w: Text, c: Unit)
    requires At(s, i, w) && IsBlank(w) && At(s, i + |w|, [c]) && !IsNumeric(c)
    ensures EndsNumber(s, i)
  {
    if w != [] {
      assert s[i..i + |w|][0] == s[i];
    } else {
      AtUnit(s, i, c);
    }
  }

  lemma Regroup(a: Text, b: Text, c: Text, d: Text)
    ensures (a + (b + c)) + d == (a + b) + (c + d)
  {
  }

  lemma AppendOne<T>(a: seq<T>, x: T, b: seq<T>)
    ensures (a + [x]) + b == a + ([x] + b)
  {
  }

  // ---- one step of the parser ----------------------------------------------------------

  lemma ListStep(s: Text, i: nat)
    requires WsEnd(s, i) == i < |s| && s[i] == OPEN_BRACKET && WsEnd(s, i + 1) < |s|
    ensures var k := WsEnd(s, i + 1);
            ParseValue(s, i) == if s[k] == CLOSE_BRACKET then Ok(Parsed(List([]), k + 1)) else ParseItems(s, k, [])
  {
    hide ParseItems, ParseFields, ParseString;
  }

  lemma ObjectStep(s: Text, i: nat)
    requires WsEnd(s, i) == i < |s| && s[i] == OPEN_BRACE && WsEnd(s, i + 1) < |s|
    ensures var k := WsEnd(s, i + 1);
            ParseValue(s, i) == if s[k] == CLOSE_BRACE then Ok(Parsed(Obj([]), k + 1)) else ParseFields(s, k, [])
  {
    hide ParseItems, ParseFields, ParseString;
  }

  lemma ItemsStep(s: Text, i: nat, acc: seq<Value>, p: Parsed<Value>)
    requires ParseValue(s, i) == Ok(p) && WsEnd(s, p.next) < |s|
    ensures var j := WsEnd(s, p.next);
            ParseItems(s, i, acc)
            == if s[j] == CLOSE_BRACKET then Ok(Parsed(List(acc + [p.value]), j + 1))
               else ParseItems(s, j + 1, acc + [p.value])
  {
    hide ParseValue, ParseFields, WsEnd;
  }

  lemma FieldsStep(s: Text, i: nat, acc: seq<Field>, key: Parsed<Text>, p: Parsed<Value>)
    requires ParseString(s, WsEnd(s, i)) == Ok(key)
    requires ParseValue(s, WsEnd(s, key.next) + 1) == Ok(p) && WsEnd(s, p.next) < |s|
    ensures var j := WsEnd(s, p.next);
            ParseFields(s, i, acc)
            == if s[j] == CLOSE_BRACE then Ok(Parsed(Obj(Put(acc, key.value, p.value)), j + 1))
               else ParseFields(s, j + 1, Put(acc, key.value, p.value))
  {
    hide ParseValue, ParseItems, ParseString, WsEnd;
  }

  lemma ItemsAfterBlank(s: Text, i: nat, acc: seq<Value>)
    requires ParseValue(s, WsEnd(s, i)) == ParseValue(s, i)
    ensures ParseItems(s, WsEnd(s, i), acc) == ParseItems(s, i, acc)
  {
    hide ParseValue, ParseFields, WsEnd;
  }

  lemma FieldsAfterBlank(s: Text, i: nat, acc: seq<Field>)
    requires WsEnd(s, WsEnd(s, i)) == WsEnd(s, i)
    ensures ParseFields(s, WsEnd(s, i), acc) == ParseFields(s, i, acc)
  {
    hide ParseValue, ParseItems, ParseString, WsEnd;
  }

  /** A document followed by something that ends a number parses to its value, to its very end. */
  lemma {:induction false} DocRoundTrip(s: Text, i: nat, d: Doc)
    requires WellDoc(d) && At(s, i, Show(d)) && EndsNumber(s, i + |Show(d)|)
    ensures ParseValue(s, i) == Ok(Parsed(Erase(d), i + |Show(d)|))
    decreases d, 1
  {
    hide ParseValue, ParseItems, ParseFields, ParseString, WsEnd, At, Print, PrintString, Escape;
    if d.Leaf? {
      LeafRoundTrip(s, i, d);
    } else if d.ListDoc? {
      ListRoundTrip(s, i, d);
    } else {
      ObjectRoundTrip(s, i, d);
    }
  }

  lemma ShowList(d: Doc)
    requires d.ListDoc?
    ensures Show(d) == [OPEN_BRACKET] + ((if d.items == [] then d.inner else ShowItems(d.items)) + [CLOSE_BRACKET])
  {
    hide ShowItems;
  }

  lemma ShowObject(d: Doc)
    requires d.ObjDoc?
    ensures Show(d) == [OPEN_BRACE] + ((if d.members == [] then d.inner else ShowMembers(d.members)) + [CLOSE_BRACE])
  {
    hide ShowMembers;
  }

  lemma {:induction false} ListRoundTrip(s: Text, i: nat, d: Doc)
    requires d.ListDoc? && WellDoc(d) && At(s, i, Show(d))
    ensures ParseValue(s, i) == Ok(Parsed(Erase(d), i + |Show(d)|))
    decreases d, 0
  {
    hide ParseValue, ParseItems, ParseFields, ParseString, WsEnd, At, Print, PrintString, Escape, Show, ShowItems;
    ShowList(d);
    var body := if d.items == [] then d.inner else ShowItems(d.items);
    AtSplit(s, i, [OPEN_BRACKET], body + [CLOSE_BRACKET]);
    SkipTo(s, i, [], OPEN_BRACKET);
    if d.items == [] {
      AtSplit(s, i + 1, d.inner, [CLOSE_BRACKET]);
      SkipTo(s, i + 1, d.inner, CLOSE_BRACKET);
    } else {
      ItemsRoundTrip(s, i + 1, d.items, []);
      assert [] + EraseItems(d.items) == EraseItems(d.items);
    }
    ListStep(s, i);
  }

  lemma {:induction false} ObjectRoundTrip(s: Text, i: nat, d: Doc)
    requires d.ObjDoc? && WellDoc(d) && At(s, i, Show(d))
    ensures ParseValue(s, i) == Ok(Parsed(Erase(d), i + |Show(d)|))
    decreases d, 0
  {
    hide ParseValue, ParseItems, ParseFields, ParseString, WsEnd, At, Print, PrintString, Escape, Show, ShowMembers, ShowSlot;
    ShowObject(d);
    var body := if d.members == [] then d.inner else ShowMembers(d.members);
    AtSplit(s, i, [OPEN_BRACE], body + [CLOSE_BRACE]);
    SkipTo(s, i, [], OPEN_BRACE);
    if d.members == [] {
      AtSplit(s, i + 1, d.inner, [CLOSE_BRACE]);
      SkipTo(s, i + 1, d.inner, CLOSE_BRACE);
    } else {
      MembersRoundTrip(s, i + 1, d.members, []);
      assert [] + EraseMembers(d.members) == EraseMembers(d.members);
    }
    ObjectStep(s, i);
  }

  /** A slot and the mark after it: the value is read, then the mark is next but for whitespace. */
  lemma {:induction false} SlotRoundTrip(s: Text, i: nat, x: Slot, c: Unit)
    requires WellSlot(x) && At(s, i, ShowSlot(x) + [c]) && !IsWhitespace(c) && !IsNumeric(c)
    ensures ParseValue(s, i) == Ok(Parsed(Erase(x.doc), i + |x.pre| + |Show(x.doc)|))
    ensures WsEnd(s, i + |x.pre| + |Show(x.doc)|) == i + |ShowSlot(x)| < |s|
    ensures s[i + |ShowSlot(x)|] == c
    ensures WsEnd(s, i) < |s| && s[WsEnd(s, i)] == Show(x.doc)[0]
    ensures ParseValue(s, WsEnd(s, i)) == ParseValue(s, i)
    decreases x, 1
  {
    hide ParseValue, ParseItems, ParseFields, ParseString, WsEnd, At, Print, PrintString, Escape, Show, WellDoc;
    SlotParts(s, i, x, c);
    var end := i + |x.pre| + |Show(x.doc)|;
    assert EndsNumber(s, end) && WsEnd(s, end) == end + |x.post| && s[WsEnd(s, end)] == c by {
      AfterSlot(s, end, x.post, c);
      SkipTo(s, end, x.post, c);
    }
    SkipBefore(s, i, x.pre, x.doc);
    DocRoundTrip(s, i + |x.pre|, x.doc);
  }

  lemma SlotParts(s: Text, i: nat, x: Slot, c: Unit)
    requires At(s, i, ShowSlot(x) + [c])
    ensures At(s, i, x.pre) && At(s, i + |x.pre|, Show(x.doc))
    ensures At(s, i + |x.pre| + |Show(x.doc)|, x.post) && At(s, i + |x.pre| + |Show(x.doc)| + |x.post|, [c])
    ensures |ShowSlot(x)| == |x.pre| + |Show(x.doc)| + |x.post|
  {
    var t := Show(x.doc);
    assert ShowSlot(x) + [c] == x.pre + (t + (x.post + [c]));
    AtSplit(s, i, x.pre, t + (x.post + [c]));
    AtSplit(s, i + |x.pre|, t, x.post + [c]);
    AtSplit(s, i + |x.pre| + |t|, x.post, [c]);
  }

  /** One item read, up to the comma or the bracket behind it. */
  lemma {:induction false} ItemStep(s: Text, i: nat, x: Slot, acc: seq<Value>, c: Unit)
    requires WellSlot(x) && At(s, i, ShowSlot(x) + [c]) && (c == COMMA || c == CLOSE_BRACKET)
    ensures ParseItems(s, i, acc) ==
            var j := i + |ShowSlot(x)|;
            if c == CLOSE_BRACKET then Ok(Parsed(List(acc + [Erase(x.doc)]), j + 1))
            else ParseItems(s, j + 1, acc + [Erase(x.doc)])
    ensures WsEnd(s, i) < |s| && s[WsEnd(s, i)] != CLOSE_BRACKET
    ensures ParseItems(s, WsEnd(s, i), acc) == ParseItems(s, i, acc)
    decreases x, 2
  {
    hide ParseValue, ParseItems, ParseFields, ParseString, WsEnd, At, Print, PrintString, Escape, Show, WellDoc, ShowSlot, Erase, IsBlank;
    var p := Parsed(Erase(x.doc), i + |x.pre| + |Show(x.doc)|);
    FirstUnit(x.doc);
    SlotRoundTrip(s, i, x, c);
    ItemsStep(s, i, acc, p);
    ItemsAfterBlank(s, i, acc);
  }

  lemma OneMoreItem(acc: seq<Value>, items: seq<Slot>)
    requires items != []
    ensures acc + EraseItems(items) == (acc + [Erase(items[0].doc)]) + EraseItems(items[1..])
  {
    hide Erase;
    AppendOne(acc, Erase(items[0].doc), EraseItems(items[1..]));
  }

  lemma NoItems(acc: seq<Value>)
    ensures acc + EraseItems([]) == acc
  {
  }

  lemma {:induction false} ItemsRoundTrip(s: Text, i: nat, items: seq<Slot>, acc: seq<Value>)
    requires items != [] && forall k :: 0 <= k < |items| ==> WellSlot(items[k])
    requires At(s, i, ShowItems(items) + [CLOSE_BRACKET])
    ensures ParseItems(s, i, acc) == Ok(Parsed(List(acc + EraseItems(items)), i + |ShowItems(items)| + 1))
    ensures WsEnd(s, i) < |s| && s[WsEnd(s, i)] != CLOSE_BRACKET
    ensures ParseItems(s, WsEnd(s, i), acc) == ParseItems(s, i, acc)
    decreases items
  {
    hide ParseItems, WsEnd, At, ShowSlot, WellSlot, Erase, EraseItems;
    var x, rest, text := items[0], items[1..], ShowSlot(items[0]);
    OneMoreItem(acc, items);
    if |items| == 1 {
      assert text + [] == text;
      ItemStep(s, i, x, acc, CLOSE_BRACKET);
      NoItems(acc + [Erase(x.doc)]);
    } else {
      Regroup(text, [COMMA], ShowItems(rest), [CLOSE_BRACKET]);
      AtSplit(s, i, text + [COMMA], ShowItems(rest) + [CLOSE_BRACKET]);
      ItemStep(s, i, x, acc, COMMA);
      ItemsRoundTrip(s, i + |text| + 1, rest, acc + [Erase(x.doc)]);
    }
  }

  lemma {:induction false} PutFresh(acc: seq<Field>, key: Text, value: Value)
    requires forall k :: 0 <= k < |acc| ==> acc[k].key != key
    ensures Put(acc, key, value) == acc + [Field(key, value)]
  {
    if acc != [] {
      PutFresh(acc[1..], key, value);
      assert acc == [acc[0]] + acc[1..];
    }
  }

  /** A member and the mark after it. */
  lemma {:induction false} MemberRoundTrip(s: Text, i: nat, m: Member, c: Unit)
    requires IsBlank(m.beforeKey) && IsBlank(m.afterKey) && WellSlot(m.slot)
    requires At(s, i, ShowMember(m) + [c]) && !IsWhitespace(c) && !IsNumeric(c)
    ensures WsEnd(s, i) == i + |m.beforeKey| < |s| && s[WsEnd(s, i)] == QUOTE
    ensures WsEnd(s, WsEnd(s, i)) == WsEnd(s, i)
    ensures var afterKey := i + |m.beforeKey| + |PrintString(m.key)|;
            var colon := afterKey + |m.afterKey|;
            && ParseString(s, WsEnd(s, i)) == Ok(Parsed(m.key, afterKey))
            && WsEnd(s, afterKey) == colon
            && ParseValue(s, colon + 1) == Ok(Parsed(Erase(m.slot.doc), colon + 1 + |m.slot.pre| + |Show(m.slot.doc)|))
            && WsEnd(s, colon + 1 + |m.slot.pre| + |Show(m.slot.doc)|) == i + |ShowMember(m)| < |s|
    ensures s[i + |ShowMember(m)|] == c
    decreases m, 0
  {
    hide ParseValue, ParseItems, ParseFields, ParseString, WsEnd, At, Print, PrintString, Escape, Show, WellDoc;
    var k := i + |m.beforeKey|;
    var afterKey := k + |PrintString(m.key)|;
    MemberParts(s, i, m, c);
    StringRoundTrip(s, k, m.key);
    SkipTo(s, i, m.beforeKey, QUOTE);
    BlankSkipped(s, k, []);
    SkipTo(s, afterKey, m.afterKey, COLON);
    SlotRoundTrip(s, afterKey + |m.afterKey| + 1, m.slot, c);
  }

  lemma MemberText(m: Member, c: Unit)
    ensures ShowMember(m) + [c]
         == m.beforeKey + (PrintString(m.key) + (m.afterKey + ([COLON] + (ShowSlot(m.slot) + [c]))))
  {
    hide PrintString, ShowSlot;
    var a, b, x, y, z := m.beforeKey, PrintString(m.key), m.afterKey, [COLON], ShowSlot(m.slot);
    assert y + (z + [c]) == (y + z) + [c];
    assert x + ((y + z) + [c]) == (x + (y + z)) + [c];
    assert b + ((x + (y + z)) + [c]) == (b + (x + (y + z))) + [c];
    assert ShowMember(m) == a + (b + (x + (y + z)));
  }

  lemma MemberParts(s: Text, i: nat, m: Member, c: Unit)
    requires At(s, i, ShowMember(m) + [c])
    ensures var k := i + |m.beforeKey|;
            var afterKey := k + |PrintString(m.key)|;
            && At(s, i, m.beforeKey) && At(s, k, [QUOTE]) && At(s, k, []) && At(s, k, PrintString(m.key))
            && At(s, afterKey, m.afterKey) && At(s, afterKey + |m.afterKey|, [COLON])
            && At(s, afterKey + |m.afterKey| + 1, ShowSlot(m.slot) + [c])
            && i + |ShowMember(m)| == afterKey + |m.afterKey| + 1 + |ShowSlot(m.slot)|
  {
    hide Print, PrintString, Show, ShowSlot, ShowMember, At;
    var key, slot := PrintString(m.key), ShowSlot(m.slot) + [c];
    var k := i + |m.beforeKey|;
    MemberText(m, c);
    AtSplit(s, i, m.beforeKey, key + (m.afterKey + ([COLON] + slot)));
    AtSplit(s, k, key, m.afterKey + ([COLON] + slot));
    AtSplit(s, k + |key|, m.afterKey, [COLON] + slot);
    AtSplit(s, k + |key| + |m.afterKey|, [COLON], slot);
    QuoteFirst(s, k, m.key);
    MemberLength(m);
  }

  lemma QuoteFirst(s: Text, k: nat, key: Text)
    requires At(s, k, PrintString(key))
    ensures At(s, k, [QUOTE]) && At(s, k, [])
  {
    hide Escape;
    assert PrintString(key) == [QUOTE] + (Escape(key) + [QUOTE]);
    AtSplit(s, k, [QUOTE], Escape(key) + [QUOTE]);
  }

  lemma MemberLength(m: Member)
    ensures |ShowMember(m)| == |m.beforeKey| + |PrintString(m.key)| + |m.afterKey| + 1 + |ShowSlot(m.slot)|
  {
    hide PrintString, ShowSlot;
  }

  predicate KeysApart(acc: seq<Field>, members: seq<Member>) {
    forall j, k :: 0 <= j < |acc| && 0 <= k < |members| ==> acc[j].key != members[k].key
  }

  lemma KeysApartNext(acc: seq<Field>, members: seq<Member>, value: Value)
    requires members != [] && DistinctKeys(members) && KeysApart(acc, members)
    ensures DistinctKeys(members[1..]) && KeysApart(acc + [Field(members[0].key, value)], members[1..])
    ensures Put(acc, members[0].key, value) == acc + [Field(members[0].key, value)]
  {
    PutFresh(acc, members[0].key, value);
  }

  predicate WellMembers(members: seq<Member>) {
    forall k :: 0 <= k < |members| ==>
                  IsBlank(members[k].beforeKey) && IsBlank(members[k].afterKey) && WellSlot(members[k].slot)
  }

  function FieldOf(m: Member): Field {
    Field(m.key, Erase(m.slot.doc))
  }

  /** One member read, up to the comma or the brace behind it. */
  lemma {:induction false} MemberStep(s: Text, i: nat, m: Member, acc: seq<Field>, c: Unit)
    requires IsBlank(m.beforeKey) && IsBlank(m.afterKey) && WellSlot(m.slot)
    requires At(s, i, ShowMember(m) + [c]) && (c == COMMA || c == CLOSE_BRACE)
    requires Put(acc, m.key, Erase(m.slot.doc)) == acc + [FieldOf(m)]
    ensures ParseFields(s, i, acc) ==
            var j := i + |ShowMember(m)|;
            if c == CLOSE_BRACE then Ok(Parsed(Obj(acc + [FieldOf(m)]), j + 1))
            else ParseFields(s, j + 1, acc + [FieldOf(m)])
    ensures WsEnd(s, i) < |s| && s[WsEnd(s, i)] == QUOTE
    ensures ParseFields(s, WsEnd(s, i), acc) == ParseFields(s, i, acc)
    decreases m, 1
  {
    hide ParseValue, ParseItems, ParseFields, ParseString, WsEnd, At, Print, PrintString, Escape, Show, WellDoc, ShowMember, ShowSlot, Erase, Put;
    var afterKey := i + |m.beforeKey| + |PrintString(m.key)|;
    var key := Parsed(m.key, afterKey);
    var p := Parsed(Erase(m.slot.doc), afterKey + |m.afterKey| + 1 + |m.slot.pre| + |Show(m.slot.doc)|);
    MemberRoundTrip(s, i, m, c);
    FieldsStep(s, i, acc, key, p);
    FieldsAfterBlank(s, i, acc);
  }

  lemma OneMore(acc: seq<Field>, members: seq<Member>)
    requires members != []
    ensures acc + EraseMembers(members) == (acc + [FieldOf(members[0])]) + EraseMembers(members[1..])
  {
    hide Erase;
    AppendOne(acc, FieldOf(members[0]), EraseMembers(members[1..]));
  }

  lemma {:induction false} MembersRoundTrip(s: Text, i: nat, members: seq<Member>, acc: seq<Field>)
    requires members != [] && DistinctKeys(members) && KeysApart(acc, members) && WellMembers(members)
    requires At(s, i, ShowMembers(members) + [CLOSE_BRACE])
    ensures ParseFields(s, i, acc) == Ok(Parsed(Obj(acc + EraseMembers(members)), i + |ShowMembers(members)| + 1))
    ensures WsEnd(s, i) < |s| && s[WsEnd(s, i)] == QUOTE
    ensures ParseFields(s, WsEnd(s, i), acc) == ParseFields(s, i, acc)
    decreases members
  {
    hide ParseFields, WsEnd, At, ShowMember, ShowSlot, Erase, Put, DistinctKeys, KeysApart, EraseMembers, IsBlank, WellSlot;
    var m, rest, text := members[0], members[1..], ShowMember(members[0]);
    KeysApartNext(acc, members, Erase(m.slot.doc));
    OneMore(acc, members);
    if |members| == 1 {
      assert text + [] == text;
      MemberStep(s, i, m, acc, CLOSE_BRACE);
      NoMembers(acc + [FieldOf(m)]);
    } else {
      var tail := ShowMembers(rest) + [CLOSE_BRACE];
      Regroup(text, [COMMA], ShowMembers(rest), [CLOSE_BRACE]);
      AtSplit(s, i, text + [COMMA], tail);
      MemberStep(s, i, m, acc, COMMA);
      MembersRoundTrip(s, i + |text| + 1, rest, acc + [FieldOf(m)]);
    }
  }

  lemma NoMembers(acc: seq<Field>)
    ensures acc + EraseMembers([]) == acc
  {
  }

  // ---- the printed text -------------------------------------------------------------

  /** What the round trip is promised for: lexemes the parser accepts, distinct keys. */
  predicate WellFormed(v: Value) {
    match v
    case Number(lexeme) => IsLexeme(lexeme)
    case List(items) => forall i :: 0 <= i < |items| ==> WellFormed(items[i])
    case Obj(fields) =>
      && (forall i :: 0 <= i < |fields| ==> WellFormed(fields[i].value))
      && (forall i, j :: 0 <= i < j < |fields| ==> fields[i].key != fields[j].key)
    case _ => true
  }

  /** The document without any whitespace. */
  function Plain(v: Value): Doc {
    match v
    case List(items) => ListDoc([], PlainItems(items))
    case Obj(fields) => ObjDoc([], PlainMembers(fields))
    case _ => Leaf(v)
  }

  function PlainItems(items: seq<Value>): (r: seq<Slot>)
    ensures |r| == |items|
    ensures forall i :: 0 <= i < |r| ==> r[i] == Slot([], Plain(items[i]), [])
  {
    if items == [] then [] else [Slot([], Plain(items[0]), [])] + PlainItems(items[1..])
  }

  function PlainMembers(fields: seq<Field>): (r: seq<Member>)
    ensures |r| == |fields|
    ensures forall i :: 0 <= i < |r| ==>
                          r[i] == Member([], fields[i].key, [], Slot([], Plain(fields[i].value), []))
  {
    if fields == [] then []
    else [Member([], fields[0].key, [], Slot([], Plain(fields[0].value), []))] + PlainMembers(fields[1..])
  }

  lemma {:induction false} PlainIsPrint(v: Value)
    ensures Show(Plain(v)) == Print(v) && Erase(Plain(v)) == v
    ensures WellFormed(v) ==> WellDoc(Plain(v))
    decreases v
  {
    match v
    case List(items) =>
      PlainItemsPrint(items);
      forall i | 0 <= i < |items|
        ensures WellFormed(items[i]) ==> WellDoc(Plain(items[i]))
      {
        PlainIsPrint(items[i]);
      }
      assert items == [] ==> PlainItems(items) == [];
    case Obj(fields) =>
      PlainMembersPrint(fields);
      forall i | 0 <= i < |fields|
        ensures WellFormed(fields[i].value) ==> WellDoc(Plain(fields[i].value))
      {
        PlainIsPrint(fields[i].value);
      }
      assert fields == [] ==> PlainMembers(fields) == [];
    case _ =>
  }

  lemma {:induction false} PlainItemsPrint(items: seq<Value>)
    ensures items != [] ==> ShowItems(PlainItems(items)) == PrintItems(items)
    ensures EraseItems(PlainItems(items)) == items
    decreases items
  {
    hide Print, Show, Plain, Erase, WellDoc, WellFormed;
    if items != [] {
      PlainIsPrint(items[0]);
      PlainItemsPrint(items[1..]);
      assert PlainItems(items)[1..] == PlainItems(items[1..]);
      assert ShowSlot(PlainItems(items)[0]) == Print(items[0]);
    }
  }

  lemma {:induction false} PlainMembersPrint(fields: seq<Field>)
    ensures fields != [] ==> ShowMembers(PlainMembers(fields)) == PrintFields(fields)
    ensures EraseMembers(PlainMembers(fields)) == fields
    decreases fields
  {
    hide Print, Show, Plain, Escape, PrintString, Erase, WellDoc, WellFormed;
    if fields != [] {
      PlainIsPrint(fields[0].value);
      PlainMembersPrint(fields[1..]);
      assert PlainMembers(fields)[1..] == PlainMembers(fields[1..]);
      var m := PlainMembers(fields)[0];
      assert ShowSlot(m.slot) == Print(fields[0].value);
      assert ShowMember(m) == PrintField(fields[0]);
    }
  }

  lemma ThreeParts(pre: Text, t: Text, rest: Text)
    ensures At(pre + t + rest, 0, pre) && At(pre + t + rest, |pre|, t)
    ensures rest != [] ==> (pre + t + rest)[|pre| + |t|] == rest[0]
  {
  }

  /** Any whitespace around a document as well: the parser returns its value. */
  lemma ParseDocument(pre: Text, d: Doc, rest: Text)
    requires IsBlank(pre) && WellDoc(d) && (rest != [] ==> !IsNumeric(rest[0]))
    ensures Parse(pre + Show(d) + rest) == Ok(Erase(d))
    ensures ParseValue(pre + Show(d) + rest, |pre|) == Ok(Parsed(Erase(d), |pre + Show(d)|))
  {
    hide ParseValue, ParseItems, ParseFields, Print, Show, WellDoc, Erase, IsBlank, WsEnd, At;
    var s := pre + Show(d) + rest;
    ThreeParts(pre, Show(d), rest);
    SkipBefore(s, 0, pre, d);
    DocRoundTrip(s, |pre|, d);
    FirstUnit(d);
  }

  /** Reading what was printed gives the value back. */
  lemma PrintParse(v: Value)
    requires WellFormed(v)
    ensures Parse(Print(v)) == Ok(v)
  {
    hide Show, Print, Parse, ParseValue, WellDoc, WellFormed, Erase, Plain;
    PlainIsPrint(v);
    ParseDocument([], Plain(v), []);
    assert [] + Show(Plain(v)) + [] == Show(Plain(v));
  }

  /** So printing is injective: no two well-formed values share a text. */
  lemma PrintInjective(v: Value, w: Value)
    requires WellFormed(v) && WellFormed(w) && Print(v) == Print(w)
    ensures v == w
  {
    PrintParse(v);
    PrintParse(w);
  }
}
