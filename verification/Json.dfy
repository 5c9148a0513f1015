/**
 JSON as the Java client reads and writes it, on UTF-16 code units. Numbers are
 their lexemes. The functions of this module are total: on any text they say
 what the parser returns and where it stops, or that it raises.
 */
module Json {
  import opened Wrappers

  /** A code unit. Those of a Java string are below 65536; nothing here depends on it. */
  type Unit = int
  type Text = seq<int>

  datatype Value =
    | Null
    | Boolean(b: bool)
    | Number(lexeme: Text)
    | Str(s: Text)
    | List(items: seq<Value>)
    | Obj(fields: seq<Field>)

  datatype Field = Field(key: Text, value: Value)

  /** What was read, and the index after it. */
  datatype Parsed<+T> = Parsed(value: T, next: nat)

  const QUOTE: Unit := 34
  const PLUS: Unit := 43
  const COMMA: Unit := 44
  const MINUS: Unit := 45
  const DOT: Unit := 46
  const COLON: Unit := 58
  const OPEN_BRACKET: Unit := 91
  const BACKSLASH: Unit := 92
  const CLOSE_BRACKET: Unit := 93
  const OPEN_BRACE: Unit := 123
  const CLOSE_BRACE: Unit := 125
  const LOWER_B: Unit := 98
  const LOWER_F: Unit := 102
  const LOWER_N: Unit := 110
  const LOWER_R: Unit := 114
  const LOWER_T: Unit := 116
  const LOWER_U: Unit := 117

  const NULL_TEXT: Text := [110, 117, 108, 108]
  const TRUE_TEXT: Text := [116, 114, 117, 101]
  const FALSE_TEXT: Text := [102, 97, 108, 115, 101]

  // ---- characters -------------------------------------------------------------

  /** Character.isWhitespace. */
  predicate IsWhitespace(c: Unit) {
    || 9 <= c <= 13 || 28 <= c <= 32
    || c == 0x1680 || 0x2000 <= c <= 0x2006 || 0x2008 <= c <= 0x200A
    || c == 0x2028 || c == 0x2029 || c == 0x205F || c == 0x3000
  }

  predicate IsDigit(c: Unit) {
    48 <= c <= 57
  }

  /** The characters num() takes: signs, digits, the point and the exponent mark. */
  predicate IsNumeric(c: Unit) {
    c == PLUS || c == MINUS || IsDigit(c) || c == DOT || c == 101 || c == 69
  }

  function SkipDigits(t: Text, i: nat): (j: nat)
    ensures j >= i
    decreases |t| - i
  {
    if i < |t| && IsDigit(t[i]) then SkipDigits(t, i + 1) else i
  }

  /** The numeric lexemes Double.parseDouble accepts. */
  predicate IsDouble(t: Text) {
    var a := if t != [] && (t[0] == PLUS || t[0] == MINUS) then 1 else 0;
    var b := SkipDigits(t, a);
    var point := b < |t| && t[b] == DOT;
    var c := if point then SkipDigits(t, b + 1) else b;
    && (b > a || c > b + 1)
    && (c == |t| || (c < |t| && (t[c] == 101 || t[c] == 69) && ExponentEnds(t, c + 1)))
  }

  predicate ExponentEnds(t: Text, c: nat)
    requires c <= |t|
  {
    var d := if c < |t| && (t[c] == PLUS || t[c] == MINUS) then c + 1 else c;
    d < |t| && SkipDigits(t, d) == |t|
  }

  function HexDigit(d: nat): Unit
    requires d < 16
  {
    if d < 10 then 48 + d else 87 + d
  }

  function HexValue(c: Unit): (v: int)
    ensures -1 <= v < 16
  {
    if IsDigit(c) then c - 48
    else if 97 <= c <= 102 then c - 87
    else if 65 <= c <= 70 then c - 55
    else -1
  }

  function HexNumber(t: Text): (v: Option<nat>) {
    if t == [] then Some(0)
    else
      var init, last := HexNumber(t[..|t| - 1]), HexValue(t[|t| - 1]);
      if init.None? || last < 0 then None else Some(16 * init.value + last)
  }

  /** (char) Integer.parseInt(t, 16): a sign is allowed, and the cast wraps. */
  function ParseUnit(t: Text): (v: Option<Unit>) {
    var signed := t != [] && (t[0] == PLUS || t[0] == MINUS);
    var digits := if signed then t[1..] else t;
    if digits == [] then None
    else
      match HexNumber(digits)
      case None => None
      case Some(n) =>
        var magnitude: int := n;
        Some((if signed && t[0] == MINUS then -magnitude else magnitude) % 0x1_0000)
  }

  // ---- printing ---------------------------------------------------------------

  function EscapeUnit(c: Unit): (t: Text)
    ensures t != []
  {
    if c == QUOTE then [BACKSLASH, QUOTE]
    else if c == BACKSLASH then [BACKSLASH, BACKSLASH]
    else if c == 10 then [BACKSLASH, LOWER_N]
    else if c == 13 then [BACKSLASH, LOWER_R]
    else if c == 9 then [BACKSLASH, LOWER_T]
    else if c == 8 then [BACKSLASH, LOWER_B]
    else if c == 12 then [BACKSLASH, LOWER_F]
    else if 0 <= c < 32 then [BACKSLASH, LOWER_U, 48, 48, HexDigit(c / 16), HexDigit(c % 16)]
    else [c]
  }

  function Escape(s: Text): Text {
    if s == [] then [] else EscapeUnit(s[0]) + Escape(s[1..])
  }

  function PrintString(s: Text): Text {
    [QUOTE] + Escape(s) + [QUOTE]
  }

  function Print(v: Value): Text {
    match v
    case Null => NULL_TEXT
    case Boolean(b) => if b then TRUE_TEXT else FALSE_TEXT
    case Number(lexeme) => lexeme
    case Str(s) => PrintString(s)
    case List(items) => [OPEN_BRACKET] + PrintItems(items) + [CLOSE_BRACKET]
    case Obj(fields) => [OPEN_BRACE] + PrintFields(fields) + [CLOSE_BRACE]
  }

  function PrintItems(items: seq<Value>): Text {
    if items == [] then []
    else Print(items[0]) + (if |items| == 1 then [] else [COMMA] + PrintItems(items[1..]))
  }

  function PrintField(f: Field): Text {
    PrintString(f.key) + [COLON] + Print(f.value)
  }

  function PrintFields(fields: seq<Field>): Text {
    if fields == [] then []
    else PrintField(fields[0]) + (if |fields| == 1 then [] else [COMMA] + PrintFields(fields[1..]))
  }

  // ---- parsing ----------------------------------------------------------------

  function WsEnd(s: Text, i: nat): (j: nat)
    ensures i <= j
    ensures i <= |s| ==> j <= |s|
    decreases |s| - i
  {
    if i < |s| && IsWhitespace(s[i]) then WsEnd(s, i + 1) else i
  }

  function NumEnd(s: Text, i: nat): (j: nat)
    ensures i <= j
    ensures i <= |s| ==> j <= |s|
    decreases |s| - i
  {
    if i < |s| && IsNumeric(s[i]) then NumEnd(s, i + 1) else i
  }

  function Left(s: Text, i: nat): nat {
    if i < |s| then |s| - i else 0
  }

  /** The characters after an opening quote, from index `i` on. */
  function ParseStringBody(s: Text, i: nat, acc: Text): (r: Result<Parsed<Text>>)
    ensures r.Ok? ==> i < r.value.next <= |s|
    decreases Left(s, i)
  {
    if i >= |s| then Raised
    else if s[i] == QUOTE then Ok(Parsed(acc, i + 1))
    else if s[i] != BACKSLASH then ParseStringBody(s, i + 1, acc + [s[i]])
    else if i + 1 >= |s| then Raised
    else if s[i + 1] == LOWER_U then
      if i + 6 > |s| then Raised
      else
        match ParseUnit(s[i + 2..i + 6])
        case None => Raised
        case Some(c) => ParseStringBody(s, i + 6, acc + [c])
    else ParseStringBody(s, i + 2, acc + [Unescape(s[i + 1])])
  }

  function Unescape(e: Unit): Unit {
    if e == LOWER_N then 10
    else if e == LOWER_T then 9
    else if e == LOWER_R then 13
    else if e == LOWER_B then 8
    else if e == LOWER_F then 12
    else e
  }

  /** A string; the opening quote is skipped unread. */
  function ParseString(s: Text, i: nat): (r: Result<Parsed<Text>>)
    ensures r.Ok? ==> i < r.value.next <= |s|
  {
    ParseStringBody(s, i + 1, [])
  }

  function ParseNumber(s: Text, i: nat): (r: Result<Parsed<Value>>)
    requires i <= |s|
    ensures r.Ok? ==> i < r.value.next <= |s|
  {
    var lexeme := s[i..NumEnd(s, i)];
    if IsDouble(lexeme) then Ok(Parsed(Number(lexeme), NumEnd(s, i))) else Raised
  }

  /** A value with the whitespace before it; literals are known by their first letter. */
  function ParseValue(s: Text, i: nat): (r: Result<Parsed<Value>>)
    ensures r.Ok? ==> i < |s| && i < r.value.next
    decreases Left(s, i), 2
  {
    var j := WsEnd(s, i);
    if j >= |s| then Raised
    else
      var c := s[j];
      if c == OPEN_BRACE then
        var k := WsEnd(s, j + 1);
        if k >= |s| then Raised
        else if s[k] == CLOSE_BRACE then Ok(Parsed(Obj([]), k + 1))
        else ParseFields(s, k, [])
      else if c == OPEN_BRACKET then
        var k := WsEnd(s, j + 1);
        if k >= |s| then Raised
        else if s[k] == CLOSE_BRACKET then Ok(Parsed(List([]), k + 1))
        else ParseItems(s, k, [])
      else if c == QUOTE then
        match ParseString(s, j) {
          case Raised => Raised
          case Ok(p) => Ok(Parsed(Str(p.value), p.next))
        }
      else if c == LOWER_T then Ok(Parsed(Boolean(true), j + 4))
      else if c == LOWER_F then Ok(Parsed(Boolean(false), j + 5))
      else if c == LOWER_N then Ok(Parsed(Null, j + 4))
      else ParseNumber(s, j)
  }

  /** The rest of an array whose items so far are `acc`. */
  function ParseItems(s: Text, i: nat, acc: seq<Value>): (r: Result<Parsed<Value>>)
    ensures r.Ok? ==> i < |s| && i < r.value.next
    decreases Left(s, i), 3
  {
    match ParseValue(s, i)
    case Raised => Raised
    case Ok(p) =>
      var j := WsEnd(s, p.next);
      if j >= |s| then Raised
      else if s[j] == CLOSE_BRACKET then Ok(Parsed(List(acc + [p.value]), j + 1))
      else ParseItems(s, j + 1, acc + [p.value])
  }

  /** The rest of an object whose fields so far are `acc`. */
  function ParseFields(s: Text, i: nat, acc: seq<Field>): (r: Result<Parsed<Value>>)
    ensures r.Ok? ==> i < |s| && i < r.value.next
    decreases Left(s, i), 3
  {
    match ParseString(s, WsEnd(s, i))
    case Raised => Raised
    case Ok(key) =>
      match ParseValue(s, WsEnd(s, key.next) + 1)
      case Raised => Raised
      case Ok(p) =>
        var j := WsEnd(s, p.next);
        if j >= |s| then Raised
        else if s[j] == CLOSE_BRACE then Ok(Parsed(Obj(Put(acc, key.value, p.value)), j + 1))
        else ParseFields(s, j + 1, Put(acc, key.value, p.value))
  }

  /** LinkedHashMap.put: a known key keeps its place and takes the new value. */
  function Put(fields: seq<Field>, key: Text, value: Value): seq<Field> {
    if fields == [] then [Field(key, value)]
    else if fields[0].key == key then [Field(key, value)] + fields[1..]
    else [fields[0]] + Put(fields[1..], key, value)
  }

  /** The entry point: empty text is null, and what follows the first value is not read. */
  function Parse(s: Text): Result<Value> {
    if s == [] then Ok(Null)
    else
      match ParseValue(s, WsEnd(s, 0))
      case Raised => Raised
      case Ok(p) => Ok(p.value)
  }
}
