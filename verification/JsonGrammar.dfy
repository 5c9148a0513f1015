/** What the JSON texts are, unit by unit. */
module JsonGrammar {
  import opened Wrappers
  import opened Json
  import JsonRoundTrip

  // ---- numbers -----------------------------------------------------------------------

  /** From `i` to `j` there are digits only. */
  predicate Digits(t: Text, i: nat, j: nat) {
    i <= j <= |t| && forall k :: i <= k < j ==> 48 <= t[k] <= 57
  }

  /** From `i` to `j` there is `+`, `-` or nothing. */
  predicate Sign(t: Text, i: nat, j: nat) {
    i == j <= |t| || (j == i + 1 <= |t| && (t[i] == 43 || t[i] == 45))
  }

  /** From `i` on there is nothing, or `e` or `E`, a sign and at least one digit up to the end. */
  ghost predicate Exponent(t: Text, i: nat) {
    || i == |t|
    || (i < |t| && (t[i] == 101 || t[i] == 69) && exists d: nat :: Sign(t, i + 1, d) && d < |t| && Digits(t, d, |t|))
  }

  /** A sign to `a`, digits to `b`, a point or nothing to `p`, digits to `c`, and an exponent. */
  ghost predicate Parts(t: Text, a: nat, b: nat, p: nat, c: nat) {
    && Sign(t, 0, a) && Digits(t, a, b) && Digits(t, p, c) && Exponent(t, c)
    && ((p == b + 1 <= |t| && t[b] == 46) || (p == b && c == b))
    && (b - a) + (c - p) >= 1
  }

  ghost predicate IsNumeral(t: Text) {
    exists a, b, p, c :: Parts(t, a, b, p, c)
  }

  /** The units that can occur in one. */
  predicate NumberUnits(t: Text) {
    forall i :: 0 <= i < |t| ==> 48 <= t[i] <= 57 || t[i] == 43 || t[i] == 45 || t[i] == 46 || t[i] == 101 || t[i] == 69
  }

  lemma {:induction false} SkipIs(t: Text, i: nat, j: nat)
    requires Digits(t, i, j) && (j < |t| ==> !(48 <= t[j] <= 57))
    ensures SkipDigits(t, i) == j
    decreases j - i
  {
    if i < j {
      SkipIs(t, i + 1, j);
    }
  }

  lemma {:induction false} SkipFinds(t: Text, i: nat)
    requires i <= |t|
    ensures var j := SkipDigits(t, i);
            Digits(t, i, j) && (j < |t| ==> !(48 <= t[j] <= 57))
    decreases |t| - i
  {
    if i < |t| {
      SkipFinds(t, i + 1);
    }
  }

  lemma ExponentExactly(t: Text, c: nat)
    requires c < |t| && (t[c] == 101 || t[c] == 69)
    ensures ExponentEnds(t, c + 1) <==> Exponent(t, c)
  {
    var d := if c + 1 < |t| && (t[c + 1] == 43 || t[c + 1] == 45) then c + 2 else c + 1;
    SkipFinds(t, d);
    if ExponentEnds(t, c + 1) {
      assert Sign(t, c + 1, d) && Digits(t, d, |t|);
    }
    if Exponent(t, c) {
      var e: nat :| Sign(t, c + 1, e) && e < |t| && Digits(t, e, |t|);
      SkipIs(t, e, |t|);
    }
  }

  lemma DoubleIsNumeral(t: Text)
    requires IsDouble(t)
    ensures IsNumeral(t)
  {
    hide SkipDigits, ExponentEnds;
    var a := if t != [] && (t[0] == 43 || t[0] == 45) then 1 else 0;
    var b := SkipDigits(t, a);
    SkipFinds(t, a);
    var point := b < |t| && t[b] == 46;
    var p := if point then b + 1 else b;
    var c := if point then SkipDigits(t, p) else b;
    SkipFinds(t, p);
    if c < |t| {
      ExponentExactly(t, c);
    }
    assert Parts(t, a, b, p, c);
  }

  lemma NumeralIsDouble(t: Text, a: nat, b: nat, p: nat, c: nat)
    requires Parts(t, a, b, p, c)
    ensures IsDouble(t)
  {
    hide SkipDigits, ExponentEnds;
    assert a == 0 ==> b > 0 || t[0] == 46;
    SkipIs(t, a, b);
    if p > b {
      SkipIs(t, p, c);
    }
    if c < |t| {
      ExponentExactly(t, c);
    }
  }

  lemma NumeralExactly(t: Text)
    ensures IsDouble(t) <==> IsNumeral(t)
  {
    hide IsDouble, Parts;
    if IsDouble(t) {
      DoubleIsNumeral(t);
    }
    if IsNumeral(t) {
      var a, b, p, c :| Parts(t, a, b, p, c);
      NumeralIsDouble(t, a, b, p, c);
    }
  }

  lemma {:induction false} UnitsTaken(t: Text, i: nat)
    requires NumberUnits(t) && i <= |t|
    ensures NumEnd(t, i) == |t|
    decreases |t| - i
  {
    if i < |t| {
      UnitsTaken(t, i + 1);
    }
  }

  /** Which texts of number units are numbers: the parser takes those and raises on the others. */
  lemma NumberParsesExactly(t: Text)
    requires NumberUnits(t) && t != []
    ensures Parse(t) == if IsNumeral(t) then Ok(Number(t)) else Raised
  {
    hide IsDouble, IsNumeral;
    UnitsTaken(t, 0);
    assert t[0..|t|] == t;
    NumeralExactly(t);
    assert WsEnd(t, 0) == 0;
  }

  // ---- literals and marks ---------------------------------------------------------------

  /** `null`, `true`, `false`, `""`, `[]` and `{}`. */
  lemma SmallestTexts()
    ensures Print(Null) == [110, 117, 108, 108]
    ensures Print(Boolean(true)) == [116, 114, 117, 101] && Print(Boolean(false)) == [102, 97, 108, 115, 101]
    ensures Print(Str([])) == [34, 34] && Print(List([])) == [91, 93] && Print(Obj([])) == [123, 125]
  {
  }

  /** Brackets around items with commas between them. */
  lemma TwoItems(x: Value, y: Value)
    ensures Print(List([x, y])) == [91] + Print(x) + [44] + Print(y) + [93]
  {
    assert [x, y][1..] == [y];
    assert PrintItems([y]) == Print(y) + [];
  }

  /** Braces around fields, a colon after each name. */
  lemma OneField(name: Text, x: Value)
    ensures Print(Obj([Field(name, x)])) == [123] + Print(Str(name)) + [58] + Print(x) + [125]
  {
    hide Print;
    PrintIsString(name);
    ObjectIs([Field(name, x)]);
    assert PrintFields([Field(name, x)]) == PrintField(Field(name, x)) + [];
  }

  lemma TwoFields(name: Text, x: Value, other: Text, y: Value)
    ensures Print(Obj([Field(name, x), Field(other, y)]))
         == [123] + (Print(Str(name)) + [58] + Print(x) + ([44] + (Print(Str(other)) + [58] + Print(y)))) + [125]
  {
    hide Print;
    PrintIsString(name);
    PrintIsString(other);
    ObjectIs([Field(name, x), Field(other, y)]);
    assert [Field(name, x), Field(other, y)][1..] == [Field(other, y)];
    assert PrintFields([Field(other, y)]) == PrintField(Field(other, y)) + [];
  }

  lemma PrintIsString(s: Text)
    ensures Print(Str(s)) == PrintString(s)
  {
  }

  lemma ObjectIs(fields: seq<Field>)
    ensures Print(Obj(fields)) == [123] + PrintFields(fields) + [125]
  {
    hide PrintFields;
  }

  // ---- strings ----------------------------------------------------------------------------

  function LowerHex(d: nat): Unit
    requires d < 16
  {
    [48, 49, 50, 51, 52, 53, 54, 55, 56, 57, 97, 98, 99, 100, 101, 102][d]
  }

  /** A string of one unit: the two-unit escapes, `\u00xx` for other controls, the unit itself. */
  lemma OneUnit(c: Unit)
    ensures Print(Str([c])) ==
              if c == 34 then [34, 92, 34, 34]
              else if c == 92 then [34, 92, 92, 34]
              else if c == 8 then [34, 92, 98, 34]
              else if c == 9 then [34, 92, 116, 34]
              else if c == 10 then [34, 92, 110, 34]
              else if c == 12 then [34, 92, 102, 34]
              else if c == 13 then [34, 92, 114, 34]
              else if 0 <= c < 32 then [34, 92, 117, 48, 48, LowerHex(c / 16), LowerHex(c % 16), 34]
              else [34, c, 34]
  {
    EscapeOne(c);
  }

  lemma EscapeOne(c: Unit)
    ensures Escape([c]) == EscapeUnit(c)
  {
    hide EscapeUnit;
    assert [c][1..] == [] && Escape([]) == [] && EscapeUnit(c) + [] == EscapeUnit(c);
  }

  /** A string is its units' escapes in a row. */
  lemma UnitsInRow(s: Text, c: Unit)
    ensures Print(Str(s + [c])) == Print(Str(s))[..|Print(Str(s))| - 1] + Print(Str([c]))[1..]
  {
    hide Escape;
    EscapeAppend(s, c);
    assert Print(Str(s))[..|Print(Str(s))| - 1] == [34] + Escape(s);
    assert Print(Str([c]))[1..] == Escape([c]) + [34];
    assert [34] + (Escape(s) + Escape([c])) + [34] == ([34] + Escape(s)) + (Escape([c]) + [34]);
  }

  lemma {:induction false} EscapeAppend(s: Text, c: Unit)
    ensures Escape(s + [c]) == Escape(s) + Escape([c])
  {
    hide EscapeUnit;
    if s == [] {
      assert s + [c] == [c] && Escape(s) == [];
    } else {
      EscapeAppend(s[1..], c);
      assert (s + [c])[1..] == s[1..] + [c];
      assert EscapeUnit(s[0]) + (Escape(s[1..]) + Escape([c])) == (EscapeUnit(s[0]) + Escape(s[1..])) + Escape([c]);
    }
  }

  /** A backslash and a unit other than `u`: five stand for controls, all others for themselves. */
  lemma EscapeIsRead(e: Unit)
    requires e != 117
    ensures Parse([34, 92, e, 34]) ==
              Ok(Str([if e == 98 then 8 else if e == 116 then 9 else if e == 110 then 10
                      else if e == 102 then 12 else if e == 114 then 13 else e]))
  {
    var s := [34, 92, e, 34];
    assert WsEnd(s, 0) == 0;
    var c := Unescape(e);
    assert ParseStringBody(s, 3, [c]) == Ok(Parsed([c], 4));
    assert ParseStringBody(s, 1, []) == ParseStringBody(s, 3, [] + [c]);
    assert [] + [c] == [c];
  }

  /** What a hexadecimal digit of either case counts. */
  function Counts(c: Unit): int {
    if 48 <= c <= 57 then c - 48 else if 97 <= c <= 102 then c - 97 + 10 else if 65 <= c <= 70 then c - 65 + 10 else -1
  }

  /** `\u` and four hexadecimal digits. */
  lemma HexIsRead(h: Text)
    requires |h| == 4 && forall i :: 0 <= i < 4 ==> Counts(h[i]) >= 0
    ensures Parse([34, 92, 117] + h + [34])
         == Ok(Str([4096 * Counts(h[0]) + 256 * Counts(h[1]) + 16 * Counts(h[2]) + Counts(h[3])]))
  {
    var s := [34, 92, 117] + h + [34];
    var n := 4096 * Counts(h[0]) + 256 * Counts(h[1]) + 16 * Counts(h[2]) + Counts(h[3]);
    HexIsNumber(h);
    assert s[3..7] == h && s[7] == 34 && s[0] == 34 && s[1] == 92 && s[2] == 117 && |s| == 8;
    assert WsEnd(s, 0) == 0;
    hide ParseUnit;
    assert ParseStringBody(s, 7, [n]) == Ok(Parsed([n], 8));
    assert [] + [n] == [n];
    assert ParseStringBody(s, 1, []) == ParseStringBody(s, 7, [] + [n]);
  }

  lemma HexStep(t: Text, c: Unit, n: nat)
    requires HexNumber(t) == Some(n) && Counts(c) >= 0
    ensures HexNumber(t + [c]) == Some(16 * n + Counts(c))
  {
    assert (t + [c])[..|t|] == t;
    assert HexValue(c) == Counts(c);
  }

  lemma ThreeHex(a: Unit, b: Unit, c: Unit)
    requires Counts(a) >= 0 && Counts(b) >= 0 && Counts(c) >= 0
    ensures HexNumber([a, b, c]) == Some(256 * Counts(a) + 16 * Counts(b) + Counts(c))
  {
    assert HexNumber([]) == Some(0);
    hide HexNumber;
    HexStep([], a, 0);
    HexStep([] + [a], b, Counts(a));
    HexStep([] + [a] + [b], c, 16 * Counts(a) + Counts(b));
    assert [] + [a] + [b] + [c] == [a, b, c];
  }

  lemma HexIsNumber(h: Text)
    requires |h| == 4 && forall i :: 0 <= i < 4 ==> Counts(h[i]) >= 0
    ensures ParseUnit(h) == Some(4096 * Counts(h[0]) + 256 * Counts(h[1]) + 16 * Counts(h[2]) + Counts(h[3]))
  {
    hide HexNumber;
    ThreeHex(h[0], h[1], h[2]);
    HexStep([h[0], h[1], h[2]], h[3], 256 * Counts(h[0]) + 16 * Counts(h[1]) + Counts(h[2]));
    assert h == [h[0], h[1], h[2]] + [h[3]];
    CountsBelow(h);
    hide Counts;
    PlainUnit(h, 4096 * Counts(h[0]) + 256 * Counts(h[1]) + 16 * Counts(h[2]) + Counts(h[3]));
  }

  lemma CountsBelow(h: Text)
    requires forall i :: 0 <= i < |h| ==> Counts(h[i]) >= 0
    ensures forall i :: 0 <= i < |h| ==> Counts(h[i]) < 16 && h[i] != 43 && h[i] != 45
  {
  }

  lemma PlainUnit(h: Text, n: nat)
    requires h != [] && h[0] != 43 && h[0] != 45 && HexNumber(h) == Some(n) && n < 65536
    ensures ParseUnit(h) == Some(n)
  {
    hide HexNumber;
  }

  lemma SignedUnit(sign: Unit, h: Text, n: nat)
    requires h != [] && (sign == 43 || sign == 45) && HexNumber(h) == Some(n) && n < 65536
    ensures ParseUnit([sign] + h) == Some(if sign == 43 || n == 0 then n else 65536 - n)
  {
    hide HexNumber;
    assert ([sign] + h)[1..] == h;
  }

  /** The blank units, one by one: those of section 2 of RFC 8259, and what else Java counts as whitespace. */
  lemma WhitespaceIsBlank(t: Text)
    ensures JsonRoundTrip.IsBlank(t) <==>
              forall i :: 0 <= i < |t| ==>
                || t[i] in {32, 9, 10, 13}
                || t[i] in {11, 12, 28, 29, 30, 31, 5760, 8192, 8193, 8194, 8195, 8196, 8197, 8198, 8200, 8201, 8202,
                            8232, 8233, 8287, 12288}
  {
  }

  /** The four units may also be a sign and three digits, a negative number counting from 65536. */
  lemma SignedHexIsNumber(sign: Unit, h: Text)
    requires (sign == 43 || sign == 45) && |h| == 3 && forall i :: 0 <= i < 3 ==> Counts(h[i]) >= 0
    ensures var n := 256 * Counts(h[0]) + 16 * Counts(h[1]) + Counts(h[2]);
            ParseUnit([sign] + h) == Some(if sign == 43 || n == 0 then n else 65536 - n)
  {
    hide HexNumber;
    ThreeHex(h[0], h[1], h[2]);
    assert h == [h[0], h[1], h[2]];
    CountsBelow(h);
    hide Counts, ParseUnit;
    SignedUnit(sign, h, 256 * Counts(h[0]) + 16 * Counts(h[1]) + Counts(h[2]));
  }

  // ---- repeated names ------------------------------------------------------------------------

  /** A name that was read before keeps its place and takes the new value. */
  lemma {:induction false} RepeatedName(fields: seq<Field>, i: nat, value: Value)
    requires i < |fields| && forall j :: 0 <= j < i ==> fields[j].key != fields[i].key
    ensures Put(fields, fields[i].key, value) == fields[i := Field(fields[i].key, value)]
    decreases i
  {
    if i > 0 {
      RepeatedName(fields[1..], i - 1, value);
    }
  }
}
