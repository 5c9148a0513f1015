/** Spellings of operation names (ASCII), and the way back to the canonical one. */
module Names {

  predicate IsLower(c: char) {
    'a' <= c <= 'z'
  }

  predicate IsUpper(c: char) {
    'A' <= c <= 'Z'
  }

  predicate IsDigit(c: char) {
    '0' <= c <= '9'
  }

  function ToLower(c: char): char {
    if IsUpper(c) then c - 'A' + 'a' else c
  }

  function ToUpper(c: char): char {
    if IsLower(c) then c - 'a' + 'A' else c
  }

  function Lower(s: string): (r: string)
    ensures |r| == |s|
  {
    seq(|s|, i requires 0 <= i < |s| => ToLower(s[i]))
  }

  function Capital(w: string): (r: string)
    ensures |r| == |w|
  {
    if w == "" then "" else [ToUpper(w[0])] + Lower(w[1..])
  }

  // ---- rendering -----------------------------------------------------------------------

  predicate Separator(c: char) {
    c == '_' || c == '-' || c == ' ' || '\t' <= c <= '\r'
  }

  function WordLength(s: string): (k: nat)
    ensures k <= |s|
  {
    if s == "" || Separator(s[0]) then 0 else 1 + WordLength(s[1..])
  }

  /** The maximal runs between separators. */
  function Words(s: string): seq<string>
    decreases |s|
  {
    if s == "" then []
    else if Separator(s[0]) then Words(s[1..])
    else [s[..WordLength(s)]] + Words(s[WordLength(s)..])
  }

  function Join(ws: seq<string>, sep: char): string {
    if ws == [] then "" else if |ws| == 1 then ws[0] else ws[0] + ([sep] + Join(ws[1..], sep))
  }

  function LowerAll(ws: seq<string>): (r: seq<string>)
    ensures |r| == |ws|
  {
    seq(|ws|, i requires 0 <= i < |ws| => Lower(ws[i]))
  }

  function Capitals(ws: seq<string>): string {
    if ws == [] then "" else Capital(ws[0]) + Capitals(ws[1..])
  }

  datatype Style = Snake | Camel | Pascal | Kebab

  function RenderWords(ws: seq<string>, style: Style): string
    requires ws != []
  {
    match style
    case Snake => Join(LowerAll(ws), '_')
    case Kebab => Join(LowerAll(ws), '-')
    case Camel => Lower(ws[0]) + Capitals(ws[1..])
    case Pascal => Capitals(ws)
  }

  function Render(name: string, style: Style): string {
    if Words(name) == [] then name else RenderWords(Words(name), style)
  }

  const SUFFIXES: set<string> := {"", "?", "!", "_async", "Async", "_sync"}

  /** Every spelling accepted for a name in a language of the given style. */
  method AcceptableNames(name: string, style: Style) returns (out: set<string>)
    ensures forall s :: s in out <==> Acceptable(name, style, s)
  {
    var base := {Render(name, style), Render(name, Snake), Render(name, Camel), Render(name, Pascal)};
    var todo := base;
    out := {};
    while todo != {}
      invariant todo <= base
      invariant out == set b, x | b in base - todo && x in SUFFIXES :: b + x
    {
      var b :| b in todo;
      SuffixedIs(b);
      out := out + {b, b + "?", b + "!", b + "_async", b + "Async", b + "_sync"};
      todo := todo - {b};
    }
  }

  lemma SuffixedIs(b: string)
    ensures {b, b + "?", b + "!", b + "_async", b + "Async", b + "_sync"} == set x | x in SUFFIXES :: b + x
  {
    assert b == b + "";
  }

  ghost predicate Acceptable(name: string, style: Style, s: string) {
    exists b, x :: b in {Render(name, style), Render(name, Snake), Render(name, Camel), Render(name, Pascal)}
                   && x in SUFFIXES && s == b + x
  }

  // ---- back to one name ------------------------------------------------------------------

  function Trim(s: string): string {
    if s != "" && (s[|s| - 1] == '?' || s[|s| - 1] == '!' || s[|s| - 1] == '=') then Trim(s[..|s| - 1]) else s
  }

  function DropAsync(s: string): string {
    if |s| >= 5 && s[|s| - 5..] == "Async" then s[..|s| - 5]
    else if |s| >= 6 && s[|s| - 6..] == "_async" then s[..|s| - 6]
    else s
  }

  predicate Hump(a: char, b: char) {
    (IsLower(a) || IsDigit(a)) && IsUpper(b)
  }

  /** An underscore in front of every capital after a lower-case letter or a digit. */
  function Separate(s: string): string {
    if |s| < 2 then s
    else if Hump(s[0], s[1]) then [s[0], '_'] + Separate(s[1..])
    else [s[0]] + Separate(s[1..])
  }

  function Underscore(c: char): char {
    if c == '-' || c == '.' then '_' else c
  }

  function Underscored(s: string): (r: string)
    ensures |r| == |s|
  {
    seq(|s|, i requires 0 <= i < |s| => Underscore(s[i]))
  }

  function Collapse(s: string): string {
    if |s| < 2 then s
    else if s[0] == '_' && s[1] == '_' then Collapse(s[1..])
    else [s[0]] + Collapse(s[1..])
  }

  function Strip(s: string): string
    decreases |s|
  {
    if s != "" && s[0] == '_' then Strip(s[1..])
    else if s != "" && s[|s| - 1] == '_' then Strip(s[..|s| - 1])
    else s
  }

  function Tidy(s: string): string {
    Strip(Lower(Collapse(Underscored(Separate(s)))))
  }

  function Canonical(name: string): string {
    Tidy(DropAsync(Trim(name)))
  }
}
