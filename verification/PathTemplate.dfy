/** Path templates: how the generator reads them and what they mean. */
module PathTemplate {
  import opened Sequences

  predicate IsLetter(c: char) {
    'a' <= c <= 'z' || 'A' <= c <= 'Z' || c == '_'
  }

  predicate IsNameChar(c: char) {
    IsLetter(c) || '0' <= c <= '9'
  }

  predicate IsName(s: string) {
    s != "" && IsLetter(s[0]) && forall i :: 0 <= i < |s| ==> IsNameChar(s[i])
  }

  datatype Refusal = NotAbsolute | Unclosed | Malformed(name: string) | Repeated(name: string) | Unopened

  /** Text `literals[0] {names[0]} literals[1] … literals[n]`. */
  datatype Scan =
    | Template(literals: seq<string>, names: seq<string>)
    | Refused(why: Refusal)

  /** The first position of a character, or the length. */
  function Find(s: string, c: char): (k: nat)
    ensures k <= |s|
    ensures forall i :: 0 <= i < k ==> s[i] != c
    ensures k < |s| ==> s[k] == c
  {
    if s == "" || s[0] == c then 0 else 1 + Find(s[1..], c)
  }

  datatype Hole =
    | NoHole
    | OpenHole
    | Hole(before: string, name: string, tail: string)

  /** The next opening brace and the closing brace after it. */
  function Next(rest: string): (h: Hole)
    ensures h.NoHole? <==> '{' !in rest
    ensures h.Hole? ==> |h.tail| < |rest|
  {
    var open := Find(rest, '{');
    if open == |rest| then NoHole
    else
      var after := rest[open + 1..];
      var close := Find(after, '}');
      if close == |after| then OpenHole else Hole(rest[..open], after[..close], after[close + 1..])
  }

  function ScanRest(rest: string, found: seq<string>): Scan
    decreases |rest|
  {
    match Next(rest)
    case NoHole => if '}' in rest then Refused(Unopened) else Template([rest], [])
    case OpenHole => Refused(Unclosed)
    case Hole(before, name, tail) =>
      if !IsName(name) then Refused(Malformed(name))
      else if name in found then Refused(Repeated(name))
      else
        match ScanRest(tail, found + [name])
        case Refused(why) => Refused(why)
        case Template(literals, names) => Template([before] + literals, [name] + names)
  }

  function Parse(path: string): Scan {
    if path == "" || path[0] != '/' then Refused(NotAbsolute) else ScanRest(path, [])
  }

  datatype Placeholders = Found(names: seq<string>) | Error(why: Refusal)

  /** A scan seen from a caller that has already found some names. */
  function Outcome(s: Scan, found: seq<string>): Placeholders {
    match s
    case Template(_, names) => Found(found + names)
    case Refused(why) => Error(why)
  }

  function Outlook(rest: string, found: seq<string>): Placeholders {
    Outcome(ScanRest(rest, found), found)
  }

  method PathPlaceholders(path: string) returns (r: Placeholders)
    ensures r == Outcome(Parse(path), [])
  {
    hide Find, IsName, ScanRest, Outlook;
    if path == "" || path[0] != '/' {
      return Error(NotAbsolute);
    }
    assert Outcome(Parse(path), []) == Outlook(path, []) by {
      OutlookIs(path, []);
    }
    var found: seq<string>, rest := [], path;
    while '{' in rest
      invariant Outlook(path, []) == Outlook(rest, found)
      decreases |rest|
    {
      OutlookStep(rest, found);
      var open := Find(rest, '{');
      var after := rest[open + 1..];
      var close := Find(after, '}');
      if close == |after| {
        return Error(Unclosed);
      }
      var name := after[..close];
      if !IsName(name) {
        return Error(Malformed(name));
      }
      if name in found {
        return Error(Repeated(name));
      }
      found := found + [name];
      rest := after[close + 1..];
    }
    OutlookEnd(rest, found);
    if '}' in rest {
      return Error(Unopened);
    }
    return Found(found);
  }

  lemma OutlookIs(rest: string, found: seq<string>)
    ensures Outlook(rest, found) == Outcome(ScanRest(rest, found), found)
  {
  }

  lemma OutlookEnd(rest: string, found: seq<string>)
    requires '{' !in rest
    ensures Outlook(rest, found) == if '}' in rest then Error(Unopened) else Found(found)
  {
    hide Next;
    assert found + [] == found;
  }

  lemma OutlookStep(rest: string, found: seq<string>)
    requires '{' in rest
    ensures Outlook(rest, found) ==
              match Next(rest)
              case Hole(_, name, tail) =>
                if !IsName(name) then Error(Malformed(name))
                else if name in found then Error(Repeated(name))
                else Outlook(tail, found + [name])
              case _ => Error(Unclosed)
  {
    hide IsName, Next;
    match Next(rest)
    case Hole(before, name, tail) =>
      if ScanRest(tail, found + [name]).Template? {
        OutcomeStep(ScanRest(tail, found + [name]), before, name, found);
      }
    case _ =>
  }

  lemma OutcomeStep(s: Scan, literal: string, name: string, found: seq<string>)
    requires s.Template?
    ensures Outcome(Template([literal] + s.literals, [name] + s.names), found) == Outcome(s, found + [name])
  {
    assert found + ([name] + s.names) == (found + [name]) + s.names;
  }

  // ---- what a template is made of --------------------------------------------------------

  /** Literals with a text in each gap. */
  function Compose(literals: seq<string>, texts: seq<string>): string
    requires |literals| == |texts| + 1
  {
    if texts == [] then literals[0] else literals[0] + (texts[0] + Compose(literals[1..], texts[1..]))
  }

  function Braced(name: string): (r: string)
    ensures |r| == |name| + 2
  {
    ['{'] + name + ['}']
  }

  function AllBraced(names: seq<string>): (r: seq<string>)
    ensures |r| == |names|
  {
    seq(|names|, i requires 0 <= i < |names| => Braced(names[i]))
  }

  /**
   Only the text after the last placeholder is free of closing braces: the code
   never looks for one in front of an opening brace.
   */
  predicate Fits(literals: seq<string>, names: seq<string>) {
    && |literals| == |names| + 1
    && (forall i :: 0 <= i < |literals| ==> '{' !in literals[i])
    && '}' !in literals[|names|]
    && (forall i :: 0 <= i < |names| ==> IsName(names[i]))
    && Distinct(names)
  }

  predicate Apart(names: seq<string>, found: seq<string>) {
    forall n :: n in names ==> n !in found
  }

  lemma ComposeStep(literal: string, name: string, literals: seq<string>, names: seq<string>)
    requires |literals| == |names| + 1
    ensures Compose([literal] + literals, AllBraced([name] + names))
         == literal + (Braced(name) + Compose(literals, AllBraced(names)))
  {
    hide Braced;
    var braced := AllBraced([name] + names);
    assert braced[0] == Braced(name) && braced[1..] == AllBraced(names);
    assert ([literal] + literals)[0] == literal && ([literal] + literals)[1..] == literals;
  }

  lemma FitsStep(literal: string, name: string, literals: seq<string>, names: seq<string>)
    ensures Fits([literal] + literals, [name] + names) <==>
            '{' !in literal && IsName(name) && name !in names && Fits(literals, names)
  {
    var ls, ns := [literal] + literals, [name] + names;
    assert forall i :: 0 <= i < |literals| ==> ls[i + 1] == literals[i];
    assert forall i :: 0 <= i < |names| ==> ns[i + 1] == names[i];
    assert ls[0] == literal && ns[0] == name;
  }

  lemma SoundStep(literal: string, name: string, literals: seq<string>, names: seq<string>, found: seq<string>)
    requires Fits(literals, names) && Apart(names, found + [name])
    requires '{' !in literal && IsName(name) && name !in found
    ensures Fits([literal] + literals, [name] + names) && Apart([name] + names, found)
    ensures Compose([literal] + literals, AllBraced([name] + names))
         == literal + (Braced(name) + Compose(literals, AllBraced(names)))
  {
    FitsStep(literal, name, literals, names);
    ComposeStep(literal, name, literals, names);
    hide Fits, Compose, IsName;
    assert forall n :: n in found ==> n in found + [name];
    assert name in found + [name];
  }

  lemma NextCuts(rest: string)
    requires Next(rest).Hole?
    ensures var h := Next(rest);
            '{' !in h.before && '}' !in h.name && rest == h.before + (Braced(h.name) + h.tail)
  {
    hide Find, Braced;
    assert Next(rest) != NoHole && Next(rest) != OpenHole;
    var open := Find(rest, '{');
    var after := rest[open + 1..];
    var close := Find(after, '}');
    SplitAt(rest, open);
    SplitAt(after, close);
    Glue(after[..close], after[close + 1..]);
  }

  lemma SplitAt(s: string, k: nat)
    requires k < |s|
    ensures s == s[..k] + ([s[k]] + s[k + 1..])
  {
  }

  lemma Glue(name: string, tail: string)
    ensures ['{'] + (name + (['}'] + tail)) == Braced(name) + tail
  {
  }

  lemma NextIs(before: string, name: string, tail: string)
    requires '{' !in before && '}' !in name
    ensures Next(before + (Braced(name) + tail)) == Hole(before, name, tail)
  {
    hide Find;
    var rest, after := before + (Braced(name) + tail), name + (['}'] + tail);
    Glue(name, tail);
    assert rest == before + (['{'] + after);
    hide Braced;
    FindIs(rest, '{', |before|);
    assert rest[|before| + 1..] == after;
    FindIs(after, '}', |name|);
    assert rest[..|before|] == before && after[..|name|] == name && after[|name| + 1..] == tail;
  }

  lemma {:induction false} ScanSound(rest: string, found: seq<string>)
    requires ScanRest(rest, found).Template?
    ensures var t := ScanRest(rest, found);
            Fits(t.literals, t.names) && Apart(t.names, found) && rest == Compose(t.literals, AllBraced(t.names))
    decreases |rest|
  {
    hide Compose, AllBraced, Fits, IsName, Apart, Braced, Next;
    match Next(rest)
    case Hole(before, name, tail) =>
      ScanSound(tail, found + [name]);
      var u := ScanRest(tail, found + [name]);
      NextCuts(rest);
      FitsCounts(u.literals, u.names);
      SoundStep(before, name, u.literals, u.names, found);
    case _ =>
      EndIsTemplate(rest, found);
  }

  lemma FitsCounts(literals: seq<string>, names: seq<string>)
    requires Fits(literals, names)
    ensures |literals| == |names| + 1
  {
  }

  lemma EndIsTemplate(rest: string, found: seq<string>)
    requires '{' !in rest && '}' !in rest
    ensures Fits([rest], []) && Apart([], found) && Compose([rest], AllBraced([])) == rest
  {
  }

  lemma {:induction false} ScanComplete(literals: seq<string>, names: seq<string>, found: seq<string>)
    requires Fits(literals, names) && Apart(names, found)
    ensures ScanRest(Compose(literals, AllBraced(names)), found) == Template(literals, names)
    decreases |names|
  {
    var text := Compose(literals, AllBraced(names));
    if names == [] {
      FindIs(text, '{', |text|);
      assert literals == [text];
    } else {
      hide Fits, Next, Compose, AllBraced, Braced;
      assert [literals[0]] + literals[1..] == literals && [names[0]] + names[1..] == names;
      FitsStep(literals[0], names[0], literals[1..], names[1..]);
      ComposeStep(literals[0], names[0], literals[1..], names[1..]);
      NameHasNoBrace(names[0]);
      NextIs(literals[0], names[0], Compose(literals[1..], AllBraced(names[1..])));
      assert names[0] in names;
      ScanComplete(literals[1..], names[1..], found + [names[0]]);
    }
  }

  /** A name, character by character: letters and underscores, and digits after the first. */
  lemma NamesAre(s: string)
    ensures IsName(s) <==>
              && s != "" && !('0' <= s[0] <= '9')
              && forall i :: 0 <= i < |s| ==> 'a' <= s[i] <= 'z' || 'A' <= s[i] <= 'Z' || '0' <= s[i] <= '9' || s[i] == '_'
  {
    if IsName(s) {
      assert IsNameChar(s[0]);
    }
  }

  lemma NameHasNoBrace(name: string)
    requires IsName(name)
    ensures '}' !in name && '{' !in name
  {
  }

  lemma FindIs(s: string, c: char, k: nat)
    requires k <= |s| && (forall i :: 0 <= i < k ==> s[i] != c) && (k < |s| ==> s[k] == c)
    ensures Find(s, c) == k
  {
    var f := Find(s, c);
    assert f < |s| ==> s[f] == c;
  }

  /** A path is accepted exactly when it is such a text, and the reading is then the only one. */
  lemma ParseExactly(path: string, literals: seq<string>, names: seq<string>)
    ensures Parse(path) == Template(literals, names) <==>
            path != "" && path[0] == '/' && Fits(literals, names) && path == Compose(literals, AllBraced(names))
  {
    if Parse(path) == Template(literals, names) {
      ScanSound(path, []);
    }
    if Fits(literals, names) && path == Compose(literals, AllBraced(names)) {
      ScanComplete(literals, names, []);
    }
  }

  /** A closing brace that nothing opened is let through in front of a placeholder. */
  lemma StrayBraceIsAccepted()
    ensures Parse("/}{a}") == Template(["/}", ""], ["a"])
  {
    hide Parse, Compose, AllBraced;
    ComposeStep("/}", "a", [""], []);
    assert Compose([""], AllBraced([])) == "" by {
      EndIsTemplate("", []);
    }
    assert ["/}"] + [""] == ["/}", ""] && ["a"] + [] == ["a"];
    assert Braced("a") + "" == "{a}";
    ParseExactly("/}{a}", ["/}", ""], ["a"]);
  }
}
