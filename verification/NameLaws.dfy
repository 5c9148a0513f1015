/** When a spelling leads back to the name it was made from. */
module NameLaws {
  import opened Names

  predicate IsWordChar(c: char) {
    'a' <= c <= 'z' || '0' <= c <= '9'
  }

  predicate IsWord(w: string) {
    w != "" && forall i :: 0 <= i < |w| ==> IsWordChar(w[i])
  }

  predicate AreWords(ws: seq<string>) {
    ws != [] && forall k :: 0 <= k < |ws| ==> IsWord(ws[k])
  }

  /** Words that a capital letter can set apart. */
  predicate Clear(ws: seq<string>)
    requires ws != []
  {
    && (forall k :: 0 <= k < |ws| - 1 ==> Apart(ws[k], ws[k + 1]))
    && ws[|ws| - 1] != "async"
  }

  predicate Apart(a: string, b: string) {
    (|a| >= 2 || (a != "" && IsDigit(a[0]))) && b != "" && IsLower(b[0])
  }

  // ---- words -------------------------------------------------------------------------------

  lemma {:induction false} WordThenSeparator(w: string, rest: string)
    requires IsWord(w) && (rest != "" ==> Separator(rest[0]))
    ensures WordLength(w + rest) == |w|
    decreases |w|
  {
    assert !Separator(w[0]);
    assert (w + rest)[1..] == w[1..] + rest;
    if |w| > 1 {
      assert IsWord(w[1..]);
      WordThenSeparator(w[1..], rest);
    } else {
      assert w[1..] + rest == rest;
    }
  }

  lemma OneWord(w: string, rest: string)
    requires IsWord(w) && (rest != "" ==> Separator(rest[0]))
    ensures Words(w + rest) == [w] + Words(rest)
  {
    WordThenSeparator(w, rest);
    assert !Separator(w[0]) by {
      assert IsWordChar(w[0]);
    }
    assert (w + rest)[..|w|] == w && (w + rest)[|w|..] == rest;
  }

  /** Underscores, hyphens and whitespace all separate words. */
  lemma {:induction false} WordsOfAny(ws: seq<string>, sep: char)
    requires AreWords(ws)
    requires sep == '_' || sep == '-' || sep == ' ' || sep == '\t' || sep == '\n' || sep == '\r'
    ensures Words(Join(ws, sep)) == ws
    decreases |ws|
  {
    var w, text := ws[0], Join(ws, sep);
    hide WordLength;
    if |ws| == 1 {
      assert text == w + "" && ws == [w] + [];
      OneWord(w, "");
      assert Words("") == [];
    } else {
      var rest := [sep] + Join(ws[1..], sep);
      assert text == w + rest && rest[1..] == Join(ws[1..], sep);
      OneWord(w, rest);
      WordsOfAny(ws[1..], sep);
      assert [w] + ws[1..] == ws;
    }
  }

  lemma WordsOfJoin(ws: seq<string>)
    requires AreWords(ws)
    ensures Words(Join(ws, '_')) == ws
  {
    WordsOfAny(ws, '_');
  }

  lemma LowerKeepsWord(w: string)
    requires IsWord(w)
    ensures Lower(w) == w
  {
  }

  lemma LowerAllKeepsWords(ws: seq<string>)
    requires AreWords(ws)
    ensures LowerAll(ws) == ws
  {
    forall k | 0 <= k < |ws|
      ensures LowerAll(ws)[k] == ws[k]
    {
      LowerKeepsWord(ws[k]);
    }
  }

  // ---- tidying -----------------------------------------------------------------------------

  predicate NoPair(s: string, k: int)
    requires 0 <= k < |s| - 1
  {
    !(s[k] == '_' && s[k + 1] == '_')
  }

  /** Words with single underscores between them, as far as tidying can see. */
  predicate Clean(s: string) {
    && s != "" && s[0] != '_' && s[|s| - 1] != '_'
    && (forall k :: 0 <= k < |s| ==> IsWordChar(s[k]) || s[k] == '_')
    && (forall k :: 0 <= k < |s| - 1 ==> NoPair(s, k))
  }

  lemma {:induction false} CollapseKeeps(s: string)
    requires forall k :: 0 <= k < |s| - 1 ==> NoPair(s, k)
    ensures Collapse(s) == s
    decreases |s|
  {
    if |s| >= 2 {
      assert NoPair(s, 0);
      forall k | 0 <= k < |s[1..]| - 1
        ensures NoPair(s[1..], k)
      {
        assert NoPair(s, k + 1);
      }
      CollapseKeeps(s[1..]);
      assert s == [s[0]] + s[1..];
    }
  }

  /** Once the text is words and single underscores, tidying only lowers it. */
  lemma TidyIs(s: string)
    requires Clean(Lower(Underscored(Separate(s))))
    ensures Tidy(s) == Lower(Underscored(Separate(s)))
  {
    var u := Underscored(Separate(s));
    var r := Lower(u);
    forall k | 0 <= k < |u| - 1
      ensures NoPair(u, k)
    {
      assert NoPair(r, k);
      assert r[k] == ToLower(u[k]) && r[k + 1] == ToLower(u[k + 1]);
    }
    CollapseKeeps(u);
  }

  // ---- separating capitals -----------------------------------------------------------------

  function Gap(a: string, b: string): string {
    if a != "" && b != "" && Hump(a[|a| - 1], b[0]) then "_" else ""
  }

  lemma {:induction false} SeparateAppend(a: string, b: string)
    ensures Separate(a + b) == Separate(a) + (Gap(a, b) + Separate(b))
    decreases |a|
  {
    if a == "" {
      assert a + b == b && "" + ("" + Separate(b)) == Separate(b);
    } else if |a| == 1 {
      if b == "" {
        assert a + b == a && a + ("" + "") == a;
      } else {
        assert (a + b)[1..] == b && (a + b)[0] == a[0] && (a + b)[1] == b[0];
        assert [a[0]] == a && [a[0], '_'] == a + "_";
        assert Separate(a) == a;
        assert a + "_" + Separate(b) == a + ("_" + Separate(b));
        assert a + ("" + Separate(b)) == a + Separate(b);
      }
    } else {
      assert (a + b)[1..] == a[1..] + b && (a + b)[0] == a[0] && (a + b)[1] == a[1];
      SeparateAppend(a[1..], b);
      assert a[1..][|a| - 2] == a[|a| - 1] && a[1..][0] == a[1];
      assert Gap(a[1..], b) == Gap(a, b);
      var tail := Gap(a, b) + Separate(b);
      var head := if Hump(a[0], a[1]) then [a[0], '_'] else [a[0]];
      hide Separate;
      Associate(head, Separate(a[1..]), tail);
    }
  }

  lemma Associate(a: string, b: string, c: string)
    ensures a + (b + c) == (a + b) + c
  {
  }

  lemma {:induction false} SeparateKeeps(s: string)
    requires forall k :: 1 <= k < |s| ==> !IsUpper(s[k])
    ensures Separate(s) == s
    decreases |s|
  {
    if |s| >= 2 {
      assert !IsUpper(s[1]);
      SeparateKeeps(s[1..]);
      assert s == [s[0]] + s[1..];
    }
  }

  lemma CapitalIs(w: string)
    requires IsWord(w)
    ensures Separate(Capital(w)) == Capital(w) && Lower(Capital(w)) == w
    ensures Capital(w)[0] == ToUpper(w[0])
    ensures |w| >= 2 ==> Capital(w)[|w| - 1] == w[|w| - 1]
  {
    var c := Capital(w);
    forall k | 0 <= k < |w|
      ensures c[k] == if k == 0 then ToUpper(w[0]) else w[k]
    {
      assert k > 0 ==> c[k] == Lower(w[1..])[k - 1] == ToLower(w[1..][k - 1]) && IsWordChar(w[k]);
    }
    SeparateKeeps(c);
    forall k | 0 <= k < |w|
      ensures Lower(c)[k] == w[k]
    {
      assert Lower(c)[k] == ToLower(c[k]) && IsWordChar(w[k]);
    }
  }

  /** What capitals can tell: an underscore only where two words are apart. */
  function Told(ws: seq<string>): string {
    if ws == [] then "" else if |ws| == 1 then ws[0]
    else ws[0] + ((if Apart(ws[0], ws[1]) then "_" else "") + Told(ws[1..]))
  }

  function Flat(s: string): (r: string)
    ensures |r| == |s|
  {
    Lower(Underscored(s))
  }

  lemma FlatAppend(a: string, b: string)
    ensures Flat(a + b) == Flat(a) + Flat(b)
  {
  }

  lemma FlatWord(w: string)
    requires IsWord(w)
    ensures Flat(w) == w && Flat(Capital(w)) == w
  {
    CapitalIs(w);
    assert forall k :: 0 <= k < |w| ==> IsWordChar(w[k]);
    var c := Capital(w);
    forall k | 0 <= k < |w|
      ensures Flat(c)[k] == w[k]
    {
      assert Lower(c)[k] == ToLower(c[k]) == w[k];
      assert IsWordChar(w[k]);
    }
  }

  lemma CapitalGap(w: string, rest: string)
    requires IsWord(w) && (rest != "" ==> !IsUpper(rest[0]) ==> IsDigit(rest[0]))
    ensures Gap(Capital(w), rest) == if (|w| >= 2 || IsDigit(w[0])) && rest != "" && IsUpper(rest[0]) then "_" else ""
  {
    CapitalIs(w);
    assert IsWordChar(w[0]) && IsWordChar(w[|w| - 1]);
  }

  lemma CapitalsStart(ws: seq<string>)
    requires AreWords(ws)
    ensures Capitals(ws) != "" && Capitals(ws)[0] == ToUpper(ws[0][0])
    ensures IsUpper(Capitals(ws)[0]) <==> IsLower(ws[0][0])
    ensures !IsUpper(Capitals(ws)[0]) ==> IsDigit(Capitals(ws)[0])
  {
    CapitalIs(ws[0]);
    assert IsWordChar(ws[0][0]);
  }

  lemma {:induction false} CapitalsTell(ws: seq<string>)
    requires AreWords(ws)
    ensures Flat(Separate(Capitals(ws))) == Told(ws)
    decreases |ws|
  {
    hide Flat, Separate, Capital, Gap;
    var w := ws[0];
    CapitalIs(w);
    FlatWord(w);
    if |ws| == 1 {
      assert Capitals(ws[1..]) == "" && Capitals(ws) == Capital(w);
    } else {
      var rest := Capitals(ws[1..]);
      CapitalsTell(ws[1..]);
      CapitalsStart(ws[1..]);
      CapitalGap(w, rest);
      SeparateAppend(Capital(w), rest);
      FlatAppend(Capital(w), Gap(Capital(w), rest) + Separate(rest));
      FlatAppend(Gap(Capital(w), rest), Separate(rest));
      FlatGap();
    }
  }

  lemma FlatGap()
    ensures Flat("_") == "_" && Flat("") == ""
  {
  }

  lemma {:induction false} ToldIsJoin(ws: seq<string>)
    requires AreWords(ws)
    ensures |Told(ws)| <= |Join(ws, '_')|
    ensures (forall k :: 0 <= k < |ws| - 1 ==> Apart(ws[k], ws[k + 1])) ==> Told(ws) == Join(ws, '_')
    ensures (exists k :: 0 <= k < |ws| - 1 && !Apart(ws[k], ws[k + 1])) ==> |Told(ws)| < |Join(ws, '_')|
    decreases |ws|
  {
    hide Apart;
    if |ws| > 1 {
      var vs := ws[1..];
      ToldIsJoin(vs);
      if k :| 0 <= k < |ws| - 1 && !Apart(ws[k], ws[k + 1]) {
        if k > 0 {
          assert !Apart(vs[k - 1], vs[k - 1 + 1]);
        }
      } else {
        forall k | 0 <= k < |vs| - 1
          ensures Apart(vs[k], vs[k + 1])
        {
          assert Apart(ws[k + 1], ws[k + 1 + 1]);
        }
        assert Apart(ws[0], ws[0 + 1]);
      }
    }
  }

  lemma {:induction false} JoinIsClean(ws: seq<string>)
    requires AreWords(ws)
    ensures Clean(Join(ws, '_'))
    decreases |ws|
  {
    var w := ws[0];
    assert IsWord(w);
    forall k | 0 <= k < |w|
      ensures IsWordChar(w[k]) && w[k] != '_'
    {
    }
    if |ws| > 1 {
      var rest := Join(ws[1..], '_');
      JoinIsClean(ws[1..]);
      var text := w + (['_'] + rest);
      forall k | 0 <= k < |text|
        ensures text[k] == if k < |w| then w[k] else if k == |w| then '_' else rest[k - |w| - 1]
      {
      }
      forall k | 0 <= k < |text| - 1
        ensures NoPair(text, k)
      {
        assert k > |w| ==> NoPair(rest, k - |w| - 1);
      }
    }
  }

  lemma {:induction false} CollapseShortens(s: string)
    ensures |Collapse(s)| <= |s|
  {
    if |s| >= 2 {
      CollapseShortens(s[1..]);
    }
  }

  lemma {:induction false} StripShortens(s: string)
    ensures |Strip(s)| <= |s|
    decreases |s|
  {
    if s != "" && s[0] == '_' {
      StripShortens(s[1..]);
    } else if s != "" && s[|s| - 1] == '_' {
      StripShortens(s[..|s| - 1]);
    }
  }

  lemma TidyShortens(s: string)
    ensures |Tidy(s)| <= |Flat(Separate(s))|
  {
    CollapseShortens(Underscored(Separate(s)));
    StripShortens(Lower(Collapse(Underscored(Separate(s)))));
  }

  // ---- suffixes -----------------------------------------------------------------------------

  predicate Undone(x: string) {
    x == "" || x == "?" || x == "!" || x == "=" || x == "_async" || x == "Async"
  }

  predicate EndsPlainly(t: string) {
    t != "" && t[|t| - 1] != '?' && t[|t| - 1] != '!' && t[|t| - 1] != '='
  }

  lemma SuffixGoes(t: string, x: string)
    requires EndsPlainly(t) && Undone(x)
    ensures DropAsync(Trim(t + x)) == if x == "Async" || x == "_async" then t else DropAsync(t)
  {
    hide DropAsync;
    if x == "" {
      assert t + x == t && Trim(t) == t;
    } else if x == "?" || x == "!" || x == "=" {
      MarkGoes(t, x[0]);
      assert x == [x[0]];
    } else if x == "Async" {
      AsyncDrops(t);
    } else {
      UnderscoreAsyncDrops(t);
    }
  }

  lemma MarkGoes(t: string, mark: char)
    requires EndsPlainly(t) && (mark == '?' || mark == '!' || mark == '=')
    ensures Trim(t + [mark]) == t
  {
    var s := t + [mark];
    assert s[..|s| - 1] == t;
    assert Trim(t) == t;
  }

  lemma UnderscoreAsyncDrops(t: string)
    ensures DropAsync(Trim(t + "_async")) == t
  {
    var s := t + "_async";
    assert s[|s| - 1] == "_async"[5];
    assert Trim(s) == s;
    assert s[|s| - 6..] == "_async" && s[..|s| - 6] == t;
    assert s[|s| - 5] == "_async"[1];
    EndDiffers(s, "Async", 0);
  }

  lemma EndDiffers(t: string, x: string, k: nat)
    requires |x| <= |t| && k < |x| && t[|t| - |x| + k] != x[k]
    ensures t[|t| - |x|..] != x
  {
    assert t[|t| - |x|..][k] == t[|t| - |x| + k];
  }

  /** Where a word differs from `async`. */
  lemma NotAsync(w: string) returns (j: nat)
    requires |w| == 5 && w != "async"
    ensures j < 5 && w[j] != "async"[j]
  {
    j :| 0 <= j < 5 && w[j] != "async"[j];
  }

  /** A shorter word shows its capital among the last five, where `Async` has small letters. */
  lemma ShortCapitalEnd(pre: string, w: string, c: string)
    requires IsWord(w) && |w| < 5 <= |pre| + |w| && |c| == |w| && c[0] == ToUpper(w[0])
    ensures (pre + c)[|pre| + |w| - 5..] != "Async"
  {
    var t := pre + c;
    assert t[|pre|] == c[0] && IsWordChar(w[0]);
    EndDiffers(t, "Async", 5 - |w|);
  }

  /** A longer word has a small letter or a digit where `Async` has its capital. */
  lemma LongCapitalEnd(pre: string, w: string, c: string)
    requires IsWord(w) && |w| > 5 && |c| == |w| && c[|w| - 5] == w[|w| - 5]
    ensures (pre + c)[|pre| + |w| - 5..] != "Async"
  {
    var t := pre + c;
    assert t[|t| - 5] == c[|w| - 5] && IsWordChar(w[|w| - 5]);
    EndDiffers(t, "Async", 0);
  }

  /** A word of five differs from `async` somewhere, and its capitalised form from `Async` there. */
  lemma FiveCapitalEnd(pre: string, w: string, c: string, j: nat)
    requires IsWord(w) && |w| == |c| == 5 && j < 5 && w[j] != "async"[j]
    requires c[j] == if j == 0 then ToUpper(w[0]) else w[j]
    ensures (pre + c)[|pre|..] != "Async"
  {
    var t := pre + c;
    assert t[|t| - 5 + j] == c[j] && IsWordChar(w[j]);
    EndDiffers(t, "Async", j);
  }

  /** Text that ends in a capitalised word ends in `Async` only if the word is that. */
  lemma CapitalEnd(pre: string, w: string)
    requires IsWord(w) && w != "async"
    ensures var t := pre + Capital(w); |t| >= 5 ==> t[|t| - 5..] != "Async"
  {
    hide Capital, ToUpper, IsWord;
    var c := Capital(w);
    assert w != "" by {
      WordIsNotEmpty(w);
    }
    if |pre| + |w| >= 5 {
      if |w| < 5 {
        CapitalAt(w, 0);
        ShortCapitalEnd(pre, w, c);
      } else if |w| > 5 {
        CapitalAt(w, |w| - 5);
        LongCapitalEnd(pre, w, c);
      } else {
        var j := NotAsync(w);
        CapitalAt(w, j);
        FiveCapitalEnd(pre, w, c, j);
      }
    }
  }

  lemma WordIsNotEmpty(w: string)
    requires IsWord(w)
    ensures w != ""
  {
  }

  lemma CapitalAt(w: string, k: nat)
    requires IsWord(w) && k < |w|
    ensures Capital(w)[k] == if k == 0 then ToUpper(w[0]) else w[k]
  {
    if k > 0 {
      assert Capital(w)[k] == Lower(w[1..])[k - 1] == ToLower(w[1..][k - 1]);
      assert w[1..][k - 1] == w[k] && IsWordChar(w[k]);
    }
  }

  /** Text that ends in a word with no capital, alone or after a separator. */
  lemma WordEnd(pre: string, w: string)
    requires IsWord(w) && w != "async"
    requires pre != "" ==> pre[|pre| - 1] == '_'
    ensures var t := pre + w; |t| >= 6 ==> t[|t| - 6..] != "_async"
  {
    var t := pre + w;
    if |t| >= 6 {
      if |w| < 5 {
        assert t[|pre| - 1] == '_';
        EndDiffers(t, "_async", 5 - |w|);
      } else if |w| > 5 {
        assert t[|t| - 6] == w[|w| - 6] && IsWordChar(w[|w| - 6]);
        EndDiffers(t, "_async", 0);
      } else {
        var j := NotAsync(w);
        assert t[|t| - 5 + j] == w[j] && "_async"[j + 1] == "async"[j];
        EndDiffers(t, "_async", j + 1);
      }
    }
  }

  lemma NoCapitalNoAsync(t: string)
    requires forall k :: 0 <= k < |t| ==> !IsUpper(t[k])
    ensures |t| >= 5 ==> t[|t| - 5..] != "Async"
  {
    if |t| >= 5 {
      EndDiffers(t, "Async", 0);
    }
  }

  lemma NoUnderscoreNoAsync(t: string)
    requires '_' !in t
    ensures |t| >= 6 ==> t[|t| - 6..] != "_async"
  {
    if |t| >= 6 {
      EndDiffers(t, "_async", 0);
    }
  }

  // ---- renderings -----------------------------------------------------------------------------

  lemma Regroup(a: string, sep: string, b: string, c: string)
    ensures a + (sep + (b + c)) == (a + (sep + b)) + c
  {
    Associate(sep, b, c);
    Associate(a, sep + b, c);
  }

  lemma {:induction false} JoinInit(ws: seq<string>, sep: char)
    requires |ws| > 1
    ensures Join(ws, sep) == Join(ws[..|ws| - 1], sep) + ([sep] + ws[|ws| - 1])
    decreases |ws|
  {
    var n := |ws|;
    var init, last := ws[..n - 1], ws[n - 1];
    assert ws[1..][n - 2] == last && ws[1..][..n - 2] == init[1..] && init[0] == ws[0];
    if n == 2 {
      assert ws[1..] == [last];
    } else {
      JoinInit(ws[1..], sep);
      var inner := Join(init[1..], sep);
      hide Join;
      Regroup(ws[0], [sep], inner, [sep] + last);
    }
  }

  lemma JoinLast(ws: seq<string>, sep: char)
    requires ws != []
    ensures Join(ws, sep) ==
            (if |ws| == 1 then "" else Join(ws[..|ws| - 1], sep) + [sep]) + ws[|ws| - 1]
  {
    if |ws| == 1 {
      assert "" + ws[0] == ws[0];
    } else {
      JoinInit(ws, sep);
      hide Join;
      Associate(Join(ws[..|ws| - 1], sep), [sep], ws[|ws| - 1]);
    }
  }

  lemma {:induction false} JoinChars(ws: seq<string>, sep: char)
    requires AreWords(ws)
    ensures forall k :: 0 <= k < |Join(ws, sep)| ==> IsWordChar(Join(ws, sep)[k]) || Join(ws, sep)[k] == sep
    decreases |ws|
  {
    assert IsWord(ws[0]);
    if |ws| > 1 {
      JoinChars(ws[1..], sep);
    }
  }

  lemma {:induction false} CapitalsLast(ws: seq<string>)
    requires ws != []
    ensures Capitals(ws) == Capitals(ws[..|ws| - 1]) + Capital(ws[|ws| - 1])
    decreases |ws|
  {
    hide Capital;
    if |ws| == 1 {
      assert Capitals(ws[1..]) == "" && Capitals(ws[..0]) == "";
      assert Capital(ws[0]) + "" == "" + Capital(ws[0]);
    } else {
      CapitalsLast(ws[1..]);
      var init := ws[..|ws| - 1];
      assert ws[1..][..|ws| - 2] == init[1..] && init[0] == ws[0];
      Associate(Capital(ws[0]), Capitals(init[1..]), Capital(ws[|ws| - 1]));
    }
  }

  lemma {:induction false} CapitalsChars(ws: seq<string>)
    requires forall k :: 0 <= k < |ws| ==> IsWord(ws[k])
    ensures '_' !in Capitals(ws)
    decreases |ws|
  {
    if ws != [] {
      forall k | 0 <= k < |ws[0]|
        ensures Capital(ws[0])[k] != '_'
      {
        CapitalAt(ws[0], k);
        assert IsWordChar(ws[0][k]);
      }
      CapitalsChars(ws[1..]);
    }
  }

  lemma LastOfBoth(pre: string, w: string)
    requires w != ""
    ensures (pre + w)[|pre + w| - 1] == w[|w| - 1]
  {
  }

  lemma PlainEnd(pre: string, w: string)
    requires IsWord(w)
    ensures EndsPlainly(pre + w) && EndsPlainly(pre + Capital(w))
  {
    hide Capital;
    CapitalAt(w, |w| - 1);
    assert IsWordChar(w[|w| - 1]);
    LastOfBoth(pre, w);
    LastOfBoth(pre, Capital(w));
  }

  /** A joined spelling keeps its end. */
  lemma JoinedStays(ws: seq<string>, sep: char)
    requires AreWords(ws) && ws[|ws| - 1] != "async" && (sep == '_' || sep == '-' || sep == '.')
    ensures EndsPlainly(Join(ws, sep)) && DropAsync(Join(ws, sep)) == Join(ws, sep)
  {
    var t, last := Join(ws, sep), ws[|ws| - 1];
    var pre := if |ws| == 1 then "" else Join(ws[..|ws| - 1], sep) + [sep];
    JoinLast(ws, sep);
    JoinChars(ws, sep);
    PlainEnd(pre, last);
    NoCapitalNoAsync(t);
    if sep == '_' {
      WordEnd(pre, last);
    } else {
      NoUnderscoreNoAsync(t);
    }
  }

  /** So does one whose last word is capitalised. */
  lemma CapitalisedStays(pre: string, w: string)
    requires IsWord(w) && w != "async" && '_' !in pre
    ensures EndsPlainly(pre + Capital(w)) && DropAsync(pre + Capital(w)) == pre + Capital(w)
  {
    PlainEnd(pre, w);
    CapitalEnd(pre, w);
    CapitalsChars([w]);
    assert Capitals([w]) == Capital(w) + Capitals([]);
    assert '_' !in Capital(w);
    NoUnderscoreNoAsync(pre + Capital(w));
  }

  lemma SpellingStays(ws: seq<string>, style: Style)
    requires AreWords(ws) && ws[|ws| - 1] != "async"
    ensures EndsPlainly(RenderWords(ws, style)) && DropAsync(RenderWords(ws, style)) == RenderWords(ws, style)
  {
    hide Join, DropAsync, EndsPlainly, Capital;
    LowerAllKeepsWords(ws);
    LowerKeepsWord(ws[0]);
    var n := |ws|;
    match style
    case Snake => JoinedStays(ws, '_');
    case Kebab => JoinedStays(ws, '-');
    case Pascal =>
      CapitalsLast(ws);
      CapitalsChars(ws[..n - 1]);
      CapitalisedStays(Capitals(ws[..n - 1]), ws[n - 1]);
    case Camel =>
      if n == 1 {
        JoinedStays(ws, '_');
        assert Join(ws, '_') == ws[0] by {
          JoinLast(ws, '_');
        }
        assert Capitals(ws[1..]) == "" && ws[0] + "" == ws[0];
      } else {
        var vs := ws[1..];
        CapitalsLast(vs);
        CapitalsChars(vs[..n - 2]);
        assert vs[n - 2] == ws[n - 1];
        assert '_' !in ws[0] by {
          assert IsWord(ws[0]);
        }
        Associate(ws[0], Capitals(vs[..n - 2]), Capital(ws[n - 1]));
        CapitalisedStays(ws[0] + Capitals(vs[..n - 2]), ws[n - 1]);
      }
  }

  lemma {:induction false} FlatJoin(ws: seq<string>, sep: char)
    requires AreWords(ws) && (sep == '_' || sep == '-' || sep == '.')
    ensures Flat(Join(ws, sep)) == Join(ws, '_')
    decreases |ws|
  {
    hide Flat;
    FlatWord(ws[0]);
    if |ws| > 1 {
      FlatJoin(ws[1..], sep);
      FlatAppend(ws[0], [sep] + Join(ws[1..], sep));
      FlatAppend([sep], Join(ws[1..], sep));
      FlatSeparator(sep);
    }
  }

  lemma FlatSeparator(sep: char)
    requires sep == '_' || sep == '-' || sep == '.'
    ensures Flat([sep]) == "_"
  {
  }

  lemma CamelTells(ws: seq<string>)
    requires AreWords(ws) && Clear(ws)
    ensures Flat(Separate(ws[0] + Capitals(ws[1..]))) == Join(ws, '_')
  {
    hide Flat, Separate;
    var w, vs := ws[0], ws[1..];
    FlatWord(w);
    assert Separate(w) == w by {
      SeparateKeeps(w);
    }
    if vs == [] {
      assert Capitals(vs) == "" && w + "" == w;
    } else {
      var rest := Capitals(vs);
      assert Apart(ws[0], ws[0 + 1]);
      CapitalsStart(vs);
      assert IsWordChar(w[|w| - 1]) && Gap(w, rest) == "_";
      CapitalsTell(vs);
      forall k | 0 <= k < |vs| - 1
        ensures Apart(vs[k], vs[k + 1])
      {
        assert Apart(ws[k + 1], ws[k + 1 + 1]);
      }
      ToldIsJoin(vs);
      SeparateAppend(w, rest);
      FlatAppend(w, "_" + Separate(rest));
      FlatAppend("_", Separate(rest));
      FlatGap();
    }
  }

  lemma SpellingIsTold(ws: seq<string>, style: Style)
    requires AreWords(ws) && Clear(ws)
    ensures Flat(Separate(RenderWords(ws, style))) == Join(ws, '_')
  {
    hide Flat, Separate, Tidy, Clean;
    LowerAllKeepsWords(ws);
    LowerKeepsWord(ws[0]);
    var t := RenderWords(ws, style);
    match style {
      case Snake =>
        JoinChars(ws, '_');
        SeparateKeeps(t);
        FlatJoin(ws, '_');
      case Kebab =>
        JoinChars(ws, '-');
        SeparateKeeps(t);
        FlatJoin(ws, '-');
      case Camel =>
        CamelTells(ws);
      case Pascal =>
        CapitalsTell(ws);
        ToldIsJoin(ws);
    }
  }

  lemma SpellingTells(ws: seq<string>, style: Style)
    requires AreWords(ws) && Clear(ws)
    ensures Tidy(RenderWords(ws, style)) == Join(ws, '_')
  {
    hide Flat, Separate, Tidy, Clean, RenderWords;
    var t := RenderWords(ws, style);
    SpellingIsTold(ws, style);
    JoinIsClean(ws);
    assert Flat(Separate(t)) == Lower(Underscored(Separate(t))) by {
      FlatIs(Separate(t));
    }
    TidyIs(t);
  }

  lemma FlatIs(s: string)
    ensures Flat(s) == Lower(Underscored(s))
  {
  }

  /** Every spelling, with every suffix but `_sync`, leads back. */
  lemma SpellingLeadsBack(ws: seq<string>, style: Style, x: string)
    requires AreWords(ws) && Clear(ws) && Undone(x)
    ensures Canonical(RenderWords(ws, style) + x) == Join(ws, '_')
  {
    hide Trim, DropAsync, Tidy;
    SpellingStays(ws, style);
    SuffixGoes(RenderWords(ws, style), x);
    SpellingTells(ws, style);
  }

  ghost predicate AllLeadBack(ws: seq<string>)
    requires ws != []
  {
    forall style, x :: Undone(x) ==> Canonical(RenderWords(ws, style) + x) == Join(ws, '_')
  }

  /**
   Exactly the clear names: the words are set apart by capitals, which takes two
   characters or a digit before a letter, and the last is not `async`.
   */
  lemma LeadsBackExactly(ws: seq<string>)
    requires AreWords(ws)
    ensures AllLeadBack(ws) <==> Clear(ws)
  {
    hide Canonical, RenderWords, Join, Apart;
    if Clear(ws) {
      forall style, x | Undone(x)
        ensures Canonical(RenderWords(ws, style) + x) == Join(ws, '_')
      {
        SpellingLeadsBack(ws, style, x);
      }
    } else if ws[|ws| - 1] == "async" {
      LastAsyncIsLost(ws);
      assert Undone("");
    } else {
      GluedWordsAreLost(ws);
      assert Undone("Async");
    }
  }

  lemma AsyncDrops(pre: string)
    ensures DropAsync(Trim(pre + "Async")) == pre
  {
    var t := pre + "Async";
    assert t[|t| - 1] == 'c';
    assert Trim(t) == t;
    assert t[|t| - 5..] == "Async" && t[..|t| - 5] == pre;
  }

  lemma LastAsyncIsLost(ws: seq<string>)
    requires AreWords(ws) && ws[|ws| - 1] == "async"
    ensures Canonical(RenderWords(ws, Pascal) + "") != Join(ws, '_')
  {
    hide Tidy, Join, Flat, Separate, Trim, DropAsync, Capital;
    var n := |ws|;
    var init, t := ws[..n - 1], Capitals(ws);
    CapitalsLast(ws);
    AsyncCapital();
    assert t + "" == t;
    AsyncDrops(Capitals(init));
    TidyShortens(Capitals(init));
    JoinLast(ws, '_');
    InitTells(ws);
  }

  lemma InitTells(ws: seq<string>)
    requires AreWords(ws)
    ensures var init := ws[..|ws| - 1];
            |Flat(Separate(Capitals(init)))| <= if |ws| == 1 then 0 else |Join(init, '_')|
  {
    hide Flat, Separate, Join;
    var init := ws[..|ws| - 1];
    if |ws| > 1 {
      assert AreWords(init);
      CapitalsTell(init);
      ToldIsJoin(init);
    } else {
      FlatGap();
      SeparateKeeps("");
    }
  }

  lemma AsyncCapital()
    ensures Capital("async") == "Async" && IsWord("async")
  {
    assert "async"[1..] == "sync";
    assert Lower("sync") == "sync";
  }

  lemma AsyncIsUndone()
    ensures Undone("Async")
  {
  }

  lemma GluedWordsAreLost(ws: seq<string>)
    requires AreWords(ws) && exists k :: 0 <= k < |ws| - 1 && !Apart(ws[k], ws[k + 1])
    ensures Canonical(RenderWords(ws, Pascal) + "Async") != Join(ws, '_')
  {
    hide Tidy, Join, Flat, Separate, Apart, Trim, DropAsync, IsWord, Capitals, Capital, EndsPlainly;
    var t, n := Capitals(ws), |ws|;
    assert Undone("Async") by {
      AsyncIsUndone();
    }
    hide Undone;
    CapitalsLast(ws);
    PlainEnd(Capitals(ws[..n - 1]), ws[n - 1]);
    SuffixGoes(t, "Async");
    CapitalsTell(ws);
    ToldIsJoin(ws);
    TidyShortens(t);
  }

  /** Two clear names never accept a spelling in common, leaving `_sync` aside. */
  lemma SpellingsAreDistinct(ws: seq<string>, vs: seq<string>, a: Style, b: Style, x: string, y: string)
    requires AreWords(ws) && Clear(ws) && Undone(x)
    requires AreWords(vs) && Clear(vs) && Undone(y)
    requires RenderWords(ws, a) + x == RenderWords(vs, b) + y
    ensures ws == vs
  {
    hide RenderWords, Canonical, Words, Join;
    SpellingLeadsBack(ws, a, x);
    SpellingLeadsBack(vs, b, y);
    WordsOfJoin(ws);
    WordsOfJoin(vs);
  }

  // ---- the suffix that is not undone ----------------------------------------------------------

  lemma SyncStays(t: string)
    ensures DropAsync(Trim(t + "_sync")) == t + "_sync"
  {
    var s := t + "_sync";
    assert s[|s| - 1] == "_sync"[4] == 'c';
    assert Trim(s) == s;
    assert s[|s| - 5] == "_sync"[0];
    EndDiffers(s, "Async", 0);
    if |s| >= 6 {
      assert s[|s| - 6 + 1] == '_';
      EndDiffers(s, "_async", 1);
    }
  }

  lemma SyncIsAWord(ws: seq<string>)
    requires AreWords(ws)
    ensures AreWords(ws + ["sync"]) && Join(ws + ["sync"], '_') == Join(ws, '_') + "_sync"
  {
    var vs := ws + ["sync"];
    assert IsWord("sync");
    JoinInit(vs, '_');
    assert vs[..|vs| - 1] == ws && vs[|vs| - 1] == "sync";
    assert ['_'] + "sync" == "_sync";
  }

  lemma FlatSync()
    ensures Separate("_sync") == "_sync" && Flat("_sync") == "_sync"
  {
    SeparateKeeps("_sync");
  }

  lemma SyncGap(t: string)
    ensures Gap(t, "_sync") == ""
  {
  }

  /** A `_sync` spelling leads to the name with one more word. */
  lemma SyncLeadsOn(ws: seq<string>, style: Style)
    requires AreWords(ws) && Clear(ws)
    ensures Canonical(RenderWords(ws, style) + "_sync") == Join(ws + ["sync"], '_')
  {
    hide Flat, Separate, Tidy, Clean, RenderWords, Trim, DropAsync, Gap, Clear;
    var t := RenderWords(ws, style);
    SyncStays(t);
    SeparateAppend(t, "_sync");
    SyncGap(t);
    FlatSync();
    assert "" + Separate("_sync") == "_sync";
    FlatAppend(Separate(t), "_sync");
    SpellingIsTold(ws, style);
    SyncIsAWord(ws);
    JoinIsClean(ws + ["sync"]);
    FlatIs(Separate(t + "_sync"));
    TidyIs(t + "_sync");
  }

  /** Which suffixes are undone. */
  lemma SuffixLeadsBackExactly(ws: seq<string>, style: Style, x: string)
    requires AreWords(ws) && Clear(ws) && x in SUFFIXES
    ensures Canonical(RenderWords(ws, style) + x) == Join(ws, '_') <==> x != "_sync"
  {
    hide Canonical, RenderWords, Clear, Join;
    if x == "_sync" {
      SyncLeadsOn(ws, style);
      SyncIsAWord(ws);
    } else {
      assert Undone(x);
      SpellingLeadsBack(ws, style, x);
    }
  }

  /** The set that the checker builds for a clear name holds only spellings that lead back, or `_sync` ones. */
  lemma AcceptableLeadsBack(ws: seq<string>, style: Style, s: string)
    requires AreWords(ws) && Clear(ws) && Acceptable(Join(ws, '_'), style, s)
    ensures exists a :: || (Canonical(s) == Join(ws, '_') && exists x :: Undone(x) && s == RenderWords(ws, a) + x)
                        || (Canonical(s) == Join(ws + ["sync"], '_') && s == RenderWords(ws, a) + "_sync")
  {
    hide RenderWords, Canonical, Words, Join;
    WordsOfJoin(ws);
    var name := Join(ws, '_');
    var b, x :| b in {Render(name, style), Render(name, Snake), Render(name, Camel), Render(name, Pascal)}
                && x in SUFFIXES && s == b + x;
    var a := if b == Render(name, style) then style else if b == Render(name, Snake) then Snake
             else if b == Render(name, Camel) then Camel else Pascal;
    assert b == RenderWords(ws, a);
    if x == "_sync" {
      SyncLeadsOn(ws, a);
    } else {
      assert Undone(x);
      SpellingLeadsBack(ws, a, x);
    }
  }

  /**
   So two clear names do share an accepted spelling when one is the other with the
   word `sync` after it, whatever the languages' styles.
   */
  lemma SyncCollides(ws: seq<string>, a: Style, b: Style)
    requires AreWords(ws) && Clear(ws)
    ensures var name, other, s := Join(ws, '_'), Join(ws + ["sync"], '_'), Join(ws, '_') + "_sync";
            name != other && Acceptable(name, a, s) && Acceptable(other, b, s)
    ensures Clear(ws + ["sync"]) <==> Apart(ws[|ws| - 1], "sync")
  {
    hide Join, Words, LowerAll, Apart, Clear, Acceptable, Render;
    var name, other := Join(ws, '_'), Join(ws + ["sync"], '_');
    SyncIsAWord(ws);
    SnakeIsName(ws);
    SnakeIsName(ws + ["sync"]);
    AcceptsSnake(name, a, "_sync");
    AcceptsSnake(other, b, "");
    assert other + "" == other;
    ClearWithSync(ws);
  }

  lemma SnakeIsName(ws: seq<string>)
    requires AreWords(ws)
    ensures Render(Join(ws, '_'), Snake) == Join(ws, '_')
  {
    hide Join;
    WordsOfJoin(ws);
    LowerAllKeepsWords(ws);
  }

  lemma AcceptsSnake(name: string, style: Style, x: string)
    requires x == "" || x == "_sync"
    ensures Acceptable(name, style, Render(name, Snake) + x)
  {
    hide Render;
    assert x in SUFFIXES;
  }

  lemma ClearWithSync(ws: seq<string>)
    requires ws != [] && Clear(ws)
    ensures Clear(ws + ["sync"]) <==> Apart(ws[|ws| - 1], "sync")
  {
    hide Apart;
    var vs := ws + ["sync"];
    assert forall k :: 0 <= k < |ws| ==> vs[k] == ws[k];
    if Clear(vs) {
      assert Apart(vs[|ws| - 1], vs[|ws| - 1 + 1]);
    }
  }

  /** And only then: a spelling in common, with any suffixes, means one name or such a pair. */
  lemma SharedOnlyBySync(ws: seq<string>, vs: seq<string>, a: Style, b: Style, x: string, y: string)
    requires AreWords(ws) && Clear(ws) && x in SUFFIXES
    requires AreWords(vs) && Clear(vs) && y in SUFFIXES
    requires RenderWords(ws, a) + x == RenderWords(vs, b) + y
    ensures ws == vs || (x == "_sync" && vs == ws + ["sync"]) || (y == "_sync" && ws == vs + ["sync"])
  {
    hide RenderWords, Canonical, Words, Join, Clear, AreWords;
    CanonicalWords(ws, a, x);
    CanonicalWords(vs, b, y);
    if x == "_sync" && y == "_sync" {
      assert (ws + ["sync"])[..|ws|] == ws && (vs + ["sync"])[..|vs|] == vs;
    }
  }

  /** The words of what an accepted spelling leads to. */
  lemma CanonicalWords(ws: seq<string>, a: Style, x: string)
    requires AreWords(ws) && Clear(ws) && x in SUFFIXES
    ensures Words(Canonical(RenderWords(ws, a) + x)) == if x == "_sync" then ws + ["sync"] else ws
  {
    hide RenderWords, Canonical, Words, Join, Clear;
    if x == "_sync" {
      SyncLeadsOn(ws, a);
      SyncIsAWord(ws);
      WordsOfJoin(ws + ["sync"]);
    } else {
      assert Undone(x);
      SpellingLeadsBack(ws, a, x);
      WordsOfJoin(ws);
    }
  }

  /** For one: the operations `lock` and `lock_sync`. */
  lemma LockSyncCollides(a: Style, b: Style)
    ensures Acceptable("lock", a, "lock_sync") && Acceptable("lock_sync", b, "lock_sync")
    ensures Clear(["lock"]) && Clear(["lock", "sync"])
  {
    var ws := ["lock"];
    LockIsClear();
    SyncIsAWord(ws);
    SyncCollides(ws, a, b);
    hide Acceptable, Clear, AreWords;
    assert Join(ws, '_') == "lock" && ws + ["sync"] == ["lock", "sync"];
    assert "lock" + "_sync" == "lock_sync";
  }

  lemma LockIsClear()
    ensures AreWords(["lock"]) && Clear(["lock"]) && Apart("lock", "sync")
  {
    assert IsWord("lock");
    assert |"lock"| == 4 && "sync"[0] == 's';
  }

  // ---- what the spellings look like --------------------------------------------------------

  /** The words with a mark between each two. */
  function Chain(ws: seq<string>, mark: string): string
    requires ws != []
  {
    if |ws| == 1 then ws[0] else Chain(ws[..|ws| - 1], mark) + mark + ws[|ws| - 1]
  }

  /** The word with its first letter as a capital, if it is a letter. */
  function Risen(w: string): string {
    if w != "" && 'a' <= w[0] <= 'z' then [(w[0] as int - 32) as char] + w[1..] else w
  }

  function Humps(ws: seq<string>): string {
    if ws == [] then "" else Humps(ws[..|ws| - 1]) + Risen(ws[|ws| - 1])
  }

  lemma {:induction false} JoinIsChain(ws: seq<string>, sep: char)
    requires ws != []
    ensures Join(ws, sep) == Chain(ws, [sep])
    decreases |ws|
  {
    if |ws| > 1 {
      JoinInit(ws, sep);
      JoinIsChain(ws[..|ws| - 1], sep);
      hide Join, Chain;
      Associate(Chain(ws[..|ws| - 1], [sep]), [sep], ws[|ws| - 1]);
      ChainStep(ws, [sep]);
    }
  }

  lemma ChainStep(ws: seq<string>, mark: string)
    requires |ws| > 1
    ensures Chain(ws, mark) == Chain(ws[..|ws| - 1], mark) + mark + ws[|ws| - 1]
  {
  }

  lemma RisenAt(w: string, k: nat)
    requires k < |w|
    ensures |Risen(w)| == |w|
    ensures Risen(w)[k] == if k == 0 && 'a' <= w[0] <= 'z' then (w[0] as int - 32) as char else w[k]
  {
  }

  lemma CapitalIsRisen(w: string)
    requires IsWord(w)
    ensures Capital(w) == Risen(w)
  {
    hide Capital, Risen;
    RisenAt(w, 0);
    forall k | 0 <= k < |w|
      ensures Capital(w)[k] == Risen(w)[k]
    {
      CapitalAt(w, k);
      RisenAt(w, k);
    }
  }

  lemma {:induction false} CapitalsAreHumps(ws: seq<string>)
    requires forall k :: 0 <= k < |ws| ==> IsWord(ws[k])
    ensures Capitals(ws) == Humps(ws)
    decreases |ws|
  {
    hide Capital, Risen;
    if ws != [] {
      CapitalsLast(ws);
      CapitalsAreHumps(ws[..|ws| - 1]);
      CapitalIsRisen(ws[|ws| - 1]);
    }
  }

  /** The four spellings of a name. */
  lemma SpellingsAre(ws: seq<string>)
    requires AreWords(ws)
    ensures RenderWords(ws, Snake) == Chain(ws, "_") && RenderWords(ws, Kebab) == Chain(ws, "-")
    ensures RenderWords(ws, Camel) == ws[0] + Humps(ws[1..]) && RenderWords(ws, Pascal) == Humps(ws)
  {
    hide Join, Chain, Capitals, Humps;
    LowerAllKeepsWords(ws);
    LowerKeepsWord(ws[0]);
    JoinIsChain(ws, '_');
    JoinIsChain(ws, '-');
    CapitalsAreHumps(ws);
    CapitalsAreHumps(ws[1..]);
  }

  /** What is accepted for a name: the hyphenated spelling in its own style only, the other three in each. */
  lemma AcceptedExactly(ws: seq<string>, style: Style, s: string)
    requires AreWords(ws)
    ensures Acceptable(Chain(ws, "_"), style, s) <==>
            exists x :: x in {"", "?", "!", "_async", "Async", "_sync"}
                        && (|| s == Chain(ws, "_") + x || s == ws[0] + Humps(ws[1..]) + x || s == Humps(ws) + x
                            || (style == Kebab && s == Chain(ws, "-") + x))
  {
    JoinIsChain(ws, '_');
    WordsOfJoin(ws);
    SpellingsAre(ws);
    hide Chain, Humps, Words, RenderWords, Join;
    var name := Chain(ws, "_");
    assert Render(name, Snake) == Chain(ws, "_") && Render(name, Pascal) == Humps(ws);
    assert Render(name, Camel) == ws[0] + Humps(ws[1..]) && Render(name, Kebab) == Chain(ws, "-");
    hide Render;
    AcceptableIs(name, style, s);
  }

  lemma AcceptableIs(name: string, style: Style, s: string)
    ensures Acceptable(name, style, s) <==>
            exists x :: x in {"", "?", "!", "_async", "Async", "_sync"}
                        && (|| s == Render(name, Snake) + x || s == Render(name, Camel) + x || s == Render(name, Pascal) + x
                            || s == Render(name, style) + x)
  {
    hide Render;
    if Acceptable(name, style, s) {
      var b, x :| b in {Render(name, style), Render(name, Snake), Render(name, Camel), Render(name, Pascal)}
                  && x in SUFFIXES && s == b + x;
      assert x in {"", "?", "!", "_async", "Async", "_sync"};
    }
  }

  /** Dots lead back as hyphens do, in any name whose last word is not `async`. */
  lemma DotsLeadBack(ws: seq<string>)
    requires AreWords(ws) && ws[|ws| - 1] != "async"
    ensures Canonical(Join(ws, '.')) == Join(ws, '_')
  {
    hide Join, Flat, Separate, Tidy, Clean, Trim, DropAsync;
    var t := Join(ws, '.');
    JoinedStays(ws, '.');
    assert t + "" == t && Undone("");
    SuffixGoes(t, "");
    JoinChars(ws, '.');
    SeparateKeeps(t);
    FlatJoin(ws, '.');
    JoinIsClean(ws);
    FlatIs(Separate(t));
    TidyIs(t);
  }
}
