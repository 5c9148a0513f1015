/** Exactly when the two event-stream decoders agree. */
module EventAgreement {
  import opened Wrappers
  import opened EventStream

  // ---- stripping line ends --------------------------------------------------------

  predicate IsLineEnd(c: char) {
    c == '\n' || c == '\r'
  }

  /** Stripping from the right, seen from the left. */
  lemma {:induction false} RStripCons(c: char, line: string)
    ensures RStrip([c] + line) == if RStrip(line) == "" then RStrip([c]) else [c] + RStrip(line)
    decreases |line|
  {
    var s := [c] + line;
    if line == "" {
      assert s == [c];
    } else if IsLineEnd(line[|line| - 1]) {
      assert s[..|s| - 1] == [c] + line[..|line| - 1];
      RStripCons(c, line[..|line| - 1]);
    }
  }

  /** The pieces of a text with one more character in front. */
  function Cons(c: char, pieces: seq<string>): seq<string>
    requires pieces != []
  {
    if c == '\n' then [""] + pieces else [[c] + pieces[0]] + pieces[1..]
  }

  lemma SplitCons(c: char, t: string)
    ensures Split([c] + t) == Cons(c, Split(t))
  {
    assert ([c] + t)[1..] == t;
  }

  lemma StripCongruent(c: char, x: seq<string>, y: seq<string>, more: seq<string>)
    requires x != [] && y != [] && StripAll(x) == StripAll(y) + more
    ensures StripAll(Cons(c, x)) == StripAll(Cons(c, y)) + more
  {
    hide RStrip, StripAll;
    if c == '\n' {
      StripCons("", x);
      StripCons("", y);
      Prefixed(RStrip(""), StripAll(y), more);
    } else {
      assert x == [x[0]] + x[1..] && y == [y[0]] + y[1..];
      StripCons(x[0], x[1..]);
      StripCons(y[0], y[1..]);
      SameHead(RStrip(x[0]), StripAll(x[1..]), RStrip(y[0]), StripAll(y[1..]), more);
      StripCons([c] + x[0], x[1..]);
      StripCons([c] + y[0], y[1..]);
      RStripCons(c, x[0]);
      RStripCons(c, y[0]);
      Prefixed(RStrip([c] + y[0]), StripAll(y[1..]), more);
    }
  }

  /** What the pieces have over the raw lines: an empty one after the last line feed. */
  function AfterLast(text: string): seq<string> {
    if text == "" || text[|text| - 1] == '\n' then [""] else []
  }

  lemma {:induction false} StripRawLines(text: string)
    ensures StripAll(Split(text)) == StripAll(RawLines(text)) + AfterLast(text)
  {
    hide RStrip, StripAll;
    StripEnds();
    if text != "" {
      var c, t := text[0], text[1..];
      var raw, pieces := RawLines(t), Split(t);
      StripRawLines(t);
      assert t != "" ==> t[|t| - 1] == text[|text| - 1];
      assert text == [c] + t;
      SplitCons(c, t);
      if c == '\n' {
        StripCons("", pieces);
        StripCons("\n", raw);
        assert [""] + (StripAll(raw) + AfterLast(t)) == ([""] + StripAll(raw)) + AfterLast(t);
      } else if t == "" {
        assert [c] + "" == [c] && Split(text) == [[c]] && RawLines(text) == [[c]];
      } else {
        StripCongruent(c, pieces, raw, AfterLast(t));
      }
    }
    assert AfterLast(text) == [] ==> StripAll(RawLines(text)) + [] == StripAll(RawLines(text));
  }

  lemma Prefixed(head: string, a: seq<string>, b: seq<string>)
    ensures [head] + (a + b) == ([head] + a) + b
  {
  }

  lemma SameHead(x: string, xs: seq<string>, y: string, ys: seq<string>, more: seq<string>)
    requires [x] + xs == ([y] + ys) + more
    ensures x == y && xs == ys + more
  {
    assert ([x] + xs)[0] == x && ([x] + xs)[1..] == xs;
    assert (([y] + ys) + more)[0] == y && (([y] + ys) + more)[1..] == ys + more;
  }

  lemma StripNothing()
    ensures StripAll([]) == []
  {
  }

  lemma StripEnds()
    ensures RStrip("") == "" && RStrip("\n") == "" && RStrip("\r") == ""
  {
  }

  lemma StripCons(line: string, lines: seq<string>)
    ensures StripAll([line] + lines) == [RStrip(line)] + StripAll(lines)
  {
  }

  lemma StripCrLf(pieces: seq<string>)
    requires pieces != []
    ensures StripAll(Cons('\r', Cons('\n', pieces))) == StripAll(Cons('\n', pieces))
  {
    hide RStrip, StripAll;
    StripEnds();
    assert ['\r'] + "" == "\r" && ([""] + pieces)[1..] == pieces;
    StripCons("\r", pieces);
    StripCons("", pieces);
  }

  /** Unfolding takes off only what stripping takes off. */
  lemma {:induction false} StripUnfold(s: string)
    ensures StripAll(Split(Unfold(s))) == StripAll(Split(s))
    decreases |s|
  {
    hide RStrip, StripAll, Cons, Split;
    if |s| >= 2 && s[0] == '\r' && s[1] == '\n' {
      var t := s[2..];
      StripUnfold(t);
      assert s == ['\r'] + (['\n'] + t) && Unfold(s) == ['\n'] + Unfold(t);
      SplitCons('\n', t);
      SplitCons('\r', ['\n'] + t);
      SplitCons('\n', Unfold(t));
      StripCongruent('\n', Split(Unfold(t)), Split(t), []);
      StripCrLf(Split(t));
    } else if s != "" {
      var t := s[1..];
      StripUnfold(t);
      assert s == [s[0]] + t;
      SplitCons(s[0], t);
      SplitCons(s[0], Unfold(t));
      StripCongruent(s[0], Split(Unfold(t)), Split(t), []);
    }
  }

  // ---- segments ---------------------------------------------------------------------

  /** The lines between the bare blank lines at which the buffer is cut. */
  function Segments(text: string): seq<seq<string>>
    decreases |text|
  {
    var b := Boundary(text);
    if b < 0 then [Split(Unfold(text))]
    else [Split(Unfold(text[..b]))] + Segments(text[b + 2..])
  }

  function TsSegment(lines: seq<string>): (r: seq<Event>)
    ensures |r| <= 1
  {
    Emit(AbsorbAll(EMPTY, lines))
  }

  function PySegment(lines: seq<string>): seq<Event> {
    Dispatch(EMPTY, StripAll(lines))
  }

  function TsAll(segments: seq<seq<string>>): seq<Event> {
    if segments == [] then [] else TsSegment(segments[0]) + TsAll(segments[1..])
  }

  function PyAll(segments: seq<seq<string>>): seq<Event> {
    if segments == [] then [] else PySegment(segments[0]) + PyAll(segments[1..])
  }

  lemma {:induction false} TsBySegments(text: string)
    ensures TsEvents(text) == TsAll(Segments(text))
    decreases |text|
  {
    if Boundary(text) >= 0 {
      TsBySegments(text[Boundary(text) + 2..]);
      assert Segments(text)[1..] == Segments(text[Boundary(text) + 2..]);
    }
  }

  /** An empty line ends what was gathered, whatever comes after it. */
  lemma {:induction false} DispatchCut(b: Block, lines: seq<string>, rest: seq<string>)
    ensures Dispatch(b, lines + ([""] + rest)) == Dispatch(b, lines) + Dispatch(EMPTY, rest)
    decreases |lines|
  {
    hide Absorb, Emit;
    var all := lines + ([""] + rest);
    if lines == [] {
      assert all[1..] == rest;
    } else {
      assert all[1..] == lines[1..] + ([""] + rest);
      if lines[0] == "" {
        DispatchCut(EMPTY, lines[1..], rest);
        Assoc(Emit(b), Dispatch(EMPTY, lines[1..]), Dispatch(EMPTY, rest));
      } else {
        DispatchCut(Absorb(b, lines[0]), lines[1..], rest);
      }
    }
  }

  lemma PyByPieces(text: string)
    ensures PyEvents(text) == PySegment(Split(text))
  {
    StripRawLines(text);
    var raw := StripAll(RawLines(text));
    if StripAll(Split(text)) == raw + [""] {
      DispatchCut(EMPTY, raw, []);
      assert [""] + [] == [""];
      assert Dispatch(EMPTY, []) == [];
    } else {
      assert raw + [] == raw;
    }
  }

  lemma {:induction false} StripAppend(a: seq<string>, b: seq<string>)
    ensures StripAll(a + b) == StripAll(a) + StripAll(b)
  {
    hide RStrip, StripAll;
    StripNothing();
    if a == [] {
      assert a + b == b && [] + StripAll(b) == StripAll(b);
    } else {
      StripAppend(a[1..], b);
      StripCons(a[0], a[1..] + b);
      StripCons(a[0], a[1..]);
      assert a == [a[0]] + a[1..] && a + b == [a[0]] + (a[1..] + b);
      assert [RStrip(a[0])] + (StripAll(a[1..]) + StripAll(b)) == ([RStrip(a[0])] + StripAll(a[1..])) + StripAll(b);
    }
  }

  /** Cutting at any line feed cuts the list of lines. */
  lemma {:induction false} SplitAt(s: string, k: nat)
    requires k < |s| && s[k] == '\n'
    ensures Split(s) == Split(s[..k]) + Split(s[k + 1..])
  {
    if k > 0 {
      SplitAt(s[1..], k - 1);
      assert s[1..][..k - 1] == s[..k][1..];
      assert s[1..][k..] == s[k + 1..];
    }
  }

  lemma SplitAtBoundary(text: string)
    requires Boundary(text) >= 0
    ensures Split(text) == Split(text[..Boundary(text)]) + ([""] + Split(text[Boundary(text) + 2..]))
  {
    var b := Boundary(text);
    var tail := text[b + 1..];
    SplitAt(text, b);
    SplitAt(tail, 0);
    assert tail[..0] == "" && tail[1..] == text[b + 2..];
  }

  lemma {:induction false} PiecesBySegments(text: string)
    ensures PySegment(Split(text)) == PyAll(Segments(text))
    decreases |text|
  {
    hide RStrip, StripAll, Dispatch, Split, Unfold;
    var b := Boundary(text);
    if b < 0 {
      StripUnfold(text);
      assert PyAll([Split(Unfold(text))][1..]) == [];
    } else {
      var block, rest := Split(text[..b]), Split(text[b + 2..]);
      SplitAtBoundary(text);
      StripAppend(block, [""] + rest);
      StripCons("", rest);
      StripEnds();
      DispatchCut(EMPTY, StripAll(block), StripAll(rest));
      StripUnfold(text[..b]);
      PiecesBySegments(text[b + 2..]);
      assert Segments(text)[1..] == Segments(text[b + 2..]);
    }
  }

  /** The line loop works segment by segment too, on the same lines stripped. */
  lemma PyBySegments(text: string)
    ensures PyEvents(text) == PyAll(Segments(text))
  {
    hide PyEvents, PySegment, PyAll, Segments;
    PyByPieces(text);
    PiecesBySegments(text);
  }

  // ---- data lines -----------------------------------------------------------------------

  predicate IsField(line: string, field: Field) {
    line != "" && line[0] != ':' && ParseLine(line).0 == field
  }

  /** The values of a field, in order. */
  function ValuesOf(lines: seq<string>, field: Field): seq<string> {
    if lines == [] then []
    else (if IsField(lines[0], field) then [ParseLine(lines[0]).1] else []) + ValuesOf(lines[1..], field)
  }

  function LastOf(values: seq<string>): Option<string> {
    if values == [] then None else Some(values[|values| - 1])
  }

  function Or(a: Option<string>, b: Option<string>): Option<string> {
    if a.Some? then a else b
  }

  /** A block is the last event name, the last id and all the data. */
  lemma {:induction false} AbsorbAllIs(b: Block, lines: seq<string>)
    ensures AbsorbAll(b, lines) == Block(Or(LastOf(ValuesOf(lines, EventField)), b.event),
                                         Or(LastOf(ValuesOf(lines, IdField)), b.id),
                                         b.data + ValuesOf(lines, DataField))
    decreases |lines|
  {
    hide ParseLine;
    if lines != [] {
      AbsorbAllIs(Absorb(b, lines[0]), lines[1..]);
    }
  }

  predicate HasData(lines: seq<string>) {
    ValuesOf(lines, DataField) != []
  }

  /** The one event of a block. */
  function EventOf(lines: seq<string>): Event {
    Event(LastOf(ValuesOf(lines, EventField)).GetOr("message"), LastOf(ValuesOf(lines, IdField)),
          Join(ValuesOf(lines, DataField)))
  }

  lemma TsSegmentIs(lines: seq<string>)
    ensures TsSegment(lines) == if HasData(lines) then [EventOf(lines)] else []
  {
    AbsorbAllIs(EMPTY, lines);
    assert EMPTY.data + ValuesOf(lines, DataField) == ValuesOf(lines, DataField);
  }

  lemma {:induction false} IndexIsFirst(s: string, c: char, k: nat)
    requires k <= |s| && (forall i :: 0 <= i < k ==> s[i] != c) && (k < |s| ==> s[k] == c)
    ensures IndexOf(s, c) == if k < |s| then k else -1
  {
    if s != "" && k > 0 {
      IndexIsFirst(s[1..], c, k - 1);
    }
  }

  lemma {:induction false} IndexIs(s: string, c: char)
    ensures IndexOf(s, c) >= 0 ==> s[IndexOf(s, c)] == c
  {
    if s != "" {
      IndexIs(s[1..], c);
    }
  }

  /** A line with a name in front of its first colon. */
  lemma NamedLine(name: string, rest: string, field: Field)
    requires name != "" && ':' !in name && FieldNamed(name) == field
    ensures IsField(name + ":" + rest, field)
    ensures rest != "" && rest[0] != ' ' ==> ParseLine(name + ":" + rest).1 == rest
  {
    var line := name + ":" + rest;
    IndexIsFirst(line, ':', |name|);
    assert line[..|name|] == name && line[|name| + 1..] == rest;
    assert line[0] == name[0];
  }

  lemma DataLineIs(line: string)
    requires IsField(line, DataField)
    ensures line == "data" || "data:" <= line
  {
    var colon := IndexOf(line, ':');
    IndexIs(line, ':');
    if colon >= 0 {
      assert line[..colon] == "data";
      assert line[..5] == line[..4] + [line[4]] == "data:";
    }
  }

  lemma {:induction false} PrefixStays(line: string)
    requires "data:" <= line
    ensures "data:" <= RStrip(line)
    decreases |line|
  {
    if IsLineEnd(line[|line| - 1]) {
      assert line[4] == "data:"[4] == ':';
      assert line[..|line| - 1][..5] == line[..5];
      PrefixStays(line[..|line| - 1]);
    }
  }

  /** A data line is still one without the line ends at its end. */
  lemma DataLineStays(line: string)
    requires IsField(line, DataField)
    ensures IsField(RStrip(line), DataField)
  {
    hide IsField, ParseLine;
    DataLineIs(line);
    if line == "data" {
      assert line[3] == 'a';
      assert RStrip(line) == line;
    } else {
      PrefixStays(line);
      var rest := RStrip(line)[5..];
      assert RStrip(line) == "data" + ":" + rest;
      NamedLine("data", rest, DataField);
    }
  }

  lemma {:induction false} DataStays(lines: seq<string>)
    requires HasData(lines)
    ensures HasData(StripAll(lines))
    decreases |lines|
  {
    hide ParseLine, RStrip;
    if IsField(lines[0], DataField) {
      DataLineStays(lines[0]);
    } else {
      DataStays(lines[1..]);
    }
  }

  // ---- groups -------------------------------------------------------------------------

  /** The runs of lines between empty lines. */
  function Groups(lines: seq<string>): (r: seq<seq<string>>)
    ensures r != []
  {
    if lines == [] then [[]]
    else
      var rest := Groups(lines[1..]);
      if lines[0] == "" then [[]] + rest else [[lines[0]] + rest[0]] + rest[1..]
  }

  function GroupEvents(groups: seq<seq<string>>): seq<Event> {
    if groups == [] then [] else TsSegment(groups[0]) + GroupEvents(groups[1..])
  }

  function GroupData(groups: seq<seq<string>>): seq<string> {
    if groups == [] then [] else ValuesOf(groups[0], DataField) + GroupData(groups[1..])
  }

  lemma {:induction false} DispatchGroups(b: Block, lines: seq<string>)
    ensures Dispatch(b, lines) == Emit(AbsorbAll(b, Groups(lines)[0])) + GroupEvents(Groups(lines)[1..])
    decreases |lines|
  {
    hide Absorb, Emit;
    if lines == [] {
      assert GroupEvents([]) == [];
    } else {
      var rest := Groups(lines[1..]);
      if lines[0] == "" {
        DispatchGroups(EMPTY, lines[1..]);
        assert ([[]] + rest)[1..] == rest;
      } else {
        DispatchGroups(Absorb(b, lines[0]), lines[1..]);
        assert ([lines[0]] + rest[0])[1..] == rest[0];
      }
    }
  }

  lemma {:induction false} DataByGroups(lines: seq<string>)
    ensures ValuesOf(lines, DataField) == GroupData(Groups(lines))
    decreases |lines|
  {
    hide IsField, ParseLine;
    if lines != [] {
      var rest := Groups(lines[1..]);
      DataByGroups(lines[1..]);
      if lines[0] == "" {
        assert ([[]] + rest)[1..] == rest;
        assert !IsField("", DataField) by {
          NotAField();
        }
      } else {
        assert ([lines[0]] + rest[0])[1..] == rest[0];
        var head := if IsField(lines[0], DataField) then [ParseLine(lines[0]).1] else [];
        Regroup(head, ValuesOf(rest[0], DataField), GroupData(rest[1..]));
      }
    }
  }

  lemma NotAField()
    ensures !IsField("", DataField)
  {
  }

  lemma Regroup(a: seq<string>, b: seq<string>, c: seq<string>)
    ensures a + (b + c) == (a + b) + c
  {
  }

  lemma {:induction false} NoGroup(groups: seq<seq<string>>)
    requires forall k :: 0 <= k < |groups| ==> !HasData(groups[k])
    ensures GroupEvents(groups) == [] && GroupData(groups) == []
  {
    if groups != [] {
      TsSegmentIs(groups[0]);
      assert !HasData(groups[0]);
      NoGroup(groups[1..]);
    }
  }

  lemma {:induction false} OneGroup(groups: seq<seq<string>>, k: nat)
    requires k < |groups| && HasData(groups[k])
    requires forall j :: 0 <= j < |groups| && j != k ==> !HasData(groups[j])
    ensures GroupEvents(groups) == [EventOf(groups[k])] && GroupData(groups) == ValuesOf(groups[k], DataField)
  {
    TsSegmentIs(groups[0]);
    if k == 0 {
      NoGroup(groups[1..]);
    } else {
      assert !HasData(groups[0]);
      OneGroup(groups[1..], k - 1);
    }
  }

  lemma {:induction false} SomeGroups(groups: seq<seq<string>>)
    ensures (exists k :: 0 <= k < |groups| && HasData(groups[k])) ==> |GroupEvents(groups)| >= 1
    ensures (exists j, k :: 0 <= j < k < |groups| && HasData(groups[j]) && HasData(groups[k])) ==> |GroupEvents(groups)| >= 2
  {
    hide HasData;
    if groups != [] {
      var rest := groups[1..];
      TsSegmentIs(groups[0]);
      SomeGroups(rest);
      assert forall k :: 0 < k < |groups| ==> groups[k] == rest[k - 1];
    }
  }

  lemma PySegmentIs(lines: seq<string>)
    ensures PySegment(lines) == GroupEvents(Groups(StripAll(lines)))
  {
    DispatchGroups(EMPTY, StripAll(lines));
  }

  // ---- segment by segment --------------------------------------------------------------

  /** The line loop yields at least what the buffer loop does. */
  lemma NoFewer(lines: seq<string>)
    ensures |TsSegment(lines)| <= |PySegment(lines)|
  {
    TsSegmentIs(lines);
    if HasData(lines) {
      var stripped := StripAll(lines);
      DataStays(lines);
      PySegmentIs(lines);
      DataByGroups(stripped);
      var groups := Groups(stripped);
      if forall k :: 0 <= k < |groups| ==> !HasData(groups[k]) {
        NoGroup(groups);
      }
      SomeGroups(groups);
    }
  }

  lemma {:induction false} NoFewerInAll(segments: seq<seq<string>>)
    ensures |TsAll(segments)| <= |PyAll(segments)|
  {
    if segments != [] {
      NoFewer(segments[0]);
      NoFewerInAll(segments[1..]);
    }
  }

  ghost predicate SegmentsAgree(segments: seq<seq<string>>) {
    forall k :: 0 <= k < |segments| ==> TsSegment(segments[k]) == PySegment(segments[k])
  }

  /** So equal totals mean equality in every segment. */
  lemma {:induction false} AgreeBySegments(segments: seq<seq<string>>)
    ensures TsAll(segments) == PyAll(segments) <==> SegmentsAgree(segments)
  {
    hide TsSegment, PySegment;
    if segments != [] {
      var first, rest := segments[0], segments[1..];
      NoFewer(first);
      NoFewerInAll(rest);
      AgreeBySegments(rest);
      assert SegmentsAgree(segments) <==> TsSegment(first) == PySegment(first) && SegmentsAgree(rest) by {
        assert forall k :: 0 < k < |segments| ==> segments[k] == rest[k - 1];
        assert forall k :: 0 <= k < |rest| ==> rest[k] == segments[k + 1];
      }
      if TsAll(segments) == PyAll(segments) {
        SplitEqual(TsSegment(first), TsAll(rest), PySegment(first), PyAll(rest));
      }
    }
  }

  lemma SplitEqual(a: seq<Event>, x: seq<Event>, b: seq<Event>, y: seq<Event>)
    requires a + x == b + y && |a| <= |b| && |x| <= |y|
    ensures a == b && x == y
  {
    assert |a + x| == |a| + |x|;
    assert (a + x)[..|a|] == a && (b + y)[..|b|] == b;
    assert (a + x)[|a|..] == x && (b + y)[|b|..] == y;
  }

  // ---- the condition ---------------------------------------------------------------------

  predicate FeedFree(lines: seq<string>) {
    forall i :: 0 <= i < |lines| ==> '\n' !in lines[i]
  }

  lemma {:induction false} PiecesFeedFree(s: string)
    ensures FeedFree(Split(s))
  {
    if s != "" {
      PiecesFeedFree(s[1..]);
    }
  }

  lemma {:induction false} RStripPrefix(s: string)
    ensures RStrip(s) <= s
    decreases |s|
  {
    if s != "" && IsLineEnd(s[|s| - 1]) {
      RStripPrefix(s[..|s| - 1]);
    }
  }

  lemma StripFeedFree(lines: seq<string>)
    requires FeedFree(lines)
    ensures FeedFree(StripAll(lines))
  {
    forall i | 0 <= i < |lines|
      ensures '\n' !in StripAll(lines)[i]
    {
      RStripPrefix(lines[i]);
    }
  }

  lemma {:induction false} ValuesFeedFree(lines: seq<string>, field: Field)
    requires FeedFree(lines)
    ensures FeedFree(ValuesOf(lines, field))
  {
    if lines != [] {
      ValuesFeedFree(lines[1..], field);
    }
  }

  lemma {:induction false} SplitSingle(s: string)
    requires '\n' !in s
    ensures Split(s) == [s]
  {
    if s != "" {
      SplitSingle(s[1..]);
      assert [s[0]] + s[1..] == s && [s[1..]][1..] == [];
    }
  }

  lemma {:induction false} SplitJoin(parts: seq<string>)
    requires parts != [] && FeedFree(parts)
    ensures Split(Join(parts)) == parts
    decreases |parts|
  {
    SplitSingle(parts[0]);
    if |parts| > 1 {
      var s, k := Join(parts), |parts[0]|;
      SplitJoin(parts[1..]);
      SplitAt(s, k);
      assert s[..k] == parts[0] && s[k + 1..] == Join(parts[1..]);
    }
  }

  /**
   `lines` as the buffer loop sees a segment, `stripped` as the line loop does: no
   data line loses anything to stripping, only one group has data, and no other
   line of the segment changes that group's event name or id.
   */
  ghost predicate Merges(lines: seq<string>, stripped: seq<string>) {
    var groups := Groups(stripped);
    && ValuesOf(lines, DataField) == ValuesOf(stripped, DataField)
    && (forall j, k :: 0 <= j < k < |groups| ==> !(HasData(groups[j]) && HasData(groups[k])))
    && (forall k :: 0 <= k < |groups| && HasData(groups[k]) ==>
          && LastOf(ValuesOf(lines, EventField)).GetOr("message") == LastOf(ValuesOf(groups[k], EventField)).GetOr("message")
          && LastOf(ValuesOf(lines, IdField)) == LastOf(ValuesOf(groups[k], IdField)))
  }

  lemma JoinTells(a: seq<string>, b: seq<string>)
    requires a != [] && b != [] && FeedFree(a) && FeedFree(b)
    ensures Join(a) == Join(b) <==> a == b
  {
    SplitJoin(a);
    SplitJoin(b);
  }

  lemma SegmentAgreesExactly(lines: seq<string>)
    requires FeedFree(lines)
    ensures TsSegment(lines) == PySegment(lines) <==> Merges(lines, StripAll(lines))
  {
    hide TsSegment, PySegment, ValuesOf, Groups, Join, LastOf, StripAll, GroupEvents;
    var stripped := StripAll(lines);
    var groups := Groups(stripped);
    TsSegmentIs(lines);
    PySegmentIs(lines);
    DataByGroups(stripped);
    SomeGroups(groups);
    if exists j, k :: 0 <= j < k < |groups| && HasData(groups[j]) && HasData(groups[k]) {
      assert |TsSegment(lines)| < |PySegment(lines)|;
    } else if exists k :: 0 <= k < |groups| && HasData(groups[k]) {
      var k :| 0 <= k < |groups| && HasData(groups[k]);
      OneGroup(groups, k);
      StripFeedFree(lines);
      ValuesFeedFree(lines, DataField);
      ValuesFeedFree(stripped, DataField);
      if HasData(lines) {
        JoinTells(ValuesOf(lines, DataField), ValuesOf(stripped, DataField));
      }
    } else {
      NoGroup(groups);
      if HasData(lines) {
        DataStays(lines);
      }
    }
  }

  lemma {:induction false} SegmentsFeedFree(text: string)
    ensures forall k :: 0 <= k < |Segments(text)| ==> FeedFree(Segments(text)[k])
    decreases |text|
  {
    var b := Boundary(text);
    if b < 0 {
      PiecesFeedFree(Unfold(text));
    } else {
      PiecesFeedFree(Unfold(text[..b]));
      SegmentsFeedFree(text[b + 2..]);
    }
  }

  /** For every stream whatever: the decoders agree exactly when every segment merges without a trace. */
  lemma DecodersAgreeExactly(text: string)
    ensures TsEvents(text) == PyEvents(text) <==>
            forall k :: 0 <= k < |Segments(text)| ==> Merges(Segments(text)[k], StripAll(Segments(text)[k]))
  {
    hide Segments, Merges, TsEvents, PyEvents, TsSegment, PySegment, FeedFree, StripAll;
    var segments := Segments(text);
    TsBySegments(text);
    PyBySegments(text);
    AgreeBySegments(segments);
    SegmentsFeedFree(text);
    forall k | 0 <= k < |segments|
      ensures TsSegment(segments[k]) == PySegment(segments[k]) <==> Merges(segments[k], StripAll(segments[k]))
    {
      SegmentAgreesExactly(segments[k]);
    }
  }

  /** The two loops themselves, for every stream and every way of cutting it. */
  method DecodeBoth(chunks: seq<string>) returns (ts: seq<Event>, py: seq<Event>)
    ensures var segments := Segments(Concat(chunks));
            ts == py <==> forall k :: 0 <= k < |segments| ==> Merges(segments[k], StripAll(segments[k]))
  {
    ts := WatchTypeScript(chunks);
    py := WatchPython(Concat(chunks));
    DecodersAgreeExactly(Concat(chunks));
  }
}
