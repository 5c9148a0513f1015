/** What the line ends of a stream mean for the agreement of its decoders. */
module EventLineEnds {
  import opened EventStream
  import opened EventAgreement

  // ---- streams with LF line ends -------------------------------------------------------------

  /** No carriage return is part of a line end: none stands in front of a line feed or at the end. */
  predicate QuietAt(s: string, i: nat)
    requires i < |s|
  {
    s[i] == '\r' ==> i + 1 < |s| && s[i + 1] != '\n'
  }

  predicate Quiet(s: string) {
    forall i :: 0 <= i < |s| ==> QuietAt(s, i)
  }

  lemma QuietTail(s: string, k: nat)
    requires Quiet(s) && k <= |s|
    ensures Quiet(s[k..])
  {
    forall i | 0 <= i < |s[k..]|
      ensures QuietAt(s[k..], i)
    {
      assert QuietAt(s, k + i);
    }
  }

  lemma QuietBlock(s: string, k: nat)
    requires Quiet(s) && k < |s| && s[k] == '\n'
    ensures Quiet(s[..k])
  {
    forall i | 0 <= i < k
      ensures QuietAt(s[..k], i)
    {
      assert QuietAt(s, i);
    }
  }

  lemma {:induction false} QuietUnfolds(s: string)
    requires Quiet(s)
    ensures Unfold(s) == s
  {
    if s != "" {
      assert QuietAt(s, 0);
      QuietTail(s, 1);
      QuietUnfolds(s[1..]);
      assert s == [s[0]] + s[1..];
    }
  }

  predicate EndsClean(line: string) {
    line != "" ==> !IsLineEnd(line[|line| - 1])
  }

  predicate AllClean(lines: seq<string>) {
    forall i :: 0 <= i < |lines| ==> EndsClean(lines[i])
  }

  lemma {:induction false} QuietPieces(s: string)
    requires Quiet(s)
    ensures AllClean(Split(s))
  {
    if s != "" {
      assert QuietAt(s, 0);
      QuietTail(s, 1);
      QuietPieces(s[1..]);
      FirstPiece(s[1..]);
    }
  }

  lemma FirstPiece(s: string)
    ensures Split(s)[0] == "" <==> s == "" || s[0] == '\n'
  {
  }

  lemma {:induction false} CleanStays(lines: seq<string>)
    requires AllClean(lines)
    ensures StripAll(lines) == lines
  {
    if lines != [] {
      assert EndsClean(lines[0]);
      CleanStays(lines[1..]);
    }
  }

  /** The first boundary is the first blank line. */
  lemma {:induction false} BoundaryIsFirst(s: string)
    ensures NoBlank(if Boundary(s) < 0 then s else s[..Boundary(s) + 1])
  {
    if |s| >= 2 && !BlankAt(s, 0) {
      var t := s[1..];
      BoundaryIsFirst(t);
      var head, tail := if Boundary(s) < 0 then s else s[..Boundary(s) + 1], if Boundary(t) < 0 then t else t[..Boundary(t) + 1];
      assert head[1..] == tail;
      assert forall k :: 1 <= k < |head| - 1 ==> BlankAt(head, k) == BlankAt(tail, k - 1);
    }
  }

  lemma BlockHasNoBlank(text: string)
    requires Boundary(text) >= 0
    ensures NoBlank(text[..Boundary(text)])
  {
    var b := Boundary(text);
    var block, closed := text[..b], text[..b + 1];
    BoundaryIsFirst(text);
    assert forall k :: 0 <= k < |block| - 1 ==> BlankAt(block, k) == BlankAt(closed, k);
  }

  predicate Inside(lines: seq<string>) {
    forall i :: 1 <= i < |lines| - 1 ==> lines[i] != ""
  }

  /** Without a blank line only the first and the last piece can be empty. */
  lemma {:induction false} PiecesInside(s: string)
    requires NoBlank(s)
    ensures Inside(Split(s))
  {
    if s != "" {
      var t := s[1..];
      assert forall k :: 0 <= k < |t| - 1 ==> BlankAt(t, k) == BlankAt(s, k + 1);
      PiecesInside(t);
      FirstPiece(t);
      assert |s| >= 2 ==> !BlankAt(s, 0);
      assert t == "" ==> |Split(t)| == 1;
    }
  }

  lemma {:induction false} WholeSegment(b: Block, lines: seq<string>)
    requires Inside(lines) && (|lines| >= 2 ==> lines[0] != "" || b == EMPTY)
    ensures Dispatch(b, lines) == Emit(AbsorbAll(b, lines))
    decreases |lines|
  {
    if lines != [] {
      var rest := lines[1..];
      assert forall i :: 0 <= i < |rest| ==> rest[i] == lines[i + 1];
      WholeSegment(if lines[0] == "" then EMPTY else Absorb(b, lines[0]), rest);
    }
  }

  lemma QuietSegment(block: string)
    requires Quiet(block) && NoBlank(block)
    ensures TsSegment(Split(Unfold(block))) == PySegment(Split(Unfold(block)))
  {
    QuietUnfolds(block);
    QuietPieces(block);
    CleanStays(Split(block));
    PiecesInside(block);
    WholeSegment(EMPTY, Split(block));
  }

  lemma {:induction false} QuietSegments(text: string)
    requires Quiet(text)
    ensures SegmentsAgree(Segments(text))
    decreases |text|
  {
    hide TsSegment, PySegment;
    var b := Boundary(text);
    if b < 0 {
      BoundaryIsFirst(text);
      QuietSegment(text);
    } else {
      BlockHasNoBlank(text);
      QuietBlock(text, b);
      QuietSegment(text[..b]);
      QuietTail(text, b + 2);
      QuietSegments(text[b + 2..]);
    }
  }

  /** Where no carriage return belongs to a line end the decoders agree, the unterminated last event included. */
  lemma DecodersAgree(text: string)
    requires Quiet(text)
    ensures TsEvents(text) == PyEvents(text)
  {
    TsBySegments(text);
    PyBySegments(text);
    AgreeBySegments(Segments(text));
    QuietSegments(text);
  }

  // ---- streams with CR LF line ends -----------------------------------------------------------

  predicate FeedFollowsCr(s: string) {
    forall i :: 0 <= i < |s| && s[i] == '\n' ==> i > 0 && s[i - 1] == '\r'
  }

  predicate CrPrecedesFeed(s: string) {
    forall i :: 0 <= i < |s| && s[i] == '\r' ==> i + 1 < |s| && s[i + 1] == '\n'
  }

  lemma {:induction false} UnfoldLeavesNoCr(s: string)
    requires CrPrecedesFeed(s)
    ensures '\r' !in Unfold(s)
    decreases |s|
  {
    if s != "" {
      UnfoldLeavesNoCr(s[1..]);
      if s[0] == '\r' {
        UnfoldLeavesNoCr(s[2..]);
      }
    }
  }

  /**
   With CR LF throughout, the buffer loop takes the whole stream for one block and
   the line loop does not; they agree exactly when that makes no difference.
   */
  lemma CrLfAgreeExactly(text: string)
    requires FeedFollowsCr(text) && CrPrecedesFeed(text)
    ensures var lines := Split(Unfold(text));
            && TsEvents(text) == Emit(AbsorbAll(EMPTY, lines))
            && PyEvents(text) == Dispatch(EMPTY, lines)
            && (TsEvents(text) == PyEvents(text) <==> Merges(lines, lines))
  {
    hide Merges, TsEvents, PyEvents, Dispatch, AbsorbAll, Unfold;
    var lines := Split(Unfold(text));
    CrLfNeverDispatches(text);
    UnfoldLeavesNoCr(text);
    NoCrIsClean(Unfold(text));
    CleanStays(lines);
    TsBySegments(text);
    PyBySegments(text);
    OneSegment(lines);
    PiecesFeedFree(Unfold(text));
    SegmentAgreesExactly(lines);
  }

  /** When every line ends in CR LF the buffer loop never finds a boundary: all events merge. */
  lemma CrLfNeverDispatches(text: string)
    requires FeedFollowsCr(text)
    ensures Boundary(text) < 0 && Segments(text) == [Split(Unfold(text))]
    ensures |TsEvents(text)| <= 1
  {
  }

  lemma OneSegment(lines: seq<string>)
    ensures TsAll([lines]) == TsSegment(lines) && PyAll([lines]) == PySegment(lines)
  {
    assert [lines][1..] == [] && TsAll([]) == [] && PyAll([]) == [];
  }

  lemma NoCrIsClean(s: string)
    requires '\r' !in s
    ensures AllClean(Split(s))
  {
    assert forall i :: 0 <= i < |s| ==> QuietAt(s, i);
    QuietPieces(s);
  }

  lemma {:induction false} UnfoldLine(line: string, rest: string)
    requires '\r' !in line
    ensures Unfold(line + ("\r\n" + rest)) == line + ("\n" + Unfold(rest))
  {
    var s := line + ("\r\n" + rest);
    if line == "" {
      assert s == "\r\n" + rest && s[2..] == rest;
    } else {
      UnfoldLine(line[1..], rest);
      assert s[1..] == line[1..] + ("\r\n" + rest);
    }
  }

  lemma CrLfLine(line: string, rest: string)
    requires '\r' !in line && '\n' !in line && FeedFollowsCr(rest) && CrPrecedesFeed(rest)
    ensures var s := line + ("\r\n" + rest);
            FeedFollowsCr(s) && CrPrecedesFeed(s) && Split(Unfold(s)) == [line] + Split(Unfold(rest))
  {
    var s, n := line + ("\r\n" + rest), |line|;
    forall i | 0 <= i < |s|
      ensures s[i] == '\n' ==> i > 0 && s[i - 1] == '\r'
      ensures s[i] == '\r' ==> i + 1 < |s| && s[i + 1] == '\n'
    {
      if i >= n + 2 {
        assert s[i] == rest[i - n - 2];
      }
    }
    UnfoldLine(line, rest);
    var u := line + ("\n" + Unfold(rest));
    SplitAt(u, n);
    SplitSingle(line);
    assert u[..n] == line && u[n + 1..] == Unfold(rest);
  }

  /** A stream of events, each of one data line, closed by CR LF. */
  function CrLfStream(data: seq<string>): string {
    if data == [] then "" else ("data:" + data[0]) + ("\r\n" + ("" + ("\r\n" + CrLfStream(data[1..]))))
  }

  function CrLfLines(data: seq<string>): seq<string> {
    if data == [] then [""] else ["data:" + data[0]] + ([""] + CrLfLines(data[1..]))
  }

  predicate NoLineEnds(data: seq<string>) {
    forall i :: 0 <= i < |data| ==> '\r' !in data[i] && '\n' !in data[i]
  }

  lemma {:induction false} CrLfStreamLines(data: seq<string>)
    requires NoLineEnds(data)
    ensures var s := CrLfStream(data);
            FeedFollowsCr(s) && CrPrecedesFeed(s) && Split(Unfold(s)) == CrLfLines(data)
    decreases |data|
  {
    if data != [] {
      var rest := CrLfStream(data[1..]);
      CrLfStreamLines(data[1..]);
      hide Unfold, Split, FeedFollowsCr, CrPrecedesFeed;
      CrLfLine("", rest);
      CrLfLine("data:" + data[0], "" + ("\r\n" + rest));
    }
  }

  /** The line loop yields every one of them. */
  lemma {:induction false} CrLfDispatches(data: seq<string>)
    ensures |Dispatch(EMPTY, CrLfLines(data))| == |data|
    decreases |data|
  {
    if data != [] {
      var line, rest := "data:" + data[0], CrLfLines(data[1..]);
      CrLfDispatches(data[1..]);
      assert line == "data" + ":" + data[0];
      NamedLine("data", data[0], DataField);
      assert CrLfLines(data)[1..] == [""] + rest && ([""] + rest)[1..] == rest;
      hide ParseLine;
      assert Absorb(EMPTY, line).data != [];
      assert Dispatch(EMPTY, CrLfLines(data)) == Dispatch(Absorb(EMPTY, line), [""] + rest);
    }
  }

  /** On two or more such events, "data:a" and "data:b" with CR LF, say, the decoders differ. */
  lemma CrLfDisagrees(data: seq<string>)
    requires NoLineEnds(data)
    ensures |PyEvents(CrLfStream(data))| == |data|
    ensures |data| >= 2 ==> TsEvents(CrLfStream(data)) != PyEvents(CrLfStream(data))
  {
    var text := CrLfStream(data);
    CrLfStreamLines(data);
    CrLfAgreeExactly(text);
    CrLfNeverDispatches(text);
    CrLfDispatches(data);
  }

  lemma CrLfExample()
    ensures var text := "data:a\r\n\r\ndata:b\r\n\r\n";
            TsEvents(text) != PyEvents(text)
  {
    hide TsEvents, PyEvents;
    CrLfDisagrees(["a", "b"]);
    assert ["a", "b"][1..] == ["b"] && ["b"][1..] == [];
    assert CrLfStream(["b"]) == "data:b\r\n\r\n";
    assert CrLfStream(["a", "b"]) == "data:a\r\n\r\ndata:b\r\n\r\n";
  }
}
