/**
 The two event-stream decoders: the TypeScript client cuts a growing buffer at
 blank lines, the Python client folds over lines. Decoding of the data itself
 is left to the caller; both are compared on (event, id, raw data).
 */
module EventStream {
  import opened Wrappers

  datatype Event = Event(event: string, id: Option<string>, raw: string)

  /** The fields gathered since the last dispatch. */
  datatype Block = Block(event: Option<string>, id: Option<string>, data: seq<string>)

  const EMPTY := Block(None, None, [])

  // ---- strings ------------------------------------------------------------

  /** The first index of `c`, or -1. */
  function IndexOf(s: string, c: char): (i: int)
    ensures -1 <= i < |s|
  {
    if s == "" then -1
    else if s[0] == c then 0
    else
      var i := IndexOf(s[1..], c);
      if i < 0 then -1 else i + 1
  }

  /** The pieces between line feeds: one more than there are line feeds. */
  function Split(s: string): (lines: seq<string>)
    ensures lines != []
  {
    if s == "" then [""]
    else
      var rest := Split(s[1..]);
      if s[0] == '\n' then [""] + rest else [[s[0]] + rest[0]] + rest[1..]
  }

  function Join(parts: seq<string>): string {
    if parts == [] then "" else if |parts| == 1 then parts[0] else parts[0] + "\n" + Join(parts[1..])
  }

  function Concat(chunks: seq<string>): string {
    if chunks == [] then "" else chunks[0] + Concat(chunks[1..])
  }

  /** Every CR LF as LF. */
  function Unfold(s: string): string {
    if s == "" then ""
    else if |s| >= 2 && s[0] == '\r' && s[1] == '\n' then "\n" + Unfold(s[2..])
    else [s[0]] + Unfold(s[1..])
  }

  /** Without the line ends at the end. */
  function RStrip(s: string): string {
    if s != "" && (s[|s| - 1] == '\n' || s[|s| - 1] == '\r') then RStrip(s[..|s| - 1]) else s
  }

  predicate BlankAt(s: string, k: nat)
    requires k + 1 < |s|
  {
    s[k] == '\n' && s[k + 1] == '\n'
  }

  /** No blank line, that is no two line feeds in a row. */
  predicate NoBlank(s: string) {
    forall k :: 0 <= k < |s| - 1 ==> !BlankAt(s, k)
  }

  /** The first index of a blank line, or -1. */
  function Boundary(s: string): (i: int)
    ensures -1 <= i < |s|
    ensures i >= 0 ==> i + 1 < |s| && BlankAt(s, i)
  {
    if |s| < 2 then -1
    else if BlankAt(s, 0) then 0
    else
      var i := Boundary(s[1..]);
      if i < 0 then -1 else i + 1
  }

  // ---- one line, one block ------------------------------------------------

  datatype Field = EventField | IdField | DataField | OtherField

  function FieldNamed(name: string): Field {
    if name == "event" then EventField
    else if name == "id" then IdField
    else if name == "data" then DataField
    else OtherField
  }

  /** The text before the first colon, and the value after it less one leading space. */
  function ParseLine(line: string): (Field, string) {
    var colon := IndexOf(line, ':');
    var name := if colon >= 0 then line[..colon] else line;
    var rest := if colon >= 0 then line[colon + 1..] else "";
    (FieldNamed(name), if rest != "" && rest[0] == ' ' then rest[1..] else rest)
  }

  /** One line's effect: empty lines, comments and unknown fields are ignored. */
  function Absorb(b: Block, line: string): Block {
    if line == "" || line[0] == ':' then b
    else
      var (field, value) := ParseLine(line);
      match field
      case EventField => b.(event := Some(value))
      case IdField => b.(id := Some(value))
      case DataField => b.(data := b.data + [value])
      case OtherField => b
  }

  /** A block without data dispatches nothing. */
  function Emit(b: Block): seq<Event> {
    if b.data == [] then [] else [Event(b.event.GetOr("message"), b.id, Join(b.data))]
  }

  function AbsorbAll(b: Block, lines: seq<string>): Block
    decreases |lines|
  {
    if lines == [] then b else AbsorbAll(Absorb(b, lines[0]), lines[1..])
  }

  // ---- the TypeScript decoder -----------------------------------------------

  function BlockEvents(block: string): seq<Event> {
    Emit(AbsorbAll(EMPTY, Split(Unfold(block))))
  }

  /** What the buffer loop yields for a whole stream. */
  function TsEvents(text: string): seq<Event>
    decreases |text|
  {
    var b := Boundary(text);
    if b < 0 then BlockEvents(text) else BlockEvents(text[..b]) + TsEvents(text[b + 2..])
  }

  function ToSeq(r: Option<Event>): seq<Event> {
    if r.Some? then [r.value] else []
  }

  method ParseSseBlock(block: string) returns (r: Option<Event>)
    ensures BlockEvents(block) == ToSeq(r)
  {
    var event := "message";
    var id: Option<string> := None;
    var data: seq<string> := [];
    var lines := Split(Unfold(block));
    ghost var seen := EMPTY;
    for i := 0 to |lines|
      invariant event == seen.event.GetOr("message") && id == seen.id && data == seen.data
      invariant AbsorbAll(EMPTY, lines) == AbsorbAll(seen, lines[i..])
    {
      var rawLine := lines[i];
      seen := Absorb(seen, rawLine);
      assert lines[i..][1..] == lines[i + 1..];
      if rawLine == "" || rawLine[0] == ':' {
        continue;
      }
      var (field, value) := ParseLine(rawLine);
      if field.EventField? {
        event := value;
      }
      if field.IdField? {
        id := Some(value);
      }
      if field.DataField? {
        data := data + [value];
      }
    }
    if data == [] {
      return None;
    }
    r := Some(Event(event, id, Join(data)));
  }

  /** A blank line found in a buffer is still the first one when more text arrives. */
  lemma {:induction false} BoundaryStays(buffer: string, more: string)
    requires Boundary(buffer) >= 0
    ensures Boundary(buffer + more) == Boundary(buffer)
  {
    if Boundary(buffer) > 0 {
      BoundaryStays(buffer[1..], more);
      assert (buffer + more)[1..] == buffer[1..] + more;
    }
  }

  lemma TsEventsStep(buffer: string, more: string)
    requires Boundary(buffer) >= 0
    ensures TsEvents(buffer + more)
            == BlockEvents(buffer[..Boundary(buffer)]) + TsEvents(buffer[Boundary(buffer) + 2..] + more)
  {
    var b, s := Boundary(buffer), buffer + more;
    BoundaryStays(buffer, more);
    assert s[..b] == buffer[..b];
    assert s[b + 2..] == buffer[b + 2..] + more;
  }

  lemma Assoc(a: seq<Event>, b: seq<Event>, c: seq<Event>)
    ensures a + (b + c) == (a + b) + c
  {
  }

  /** The inner loop: every block that is complete, whatever `more` is still to come. */
  method Drain(text: string, ghost more: string) returns (events: seq<Event>, buffer: string)
    ensures Boundary(buffer) < 0
    ensures events + TsEvents(buffer + more) == TsEvents(text + more)
  {
    events, buffer := [], text;
    var boundary := Boundary(buffer);
    while boundary >= 0
      invariant boundary == Boundary(buffer)
      invariant events + TsEvents(buffer + more) == TsEvents(text + more)
      decreases |buffer|
    {
      TsEventsStep(buffer, more);
      var event := ParseSseBlock(buffer[..boundary]);
      buffer := buffer[boundary + 2..];
      Assoc(events, ToSeq(event), TsEvents(buffer + more));
      events := events + ToSeq(event);
      boundary := Boundary(buffer);
    }
  }

  /** One read. */
  method Feed(events: seq<Event>, buffer: string, chunk: string, ghost more: string)
    returns (events': seq<Event>, buffer': string)
    ensures Boundary(buffer') < 0
    ensures events' + TsEvents(buffer' + more) == events + TsEvents(buffer + chunk + more)
  {
    var found;
    found, buffer' := Drain(buffer + chunk, more);
    ghost var later := TsEvents(buffer' + more);
    assert events + (found + later) == (events + found) + later;
    events' := events + found;
  }

  lemma ConcatStep(buffer: string, chunks: seq<string>, i: nat)
    requires i < |chunks|
    ensures buffer + Concat(chunks[i..]) == buffer + chunks[i] + Concat(chunks[i + 1..])
  {
    assert chunks[i..][1..] == chunks[i + 1..];
  }

  /** The buffer loop: its result depends on the stream, not on where it was cut. */
  method WatchTypeScript(chunks: seq<string>) returns (events: seq<Event>)
    ensures events == TsEvents(Concat(chunks))
  {
    events := [];
    var buffer := "";
    assert buffer + Concat(chunks[0..]) == Concat(chunks);
    for i := 0 to |chunks|
      invariant Boundary(buffer) < 0
      invariant events + TsEvents(buffer + Concat(chunks[i..])) == TsEvents(Concat(chunks))
    {
      ConcatStep(buffer, chunks, i);
      events, buffer := Feed(events, buffer, chunks[i], Concat(chunks[i + 1..]));
    }
    assert buffer + Concat(chunks[|chunks|..]) == buffer;
    var event := ParseSseBlock(buffer);
    if event.Some? {
      events := events + [event.value];
    } else {
      assert events + ToSeq(event) == events;
    }
  }

  // ---- the Python decoder ---------------------------------------------------

  /** Iterating a response: lines with their ends; no empty line after the last end. */
  function RawLines(text: string): (lines: seq<string>)
    ensures lines == [] <==> text == ""
  {
    if text == "" then []
    else
      var rest := RawLines(text[1..]);
      if text[0] == '\n' || rest == [] then [[text[0]]] + rest
      else [[text[0]] + rest[0]] + rest[1..]
  }

  /** What the line loop yields from `b` on, for the stripped lines to come. */
  function Dispatch(b: Block, lines: seq<string>): seq<Event>
    decreases |lines|
  {
    if lines == [] then Emit(b)
    else if lines[0] == "" then Emit(b) + Dispatch(EMPTY, lines[1..])
    else Dispatch(Absorb(b, lines[0]), lines[1..])
  }

  function StripAll(lines: seq<string>): (r: seq<string>)
    ensures |r| == |lines| && forall i :: 0 <= i < |r| ==> r[i] == RStrip(lines[i])
  {
    if lines == [] then [] else [RStrip(lines[0])] + StripAll(lines[1..])
  }

  function PyEvents(text: string): seq<Event> {
    Dispatch(EMPTY, StripAll(RawLines(text)))
  }

  method WatchPython(text: string) returns (events: seq<Event>)
    ensures events == PyEvents(text)
  {
    events := [];
    var event: Block := EMPTY;
    var lines := RawLines(text);
    ghost var stripped := StripAll(lines);
    for i := 0 to |lines|
      invariant events + Dispatch(event, stripped[i..]) == PyEvents(text)
    {
      var line := RStrip(lines[i]);
      assert line == stripped[i] && stripped[i..][1..] == stripped[i + 1..];
      if line == "" {
        ghost var later := Dispatch(EMPTY, stripped[i + 1..]);
        assert (events + Emit(event)) + later == events + (Emit(event) + later);
        events := events + Emit(event);
        event := EMPTY;
        continue;
      }
      event := Absorb(event, line);
    }
    events := events + Emit(event);
  }
}
