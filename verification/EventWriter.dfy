/** Events written in the format are read back, by both decoders and however the stream is cut. */
module EventWriter {
  import opened Wrappers
  import opened EventStream
  import opened EventAgreement
  import opened EventLineEnds

  /** An event to write: lines that mean nothing, the optional fields, and its data piece by piece. */
  datatype Written = Written(noise: seq<string>, event: Option<string>, id: Option<string>, data: seq<string>)

  /** No line feed, and no carriage return that would stand in front of one. */
  predicate OneLine(s: string) {
    '\n' !in s && EndsClean(s)
  }

  /** The line gives the field of this name, with a value or without. */
  predicate Gives(line: string, name: string) {
    line == name || name + ":" <= line
  }

  /** A comment, or a field of another name. */
  predicate IsNoise(line: string) {
    && line != "" && OneLine(line)
    && (line[0] == ':' || (!Gives(line, "event") && !Gives(line, "id") && !Gives(line, "data")))
  }

  predicate Writable(w: Written) {
    && (forall i :: 0 <= i < |w.noise| ==> IsNoise(w.noise[i]))
    && (w.event.Some? ==> OneLine(w.event.value)) && (w.id.Some? ==> OneLine(w.id.value))
    && forall i :: 0 <= i < |w.data| ==> OneLine(w.data[i])
  }

  function FieldLine(name: string, value: string): string {
    name + ": " + value
  }

  function Optional(name: string, value: Option<string>): seq<string> {
    match value
    case None => []
    case Some(v) => [FieldLine(name, v)]
  }

  function DataLines(data: seq<string>): (r: seq<string>)
    ensures |r| == |data|
  {
    seq(|data|, i requires 0 <= i < |data| => FieldLine("data", data[i]))
  }

  function Lines(w: Written): seq<string> {
    w.noise + (Optional("event", w.event) + (Optional("id", w.id) + DataLines(w.data)))
  }

  /** Every line with a line feed after it. */
  function Fed(lines: seq<string>): string {
    if lines == [] then "" else lines[0] + ("\n" + Fed(lines[1..]))
  }

  /** The stream: each event's lines and a blank one. */
  function Stream(events: seq<Written>): string {
    if events == [] then "" else Fed(Lines(events[0]) + [""]) + Stream(events[1..])
  }

  /** Pieces with a line feed between each two. */
  function Glued(data: seq<string>): string
    requires data != []
  {
    if |data| == 1 then data[0] else data[0] + ("\n" + Glued(data[1..]))
  }

  /** What one event reads as: nothing without data. */
  function MeantOne(w: Written): seq<Event> {
    if w.data == [] then []
    else [Event(if w.event.Some? then w.event.value else "message", w.id, Glued(w.data))]
  }

  /** What was written. */
  function Meant(events: seq<Written>): seq<Event> {
    if events == [] then [] else MeantOne(events[0]) + Meant(events[1..])
  }

  // ---- lines -------------------------------------------------------------------------

  lemma FieldIsRead(name: string, value: string, field: Field, b: Block)
    requires (name == "event" && field == EventField) || (name == "id" && field == IdField)
             || (name == "data" && field == DataField)
    ensures Absorb(b, FieldLine(name, value)) ==
            match field
            case EventField => Block(Some(value), b.id, b.data)
            case IdField => Block(b.event, Some(value), b.data)
            case _ => Block(b.event, b.id, b.data + [value])
  {
    var line := FieldLine(name, value);
    assert line == name + ":" + (" " + value);
    NameHasNoColon(name);
    IndexIsFirst(line, ':', |name|);
    assert line[..|name|] == name && line[|name| + 1..] == " " + value && (" " + value)[1..] == value;
    assert line[0] == name[0];
  }

  /** The space may be missing, and so may the colon. */
  lemma OtherForms(b: Block, value: string)
    requires value == "" || value[0] != ' '
    ensures Absorb(b, "data:" + value) == Block(b.event, b.id, b.data + [value])
    ensures Absorb(b, "data") == Block(b.event, b.id, b.data + [""])
  {
    var line := "data:" + value;
    IndexIsFirst(line, ':', 4);
    assert line[..4] == "data" && line[5..] == value;
    IndexIsFirst("data", ':', 4);
  }

  lemma NameHasNoColon(name: string)
    requires name == "event" || name == "id" || name == "data"
    ensures name != "" && ':' !in name
  {
  }

  lemma NoiseIsIgnored(line: string, b: Block)
    requires IsNoise(line)
    ensures Absorb(b, line) == b
  {
    if line[0] != ':' {
      var colon := IndexOf(line, ':');
      var name := if colon >= 0 then line[..colon] else line;
      IndexIs(line, ':');
      assert Gives(line, name) by {
        if colon >= 0 {
          assert line[..colon + 1] == name + [line[colon]];
        }
      }
      hide Gives;
    }
  }

  // ---- one event ---------------------------------------------------------------------------

  lemma {:induction false} AbsorbBoth(b: Block, first: seq<string>, second: seq<string>)
    ensures AbsorbAll(b, first + second) == AbsorbAll(AbsorbAll(b, first), second)
    decreases |first|
  {
    hide Absorb;
    if first == [] {
      assert first + second == second;
    } else {
      assert (first + second)[1..] == first[1..] + second;
      AbsorbBoth(Absorb(b, first[0]), first[1..], second);
    }
  }

  lemma {:induction false} AbsorbNoise(b: Block, noise: seq<string>)
    requires forall i :: 0 <= i < |noise| ==> IsNoise(noise[i])
    ensures AbsorbAll(b, noise) == b
    decreases |noise|
  {
    hide IsNoise;
    if noise != [] {
      NoiseIsIgnored(noise[0], b);
      AbsorbNoise(b, noise[1..]);
    }
  }

  lemma {:induction false} AbsorbData(b: Block, data: seq<string>)
    ensures AbsorbAll(b, DataLines(data)) == Block(b.event, b.id, b.data + data)
    decreases |data|
  {
    hide FieldLine, Absorb;
    if data == [] {
      assert b.data + data == b.data;
    } else {
      FieldIsRead("data", data[0], DataField, b);
      AbsorbData(Block(b.event, b.id, b.data + [data[0]]), data[1..]);
      assert DataLines(data)[1..] == DataLines(data[1..]);
      assert b.data + [data[0]] + data[1..] == b.data + data;
    }
  }

  lemma AbsorbOptional(b: Block, name: string, value: Option<string>, field: Field)
    requires (name == "event" && field == EventField && b.event == None) || (name == "id" && field == IdField && b.id == None)
    ensures AbsorbAll(b, Optional(name, value)) ==
              if name == "event" then Block(value, b.id, b.data) else Block(b.event, value, b.data)
  {
    hide FieldLine, Absorb;
    if value.Some? {
      var line := FieldLine(name, value.value);
      FieldIsRead(name, value.value, field, b);
      assert [line][1..] == [];
      assert AbsorbAll(b, [line]) == AbsorbAll(Absorb(b, line), []);
    }
  }

  lemma LinesAreRead(w: Written)
    requires Writable(w)
    ensures AbsorbAll(EMPTY, Lines(w)) == Block(w.event, w.id, w.data)
  {
    hide AbsorbAll, Absorb, IsNoise;
    var tail := Optional("id", w.id) + DataLines(w.data);
    AbsorbBoth(EMPTY, w.noise, Optional("event", w.event) + tail);
    AbsorbNoise(EMPTY, w.noise);
    AbsorbBoth(EMPTY, Optional("event", w.event), tail);
    AbsorbOptional(EMPTY, "event", w.event, EventField);
    var b := Block(w.event, None, []);
    AbsorbBoth(b, Optional("id", w.id), DataLines(w.data));
    AbsorbOptional(b, "id", w.id, IdField);
    AbsorbData(Block(w.event, w.id, []), w.data);
    assert [] + w.data == w.data;
  }

  lemma {:induction false} GluedIsJoin(data: seq<string>)
    requires data != []
    ensures Join(data) == Glued(data)
  {
    if |data| > 1 {
      GluedIsJoin(data[1..]);
      assert data[0] + "\n" + Join(data[1..]) == data[0] + ("\n" + Join(data[1..]));
    }
  }

  predicate NoneEmpty(lines: seq<string>) {
    forall i :: 0 <= i < |lines| ==> lines[i] != ""
  }

  lemma LinesNotEmpty(w: Written)
    requires Writable(w)
    ensures NoneEmpty(Lines(w))
  {
    assert forall name, value :: FieldLine(name, value) != "";
    hide FieldLine;
    assert forall i :: 0 <= i < |w.noise| ==> IsNoise(w.noise[i]);
  }

  lemma EventIsRead(w: Written, rest: seq<string>)
    requires Writable(w)
    ensures Dispatch(EMPTY, Lines(w) + ([""] + rest))
         == MeantOne(w) + Dispatch(EMPTY, rest)
  {
    hide Lines, Absorb, Glued, Join, IsNoise;
    LinesNotEmpty(w);
    LinesAreRead(w);
    DispatchCut(EMPTY, Lines(w), rest);
    WholeSegment(EMPTY, Lines(w));
    if w.data != [] {
      GluedIsJoin(w.data);
    }
  }

  // ---- the stream ------------------------------------------------------------------------------

  predicate AllOneLine(lines: seq<string>) {
    forall i :: 0 <= i < |lines| ==> OneLine(lines[i])
  }

  lemma LinesOneLine(w: Written)
    requires Writable(w)
    ensures AllOneLine(Lines(w) + [""])
  {
    forall name, value | (name == "event" || name == "id" || name == "data") && OneLine(value)
      ensures OneLine(FieldLine(name, value))
    {
    }
    hide FieldLine;
    assert forall i :: 0 <= i < |w.noise| ==> IsNoise(w.noise[i]);
  }

  lemma SplitLine(line: string, tail: string)
    requires OneLine(line)
    ensures Split(line + ("\n" + tail)) == [line] + Split(tail)
  {
    var s := line + ("\n" + tail);
    SplitSingle(line);
    hide Split;
    SplitAt(s, |line|);
    assert s[..|line|] == line && s[|line| + 1..] == tail;
  }

  lemma FedStep(line: string, fed: string, rest: string)
    ensures (line + ("\n" + fed)) + rest == line + ("\n" + (fed + rest))
  {
    assert ("\n" + fed) + rest == "\n" + (fed + rest);
    assert (line + ("\n" + fed)) + rest == line + (("\n" + fed) + rest);
  }

  lemma QuietLine(line: string, tail: string)
    requires OneLine(line) && Quiet(tail)
    ensures Quiet(line + ("\n" + tail))
  {
    var s := line + ("\n" + tail);
    forall i | 0 <= i < |s|
      ensures QuietAt(s, i)
    {
      assert i > |line| ==> QuietAt(tail, i - |line| - 1);
    }
  }

  lemma {:induction false} SplitFed(lines: seq<string>, rest: string)
    requires AllOneLine(lines)
    ensures Split(Fed(lines) + rest) == lines + Split(rest)
    ensures Quiet(rest) ==> Quiet(Fed(lines) + rest)
    decreases |lines|
  {
    hide Split;
    if lines == [] {
      assert Fed(lines) + rest == rest && lines + Split(rest) == Split(rest);
    } else {
      var line, fed := lines[0], Fed(lines[1..]);
      assert OneLine(line);
      SplitFed(lines[1..], rest);
      FedStep(line, fed, rest);
      SplitLine(line, fed + rest);
      if Quiet(rest) {
        QuietLine(line, fed + rest);
      }
      Regroup([line], lines[1..], Split(rest));
      assert [line] + lines[1..] == lines;
    }
  }

  function AllLines(events: seq<Written>): seq<string> {
    if events == [] then [""] else Lines(events[0]) + ([""] + AllLines(events[1..]))
  }

  ghost predicate AllWritable(events: seq<Written>) {
    forall i :: 0 <= i < |events| ==> Writable(events[i])
  }

  lemma {:induction false} StreamLines(events: seq<Written>)
    requires AllWritable(events)
    ensures Split(Stream(events)) == AllLines(events) && Quiet(Stream(events))
    decreases |events|
  {
    hide Split, Lines, Fed, Writable;
    if events == [] {
      NothingToSplit();
    } else {
      var lines := Lines(events[0]);
      StreamLines(events[1..]);
      LinesOneLine(events[0]);
      SplitFed(lines + [""], Stream(events[1..]));
      assert (lines + [""]) + AllLines(events[1..]) == lines + ([""] + AllLines(events[1..]));
    }
  }

  lemma NothingToSplit()
    ensures Split("") == [""]
  {
  }

  lemma {:induction false} AllEventsRead(events: seq<Written>)
    requires AllWritable(events)
    ensures Dispatch(EMPTY, AllLines(events)) == Meant(events)
    decreases |events|
  {
    hide Lines, Writable, Glued;
    if events == [] {
      assert [""][1..] == [] && Dispatch(EMPTY, []) == [];
    } else {
      hide Dispatch;
      AllEventsRead(events[1..]);
      EventIsRead(events[0], AllLines(events[1..]));
    }
  }

  /** Both decoders return exactly what was written. */
  lemma WrittenIsRead(events: seq<Written>)
    requires AllWritable(events)
    ensures PyEvents(Stream(events)) == Meant(events) && TsEvents(Stream(events)) == Meant(events)
  {
    hide PyEvents, TsEvents, Dispatch, Stream, Meant, AllLines;
    var text := Stream(events);
    StreamLines(events);
    AllEventsRead(events);
    PyByPieces(text);
    QuietPieces(text);
    CleanStays(Split(text));
    DecodersAgree(text);
  }

  /** Through the loops themselves, for every way of cutting the stream. */
  method ReadWritten(events: seq<Written>, chunks: seq<string>) returns (ts: seq<Event>, py: seq<Event>)
    requires AllWritable(events) && Concat(chunks) == Stream(events)
    ensures ts == Meant(events) && py == Meant(events)
  {
    ts := WatchTypeScript(chunks);
    py := WatchPython(Concat(chunks));
    WrittenIsRead(events);
  }
}
