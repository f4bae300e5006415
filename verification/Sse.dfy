/**
 Server-sent events: the frame write_sse_event sends (src/http_response.cpp)
 and the event-stream interpretation of section 9.2.6 of the HTML Standard.
 */
module Sse {
  import opened Text

  /** The "data: " lines of one event. */
  function DataLines(data: bytes): bytes
    decreases |data|
  {
    if data == [] then []
    else "data: " + Before(data, "\n") + "\n" + DataLines(After(data, "\n"))
  }

  function Frame(event: bytes, data: bytes): bytes {
    (if event == [] then [] else "event: " + event + "\n") + DataLines(data) + "\n"
  }

  method BuildFrame(event: bytes, data: bytes) returns (frame: bytes)
    ensures frame == Frame(event, data)
  {
    frame := [];
    if event != [] { frame := "event: " + event + "\n"; }
    ghost var start := frame;
    var pos := 0;
    assert data[0..] == data;
    while pos < |data|
      invariant 0 <= pos <= |data|
      invariant frame + DataLines(data[pos..]) == start + DataLines(data)
    {
      var found := Find(data, "\n", pos);
      var nl := if found.None? then |data| else found.value;
      var next := if nl == |data| then nl else nl + 1;
      CutAt(data, "\n", pos, nl, next);
      Assoc(frame, "data: " + data[pos..nl] + "\n", DataLines(data[next..]));
      frame := frame + ("data: " + data[pos..nl] + "\n");
      pos := next;
    }
    assert data[pos..] == [];
    frame := frame + "\n";
  }

  /** A frame, line by line: the event's name if it has one, each line of the data behind its field name, an empty line. */
  lemma FrameByLine(event: bytes, line: bytes, more: bytes)
    requires '\n' !in line
    ensures DataLines(line + "\n" + more) == "data: " + line + "\n" + DataLines(more)
    ensures DataLines(line) == (if line == "" then "" else "data: " + line + "\n")
    ensures Frame("", more) == DataLines(more) + "\n"
    ensures event != "" ==> Frame(event, more) == "event: " + event + "\n" + DataLines(more) + "\n"
  {
    hide Find;
    var s := line + "\n" + more;
    assert s[..|line|] == line && s[|line|] == '\n' && s[|line| + 1..] == more;
    FindByte(s, '\n', |line|);
    FindNoByte(line, '\n');
    assert DataLines([]) == [] && "data: " + line + "\n" + [] == "data: " + line + "\n";
    assert [] + DataLines(more) + "\n" == DataLines(more) + "\n";
  }

  // ── the receiver ───────────────────────────────────────────────────

  datatype Message = Message(event: bytes, data: bytes)

  /** The buffers of the interpretation, and the events dispatched so far. */
  datatype Receiver = Receiver(event: bytes, data: bytes, dispatched: seq<Message>)

  /** The end of the first line: '\r' alone, '\n' alone, or the pair. */
  function LineEnd(s: bytes): (r: nat)
    ensures r <= |s|
    ensures forall k :: 0 <= k < r ==> s[k] != '\r' && s[k] != '\n'
    ensures r < |s| ==> s[r] == '\r' || s[r] == '\n'
  {
    if s == [] || s[0] == '\r' || s[0] == '\n' then 0 else 1 + LineEnd(s[1..])
  }

  /** A field's value: one leading space is dropped. */
  function FieldValue(s: bytes): bytes { if s != [] && s[0] == ' ' then s[1..] else s }

  function ProcessField(r: Receiver, name: bytes, value: bytes): Receiver {
    if name == "event" then r.(event := value)
    else if name == "data" then r.(data := r.data + value + "\n")
    else r
  }

  function ProcessLine(r: Receiver, line: bytes): Receiver {
    if line == [] then
      if r.data == [] then Receiver([], [], r.dispatched)
      else
        var d := if r.data[|r.data| - 1] == '\n' then r.data[..|r.data| - 1] else r.data;
        Receiver([], [], r.dispatched + [Message(if r.event == [] then "message" else r.event, d)])
    else if line[0] == ':' then r
    else
      match Find(line, ":", 0)
      case None => ProcessField(r, line, [])
      case Some(c) => ProcessField(r, line[..c], FieldValue(line[c + 1..]))
  }

  /** Interpret every complete line; an unterminated last line waits. */
  function Interpret(r: Receiver, s: bytes): Receiver
    decreases |s|
  {
    var k := LineEnd(s);
    if k == |s| then r
    else
      var next := if s[k] == '\r' && k + 1 < |s| && s[k + 1] == '\n' then k + 2 else k + 1;
      Interpret(ProcessLine(r, s[..k]), s[next..])
  }

  const IDLE := Receiver([], [], [])

  /** data without one final newline. */
  function Chomp(data: bytes): bytes {
    if data != [] && data[|data| - 1] == '\n' then data[..|data| - 1] else data
  }

  // ── the round trip ─────────────────────────────────────────────────

  /** Data as the receiver's buffer holds it: every line, the last one too, closed by a newline. */
  function Closed(data: bytes): bytes {
    if data == [] || data[|data| - 1] == '\n' then data else data + "\n"
  }

  lemma LineEndIs(line: bytes, rest: bytes)
    requires Clean(line) && (rest == [] || rest[0] == '\r' || rest[0] == '\n')
    ensures LineEnd(line + rest) == |line|
  {
    var s := line + rest;
    assert forall j :: 0 <= j < |line| ==> s[j] == line[j];
    assert rest != [] ==> s[|line|] == rest[0];
  }

  /** One clean line, ended by a newline, is one step of the interpretation. */
  lemma LineInterprets(r: Receiver, line: bytes, rest: bytes)
    requires Clean(line)
    ensures Interpret(r, line + "\n" + rest) == Interpret(ProcessLine(r, line), rest)
  {
    hide ProcessLine;
    var s := line + "\n" + rest;
    assert s == line + ("\n" + rest);
    LineEndIs(line, "\n" + rest);
    assert s[|line|] == '\n' && s[..|line|] == line && s[|line| + 1..] == rest;
  }

  /** A carriage return, alone or with a newline behind it, ends a line too. */
  lemma ReturnInterprets(r: Receiver, line: bytes, rest: bytes)
    requires Clean(line)
    ensures Interpret(r, line + "\r\n" + rest) == Interpret(ProcessLine(r, line), rest)
    ensures rest == [] || rest[0] != '\n' ==> Interpret(r, line + "\r" + rest) == Interpret(ProcessLine(r, line), rest)
  {
    hide ProcessLine;
    var s, t := line + "\r\n" + rest, line + "\r" + rest;
    assert s == line + ("\r\n" + rest) && t == line + ("\r" + rest);
    LineEndIs(line, "\r\n" + rest);
    LineEndIs(line, "\r" + rest);
    assert s[|line|] == '\r' && s[|line| + 1] == '\n' && s[..|line|] == line && s[|line| + 2..] == rest;
    assert t[|line|] == '\r' && t[..|line|] == line && t[|line| + 1..] == rest;
  }

  lemma FieldInterprets(r: Receiver, name: bytes, value: bytes, rest: bytes)
    requires name != [] && Clean(name) && ':' !in name && Clean(value)
    ensures Interpret(r, name + ": " + value + "\n" + rest) == Interpret(ProcessField(r, name, value), rest)
  {
    hide Interpret, ProcessField;
    var line := name + ": " + value;
    LineInterprets(r, line, rest);
    FindByte(line, ':', |name|);
    assert line[0] == name[0] && name[0] in name;
    assert line[..|name|] == name;
    assert line[|name| + 1..] == " " + value;
    assert (" " + value)[1..] == value;
  }

  /** The data lines of a frame append exactly the data, closed, to the receiver's buffer. */
  lemma {:induction false} DataInterprets(r: Receiver, data: bytes, rest: bytes)
    requires '\r' !in data
    ensures Interpret(r, DataLines(data) + rest) == Interpret(r.(data := r.data + Closed(data)), rest)
    decreases |data|
  {
    hide Interpret, ProcessField, Before, After, Closed, DataLines;
    if data == [] {
      DataLinesStep(data, rest);
      assert r.data + [] == r.data;
    } else {
      var line, more := Before(data, "\n"), After(data, "\n");
      CutData(data);
      DataLinesStep(data, rest);
      FieldInterprets(r, "data", line, DataLines(more) + rest);
      DataField(r, line);
      DataInterprets(r.(data := r.data + line + "\n"), more, rest);
      assert r.data + line + "\n" + Closed(more) == r.data + Closed(data);
    }
  }

  lemma DataLinesStep(data: bytes, rest: bytes)
    ensures data == [] ==> DataLines(data) + rest == rest && Closed(data) == []
    ensures data != [] ==> DataLines(data) + rest ==
                           "data" + ": " + Before(data, "\n") + "\n" + (DataLines(After(data, "\n")) + rest)
  {
    if data == [] {
      assert [] + rest == rest;
    } else {
      var first := "data: " + Before(data, "\n") + "\n";
      assert "data" + ": " == "data: ";
      Assoc(first, DataLines(After(data, "\n")), rest);
    }
  }

  lemma DataField(r: Receiver, value: bytes)
    ensures ProcessField(r, "data", value) == r.(data := r.data + value + "\n")
  {
    assert "data"[0] != "event"[0];
  }

  lemma CutData(data: bytes)
    requires data != [] && '\r' !in data
    ensures var line, more := Before(data, "\n"), After(data, "\n");
            Clean(line) && '\r' !in more && |more| < |data| && line + "\n" + Closed(more) == Closed(data)
  {
    hide Before, After;
    CutAtByte(data, '\n');
    var line, more := Before(data, "\n"), After(data, "\n");
    assert ['\n'] == "\n";
    if '\n' in data {
      assert data == line + "\n" + more;
      if more != [] { assert data[|data| - 1] == more[|more| - 1]; }
    }
  }

  /** What the lines of a block do, by their text: a field with a colon behind its name, or without. */
  lemma DataLine(r: Receiver, value: bytes)
    requires value == [] || value[0] != ' '
    ensures ProcessLine(r, "data:" + value) == r.(data := r.data + value + "\n")
    ensures ProcessLine(r, "data: " + value) == r.(data := r.data + value + "\n")
    ensures ProcessLine(r, "data") == r.(data := r.data + "\n")
    ensures ProcessLine(r, ":" + value) == r
  {
    hide Find;
    var s, t := "data:" + value, "data: " + value;
    assert s[..4] == "data" && s[4] == ':' && s[5..] == value;
    assert t[..4] == "data" && t[4] == ':' && t[5..] == " " + value && (" " + value)[1..] == value;
    FindByte(s, ':', 4);
    FindByte(t, ':', 4);
    FindNoByte("data", ':');
    DataField(r, value);
    DataField(r, []);
    assert r.data + [] + "\n" == r.data + "\n";
  }

  /** The examples of section 9.2.6: three data lines make one event; */
  lemma ThreeLinesAreOneEvent()
    ensures Interpret(IDLE, "data: YHOO" + "\n" + ("data: +2" + "\n" + ("data: 10" + "\n" + ("" + "\n" + ""))))
            == Receiver("", "", [Message("message", "YHOO\n+2\n10")])
  {
    hide Interpret, ProcessLine, LineEnd;
    var a, b, c := IDLE.(data := "YHOO\n"), IDLE.(data := "YHOO\n+2\n"), IDLE.(data := "YHOO\n+2\n10\n");
    assert "data: " + "YHOO" == "data: YHOO" && "data: " + "+2" == "data: +2" && "data: " + "10" == "data: 10";
    DataLine(IDLE, "YHOO");
    DataLine(a, "+2");
    DataLine(b, "10");
    assert ProcessLine(IDLE, "data: YHOO") == a && ProcessLine(a, "data: +2") == b && ProcessLine(b, "data: 10") == c;
    LineInterprets(IDLE, "data: YHOO", "data: +2" + "\n" + ("data: 10" + "\n" + ("" + "\n" + "")));
    LineInterprets(a, "data: +2", "data: 10" + "\n" + ("" + "\n" + ""));
    LineInterprets(b, "data: 10", "" + "\n" + "");
    LineInterprets(c, "", "");
    EventLeaves(c, "YHOO\n+2\n10");
  }

  /** data lines without a value give an empty line each, and an unfinished block gives nothing; */
  lemma EmptyDataLines()
    ensures Interpret(IDLE, "data" + "\n" + ("" + "\n" + ("data" + "\n" + ("data" + "\n" + ("" + "\n" + "data:")))))
            == Receiver("", "", [Message("message", ""), Message("message", "\n")])
  {
    hide Interpret, ProcessLine, LineEnd;
    var a, b := IDLE.(data := "\n"), Receiver("", "", [Message("message", "")]);
    DataLine(IDLE, "");
    DataLine(b, "");
    DataLine(b.(data := "\n"), "");
    LineInterprets(IDLE, "data", "" + "\n" + ("data" + "\n" + ("data" + "\n" + ("" + "\n" + "data:"))));
    LineInterprets(a, "", "data" + "\n" + ("data" + "\n" + ("" + "\n" + "data:")));
    EventLeaves(a, "");
    LineInterprets(b, "data", "data" + "\n" + ("" + "\n" + "data:"));
    LineInterprets(b.(data := "\n"), "data", "" + "\n" + "data:");
    assert "\n" + "\n" == "\n\n" && [] + "\n" == "\n";
    assert ProcessLine(IDLE, "data") == a && ProcessLine(a, "") == b && ProcessLine(b, "data") == b.(data := "\n");
    assert ProcessLine(b.(data := "\n"), "data") == b.(data := "\n\n");
    LineInterprets(b.(data := "\n\n"), "", "data:");
    EventLeaves(b.(data := "\n\n"), "\n");
    assert [Message("message", "")] + [Message("message", "\n")] == [Message("message", ""), Message("message", "\n")];
    Unfinished(Receiver("", "", [Message("message", ""), Message("message", "\n")]), "data:");
  }

  /** and one blank behind the colon is not data. */
  lemma OneBlankIsDropped()
    ensures Interpret(IDLE, "data:test" + "\n" + ("" + "\n" + ("data: test" + "\n" + ("" + "\n" + ""))))
            == Receiver("", "", [Message("message", "test"), Message("message", "test")])
  {
    hide Interpret, ProcessLine, LineEnd;
    var a, b := IDLE.(data := "test\n"), Receiver("", "", [Message("message", "test")]);
    assert "data:" + "test" == "data:test" && "data: " + "test" == "data: test";
    DataLine(IDLE, "test");
    DataLine(b, "test");
    LineInterprets(IDLE, "data:test", "" + "\n" + ("data: test" + "\n" + ("" + "\n" + "")));
    LineInterprets(a, "", "data: test" + "\n" + ("" + "\n" + ""));
    EventLeaves(a, "test");
    LineInterprets(b, "data: test", "" + "\n" + "");
    LineInterprets(b.(data := "test\n"), "", "");
    EventLeaves(b.(data := "test\n"), "test");
    assert [] + "test" + "\n" == "test\n" && ProcessLine(IDLE, "data:test") == a && ProcessLine(a, "") == b;
    assert ProcessLine(b, "data: test") == b.(data := "test\n");
    assert [Message("message", "test")] + [Message("message", "test")] == [Message("message", "test"), Message("message", "test")];
    Unfinished(Receiver("", "", [Message("message", "test"), Message("message", "test")]), "");
  }

  lemma EventLeaves(r: Receiver, data: bytes)
    requires r.event == "" && r.data == data + "\n"
    ensures ProcessLine(r, "") == Receiver("", "", r.dispatched + [Message("message", data)])
    ensures Interpret(ProcessLine(r, ""), "") == ProcessLine(r, "")
  {}

  lemma Unfinished(r: Receiver, line: bytes)
    requires Clean(line)
    ensures Interpret(r, line) == r
  {
    LineEndIs(line, []);
    assert line + [] == line;
  }

  function EventName(event: bytes): bytes { if event == [] then "message" else event }

  lemma CleanDataArrives(event: bytes, data: bytes)
    requires Clean(event) && data != [] && '\r' !in data
    ensures Interpret(IDLE, Frame(event, data)) == Receiver([], [], [Message(EventName(event), Chomp(data))])
  {
    hide Interpret, ProcessField, DataLines;
    var r := IDLE.(event := event);
    var tail := DataLines(data) + "\n";
    if event == [] {
      assert Frame(event, data) == tail;
    } else {
      assert Frame(event, data) == "event" + ": " + event + "\n" + tail;
      FieldInterprets(IDLE, "event", event, tail);
      EventField(event);
    }
    DataInterprets(r, data, "\n");
    assert [] + Closed(data) == Closed(data);
    var full := r.(data := Closed(data));
    LineInterprets(full, [], []);
    assert [] + "\n" + [] == "\n";
    Waits(ProcessLine(full, []));
  }

  lemma EventField(event: bytes)
    ensures ProcessField(IDLE, "event", event) == IDLE.(event := event)
  {}

  lemma Waits(r: Receiver)
    ensures Interpret(r, []) == r
  {}

  /** No event a receiver dispatches carries a carriage return: it would have ended the line. */
  predicate NoReturns(r: Receiver) {
    '\r' !in r.data && forall i :: 0 <= i < |r.dispatched| ==> '\r' !in r.dispatched[i].data
  }

  lemma LineKeepsNoReturns(r: Receiver, line: bytes)
    requires NoReturns(r) && '\r' !in line
    ensures NoReturns(ProcessLine(r, line))
  {}

  lemma {:induction false} InterpretKeepsNoReturns(r: Receiver, s: bytes)
    requires NoReturns(r)
    ensures NoReturns(Interpret(r, s))
    decreases |s|
  {
    hide ProcessLine, NoReturns;
    var k := LineEnd(s);
    if k < |s| {
      LineKeepsNoReturns(r, s[..k]);
      InterpretKeepsNoReturns(ProcessLine(r, s[..k]), s[if s[k] == '\r' && k + 1 < |s| && s[k + 1] == '\n' then k + 2 else k + 1..]);
    }
  }

  /**
   The event-stream round trip, for any event name on one line and any
   non-empty data: the client receives one event, with that name and that data
   less one final newline, if and only if the data holds no carriage return.
   */
  lemma SseRoundTrip(event: bytes, data: bytes)
    requires Clean(event) && data != []
    ensures Interpret(IDLE, Frame(event, data)) == Receiver([], [], [Message(EventName(event), Chomp(data))])
            <==> '\r' !in data
  {
    hide Interpret, Frame;
    if '\r' !in data {
      CleanDataArrives(event, data);
    } else {
      InterpretKeepsNoReturns(IDLE, Frame(event, data));
      var i :| 0 <= i < |data| && data[i] == '\r';
      assert Chomp(data)[i] == '\r';
      assert !NoReturns(Receiver([], [], [Message(EventName(event), Chomp(data))])) by {
        assert [Message(EventName(event), Chomp(data))][0].data == Chomp(data);
      }
    }
  }

  /** For instance, data with a carriage return inside arrives changed. */
  lemma CarriageReturnIsLost()
    ensures Interpret(IDLE, Frame([], "a\rb")) != Receiver([], [], [Message("message", "a\rb")])
  {
    hide Interpret, Frame;
    assert "a\rb"[1] == '\r';
    SseRoundTrip([], "a\rb");
  }
}
