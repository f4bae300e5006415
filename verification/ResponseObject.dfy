/** The HttpResponse object of src/http_response.cpp, over the specification in Response. */
module ResponseObject {
  import opened Text
  import opened Numbers
  import opened Headers
  import R = Response
  import Sse

  class HttpResponse {
    var status: int
    var entries: seq<Entry>
    var body: bytes
    var mode: R.Mode
    var headersFlushed: bool
    var chunked: bool
    var attached: bool
    var headerBlockCache: bytes
    ghost var wire: seq<R.Piece>

    function View(): R.ResponseData
      reads this
    {
      R.ResponseData(status, entries, body, mode, headersFlushed, chunked, attached)
    }

    /** This call had effect e: the new state is e.r and the wire grew by e.out. */
    twostate predicate Did(e: R.Effect, ret: bool)
      reads this
    {
      View() == e.r && wire == old(wire) + e.out && ret == e.ret
    }

    constructor ()
      ensures View() == R.FRESH && wire == []
    {
      status, entries, body, mode := 200, [], [], R.Buffered;
      headersFlushed, chunked, attached, headerBlockCache := false, false, false, [];
      wire := [];
    }

    /** Moving a response into another object. */
    constructor Moved(v: R.ResponseData)
      ensures View() == v && wire == []
    {
      status, entries, body, mode := v.status, v.entries, v.body, v.mode;
      headersFlushed, chunked, attached, headerBlockCache := v.flushed, v.chunked, v.attached, [];
      wire := [];
    }

    method AttachStream()
      modifies this`attached
      ensures attached
    {
      attached := true;
    }

    method SetStatus(code: int)
      modifies this`status
      ensures status == code
    {
      status := code;
    }

    method SetBody(b: bytes)
      requires R.Permitted(View(), R.SetBody(b))
      modifies this`body
      ensures body == b
    {
      body := b;
    }

    method Stream()
      requires R.Permitted(View(), R.StartStream)
      modifies this`mode
      ensures mode == R.Stream
    {
      mode := R.Stream;
    }

    method FindCi(name: bytes) returns (k: nat)
      ensures k == Headers.FindCi(entries, name)
    {
      k := 0;
      while k < |entries|
        invariant k <= |entries|
        invariant forall i :: 0 <= i < k ==> !CiEqual(entries[i].name, name)
      {
        if CiEqual(entries[k].name, name) { break; }
        k := k + 1;
      }
      FirstIs(entries, name, k);
    }

    method InsertHeader(name: bytes, value: bytes)
      modifies this`entries
      ensures entries == Insert(old(entries), name, value)
    {
      var k := FindCi(name);
      if k < |entries| {
        entries := entries[k := entries[k].(value := value)];
      } else {
        entries := entries + [Entry(name, value)];
      }
    }

    /** The loop both printers share: status line and the entries, one per line. */
    method PrintHead() returns (out: bytes)
      ensures out == R.StatusLine(status) + CRLF + R.Lines(R.HeaderLines(entries))
    {
      ghost var lines := R.HeaderLines(entries);
      out := R.StatusLine(status) + CRLF;
      ghost var start := out;
      assert start + R.Lines(lines[..0]) == start;
      var k := 0;
      while k < |entries|
        invariant 0 <= k <= |entries|
        invariant out == start + R.Lines(lines[..k])
      {
        R.LinesTake(entries, k);
        Assoc(start, R.Lines(lines[..k]), R.HeaderLine(entries[k]) + CRLF);
        out := out + (entries[k].name + ": " + entries[k].value + CRLF);
        k := k + 1;
      }
      assert lines[..k] == lines;
    }

    method BuildHeaderBlock() returns (out: bytes)
      ensures out == R.HeaderBlock(View())
    {
      out := PrintHead();
      out := out + CRLF;
    }

    method Serialize() returns (out: bytes)
      requires mode.Buffered?
      ensures out == R.Serialize(View())
    {
      out := PrintHead();
      var k := FindCi(CONTENT_LENGTH);
      if k == |entries| {
        ghost var e := Entry(CONTENT_LENGTH, Numeral(|body|, 10));
        R.HeaderLinesSnoc(entries, e);
        R.LinesSnoc(R.HeaderLines(entries), R.HeaderLine(e));
        Assoc(R.StatusLine(status) + CRLF, R.Lines(R.HeaderLines(entries)), R.HeaderLine(e) + CRLF);
        out := out + (CONTENT_LENGTH + ": " + Numeral(|body|, 10) + CRLF);
      }
      out := out + CRLF;
      out := out + body;
    }

    method FlushHeaders(ok: bool) returns (ret: bool)
      modifies this
      ensures Did(R.FlushHeaders(old(View()), ok), ret)
    {
      if headersFlushed { return true; }
      if !attached { return false; }
      headerBlockCache := BuildHeaderBlock();
      if ok {
        wire := wire + [R.Head(headerBlockCache, entries)];
        headersFlushed := true;
      }
      return ok;
    }

    /** The wire step of every payload write: the header block goes in front until it has been sent. */
    method Transmit(iov: seq<R.Piece>, ok: bool) returns (ret: bool)
      modifies this
      ensures Did(R.Send(old(View()), iov, ok), ret)
    {
      if !attached { return false; }
      if !headersFlushed {
        headerBlockCache := BuildHeaderBlock();
        if ok {
          wire := wire + ([R.Head(headerBlockCache, entries)] + iov);
          headersFlushed := true;
        }
        return ok;
      }
      if ok { wire := wire + iov; }
      return ok;
    }

    method Write(data: bytes, ok: bool) returns (ret: bool)
      requires R.Permitted(View(), R.DoWrite(data, ok))
      modifies this
      ensures Did(R.Write(old(View()), data, ok), ret)
    {
      if mode.Buffered? { mode := R.Immediate; }
      if attached && headersFlushed && |data| == 0 { return true; }
      ret := Transmit(if |data| == 0 then [] else [R.Payload(data)], ok);
    }

    method Writev(iov: seq<bytes>, ok: bool) returns (ret: bool)
      requires R.Permitted(View(), R.DoWritev(iov, ok))
      modifies this
      ensures Did(R.Writev(old(View()), iov, ok), ret)
    {
      if mode.Buffered? { mode := R.Immediate; }
      if attached && headersFlushed && |iov| == 0 { return true; }
      var segments := [];
      var i := 0;
      while i < |iov|
        invariant 0 <= i <= |iov| && |segments| == i
        invariant forall j :: 0 <= j < i ==> segments[j] == R.Payload(iov[j])
      {
        segments := segments + [R.Payload(iov[i])];
        i := i + 1;
      }
      assert segments == R.Payloads(iov);
      ret := Transmit(segments, ok);
    }

    method WriteChunk(data: bytes, ok: bool) returns (ret: bool)
      modifies this
      ensures Did(R.WriteChunk(old(View()), data, ok), ret)
    {
      if |data| == 0 { return true; }
      if !headersFlushed && !chunked {
        var k := FindCi(TRANSFER_ENCODING);
        if k == |entries| { InsertHeader(TRANSFER_ENCODING, "chunked"); }
        chunked := true;
      }
      if mode.Buffered? { mode := R.Immediate; }
      ret := Transmit([R.Payload(Numeral(|data|, 16) + CRLF), R.Payload(data), R.Payload(CRLF)], ok);
    }

    method EndChunks(flushOk: bool, ok: bool) returns (ret: bool)
      modifies this
      ensures Did(R.EndChunks(old(View()), flushOk, ok), ret)
    {
      if !chunked { return true; }
      if !attached { return false; }
      var flushed := FlushHeaders(flushOk);
      if !flushed { return false; }
      if ok { wire := wire + [R.Payload(R.TERMINATOR)]; }
      return ok;
    }

    method WriteSseEvent(event: bytes, data: bytes, ok: bool) returns (ret: bool)
      requires R.Permitted(View(), R.DoWrite(Sse.Frame(event, data), ok))
      modifies this
      ensures Did(R.Write(old(View()), Sse.Frame(event, data), ok), ret)
    {
      var frame := Sse.BuildFrame(event, data);
      ret := Write(frame, ok);
    }

    /** One call of a handler or stream function. */
    method Call(c: R.Call)
      requires R.Permitted(View(), c)
      modifies this
      ensures View() == R.Apply(old(View()), c).r
      ensures wire == old(wire) + R.Apply(old(View()), c).out
    {
      var ret: bool;
      match c {
        case SetStatus(code) => SetStatus(code);
        case SetHeader(name, value) => InsertHeader(name, value);
        case SetBody(b) => SetBody(b);
        case StartStream => Stream();
        case DoWrite(data, ok) => ret := Write(data, ok);
        case DoWritev(iov, ok) => ret := Writev(iov, ok);
        case DoWriteChunk(data, ok) => ret := WriteChunk(data, ok);
        case DoEndChunks(flushOk, ok) => ret := EndChunks(flushOk, ok);
      }
    }

    /** A handler (or stream function) making its calls on this object. */
    method Play(calls: seq<R.Call>)
      requires R.AllPermitted(View(), calls)
      modifies this
      ensures View() == R.Play(old(View()), calls).r
      ensures wire == old(wire) + R.Play(old(View()), calls).out
    {
      hide R.Apply, R.Permitted;
      var i := 0;
      ghost var all := R.Play(View(), calls);
      assert calls[0..] == calls;
      while i < |calls|
        invariant 0 <= i <= |calls|
        invariant R.AllPermitted(View(), calls[i..])
        invariant R.Play(View(), calls[i..]).r == all.r
        invariant wire + R.Play(View(), calls[i..]).out == old(wire) + all.out
      {
        ghost var before, out := View(), wire;
        assert calls[i..][1..] == calls[i + 1..];
        Call(calls[i]);
        Assoc(out, R.Apply(before, calls[i]).out, R.Play(View(), calls[i + 1..]).out);
        i := i + 1;
      }
      assert calls[i..] == [];
    }
  }
}
