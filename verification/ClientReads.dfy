/**
 What a client makes of one response: it reads the header block up to the first
 blank line, and then the body as that block says, with the parsers of the
 library. For each way of writing a response: exactly when it gets the body that
 was written and leaves what follows.
 */
module ClientReads {
  import opened Text
  import opened Numbers
  import opened Headers
  import opened Request
  import opened Framing
  import opened ChunkRoundTrip
  import R = Response
  import RT = ResponseRoundTrip

  /** The first blank line ends a header block that parses. */
  predicate HasBlock(wire: bytes) {
    match Find(wire, CRLFCRLF, 0)
    case None => false
    case Some(i) => WithHeader(EMPTY_REQUEST, wire[..i + 4]).Some?
  }

  /** What the block says, parsed. */
  function Parsed(wire: bytes): RequestData
    requires HasBlock(wire)
  {
    WithHeader(EMPTY_REQUEST, wire[..Find(wire, CRLFCRLF, 0).value + 4]).value
  }

  /** Read as its block says, the response has that body, and rest is left. */
  predicate ReadsAs(wire: bytes, body: bytes, rest: bytes) {
    HasBlock(wire) && ParseBody(0, Parsed(wire), wire[Find(wire, CRLFCRLF, 0).value + 4..]) == Done(body, rest)
  }

  /** The entries announce chunks. */
  predicate AsChunks(es: seq<Entry>) { Find(Lower(Get(es, TRANSFER_ENCODING)), "chunked", 0).Some? }

  /** The length the entries announce, zero if none. */
  function AsLength(es: seq<Entry>): nat {
    match FromChars(Get(es, CONTENT_LENGTH)) case None => 0 case Some(n) => n
  }

  /** A printed block in front of any bytes: what the client goes by is what the entries announce. */
  lemma BlockIsRead(status: int, es: seq<Entry>, tail: bytes, body: bytes, rest: bytes) returns (req: RequestData)
    requires es != [] && RT.AllPrintable(es) && NoCaseTwins(es)
    ensures (IsChunked(req) <==> AsChunks(es)) && req.ContentLength() == AsLength(es)
    ensures var wire := R.Block(status, es) + tail;
            HasBlock(wire) && Parsed(wire) == req
            && (ReadsAs(wire, body, rest) <==> ParseBody(0, req, tail) == Done(body, rest))
    ensures forall name :: req.Header(name) == Get(es, name)
  {
    hide R.Block, Find, WithHeader, FromChars, Lower, ParseBody, RT.Printable, NoCaseTwins;
    var b := R.Block(status, es);
    RT.BlockParses(status, es);
    req := WithHeader(EMPTY_REQUEST, b).value;
    RT.ParsedLookup(es, TRANSFER_ENCODING);
    RT.ParsedLookup(es, CONTENT_LENGTH);
    FindExtends(b, tail, CRLFCRLF);
    var i: nat := |b| - 4;
    assert (b + tail)[..i + 4] == b && (b + tail)[i + 4..] == tail;
    forall name
      ensures req.Header(name) == Get(es, name)
    {
      RT.ParsedLookup(es, name);
    }
  }

  // ── by a length ────────────────────────────────────────────────────

  /** Read by a length, a body is found exactly when that is its length. */
  lemma LengthDecides(req: RequestData, body: bytes, rest: bytes)
    requires !IsChunked(req) && |body| <= MAX_STRING
    ensures ParseBody(0, req, body + rest) == Done(body, rest) <==> req.ContentLength() == |body|
  {
    hide IsChunked;
    if req.ContentLength() == |body| { FixedBodyExact(0, req, body, rest); }
  }

  /** Read as chunks, a body is shorter than the bytes it took. */
  lemma {:induction false} ChunksShrink(acc: bytes, s: bytes)
    ensures var b := ParseChunks(0, acc, s); b.Done? ==> |b.body| + |b.rest| < |acc| + |s|
    decreases |s|
  {
    hide ChunkSize, Exceeds, ParseTrailers;
    if Find(s, CRLF, 0).Some? {
      var i := Find(s, CRLF, 0).value;
      var size, t := ChunkSize(s[..i]), s[i + 2..];
      if size.Some? {
        assert ParseChunks(0, acc, s) == AfterSize(0, acc, size.value, t);
        if size.value + 2 <= |t| { ChunksShrink(acc + t[..size.value], t[size.value + 2..]); }
        SizeShrinks(acc, size.value, t);
      }
    }
  }

  lemma SizeShrinks(acc: bytes, n: nat, t: bytes)
    requires n + 2 <= |t| ==>
               var b := ParseChunks(0, acc + t[..n], t[n + 2..]); b.Done? ==> |b.body| + |b.rest| < |acc| + n + (|t| - n - 2)
    ensures var b := AfterSize(0, acc, n, t); b.Done? ==> |b.body| + |b.rest| <= |acc| + |t|
  {
    hide ParseChunks, ParseTrailers;
  }

  lemma NeverOwnBody(req: RequestData, body: bytes, rest: bytes)
    requires IsChunked(req)
    ensures ParseBody(0, req, body + rest) != Done(body, rest)
  {
    hide ParseChunks, IsChunked;
    ChunksShrink([], body + rest);
  }

  /** A serialized response is read as its body exactly when no encoding says otherwise and its length, if it sets one, is right. */
  lemma ClientReadsReply(r: R.ResponseData, rest: bytes)
    requires NoCaseTwins(r.entries) && RT.AllPrintable(r.entries) && |r.body| <= MAX_STRING
    ensures HasBlock(R.Serialize(r) + rest)
    ensures ReadsAs(R.Serialize(r) + rest, r.body, rest) <==> ReplyEnds(r)
  {
    hide R.Block, ParseBody, R.SerializedEntries, HasBlock, ReadsAs, AsChunks, AsLength, IsChunked, RT.Printable, NoCaseTwins;
    var es := R.SerializedEntries(r);
    SerializedSays(r);
    var req := BlockIsRead(r.status, es, r.body + rest, r.body, rest);
    Assoc(R.Block(r.status, es), r.body, rest);
    if IsChunked(req) { NeverOwnBody(req, r.body, rest); } else { LengthDecides(req, r.body, rest); }
  }

  predicate ReplyEnds(r: R.ResponseData) {
    !AsChunks(r.entries) && (Contains(r.entries, CONTENT_LENGTH) ==> AsLength(r.entries) == |r.body|)
  }

  lemma SerializedSays(r: R.ResponseData)
    requires NoCaseTwins(r.entries) && RT.AllPrintable(r.entries) && |r.body| <= MAX_STRING
    ensures var es := R.SerializedEntries(r);
            es != [] && RT.AllPrintable(es) && NoCaseTwins(es) && (AsChunks(es) <==> AsChunks(r.entries))
            && (AsLength(es) == |r.body| <==> (Contains(r.entries, CONTENT_LENGTH) ==> AsLength(r.entries) == |r.body|))
  {
    hide RT.Printable, FromChars, Lower, NoCaseTwins, Find, CiEqual;
    if !Contains(r.entries, CONTENT_LENGTH) {
      var n := |r.body|;
      RT.LengthEntryPrintable(n);
      GetAfterInsert(r.entries, CONTENT_LENGTH, Numeral(n, 10), CONTENT_LENGTH);
      GetAfterInsert(r.entries, CONTENT_LENGTH, Numeral(n, 10), TRANSFER_ENCODING);
      DifferentNames();
      DecimalRoundTrip(n);
    }
  }

  lemma DifferentNames()
    ensures !CiEqual(CONTENT_LENGTH, TRANSFER_ENCODING) && CiEqual(CONTENT_LENGTH, CONTENT_LENGTH)
  {
    assert |Lower(CONTENT_LENGTH)| != |Lower(TRANSFER_ENCODING)|;
  }

  // ── raw writes ─────────────────────────────────────────────────────

  /** Only write and writev, all succeeding. */
  predicate RawWrites(calls: seq<R.Call>) {
    forall i :: 0 <= i < |calls| ==> (calls[i].DoWrite? || calls[i].DoWritev?) && calls[i].ok
  }

  function Flat(iov: seq<bytes>): bytes { if iov == [] then [] else iov[0] + Flat(iov[1..]) }

  function Written(calls: seq<R.Call>): bytes {
    if calls == [] then []
    else (match calls[0] case DoWrite(data, _) => data case DoWritev(iov, _) => Flat(iov) case _ => []) + Written(calls[1..])
  }

  lemma {:induction false} PayloadBytes(iov: seq<bytes>)
    ensures Bytes(R.Payloads(iov)) == Flat(iov)
  {
    if iov != [] {
      PayloadBytes(iov[1..]);
      assert R.Payloads(iov)[1..] == R.Payloads(iov[1..]);
    }
  }

  /** One such call: the header block if it was still to be sent, and the data. */
  lemma RawCall(r: R.ResponseData, c: R.Call)
    requires RawWrites([c]) && r.attached
    ensures var e := R.Apply(r, c);
            && e.r == R.LeaveBuffered(r).(flushed := true)
            && Bytes(e.out) == (if r.flushed then [] else R.HeaderBlock(r)) + Written([c])
  {
    hide R.Block;
    assert [c][0] == c && Written([c][1..]) == [];
    var parts := if c.DoWrite? then (if c.data == [] then [] else [R.Payload(c.data)]) else R.Payloads(c.iov);
    assert Bytes(parts) == Written([c]) by {
      if c.DoWritev? { PayloadBytes(c.iov); } else if c.data != [] { assert parts[1..] == []; }
    }
    var head := R.Head(R.HeaderBlock(r), r.entries);
    BytesAppend([head], parts);
    assert [head][1..] == [];
    assert R.Apply(r, c).out == if r.flushed then parts else [head] + parts;
  }

  lemma WrittenStep(calls: seq<R.Call>)
    requires calls != []
    ensures Written(calls) == Written([calls[0]]) + Written(calls[1..])
    ensures |calls| == 1 ==> calls[1..] == [] && Written(calls[1..]) == []
  {
    assert [calls[0]][1..] == [];
  }

  lemma RawTail(calls: seq<R.Call>)
    requires RawWrites(calls) && calls != []
    ensures RawWrites([calls[0]]) && RawWrites(calls[1..])
  {}

  /** Once the header block is out, such a call only adds its data. */
  lemma RawCallMore(r: R.ResponseData, c: R.Call)
    requires RawWrites([c]) && r.attached && r.flushed && !r.mode.Buffered?
    ensures R.Apply(r, c).r == r
    ensures Bytes(R.Apply(r, c).out) == Written([c])
  {
    hide R.Apply, R.HeaderBlock, Written, Bytes, RawWrites;
    RawCall(r, c);
    assert [] + Written([c]) == Written([c]);
  }

  lemma {:induction false} RawMore(r: R.ResponseData, calls: seq<R.Call>)
    requires RawWrites(calls) && r.attached && r.flushed && !r.mode.Buffered?
    ensures Bytes(R.Play(r, calls).out) == Written(calls)
    ensures R.Play(r, calls).r == r
    decreases |calls|
  {
    if calls == [] {
      assert Bytes([]) == [] && Written([]) == [];
    } else {
      hide R.Apply, Written, Bytes, RawWrites;
      RawTail(calls);
      RawCallMore(r, calls[0]);
      RawMore(r, calls[1..]);
      WrittenStep(calls);
      BytesAppend(R.Apply(r, calls[0]).out, R.Play(r, calls[1..]).out);
    }
  }

  lemma RawEncode(r: R.ResponseData, calls: seq<R.Call>)
    requires RawWrites(calls) && calls != [] && r.attached && !r.flushed
    ensures Bytes(R.Play(r, calls).out) == R.HeaderBlock(r) + Written(calls)
    ensures R.Play(r, calls).r == R.LeaveBuffered(r).(flushed := true)
  {
    hide R.Apply, R.HeaderBlock, Written, Bytes, RawWrites;
    var e := R.Apply(r, calls[0]);
    RawTail(calls);
    RawCall(r, calls[0]);
    RawMore(e.r, calls[1..]);
    WrittenStep(calls);
    BytesAppend(e.out, R.Play(e.r, calls[1..]).out);
    Assoc(R.HeaderBlock(r), Written([calls[0]]), Written(calls[1..]));
  }

  // ── chunks the handler ends itself ─────────────────────────────────

  predicate Silent(calls: seq<R.Call>) { forall i :: 0 <= i < |calls| ==> calls[i].DoWriteChunk? && calls[i].data == [] }

  /** One end_chunks, and behind it nothing that is sent. */
  predicate EndsOnce(calls: seq<R.Call>) {
    exists i :: 0 <= i < |calls| && calls[i].DoEndChunks?
                && (forall j :: 0 <= j < i ==> !calls[j].DoEndChunks?) && Silent(calls[i + 1..])
  }

  lemma EndsOnceTail(calls: seq<R.Call>)
    requires calls != []
    ensures EndsOnce(calls) <==> if calls[0].DoEndChunks? then Silent(calls[1..]) else EndsOnce(calls[1..])
  {
    hide Silent;
    var t := calls[1..];
    if !calls[0].DoEndChunks? {
      if EndsOnce(t) {
        var i :| 0 <= i < |t| && t[i].DoEndChunks? && (forall j :: 0 <= j < i ==> !t[j].DoEndChunks?) && Silent(t[i + 1..]);
        assert t[i + 1..] == calls[i + 2..] && calls[i + 1].DoEndChunks?;
        assert forall j :: 0 < j < i + 1 ==> calls[j] == t[j - 1];
      }
      if EndsOnce(calls) {
        var i :| 0 <= i < |calls| && calls[i].DoEndChunks? && (forall j :: 0 <= j < i ==> !calls[j].DoEndChunks?) && Silent(calls[i + 1..]);
        assert t[i..] == calls[i + 1..] && t[i - 1].DoEndChunks?;
        assert forall j :: 0 <= j < i - 1 ==> t[j] == calls[j + 1];
      }
    }
  }

  lemma {:induction false} SilentSendsNothing(calls: seq<R.Call>)
    requires ChunkCalls(calls)
    ensures Encoded(calls) == [] <==> Silent(calls)
    ensures Silent(calls) ==> Data(calls) == []
  {
    if calls != [] {
      var c := calls[0];
      SilentSendsNothing(calls[1..]);
      assert EncodedCall(c) == [] <==> c.DoWriteChunk? && c.data == [];
      assert calls == [c] + calls[1..];
    }
  }

  /** Decoded without an end of its own behind it, a run of chunk calls is read exactly when it ended itself, once. */
  lemma {:induction false} OpenDecodes(acc: bytes, calls: seq<R.Call>, rest: bytes)
    requires ChunkCalls(calls) && |acc| + |Data(calls)| <= MAX_STRING
    ensures ParseChunks(0, acc, Encoded(calls) + rest) == Done(acc + Data(calls), rest) <==> EndsOnce(calls)
    decreases |calls|
  {
    hide ParseChunks, EncodedCall, EndsOnce, Silent;
    if calls == [] {
      assert Encoded(calls) + rest == rest && acc + Data(calls) == acc;
      ChunksShrink(acc, rest);
      assert !EndsOnce([]) by { NothingEndsOnce(); }
    } else {
      var c, more := calls[0], Encoded(calls[1..]) + rest;
      Assoc(EncodedCall(c), Encoded(calls[1..]), rest);
      CallDecodes(acc, c, more);
      EndsOnceTail(calls);
      if c.DoWriteChunk? {
        Assoc(acc, c.data, Data(calls[1..]));
        OpenDecodes(acc + c.data, calls[1..], rest);
      } else {
        SilentSendsNothing(calls[1..]);
        assert |more| == |Encoded(calls[1..])| + |rest|;
        assert acc + [] == acc && [] + rest == rest;
      }
    }
  }

  lemma NothingEndsOnce()
    ensures !EndsOnce([])
  {}

  // ── any body ───────────────────────────────────────────────────────

  /** A response with its headers set, and none of it sent. */
  predicate Ready(r: R.ResponseData) {
    && r.attached && !r.flushed && !r.chunked && r.entries != []
    && NoCaseTwins(r.entries) && RT.AllPrintable(r.entries)
  }

  /** Calls that write a body in one of the two ways. */
  predicate WritesBody(calls: seq<R.Call>) {
    && |BodyOf(calls)| <= MAX_STRING
    && ((RawWrites(calls) && calls != []) || (ChunkCalls(calls) && Data(calls) != []))
  }

  function BodyOf(calls: seq<R.Call>): bytes { if RawWrites(calls) then Written(calls) else Data(calls) }

  /**
   The body ends where the header block says: raw writes have the announced
   length and no encoding; chunks are announced as such and ended once, by the
   calls, or by the stream job that adds an end_chunks of its own.
   */
  predicate BodyEnds(r: R.ResponseData, calls: seq<R.Call>, inJob: bool) {
    if RawWrites(calls) then !AsChunks(r.entries) && AsLength(r.entries) == |Written(calls)|
    else SaysChunked(r) && if inJob then !Ends(FromFirst(calls)) else EndsOnce(FromFirst(calls))
  }

  /** What the calls put on the wire, and the job behind them. */
  function BodyOut(r: R.ResponseData, calls: seq<R.Call>, inJob: bool): seq<R.Piece> {
    var e := R.Play(r, calls);
    e.out + if inJob then R.EndChunks(e.r, true, true).out else []
  }

  lemma RawIsRead(r: R.ResponseData, calls: seq<R.Call>, inJob: bool, rest: bytes)
    requires Ready(r) && WritesBody(calls) && RawWrites(calls) && calls != []
    ensures var wire := Bytes(BodyOut(r, calls, inJob)) + rest;
            HasBlock(wire) && (ReadsAs(wire, BodyOf(calls), rest) <==> BodyEnds(r, calls, inJob))
  {
    hide R.Block, R.Play, ParseBody, HasBlock, ReadsAs, AsChunks, AsLength, IsChunked, RT.Printable, NoCaseTwins, RawWrites;
    RawEncode(r, calls);
    var out := R.Play(r, calls).out;
    assert BodyOut(r, calls, inJob) == out + [] == out;
    var req := BlockIsRead(r.status, r.entries, Written(calls) + rest, Written(calls), rest);
    Assoc(R.HeaderBlock(r), Written(calls), rest);
    if IsChunked(req) { NeverOwnBody(req, Written(calls), rest); } else { LengthDecides(req, Written(calls), rest); }
  }

  /** The bytes of a chunked response behind its header block. */
  function ChunkBytes(calls: seq<R.Call>, inJob: bool): bytes {
    Encoded(FromFirst(calls)) + if inJob then R.TERMINATOR else []
  }

  lemma ChunksOut(r: R.ResponseData, calls: seq<R.Call>, inJob: bool)
    requires r.attached && !r.flushed && !r.chunked && ChunkCalls(calls) && Data(calls) != [] && |Data(calls)| <= MAX_STRING
    ensures Bytes(BodyOut(r, calls, inJob)) == R.HeaderBlock(Announced(r)) + ChunkBytes(calls, inJob)
  {
    hide R.HeaderBlock, R.Play, R.EndChunks, Announced, Encoded, FromFirst, Bytes, ParseChunks;
    var e, from := R.Play(r, calls), FromFirst(calls);
    if inJob {
      StreamEndsWhereBodyEnds(r, calls, []);
    } else {
      EarlierCallsDoNothing(r, calls);
      assert Data([]) == [];
      ChunkCallsEncode(r, from);
      assert e.out + [] == e.out && Encoded(from) + [] == Encoded(from);
    }
  }

  /** What the chunk decoder makes of those bytes. */
  lemma ChunkBytesDecode(calls: seq<R.Call>, inJob: bool, rest: bytes)
    requires ChunkCalls(calls) && |Data(calls)| <= MAX_STRING
    ensures var from := FromFirst(calls);
            ParseChunks(0, [], ChunkBytes(calls, inJob) + rest) == Done(Data(calls), rest) <==>
            if inJob then !Ends(from) else EndsOnce(from)
  {
    hide ParseChunks, Encoded, FromFirst, Ends, EndsOnce;
    var from := FromFirst(calls);
    EarlierCallsDoNothing(R.FRESH, calls);
    assert [] + Data(from) == Data(from);
    if inJob {
      EncodedDecodes([], from, rest);
      Assoc(Encoded(from), R.TERMINATOR, rest);
    } else {
      OpenDecodes([], from, rest);
      assert Encoded(from) + [] == Encoded(from);
    }
  }

  lemma ChunksAreRead(r: R.ResponseData, calls: seq<R.Call>, inJob: bool, rest: bytes)
    requires Ready(r) && WritesBody(calls) && !RawWrites(calls)
    ensures var wire := Bytes(BodyOut(r, calls, inJob)) + rest;
            HasBlock(wire) && (ReadsAs(wire, BodyOf(calls), rest) <==> BodyEnds(r, calls, inJob))
  {
    hide R.Block, R.Play, ParseBody, ParseChunks, HasBlock, ReadsAs, IsChunked, RT.Printable, NoCaseTwins, RawWrites,
         Announced, Get, Contains, BodyOut, Encoded, FromFirst, Ends, EndsOnce, Lower, Find;
    var es, tail := Announced(r).entries, ChunkBytes(calls, inJob) + rest;
    AnnouncedEntries(r);
    ChunkedIsChunked();
    ChunksOut(r, calls, inJob);
    var req := BlockIsRead(r.status, es, tail, Data(calls), rest);
    Assoc(R.Block(r.status, es), ChunkBytes(calls, inJob), rest);
    if IsChunked(req) {
      ChunkBytesDecode(calls, inJob, rest);
      assert ParseBody(0, req, tail) == ParseChunks(0, [], tail) by { ByChunks(req, tail); }
    } else {
      EarlierCallsDoNothing(R.FRESH, calls);
      EncodedIsLonger(FromFirst(calls));
      TooLongForLength(req, ChunkBytes(calls, inJob), Data(calls), rest);
    }
  }

  /** Read by a length, a body is no shorter than what is sent. */
  lemma TooLongForLength(req: RequestData, sent: bytes, body: bytes, rest: bytes)
    requires |sent| > |body| && !IsChunked(req)
    ensures ParseBody(0, req, sent + rest) != Done(body, rest)
  {
    hide IsChunked;
    var b := ParseBody(0, req, sent + rest);
    assert b.Done? ==> |b.body| + |b.rest| == |sent| + |rest|;
  }

  lemma ByChunks(req: RequestData, s: bytes)
    requires IsChunked(req)
    ensures ParseBody(0, req, s) == ParseChunks(0, [], s)
  {
    hide IsChunked, ParseChunks;
  }

  /**
   The client's side of a response written by calls, its header fields
   printable, any bytes behind it: it begins with a block that parses; and read
   as the block says it gives exactly the body that was written, and leaves
   exactly what follows, if and only if the body ends where the block says.
   */
  lemma ClientReadsBody(r: R.ResponseData, calls: seq<R.Call>, inJob: bool, rest: bytes)
    requires Ready(r) && WritesBody(calls)
    ensures var wire := Bytes(BodyOut(r, calls, inJob)) + rest;
            HasBlock(wire) && (ReadsAs(wire, BodyOf(calls), rest) <==> BodyEnds(r, calls, inJob))
  {
    hide BodyOut, BodyOf, BodyEnds, HasBlock, ReadsAs, Ready, RawWrites;
    if RawWrites(calls) {
      assert Data([]) == [];
      RawIsRead(r, calls, inJob, rest);
    } else {
      ChunksAreRead(r, calls, inJob, rest);
    }
  }
}
