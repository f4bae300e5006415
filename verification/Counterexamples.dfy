/**
 Streams and handlers on which a connection does not do what one would expect,
 from the first byte on. The general results they belong to say for which
 others the same is true.
 */
module Counterexamples {
  import opened Text
  import opened Numbers
  import opened Headers
  import opened Request
  import opened Framing
  import opened Machine
  import opened ReaderProofs
  import opened WireProofs
  import opened ReuseProofs
  import T = ConnectionTheorems
  import C = ChunkRoundTrip
  import CR = ClientReads
  import R = Response
  import RT = ResponseRoundTrip

  // ── requests on the wire ───────────────────────────────────────────

  /** A request with one header. */
  function Head(line: bytes, e: Entry): bytes { RT.HeadText(line, [e]) }

  lemma HeadReads(line: bytes, e: Entry, name: bytes)
    requires Clean(line) && RT.Printable(e)
    ensures var h := Head(line, e);
            |h| >= 4 && Find(h, CRLFCRLF, 0) == Some(|h| - 4) && WithHeader(EMPTY_REQUEST, h).Some?
            && WithHeader(EMPTY_REQUEST, h).value.Header(name) == if CiEqual(e.name, name) then e.value else []
  {
    hide RT.HeadText, Find, WithHeader, RT.Printable;
    RT.HeadParses(line, [e]);
    HeaderMapsAgree([e], name);
    assert [e][..0] == [] && LastWritten([], name) == None;
  }

  const KEPT := Entry(CONNECTION, KEEP_ALIVE)

  const CHUNKED := Entry(TRANSFER_ENCODING, "chunked")

  /** A request without a body that asks to keep the connection. */
  function Get(): bytes { Head("GET / HTTP/1.1", KEPT) }

  function GetRequest(): RequestData {
    match WithHeader(EMPTY_REQUEST, Get()) case Some(req) => req case None => EMPTY_REQUEST
  }

  lemma NameLengths()
    ensures !CiEqual(CONNECTION, TRANSFER_ENCODING) && !CiEqual(CONNECTION, CONTENT_LENGTH)
    ensures !CiEqual(CONTENT_LENGTH, TRANSFER_ENCODING) && !CiEqual(TRANSFER_ENCODING, CONTENT_LENGTH)
  {
    assert |Lower(CONNECTION)| == 10 && |Lower(CONTENT_LENGTH)| == 14 && |Lower(TRANSFER_ENCODING)| == 17;
  }

  lemma GetReads()
    ensures |Get()| >= 4 && Find(Get(), CRLFCRLF, 0) == Some(|Get()| - 4)
    ensures WithHeader(EMPTY_REQUEST, Get()) == Some(GetRequest())
    ensures KeepsAlive(GetRequest()) && !IsChunked(GetRequest()) && GetRequest().ContentLength() == 0
  {
    hide Head, Find, WithHeader, CiEqual, RT.Printable, IsChunked, FromChars;
    NameLengths();
    KeptIsPrintable();
    HeadReads("GET / HTTP/1.1", KEPT, CONNECTION);
    HeadReads("GET / HTTP/1.1", KEPT, TRANSFER_ENCODING);
    HeadReads("GET / HTTP/1.1", KEPT, CONTENT_LENGTH);
    RT.NotChunked(GetRequest());
    NoLength();
  }

  lemma KeptIsPrintable()
    ensures RT.Printable(KEPT) && Clean("GET / HTTP/1.1") && CiEqual(KEPT.name, CONNECTION)
  {}

  lemma NoLength()
    ensures FromChars([]) == None
  {}

  /** The connection when the whole of that request has been read. */
  function AtGet(): State { State([], false, true, Open, [], Get(), [], [], []) }

  /** A request without a body that has arrived in one piece. */
  lemma Arrives(limit: nat, block: bytes, req: RequestData, h: Script)
    requires |block| >= 4 && Find(block, CRLFCRLF, 0) == Some(|block| - 4) && WithHeader(EMPTY_REQUEST, block) == Some(req)
    requires !IsChunked(req) && req.ContentLength() == 0
    ensures var s, e := Start(block), LineArrived(|block|, h);
            && |s.pending| == 1 && Enabled(s, s.pending[0].op, e)
            && Step(limit, s, 0, e) == Dispatch(State([], false, true, Open, [], block, [], [], []), req, h)
  {
    hide Find, WithHeader, IsChunked, KeepsAlive, Dispatch, OnHeader, RequestData.ContentLength;
    var s, n := Start(block), |block|;
    assert s.unread[..n] == block && [] + block == block && s.unread[n..] == [];
    assert s.pending[..0] + s.pending[1..] == [];
    IsDispatched(limit, Pull(s.(pending := []), n), block, req, h);
  }

  lemma IsDispatched(limit: nat, s: State, block: bytes, req: RequestData, h: Script)
    requires s == State(block, false, false, Open, [], [], [], [], [])
    requires WithHeader(EMPTY_REQUEST, block) == Some(req) && !IsChunked(req) && req.ContentLength() == 0
    ensures OnHeader(limit, s, |block|, h) == Dispatch(State([], false, true, Open, [], block, [], [], []), req, h)
  {
    hide Find, WithHeader, IsChunked, KeepsAlive, Dispatch, RequestData.ContentLength;
    assert block[..|block|] == block && block[|block|..] == [] && [] + block == block;
  }

  lemma GetArrives(limit: nat, h: Script)
    ensures var s, e := Start(Get()), LineArrived(|Get()|, h);
            |s.pending| == 1 && Enabled(s, s.pending[0].op, e) && Step(limit, s, 0, e) == Dispatch(AtGet(), GetRequest(), h)
  {
    hide Get, Find, WithHeader, IsChunked, KeepsAlive, Dispatch, RequestData.ContentLength, Start, Step, Enabled;
    GetReads();
    Arrives(limit, Get(), GetRequest(), h);
  }

  // ── reuse after a response the client cannot take apart ────────────

  const X: bytes := "x"

  /** Writes, and then sets the length. */
  const LATE := Script([R.DoWrite(X, true), R.SetHeader(CONTENT_LENGTH, "1")], false, [])

  /** The header block of a response without headers of its own. */
  function BareHead(): R.Piece { R.Head(R.Block(200, [KEPT]), [KEPT]) }

  lemma BareHeadIsUnframed()
    ensures !R.Framed([KEPT]) && RT.AllPrintable([KEPT]) && NoCaseTwins([KEPT])
    ensures var parsed := WithHeader(EMPTY_REQUEST, BareHead().data);
            parsed.Some? && Lookup(parsed.value.headers, CONTENT_LENGTH).None? && Lookup(parsed.value.headers, TRANSFER_ENCODING).None?
  {
    hide R.Block, WithHeader, RT.Printable, CiEqual, Lookup, R.Framed;
    KeptFramesNothing();
    KeptIsPrintable();
    RT.FramingIsRead(200, [KEPT]);
  }

  lemma KeptFramesNothing()
    ensures !R.Framed([KEPT])
  {
    hide CiEqual;
    NameLengths();
  }

  lemma NewResponseIs()
    ensures NewResponse(true) == R.ResponseData(200, [KEPT], [], R.Buffered, false, false, true)
  {}

  lemma FirstWrite(r: R.ResponseData)
    requires r == NewResponse(true) || r == Streaming()
    ensures R.Apply(r, R.DoWrite(X, true)) == R.Effect(R.LeaveBuffered(r).(flushed := true), [BareHead(), R.Payload(X)], true)
  {
    hide R.Block, NewResponse;
    NewResponseIs();
  }

  lemma LatePlay()
    ensures R.AllPermitted(NewResponse(true), LATE.calls)
    ensures var e := R.Play(NewResponse(true), LATE.calls);
            e.out == [BareHead(), R.Payload(X)] && e.r.mode.Immediate? && R.Framed(e.r.entries)
  {
    hide BareHead, NewResponse, R.Framed, R.InsertHeader, R.Write;
    NewResponseIs();
    var r0, c, d := NewResponse(true), R.DoWrite(X, true), R.SetHeader(CONTENT_LENGTH, "1");
    FirstWrite(r0);
    var r := R.Apply(r0, c).r;
    SetLength(r);
    PlayTwo(r0, c, d);
    assert LATE.calls == [c, d];
    assert [BareHead(), R.Payload(X)] + [] == [BareHead(), R.Payload(X)];
  }

  lemma SetLength(r: R.ResponseData)
    ensures var e := R.Apply(r, R.SetHeader(CONTENT_LENGTH, "1"));
            e.out == [] && e.r.mode == r.mode && R.Framed(e.r.entries)
  {
    R.FramedAfterInsert(r, CONTENT_LENGTH, "1");
  }

  lemma PlayTwo(r: R.ResponseData, c: R.Call, d: R.Call)
    ensures var r1 := R.Apply(r, c).r;
            && R.Play(r, [c, d]).out == R.Apply(r, c).out + R.Apply(r1, d).out && R.Play(r, [c, d]).r == R.Apply(r1, d).r
            && (R.AllPermitted(r, [c, d]) <==> R.Permitted(r, c) && R.Permitted(r1, d))
  {
    hide R.Apply, R.Permitted;
    PlayOne(R.Apply(r, c).r, d);
    assert [c, d][1..] == [d];
  }

  lemma PlayOne(r: R.ResponseData, c: R.Call)
    ensures R.Play(r, [c]).out == R.Apply(r, c).out && R.Play(r, [c]).r == R.Apply(r, c).r
    ensures R.AllPermitted(r, [c]) <==> R.Permitted(r, c)
  {
    hide R.Apply, R.Permitted;
    assert [c][1..] == [];
    assert R.Apply(r, c).out + [] == R.Apply(r, c).out;
  }

  /**
   A handler that sets Content-Length after its first write: the block on the
   wire frames nothing, the entries do, and the next request is read.
   */
  lemma LateFraming(limit: nat) returns (run: seq<Turn>)
    ensures R.AllPermitted(NewResponse(true), LATE.calls)
    ensures CanRun(limit, Start(Get()), run)
    ensures var t := Run(limit, Start(Get()), run);
            t.wire == [Sent(1, BareHead()), Sent(1, R.Payload(X))] && !AnswerAnnounces(t.wire, 1)
            && |t.pending| == 1 && t.pending[0].op.HeaderRead?
  {
    hide Get, Step, Enabled, R.Play, BareHead, NewResponse, KeepsAlive, R.Framed, Start, R.AllPermitted, GetRequest, Dispatch;
    run := [Turn(0, LineArrived(|Get()|, LATE))];
    GetArrives(limit, LATE);
    RunOne(limit, Start(Get()), run[0]);
    LateDispatch();
  }

  lemma RunOne(limit: nat, s: State, turn: Turn)
    requires turn.k < |s.pending| && Enabled(s, s.pending[turn.k].op, turn.event)
    ensures CanRun(limit, s, [turn]) && Run(limit, s, [turn]) == Step(limit, s, turn.k, turn.event)
  {
    hide Step, Enabled;
    var t := Step(limit, s, turn.k, turn.event);
    assert [turn][1..] == [] && CanRun(limit, t, []) && Run(limit, t, []) == t;
  }

  /** The answer on the wire is all there is, and it frames nothing. */
  lemma BareAnswer(w: seq<Sent>)
    requires w == Tag(1, [BareHead(), R.Payload(X)])
    ensures w == [Sent(1, BareHead()), Sent(1, R.Payload(X))] && !AnswerAnnounces(w, 1)
  {
    hide BareHead, R.Framed;
    AnswerOfTag(1, [BareHead(), R.Payload(X)], 1);
    assert BareHead().Head? && !R.Framed(BareHead().entries) by { BareHeadIs(); }
  }

  lemma BareHeadIs()
    ensures BareHead().Head? && !R.Framed(BareHead().entries)
  {
    BareHeadIsUnframed();
  }

  /** A response written by the handler, its entries framed in the end: the next request is read. */
  lemma WrittenDispatch(s: State, req: RequestData, h: Script)
    requires s.pending == [] && KeepsAlive(req) && !h.throws
    requires R.Play(NewResponse(true), h.calls).r.mode.Immediate? && R.Framed(R.Play(NewResponse(true), h.calls).r.entries)
    ensures var t := Dispatch(s, req, h);
            t.wire == s.wire + Tag(|s.actions| + 1, R.Play(NewResponse(true), h.calls).out)
            && (s.wire == [] && s.actions == [] ==> t.wire == Tag(1, R.Play(NewResponse(true), h.calls).out))
            && |t.pending| == 1 && t.pending[0].op.HeaderRead?
  {
    hide R.Play, NewResponse, KeepsAlive, R.Framed;
  }

  lemma LateDispatch()
    ensures R.AllPermitted(NewResponse(true), LATE.calls)
    ensures var t := Dispatch(AtGet(), GetRequest(), LATE);
            t.wire == [Sent(1, BareHead()), Sent(1, R.Payload(X))] && !AnswerAnnounces(t.wire, 1)
            && |t.pending| == 1 && t.pending[0].op.HeaderRead?
  {
    hide Get, R.Play, BareHead, NewResponse, KeepsAlive, R.Framed, R.AllPermitted, AnswerAnnounces, GetRequest, Dispatch;
    assert KeepsAlive(GetRequest()) by { GetReads(); }
    LatePlay();
    WrittenDispatch(AtGet(), GetRequest(), LATE);
    BareAnswer(Dispatch(AtGet(), GetRequest(), LATE).wire);
  }

  /** A handler that leaves everything to a stream function. */
  const STREAMED := Script([R.StartStream], false, [])

  function Streaming(): R.ResponseData { NewResponse(true).(mode := R.Stream) }

  lemma StreamedPlay()
    ensures R.AllPermitted(NewResponse(true), STREAMED.calls)
    ensures TurnsInto(STREAMED, Streaming())
  {
    hide NewResponse;
    NewResponseIs();
    PlayOne(NewResponse(true), R.StartStream);
  }

  /** The handler has turned the response into the stream resp, and sent nothing. */
  predicate TurnsInto(h: Script, resp: R.ResponseData) {
    !h.throws && resp.mode.Stream? && R.Play(NewResponse(true), h.calls).r == resp && R.Play(NewResponse(true), h.calls).out == []
  }

  lemma StreamedDispatch(h: Script, resp: R.ResponseData)
    requires TurnsInto(h, resp)
    ensures var s := Dispatch(AtGet(), GetRequest(), h);
            s.wire == [] && s.keepAlive && |s.actions| == 1 && |s.pending| == 1 && s.pending[0].op == PoolJob(resp)
  {
    hide Get, R.Play, NewResponse, KeepsAlive, GetRequest;
    assert KeepsAlive(GetRequest()) by { GetReads(); }
  }

  lemma JobAndHop(limit: nat, s: State, resp: R.ResponseData, job: Script) returns (run: seq<Turn>)
    requires |s.pending| == 1 && s.pending[0].op == PoolJob(resp) && s.keepAlive && !job.throws
    ensures CanRun(limit, s, run)
    ensures var t := Run(limit, s, run);
            t.wire == s.wire + Tag(|s.actions|, JobOut(resp, job, true, true, true)) && t.actions == s.actions
            && |t.pending| == 1 && t.pending[0].op.HeaderRead?
  {
    hide JobOut;
    var first, second := Turn(0, JobRan(job, true, true, true)), Turn(0, HopRan);
    run := [first, second];
    assert s.pending[..0] + s.pending[1..] == [];
    var t := Step(limit, s, 0, first.event);
    assert t.pending[..0] + t.pending[1..] == [];
    RunOne(limit, t, second);
    assert run[1..] == [second];
  }

  /** A request answered by a stream function, up to the next read: what is sent is what the job sends. */
  lemma StreamRun(limit: nat, h: Script, resp: R.ResponseData, job: Script) returns (run: seq<Turn>)
    requires TurnsInto(h, resp) && !job.throws
    ensures CanRun(limit, Start(Get()), run)
    ensures var t := Run(limit, Start(Get()), run);
            t.wire == Tag(1, JobOut(resp, job, true, true, true)) && |t.actions| == 1
            && |t.pending| == 1 && t.pending[0].op.HeaderRead?
  {
    hide Get, Step, Enabled, Start, NewResponse, JobOut, Dispatch, GetRequest, TurnsInto;
    var first := Turn(0, LineArrived(|Get()|, h));
    GetArrives(limit, h);
    StreamedDispatch(h, resp);
    var s := Step(limit, Start(Get()), 0, first.event);
    var more := JobAndHop(limit, s, resp, job);
    run := [first] + more;
    assert run[1..] == more;
    assert [] + Tag(1, JobOut(resp, job, true, true, true)) == Tag(1, JobOut(resp, job, true, true, true));
  }

  /** A stream function that just writes: no framing header anywhere, and the next request is read. */
  lemma UnframedStream(limit: nat) returns (run: seq<Turn>)
    ensures R.AllPermitted(NewResponse(true), STREAMED.calls) && R.AllPermitted(Streaming(), [R.DoWrite(X, true)])
    ensures CanRun(limit, Start(Get()), run)
    ensures var t := Run(limit, Start(Get()), run);
            t.wire == [Sent(1, BareHead()), Sent(1, R.Payload(X))] && !AnswerAnnounces(t.wire, 1)
            && |t.pending| == 1 && t.pending[0].op.HeaderRead?
  {
    hide Get, CanRun, Run, R.Framed, BareHead, AnswerAnnounces, Start, JobOut;
    var job := Script([R.DoWrite(X, true)], false, []);
    StreamedPlay();
    run := StreamRun(limit, STREAMED, Streaming(), job);
    UnframedJob(job);
    BareAnswer(Run(limit, Start(Get()), run).wire);
  }

  lemma UnframedJob(job: Script)
    requires job == Script([R.DoWrite(X, true)], false, [])
    ensures R.AllPermitted(Streaming(), job.calls)
    ensures JobOut(Streaming(), job, true, true, true) == [BareHead(), R.Payload(X)]
  {
    hide BareHead, NewResponse, R.Write;
    NewResponseIs();
    FirstWrite(Streaming());
    PlayOne(Streaming(), R.DoWrite(X, true));
    assert [BareHead(), R.Payload(X)] + [] == [BareHead(), R.Payload(X)];
  }

  /** A stream function that does nothing: its request is never answered, and the next one is read. */
  lemma SilentStream(limit: nat) returns (run: seq<Turn>)
    ensures CanRun(limit, Start(Get()), run)
    ensures var t := Run(limit, Start(Get()), run);
            |t.actions| == 1 && t.wire == [] && |t.pending| == 1 && t.pending[0].op.HeaderRead?
  {
    hide Get, CanRun, Run;
    var job := Script([], false, []);
    StreamedPlay();
    run := StreamRun(limit, STREAMED, Streaming(), job);
    assert JobOut(Streaming(), job, true, true, true) == [];
  }

  // ── chunks that do not end, or are not read as chunks ─────────────

  const ONE: R.Call := R.DoWriteChunk(X, true)

  /** Writes one chunk, and does not end it. */
  const OPEN := Script([ONE], false, [])

  /** A chunked response's header block, with the encoding e. */
  function ChunkHead(e: Entry): R.Piece { R.Head(R.Block(200, [KEPT, e]), [KEPT, e]) }

  function ChunkOut(e: Entry): seq<R.Piece> {
    [ChunkHead(e), R.Payload("1" + CRLF), R.Payload(X), R.Payload(CRLF)]
  }

  /** That chunk as the first call on r. */
  lemma OneChunkIsSent(r: R.ResponseData, e: Entry)
    requires r.status == 200 && r.attached && !r.flushed && !r.chunked && R.MarkChunked(r).entries == [KEPT, e]
    ensures var x := R.Apply(r, ONE);
            x.out == ChunkOut(e) && x.r == R.LeaveBuffered(R.MarkChunked(r)).(flushed := true)
  {
    hide R.Block, R.MarkChunked, Numeral;
    assert Numeral(1, 16) == "1" by { OneDigit(); }
    MarkKeeps(r);
  }

  lemma OneDigit()
    ensures Numeral(1, 16) == "1"
  {}

  lemma MarkKeeps(r: R.ResponseData)
    requires !r.flushed && !r.chunked
    ensures var m := R.MarkChunked(r);
            m.status == r.status && m.attached == r.attached && !m.flushed && m.chunked && m.mode == r.mode
  {}

  lemma FreshChunks(r: R.ResponseData)
    requires !r.flushed && !r.chunked && r.entries == [KEPT]
    ensures R.MarkChunked(r).entries == [KEPT, CHUNKED]
  {
    hide CiEqual;
    NameLengths();
    FirstIs([KEPT], TRANSFER_ENCODING, 1);
  }

  lemma OpenPlay()
    ensures R.AllPermitted(NewResponse(true), OPEN.calls)
    ensures var e := R.Play(NewResponse(true), OPEN.calls);
            e.out == ChunkOut(CHUNKED) && e.r.mode.Immediate? && R.Framed(e.r.entries)
  {
    hide NewResponse, ChunkOut, R.WriteChunk;
    NewResponseIs();
    FreshChunks(NewResponse(true));
    OneChunkIsSent(NewResponse(true), CHUNKED);
    MarkKeeps(NewResponse(true));
    PlayOne(NewResponse(true), ONE);
    assert R.Framed([KEPT, CHUNKED]) by { ChunkedFrames(); }
  }

  lemma ChunkedFrames()
    ensures R.Framed([KEPT, CHUNKED])
  {
    hide CiEqual;
    NameLengths();
    C.SameName();
    FirstIs([KEPT, CHUNKED], TRANSFER_ENCODING, 1);
  }

  /**
   A handler that writes a chunk and leaves it at that: the block on the wire
   announces chunks and the next request is read, but whatever follows, the
   client does not find the body that was written.
   */
  lemma UnendedChunks(limit: nat) returns (run: seq<Turn>)
    ensures R.AllPermitted(NewResponse(true), OPEN.calls) && FramesInTime(OPEN.calls)
    ensures CanRun(limit, Start(Get()), run)
    ensures var t := Run(limit, Start(Get()), run);
            t.wire == Tag(1, ChunkOut(CHUNKED)) && AnswerAnnounces(t.wire, 1)
            && |t.pending| == 1 && t.pending[0].op.HeaderRead?
            && forall rest :: !CR.ReadsAs(C.Bytes(AnswerTo(t.wire, 1)) + rest, X, rest)
  {
    hide Get, Step, Enabled, R.Play, ChunkOut, NewResponse, KeepsAlive, R.Framed, Start, R.AllPermitted, GetRequest, Dispatch,
         CR.ReadsAs, AnswerAnnounces, FramesInTime, C.Bytes;
    run := [Turn(0, LineArrived(|Get()|, OPEN))];
    GetArrives(limit, OPEN);
    RunOne(limit, Start(Get()), run[0]);
    assert KeepsAlive(GetRequest()) by { GetReads(); }
    OpenPlay();
    WrittenDispatch(AtGet(), GetRequest(), OPEN);
    AnswerOfTag(1, ChunkOut(CHUNKED), 1);
    ChunkOutAnnounces();
    OpenIsInTime();
    forall rest
      ensures !CR.ReadsAs(C.Bytes(ChunkOut(CHUNKED)) + rest, X, rest)
    {
      OpenIsNotRead(rest);
    }
  }

  lemma OpenIsInTime()
    ensures FramesInTime(OPEN.calls)
  {
    assert OPEN.calls[0] == ONE && R.Frames(ONE) && R.Sends(false, ONE);
    assert R.FramedBy(OPEN.calls, 1);
  }

  lemma ChunkOutAnnounces()
    ensures AnswerAnnounces(Tag(1, ChunkOut(CHUNKED)), 1)
  {
    hide R.Block, R.Framed, AnswerTo;
    AnswerOfTag(1, ChunkOut(CHUNKED), 1);
    ChunkedFrames();
    assert ChunkOut(CHUNKED)[0].Head? && R.Framed(ChunkOut(CHUNKED)[0].entries);
  }

  lemma ReadyToChunk(r: R.ResponseData, es: seq<Entry>)
    requires r.attached && !r.flushed && !r.chunked && r.entries == es && es != [] && RT.AllPrintable(es) && NoCaseTwins(es)
    ensures CR.Ready(r) && CR.WritesBody([ONE]) && !CR.RawWrites([ONE]) && CR.BodyOf([ONE]) == X
    ensures C.FromFirst([ONE]) == [ONE] && !C.Ends([ONE]) && !CR.EndsOnce([ONE])
  {
    hide RT.Printable, NoCaseTwins;
    assert [ONE][0] == ONE && [ONE][1..] == [];
    assert C.Data([]) == [] && X + [] == X;
  }

  lemma OpenIsNotRead(rest: bytes)
    ensures !CR.ReadsAs(C.Bytes(ChunkOut(CHUNKED)) + rest, X, rest)
  {
    hide NewResponse, CR.Ready, CR.ReadsAs, CR.HasBlock, CR.EndsOnce, CR.BodyOf, CR.RawWrites, CR.WritesBody, C.FromFirst, C.Ends,
         C.SaysChunked, C.Bytes, R.Play, ChunkOut, RT.Printable, CiEqual;
    NewResponseIs();
    KeptIsPrintable();
    ReadyToChunk(NewResponse(true), [KEPT]);
    OpenPlay();
    CR.ClientReadsBody(NewResponse(true), [ONE], false, rest);
    assert CR.BodyOut(NewResponse(true), [ONE], false) == ChunkOut(CHUNKED) + [] == ChunkOut(CHUNKED);
  }

  /** A response compressed by the handler, as it says. */
  const GZIP := Entry(TRANSFER_ENCODING, "gzip")

  const ZIPPED := Script([R.SetHeader(TRANSFER_ENCODING, "gzip"), R.StartStream], false, [])

  function Zipping(): R.ResponseData { R.ResponseData(200, [KEPT, GZIP], [], R.Stream, false, false, true) }

  lemma ZippedPlay()
    ensures TurnsInto(ZIPPED, Zipping()) && R.AllPermitted(NewResponse(true), ZIPPED.calls)
  {
    hide NewResponse, CiEqual;
    NewResponseIs();
    NameLengths();
    FirstIs([KEPT], TRANSFER_ENCODING, 1);
    var c, d := R.SetHeader(TRANSFER_ENCODING, "gzip"), R.StartStream;
    PlayTwo(NewResponse(true), c, d);
    assert ZIPPED.calls == [c, d];
  }

  lemma GzipFacts()
    ensures RT.AllPrintable([KEPT, GZIP]) && NoCaseTwins([KEPT, GZIP]) && !C.SaysChunked(Zipping())
    ensures R.MarkChunked(Zipping()).entries == [KEPT, GZIP]
  {
    hide CiEqual, RT.Printable, Find, Lower;
    NameLengths();
    KeptIsPrintable();
    GzipIsNotChunked();
    FirstIs([KEPT, GZIP], TRANSFER_ENCODING, 1);
  }

  lemma GzipIsNotChunked()
    ensures Find(Lower("gzip"), "chunked", 0).None? && RT.Printable(GZIP) && CiEqual(GZIP.name, TRANSFER_ENCODING)
  {
    hide RT.Printable, OccursAt;
    GzipIsPrintable();
    FindFirst(Lower("gzip"), "chunked", 0);
    if i :| OccursAt(Lower("gzip"), "chunked", i) { OccursFits(Lower("gzip"), "chunked", i); }
  }

  lemma OccursFits(s: bytes, t: bytes, i: int)
    requires OccursAt(s, t, i)
    ensures |t| <= |s|
  {}

  lemma GzipIsPrintable()
    ensures RT.Printable(GZIP)
  {
    hide Clean, Trimmed;
    EncodingIsClean();
    assert Trimmed(GZIP.name) && Trimmed("gzip") by { GzipIsTrimmed(); }
  }

  lemma EncodingIsClean()
    ensures Clean("Transfer-Encoding") && Clean("gzip") && ':' !in "Transfer-Encoding"
  {}

  lemma GzipIsTrimmed()
    ensures Trimmed("Transfer-Encoding") && Trimmed("gzip")
  {}

  /** What the job sends: the block, the chunk and the terminator. */
  function ZippedOut(): seq<R.Piece> { ChunkOut(GZIP) + [R.Payload(R.TERMINATOR)] }

  lemma ZippedJob()
    ensures R.AllPermitted(Zipping(), OPEN.calls)
    ensures JobOut(Zipping(), OPEN, true, true, true) == ZippedOut() == CR.BodyOut(Zipping(), [ONE], true)
  {
    hide ChunkOut, R.WriteChunk;
    GzipFacts();
    OneChunkIsSent(Zipping(), GZIP);
    MarkKeeps(Zipping());
    PlayOne(Zipping(), ONE);
  }

  /**
   A handler that announces gzip and streams one chunk: its bytes are sent as
   chunks, ended once, under a block that does not say so; and whatever follows,
   the client does not find the body that was written.
   */
  lemma ZippedStream(limit: nat) returns (run: seq<Turn>)
    ensures R.AllPermitted(NewResponse(true), ZIPPED.calls) && R.AllPermitted(Zipping(), OPEN.calls)
    ensures CanRun(limit, Start(Get()), run)
    ensures var t := Run(limit, Start(Get()), run);
            t.wire == Tag(1, ZippedOut()) && |t.pending| == 1 && t.pending[0].op.HeaderRead?
            && forall rest :: !CR.ReadsAs(C.Bytes(AnswerTo(t.wire, 1)) + rest, X, rest)
  {
    hide Get, CanRun, Run, Start, ZippedOut, Zipping, TurnsInto, JobOut, CR.ReadsAs, C.Bytes, R.AllPermitted;
    ZippedPlay();
    ZippedJob();
    run := StreamRun(limit, ZIPPED, Zipping(), OPEN);
    AnswerOfTag(1, ZippedOut(), 1);
    forall rest
      ensures !CR.ReadsAs(C.Bytes(ZippedOut()) + rest, X, rest)
    {
      ZippedIsNotRead(rest);
    }
  }

  lemma ZippedIsNotRead(rest: bytes)
    ensures !CR.ReadsAs(C.Bytes(ZippedOut()) + rest, X, rest)
  {
    hide CR.Ready, CR.ReadsAs, CR.HasBlock, CR.BodyOf, CR.BodyOut, CR.RawWrites, CR.WritesBody, C.FromFirst, C.Ends, C.SaysChunked,
         C.Bytes, ZippedOut, JobOut, RT.Printable, CiEqual;
    GzipFacts();
    ZippedJob();
    ReadyToChunk(Zipping(), [KEPT, GZIP]);
    CR.ClientReadsBody(Zipping(), [ONE], true, rest);
  }

  // ── sizes that wrap, lengths that do not fit ───────────────────────

  function Post(e: Entry): bytes { Head("POST / HTTP/1.1", e) }

  /** One byte, and then the announcement of 2^64 - 1 more. */
  function Wrapping(): bytes {
    Post(CHUNKED) + (SendChunks([C.ChunkOf("x")]) + (Numeral(SIZE_RANGE - 1, 16) + CRLF + []))
  }

  /** No 64-bit limit makes any run refuse that request, and every connection that reads it overruns its string. */
  lemma WrappingPassesLimit(limit: nat, run: seq<Turn>)
    requires limit < SIZE_RANGE && CanRun(limit, Start(Wrapping()), run)
    ensures ParseAll(limit, Wrapping()) == [Overran]
    ensures Run(limit, Start(Wrapping()), run).actions <= [Overran]
  {
    hide Wrapping, ParseAll, CanRun, Run;
    WrappingParses(limit);
    T.RequestsFollowTheStream(limit, Wrapping(), run);
  }

  lemma WrappingParses(limit: nat)
    requires limit < SIZE_RANGE
    ensures ParseAll(limit, Wrapping()) == [Overran]
  {
    hide Head, Find, WithHeader, ParseAll, ChunkSize, IsLine, WellFormed, SendChunks, CiEqual, RT.Printable, Numeral, IsChunked;
    var c := C.ChunkOf("x");
    ChunkedHead();
    C.ChunkOfIsWellFormed("x");
    C.SizeLineRoundTrip(SIZE_RANGE - 1);
    assert Content([c]) == "x" + Content([]) == "x";
    NextSizeDecides(limit, Post(CHUNKED), [c], Numeral(SIZE_RANGE - 1, 16), SIZE_RANGE - 1, []);
  }

  lemma ChunkedHead()
    ensures var h := Post(CHUNKED);
            |h| >= 4 && Find(h, CRLFCRLF, 0) == Some(|h| - 4) && WithHeader(EMPTY_REQUEST, h).Some?
            && IsChunked(WithHeader(EMPTY_REQUEST, h).value)
  {
    hide Head, Find, WithHeader, RT.Printable;
    C.EncodingPrintable();
    assert CiEqual(CHUNKED.name, TRANSFER_ENCODING);
    HeadReads("POST / HTTP/1.1", CHUNKED, TRANSFER_ENCODING);
    C.ChunkedIsChunked();
  }

  function Overlong(): bytes { Post(Entry(CONTENT_LENGTH, Numeral(MAX_STRING + 1, 10))) }

  lemma OverlongEscapes(limit: nat)
    requires limit == 0 || limit > MAX_STRING
    ensures ParseAll(limit, Overlong()) == [Escaped]
  {
    hide Head, Find, WithHeader, ParseAll, IsChunked;
    var n := MAX_STRING + 1;
    var e := Entry(CONTENT_LENGTH, Numeral(n, 10));
    NameLengths();
    RT.LengthEntryPrintable(n);
    HeadReads("POST / HTTP/1.1", e, CONTENT_LENGTH);
    HeadReads("POST / HTTP/1.1", e, TRANSFER_ENCODING);
    DecimalRoundTrip(n);
    RT.NotChunked(WithHeader(EMPTY_REQUEST, Overlong()).value);
    OverlongLengthEscapes(limit, Overlong(), []);
    assert Overlong() + [] == Overlong();
  }

  /** No stream can make an exception leave a callback exactly when there is a limit, and a string can hold it. */
  lemma LimitKeepsExceptionsIn(limit: nat)
    ensures (forall s: bytes :: Escaped !in ParseAll(limit, s)) <==> 0 < limit <= MAX_STRING
  {
    hide ParseAll;
    if 0 < limit <= MAX_STRING {
      forall s: bytes
        ensures Escaped !in ParseAll(limit, s)
      {
        NothingEscapes(limit, s);
      }
    } else {
      OverlongEscapes(limit);
      assert Escaped in ParseAll(limit, Overlong());
    }
  }
}
