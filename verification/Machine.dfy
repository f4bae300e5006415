/**
 src/connection.cpp as a state machine. Every asynchronous operation started is
 one entry of `pending`; an event completes one entry and runs its callback to
 the end. The functions below are the source's functions, on values.

 `unread` is everything the peer still sends before it closes, so the end of
 the stream is the end of `unread`. An entry also records the buffer and the
 keep-alive flag at the moment it was started: whatever changes them afterwards
 races with the completion, which may run on another thread.
 */
module Machine {
  import opened Text
  import opened Numbers
  import opened Headers
  import opened Request
  import opened Framing
  import R = Response

  /** What an outstanding operation will resume with. */
  datatype Op =
    | HeaderRead                                            // read-until "\r\n\r\n"
    | FixedRest(req: RequestData, got: bytes, need: nat)    // read exactly need bytes
    | SizeLine(req: RequestData, acc: bytes)                // read-until "\r\n"
    | ChunkRest(req: RequestData, acc: bytes, need: nat)    // read exactly need bytes
    | ChunkEnd(req: RequestData, acc: bytes, need: nat)     // read exactly need bytes
    | TrailerLine(req: RequestData, acc: bytes)             // read-until "\r\n"
    | WriteOut(reply: R.Piece)                              // async_write
    | PoolJob(resp: R.ResponseData)                         // stream function posted to the pool
    | FinishHop                                             // finish_request posted to the executor

  datatype Pending = Pending(op: Op, buffer: bytes, keepAlive: bool)

  datatype Socket = Open | ShutDown | Closed

  /** A piece on the wire, with the number of the request it answers. */
  datatype Sent = Sent(request: nat, piece: R.Piece)

  datatype State = State(
    buffer: bytes, keepAlive: bool, processing: bool, socket: Socket,
    pending: seq<Pending>,
    consumed: bytes, unread: bytes,
    actions: seq<Action>, wire: seq<Sent>)

  /** What the handler, or the stream function, does when it runs. */
  datatype Script = Script(calls: seq<R.Call>, throws: bool, message: bytes)

  datatype Error = Eof | Aborted | Other

  datatype Event =
    | LineArrived(pull: nat, handler: Script)   // a read-until succeeds after pulling bytes from the socket
    | BytesArrived(handler: Script)             // a read-exactly succeeds
    | ReadFailed(pull: nat, error: Error)
    | WriteEnded(ok: bool)
    | JobRan(job: Script, flushOk: bool, endOk: bool, sendOk: bool)
    | HopRan

  // ── starting operations, moving bytes ──────────────────────────────

  function Issue(s: State, op: Op): State {
    s.(pending := s.pending + [Pending(op, s.buffer, s.keepAlive)])
  }

  /** request_buffer_.consume(n). */
  function Consume(s: State, n: nat): State
    requires n <= |s.buffer|
  {
    s.(buffer := s.buffer[n..], consumed := s.consumed + s.buffer[..n])
  }

  /** The socket hands over n bytes, into the streambuf or straight to the caller. */
  function Pull(s: State, n: nat): State
    requires n <= |s.unread|
  {
    s.(buffer := s.buffer + s.unread[..n], unread := s.unread[n..])
  }

  function TakeDirect(s: State, n: nat): State
    requires n <= |s.unread|
  {
    s.(consumed := s.consumed + s.unread[..n], unread := s.unread[n..])
  }

  /** The bytes not consumed yet, in order. */
  function Upcoming(s: State): bytes { s.buffer + s.unread }

  function Min(a: nat, b: nat): nat { if a < b then a else b }

  function Tag(request: nat, out: seq<R.Piece>): (r: seq<Sent>)
    ensures |r| == |out|
    ensures forall i :: 0 <= i < |out| ==> r[i] == Sent(request, out[i])
  {
    seq(|out|, i requires 0 <= i < |out| => Sent(request, out[i]))
  }

  // ── reading ────────────────────────────────────────────────────────

  function Read(s: State): State { Issue(s, HeaderRead) }

  function ReadBody(limit: nat, s: State, req: RequestData, h: Script): State {
    if IsChunked(req) then ReadChunkedBody(s, req, [])
    else
      var n := req.ContentLength();
      if limit != 0 && n > limit then RejectPayloadTooLarge(s)
      else if n == 0 then Dispatch(s, req, h)
      else ReadFixedBody(s, req, n, h)
  }

  function ReadFixedBody(s: State, req: RequestData, n: nat, h: Script): State {
    var take := Min(|s.buffer|, n);
    var body := s.buffer[..take];
    if n > MAX_STRING then Break(s, Escaped)   // reserve()
    else if take == n then Dispatch(Consume(s, take), req.(body := body), h)
    else Issue(Consume(s, take), FixedRest(req, body, n - take))
  }

  /** The callback breaks off: a length_error that nothing catches, or a read past the end of a string. */
  function Break(s: State, a: Action): State { s.(actions := s.actions + [a]) }

  function ReadChunkedBody(s: State, req: RequestData, acc: bytes): State { Issue(s, SizeLine(req, acc)) }

  function ReadChunkData(s: State, req: RequestData, acc: bytes, n: nat): State {
    var take := Min(|s.buffer|, n);
    var acc' := acc + s.buffer[..take];
    if |acc| + n > MAX_STRING then Break(s, Escaped)   // append() or resize()
    else if take == n then ReadChunkTrailingCrlf(Consume(s, take), req, acc')
    else Issue(Consume(s, take), ChunkRest(req, acc', n - take))
  }

  function ReadChunkTrailingCrlf(s: State, req: RequestData, acc: bytes): State {
    if |s.buffer| >= 2 then ReadChunkedBody(Consume(s, 2), req, acc)
    else Issue(Consume(s, |s.buffer|), ChunkEnd(req, acc, 2 - |s.buffer|))
  }

  function ReadChunkTrailers(s: State, req: RequestData, acc: bytes): State { Issue(s, TrailerLine(req, acc)) }

  // ── answering ──────────────────────────────────────────────────────

  const PLAIN: bytes := "text/plain; charset=utf-8"
  const KEEP_ALIVE: bytes := "keep-alive"
  const CLOSE: bytes := "close"

  /** The response object as dispatch() hands it to the handler. */
  function NewResponse(keep: bool): R.ResponseData {
    R.InsertHeader(R.FRESH.(attached := true), CONNECTION, if keep then KEEP_ALIVE else CLOSE)
  }

  function ErrorResponse(status: int, body: bytes): R.ResponseData {
    R.InsertHeader(R.InsertHeader(R.FRESH.(status := status, body := body), CONTENT_TYPE, PLAIN), CONNECTION, CLOSE)
  }

  /** replace_with_500. */
  function Replacement(message: bytes): R.ResponseData {
    ErrorResponse(500, "500 Internal Server Error\n" + if message == [] then [] else message + "\n").(attached := true)
  }

  function Dispatch(s: State, req: RequestData, h: Script): State {
    var keep := KeepsAlive(req);
    var e := R.Play(NewResponse(keep), h.calls);
    var s1 := s.(keepAlive := keep, actions := s.actions + [Dispatched(req, Upcoming(s))],
                 wire := s.wire + Tag(|s.actions| + 1, e.out));
    Answer(s1, e.r, h)
  }

  /** The rest of dispatch(), once the handler has returned or thrown. */
  function Answer(s: State, r: R.ResponseData, h: Script): State {
    if h.throws then
      if !r.flushed then WriteBuffered(s.(keepAlive := false), Replacement(h.message))
      else FinishRequest(s.(keepAlive := false))
    else
      match r.mode
      case Buffered => WriteBuffered(s, r)
      case Immediate => FinishRequest(s.(keepAlive := s.keepAlive && R.Framed(r.entries)))
      case Stream => Issue(s, PoolJob(r))
  }

  function RejectPayloadTooLarge(s: State): State {
    WriteBuffered(s.(keepAlive := false, actions := s.actions + [Rejected]),
                  ErrorResponse(413, "413 Payload Too Large\n"))
  }

  function WriteBuffered(s: State, r: R.ResponseData): State { Issue(s, WriteOut(R.Reply(r))) }

  /** Read the next request, or shut the socket down. */
  function NextOrShut(s: State): State {
    if s.keepAlive then Read(s) else if s.socket.Open? then s.(socket := ShutDown) else s
  }

  function FinishRequest(s: State): State { NextOrShut(s.(processing := false)) }

  // ── callbacks ──────────────────────────────────────────────────────

  function OnHeader(limit: nat, s: State, n: nat, h: Script): State
    requires n <= |s.buffer|
  {
    var s1 := Consume(s.(processing := true), n);
    match WithHeader(EMPTY_REQUEST, s.buffer[..n])
    case None => s1.(socket := Closed)
    case Some(req) => ReadBody(limit, s1, req, h)
  }

  function OnSizeLine(limit: nat, s: State, req: RequestData, acc: bytes, n: nat): State
    requires 2 <= n <= |s.buffer|
  {
    var s1 := Consume(s, n);
    match ChunkSize(s.buffer[..n - 2])
    case None => s1.(processing := false, socket := Closed)
    case Some(size) => AfterSizeLine(limit, s1, req, acc, size)
  }

  /** The rest of that callback, once the size is known. */
  function AfterSizeLine(limit: nat, s: State, req: RequestData, acc: bytes, size: nat): State {
    if Exceeds(limit, |acc|, size) then RejectPayloadTooLarge(s)
    else if |acc| + size >= SIZE_RANGE then Break(s, Overran)   // resize() to a wrapped size
    else if size == 0 then ReadChunkTrailers(s, req, acc)
    else ReadChunkData(s, req, acc, size)
  }

  function OnTrailer(s: State, req: RequestData, acc: bytes, n: nat, h: Script): State
    requires n <= |s.buffer|
  {
    var s1 := Consume(s, n);
    if n == 2 then Dispatch(s1, req.(body := acc), h) else ReadChunkTrailers(s1, req, acc)
  }

  /** A failed read stops the connection; only the header read tells end of stream from other errors. */
  function OnReadFailed(s: State, op: Op, error: Error): State {
    var s1 := s.(processing := false);
    if op.HeaderRead? && error.Other? then s1 else s1.(socket := Closed)
  }

  /** cancel(), taken together with the abort it causes; without anything outstanding it does nothing. */
  function Cancelled(s: State): State {
    if s.pending == [] then s else OnReadFailed(s.(pending := []), s.pending[0].op, Aborted)
  }

  function OnWritten(s: State, reply: R.Piece, ok: bool): State {
    var s1 := s.(processing := false);
    if !ok then s1 else NextOrShut(s1.(wire := s.wire + Tag(|s.actions|, [reply])))
  }

  /** The posted job: the stream function, end_chunks, and the 500 of a throw before the flush. */
  function OnJob(s: State, resp: R.ResponseData, job: Script, flushOk: bool, endOk: bool, sendOk: bool): State {
    Issue(s.(keepAlive := s.keepAlive && !job.throws,
             wire := s.wire + Tag(|s.actions|, JobOut(resp, job, flushOk, endOk, sendOk))), FinishHop)
  }

  /** What the job sends: the calls of the stream function, and what follows them. */
  function JobOut(resp: R.ResponseData, job: Script, flushOk: bool, endOk: bool, sendOk: bool): seq<R.Piece> {
    var e := R.Play(resp, job.calls);
    e.out + JobTail(e.r, job, flushOk, endOk, sendOk)
  }

  function JobTail(r: R.ResponseData, job: Script, flushOk: bool, endOk: bool, sendOk: bool): seq<R.Piece> {
    if job.throws then if !r.flushed && sendOk then [R.Reply(Replacement(job.message))] else []
    else R.EndChunks(r, flushOk, endOk).out
  }

  // ── steps ──────────────────────────────────────────────────────────

  predicate ReadsLine(op: Op) { op.HeaderRead? || op.SizeLine? || op.TrailerLine? }

  predicate ReadsBytes(op: Op) { op.FixedRest? || op.ChunkRest? || op.ChunkEnd? }

  function Delimiter(op: Op): bytes { if op.HeaderRead? then CRLFCRLF else CRLF }

  /** Which completions the operating system can deliver for an operation. */
  predicate Enabled(s: State, op: Op, e: Event) {
    match e
    case LineArrived(pull, _) =>
      ReadsLine(op) && pull <= |s.unread| && Find(s.buffer + s.unread[..pull], Delimiter(op), 0).Some?
    case BytesArrived(_) => ReadsBytes(op) && op.need <= |s.unread|
    case ReadFailed(pull, error) =>
      && pull <= |s.unread|
      && (ReadsLine(op) || (ReadsBytes(op) && pull < op.need))
      && (error.Eof? ==> pull == |s.unread| && (ReadsLine(op) ==> Find(s.buffer + s.unread, Delimiter(op), 0).None?))
    case WriteEnded(_) => op.WriteOut?
    case JobRan(_, _, _, _) => op.PoolJob?
    case HopRan => op.FinishHop?
  }

  /** The callback of op, run to its end. The entry is already off the list. */
  function Complete(limit: nat, s: State, op: Op, e: Event): State
    requires Enabled(s, op, e)
  {
    match e
    case LineArrived(pull, h) =>
      var s1 := Pull(s, pull);
      var i := Find(s1.buffer, Delimiter(op), 0).value;
      if op.HeaderRead? then OnHeader(limit, s1, i + 4, h)
      else if op.SizeLine? then OnSizeLine(limit, s1, op.req, op.acc, i + 2)
      else OnTrailer(s1, op.req, op.acc, i + 2, h)
    case BytesArrived(h) =>
      var s1 := TakeDirect(s, op.need);
      if op.FixedRest? then Dispatch(s1, op.req.(body := op.got + s.unread[..op.need]), h)
      else if op.ChunkRest? then ReadChunkTrailingCrlf(s1, op.req, op.acc + s.unread[..op.need])
      else ReadChunkedBody(s1, op.req, op.acc)
    case ReadFailed(pull, error) =>
      OnReadFailed(if ReadsLine(op) then Pull(s, pull) else TakeDirect(s, pull), op, error)
    case WriteEnded(ok) => OnWritten(s, op.reply, ok)
    case JobRan(job, flushOk, endOk, sendOk) => OnJob(s, op.resp, job, flushOk, endOk, sendOk)
    case HopRan => FinishRequest(s)
  }

  /** Completing the k-th outstanding operation. */
  function Step(limit: nat, s: State, k: nat, e: Event): State
    requires k < |s.pending| && Enabled(s, s.pending[k].op, e)
  {
    Complete(limit, s.(pending := s.pending[..k] + s.pending[k + 1..]), s.pending[k].op, e)
  }

  /** A connection just accepted, its first read started. */
  function Start(stream: bytes): State {
    Read(State([], false, false, Open, [], [], stream, [], []))
  }

  datatype Turn = Turn(k: nat, event: Event)

  predicate CanRun(limit: nat, s: State, run: seq<Turn>)
    decreases |run|
  {
    run == [] ||
    (run[0].k < |s.pending| && Enabled(s, s.pending[run[0].k].op, run[0].event)
     && CanRun(limit, Step(limit, s, run[0].k, run[0].event), run[1..]))
  }

  function Run(limit: nat, s: State, run: seq<Turn>): State
    requires CanRun(limit, s, run)
    decreases |run|
  {
    if run == [] then s else Run(limit, Step(limit, s, run[0].k, run[0].event), run[1..])
  }
}
