/**
 src/http_response.cpp: the three-mode response writer. ResponseData is the
 value of an HttpResponse object; a Piece is what one successful write put on
 the wire, and a write that fails puts nothing in the log. The functions follow
 the code with assertions compiled out, so what is proved of every sequence of
 calls holds in both kinds of build; the class requires what the code asserts.
 */
module Response {
  import opened Text
  import opened Numbers
  import opened Headers

  datatype Mode = Buffered | Immediate | Stream

  datatype ResponseData = ResponseData(
    status: int, entries: seq<Entry>, body: bytes, mode: Mode, flushed: bool, chunked: bool, attached: bool)

  const FRESH := ResponseData(200, [], [], Buffered, false, false, false)

  /**
   Bytes on the wire: a status line with its header block (and a buffered
   body), with the entries it prints; or payload.
   */
  datatype Piece = Head(data: bytes, entries: seq<Entry>) | Payload(data: bytes)

  /** What a call does: the new state, what reaches the wire, the returned flag. */
  datatype Effect = Effect(r: ResponseData, out: seq<Piece>, ret: bool)

  function ReasonPhrase(code: int): (s: bytes)
    ensures Clean(s)
  {
    if code < 400 then EarlyReason(code)
    else if code < 410 then ClientReason(code)
    else if code < 500 then LateClientReason(code)
    else ServerReason(code)
  }

  function EarlyReason(code: int): (s: bytes)
    ensures Clean(s)
  {
    match code
    case 100 => "Continue"
    case 101 => "Switching Protocols"
    case 200 => "OK"
    case 201 => "Created"
    case 202 => "Accepted"
    case 204 => "No Content"
    case 206 => "Partial Content"
    case 301 => "Moved Permanently"
    case 302 => "Found"
    case 303 => "See Other"
    case 304 => "Not Modified"
    case 307 => "Temporary Redirect"
    case 308 => "Permanent Redirect"
    case _ => ""
  }

  function ClientReason(code: int): (s: bytes)
    ensures Clean(s)
  {
    match code
    case 400 => "Bad Request"
    case 401 => "Unauthorized"
    case 403 => "Forbidden"
    case 404 => "Not Found"
    case 405 => "Method Not Allowed"
    case 408 => "Request Timeout"
    case 409 => "Conflict"
    case _ => ""
  }

  function LateClientReason(code: int): (s: bytes)
    ensures Clean(s)
  {
    match code
    case 410 => "Gone"
    case 411 => "Length Required"
    case 413 => "Payload Too Large"
    case 414 => "URI Too Long"
    case 415 => "Unsupported Media Type"
    case 418 => "I'm a teapot"
    case 429 => "Too Many Requests"
    case _ => ""
  }

  function ServerReason(code: int): (s: bytes)
    ensures Clean(s)
  {
    match code
    case 500 => "Internal Server Error"
    case 501 => "Not Implemented"
    case 502 => "Bad Gateway"
    case 503 => "Service Unavailable"
    case 504 => "Gateway Timeout"
    case 505 => "HTTP Version Not Supported"
    case _ => ""
  }

  /** The phrases, code by code. */
  lemma PhrasesBelow400()
    ensures ReasonPhrase(100) == "Continue" && ReasonPhrase(101) == "Switching Protocols"
    ensures ReasonPhrase(200) == "OK" && ReasonPhrase(201) == "Created" && ReasonPhrase(202) == "Accepted"
    ensures ReasonPhrase(204) == "No Content" && ReasonPhrase(206) == "Partial Content"
    ensures ReasonPhrase(301) == "Moved Permanently" && ReasonPhrase(302) == "Found" && ReasonPhrase(303) == "See Other"
    ensures ReasonPhrase(304) == "Not Modified" && ReasonPhrase(307) == "Temporary Redirect"
    ensures ReasonPhrase(308) == "Permanent Redirect"
  {
    hide ClientReason, LateClientReason, ServerReason;
  }

  lemma PhrasesBelow410()
    ensures ReasonPhrase(400) == "Bad Request" && ReasonPhrase(401) == "Unauthorized" && ReasonPhrase(403) == "Forbidden"
    ensures ReasonPhrase(404) == "Not Found" && ReasonPhrase(405) == "Method Not Allowed"
    ensures ReasonPhrase(408) == "Request Timeout" && ReasonPhrase(409) == "Conflict"
  {
    hide EarlyReason, LateClientReason, ServerReason;
  }

  lemma PhrasesBelow500()
    ensures ReasonPhrase(410) == "Gone" && ReasonPhrase(411) == "Length Required" && ReasonPhrase(413) == "Payload Too Large"
    ensures ReasonPhrase(414) == "URI Too Long" && ReasonPhrase(415) == "Unsupported Media Type"
    ensures ReasonPhrase(418) == "I'm a teapot" && ReasonPhrase(429) == "Too Many Requests"
  {
    hide EarlyReason, ClientReason, ServerReason;
  }

  lemma PhrasesFrom500()
    ensures ReasonPhrase(500) == "Internal Server Error" && ReasonPhrase(501) == "Not Implemented"
    ensures ReasonPhrase(502) == "Bad Gateway" && ReasonPhrase(503) == "Service Unavailable"
    ensures ReasonPhrase(504) == "Gateway Timeout" && ReasonPhrase(505) == "HTTP Version Not Supported"
  {
    hide EarlyReason, ClientReason, LateClientReason;
  }

  const NAMED: seq<int> := [100, 101, 200, 201, 202, 204, 206, 301, 302, 303, 304, 307, 308, 400, 401, 403, 404, 405, 408, 409,
                            410, 411, 413, 414, 415, 418, 429, 500, 501, 502, 503, 504, 505]

  /** Any other code has none. */
  lemma OtherPhrases(code: int)
    requires code !in NAMED
    ensures ReasonPhrase(code) == ""
  {}

  function StatusLine(status: int): (s: bytes)
    ensures Clean(s) && s != [] && ' ' in s
  {
    "HTTP/1.1 " + ToString(status) + " " + ReasonPhrase(status)
  }

  function HeaderLine(e: Entry): bytes { e.name + ": " + e.value }

  /** Each line followed by CRLF. */
  function Lines(lines: seq<bytes>): bytes {
    if lines == [] then [] else lines[0] + CRLF + Lines(lines[1..])
  }

  function HeaderLines(es: seq<Entry>): (r: seq<bytes>)
    ensures |r| == |es|
    ensures forall i :: 0 <= i < |es| ==> r[i] == HeaderLine(es[i])
  {
    if es == [] then [] else [HeaderLine(es[0])] + HeaderLines(es[1..])
  }

  function Block(status: int, es: seq<Entry>): bytes {
    StatusLine(status) + CRLF + Lines(HeaderLines(es)) + CRLF
  }

  /** build_header_block(). */
  function HeaderBlock(r: ResponseData): bytes { Block(r.status, r.entries) }

  /** The entries serialize() prints: Content-Length is added when the handler gave none. */
  function SerializedEntries(r: ResponseData): seq<Entry> {
    if Contains(r.entries, CONTENT_LENGTH) then r.entries
    else r.entries + [Entry(CONTENT_LENGTH, Numeral(|r.body|, 10))]
  }

  /** serialize(). */
  function Serialize(r: ResponseData): bytes {
    Block(r.status, SerializedEntries(r)) + r.body
  }

  /** Header block and body in one piece. */
  function Reply(r: ResponseData): Piece { Head(Serialize(r), SerializedEntries(r)) }

  /** The entries hold a length or an encoding. */
  predicate Framed(es: seq<Entry>) { Contains(es, CONTENT_LENGTH) || Contains(es, TRANSFER_ENCODING) }

  function InsertHeader(r: ResponseData, name: bytes, value: bytes): ResponseData {
    r.(entries := Insert(r.entries, name, value))
  }

  function LeaveBuffered(r: ResponseData): ResponseData {
    if r.mode.Buffered? then r.(mode := Immediate) else r
  }

  /** The first successful payload write carries the header block in front. */
  function Send(r: ResponseData, parts: seq<Piece>, ok: bool): Effect {
    if !r.attached then Effect(r, [], false)
    else if !ok then Effect(r, [], false)
    else if r.flushed then Effect(r, parts, true)
    else Effect(r.(flushed := true), [Head(HeaderBlock(r), r.entries)] + parts, true)
  }

  function Payloads(iov: seq<bytes>): (r: seq<Piece>)
    ensures |r| == |iov| && forall i :: 0 <= i < |iov| ==> r[i] == Payload(iov[i])
  {
    if iov == [] then [] else [Payload(iov[0])] + Payloads(iov[1..])
  }

  function Write(r: ResponseData, data: bytes, ok: bool): Effect {
    var r1 := LeaveBuffered(r);
    if r1.attached && r1.flushed && data == [] then Effect(r1, [], true)
    else Send(r1, if data == [] then [] else [Payload(data)], ok)
  }

  function Writev(r: ResponseData, iov: seq<bytes>, ok: bool): Effect {
    var r1 := LeaveBuffered(r);
    if r1.attached && r1.flushed && iov == [] then Effect(r1, [], true)
    else Send(r1, Payloads(iov), ok)
  }

  function MarkChunked(r: ResponseData): ResponseData {
    if r.flushed || r.chunked then r
    else
      (if Contains(r.entries, TRANSFER_ENCODING) then r
       else InsertHeader(r, TRANSFER_ENCODING, "chunked")).(chunked := true)
  }

  function SizeLine(n: nat): bytes { Numeral(n, 16) + CRLF }

  function ChunkPieces(data: bytes): seq<Piece> {
    [Payload(SizeLine(|data|)), Payload(data), Payload(CRLF)]
  }

  function WriteChunk(r: ResponseData, data: bytes, ok: bool): Effect {
    if data == [] then Effect(r, [], true)
    else Send(LeaveBuffered(MarkChunked(r)), ChunkPieces(data), ok)
  }

  const TERMINATOR: bytes := "0\r\n\r\n"

  function FlushHeaders(r: ResponseData, ok: bool): Effect {
    if r.flushed then Effect(r, [], true) else Send(r, [], ok)
  }

  function EndChunks(r: ResponseData, flushOk: bool, ok: bool): Effect {
    if !r.chunked then Effect(r, [], true)
    else if !r.attached then Effect(r, [], false)
    else
      var f := FlushHeaders(r, flushOk);
      if !f.ret then f
      else Effect(f.r, f.out + if ok then [Payload(TERMINATOR)] else [], ok)
  }

  // ── sequences of calls ─────────────────────────────────────────────

  /** A call a handler or stream function can make, with the outcome of the socket writes it causes. */
  datatype Call =
    | SetStatus(code: int)
    | SetHeader(name: bytes, value: bytes)
    | SetBody(body: bytes)
    | StartStream
    | DoWrite(data: bytes, ok: bool)
    | DoWritev(iov: seq<bytes>, ok: bool)
    | DoWriteChunk(data: bytes, ok: bool)
    | DoEndChunks(flushOk: bool, ok: bool)

  function Apply(r: ResponseData, c: Call): Effect {
    match c
    case SetStatus(code) => Effect(r.(status := code), [], true)
    case SetHeader(name, value) => Effect(InsertHeader(r, name, value), [], true)
    case SetBody(body) => Effect(r.(body := body), [], true)
    case StartStream => Effect(r.(mode := Stream), [], true)
    case DoWrite(data, ok) => Write(r, data, ok)
    case DoWritev(iov, ok) => Writev(r, iov, ok)
    case DoWriteChunk(data, ok) => WriteChunk(r, data, ok)
    case DoEndChunks(flushOk, ok) => EndChunks(r, flushOk, ok)
  }

  /** The assertions of the code, which a caller must respect. */
  predicate Permitted(r: ResponseData, c: Call) {
    match c
    case SetBody(_) => r.mode.Buffered?
    case StartStream => r.mode.Buffered? && r.body == [] && !r.flushed
    case DoWrite(_, _) => !(r.mode.Buffered? && r.body != [])
    case DoWritev(_, _) => !(r.mode.Buffered? && r.body != [])
    case _ => true
  }

  function Play(r: ResponseData, calls: seq<Call>): Effect
    decreases |calls|
  {
    if calls == [] then Effect(r, [], true)
    else
      var e := Apply(r, calls[0]);
      var rest := Play(e.r, calls[1..]);
      Effect(rest.r, e.out + rest.out, rest.ret)
  }

  predicate AllPermitted(r: ResponseData, calls: seq<Call>)
    decreases |calls|
  {
    calls == [] || (Permitted(r, calls[0]) && AllPermitted(Apply(r, calls[0]).r, calls[1..]))
  }

  // ── at most one header block ───────────────────────────────────────

  predicate ModeInvariant(r: ResponseData) {
    && (r.flushed || r.chunked ==> !r.mode.Buffered?)
    && (r.chunked ==> Contains(r.entries, TRANSFER_ENCODING))
    && NoCaseTwins(r.entries)
  }

  function Heads(out: seq<Piece>): nat {
    if out == [] then 0 else (if out[0].Head? then 1 else 0) + Heads(out[1..])
  }

  lemma {:induction false} HeadsAppend(a: seq<Piece>, b: seq<Piece>)
    ensures Heads(a + b) == Heads(a) + Heads(b)
  {
    if a == [] {
      assert a + b == b;
    } else {
      assert (a + b)[1..] == a[1..] + b;
      HeadsAppend(a[1..], b);
    }
  }

  lemma {:induction false} PayloadsHaveNoHead(out: seq<Piece>)
    requires forall p :: p in out ==> p.Payload?
    ensures Heads(out) == 0
  {
    if out != [] {
      assert out[0] in out && forall p :: p in out[1..] ==> p in out;
      PayloadsHaveNoHead(out[1..]);
    }
  }

  predicate OneHeadStep(r: ResponseData, e: Effect) {
    && (r.flushed ==> e.r.flushed)
    && (e.r.attached == r.attached)
    && Heads(e.out) == (if e.r.flushed && !r.flushed then 1 else 0)
    && (Heads(e.out) > 0 ==> e.out[0].Head?)
    && (e.out != [] ==> e.r.flushed)
  }

  lemma SendSendsOneHead(r: ResponseData, parts: seq<Piece>, ok: bool)
    requires forall p :: p in parts ==> p.Payload?
    ensures OneHeadStep(r, Send(r, parts, ok))
  {
    PayloadsHaveNoHead(parts);
    HeadsAppend([Head(HeaderBlock(r), r.entries)], parts);
  }

  lemma ChunkSendsOneHead(r: ResponseData, data: bytes, ok: bool)
    requires ModeInvariant(r)
    ensures ModeInvariant(WriteChunk(r, data, ok).r)
    ensures OneHeadStep(r, WriteChunk(r, data, ok))
  {
    GetAfterInsert(r.entries, TRANSFER_ENCODING, "chunked", TRANSFER_ENCODING);
    SendSendsOneHead(LeaveBuffered(MarkChunked(r)), ChunkPieces(data), ok);
  }

  lemma EndSendsOneHead(r: ResponseData, flushOk: bool, ok: bool)
    requires ModeInvariant(r)
    ensures ModeInvariant(EndChunks(r, flushOk, ok).r)
    ensures OneHeadStep(r, EndChunks(r, flushOk, ok))
  {
    SendSendsOneHead(r, [], flushOk);
    assert Heads([Payload(TERMINATOR)]) == 0;
    HeadsAppend(FlushHeaders(r, flushOk).out, [Payload(TERMINATOR)]);
  }

  lemma CallSendsOneHead(r: ResponseData, c: Call)
    requires ModeInvariant(r)
    ensures ModeInvariant(Apply(r, c).r)
    ensures OneHeadStep(r, Apply(r, c))
  {
    match c
    case SetHeader(name, value) => GetAfterInsert(r.entries, name, value, TRANSFER_ENCODING);
    case DoWrite(data, ok) =>
      SendSendsOneHead(LeaveBuffered(r), if data == [] then [] else [Payload(data)], ok);
    case DoWritev(iov, ok) =>
      SendSendsOneHead(LeaveBuffered(r), Payloads(iov), ok);
    case DoWriteChunk(data, ok) => ChunkSendsOneHead(r, data, ok);
    case DoEndChunks(flushOk, ok) => EndSendsOneHead(r, flushOk, ok);
    case _ =>
  }

  /**
   Whatever calls are made, in whatever order, whichever writes fail: one
   header block goes out, in front of everything else, when the first write
   succeeds, and none after that; a response that has sent or announced chunks
   never looks Buffered.
   */
  lemma {:induction false} PlaySendsOneHead(r: ResponseData, calls: seq<Call>)
    requires ModeInvariant(r)
    ensures ModeInvariant(Play(r, calls).r)
    ensures OneHeadStep(r, Play(r, calls))
    decreases |calls|
  {
    if calls != [] {
      var e := Apply(r, calls[0]);
      CallSendsOneHead(r, calls[0]);
      PlaySendsOneHead(e.r, calls[1..]);
      HeadsAppend(e.out, Play(e.r, calls[1..]).out);
    }
  }

  // ── the status a client reads ──────────────────────────────────────

  /** The response begins with the version, the code in decimal, the phrase, and a line end. */
  ghost predicate SaysStatus(wire: bytes, code: nat, phrase: bytes) {
    exists digits: bytes, tail: bytes ::
      StatusText(digits, phrase, tail) == wire && digits != [] && AllDigits(digits, 10) && Value(digits, 10) == code
  }

  function StatusText(digits: bytes, phrase: bytes, tail: bytes): bytes {
    "HTTP/1.1 " + (digits + (" " + (phrase + ("\r\n" + tail))))
  }

  /** A printed block says its status, and so does whatever begins with it. */
  lemma BlockSaysStatus(code: nat, es: seq<Entry>, more: bytes)
    ensures SaysStatus(Block(code, es) + more, code, ReasonPhrase(code))
  {
    hide ReasonPhrase, Lines, HeaderLines, Value;
    var digits, phrase, tail := Numeral(code, 10), ReasonPhrase(code), Lines(HeaderLines(es)) + CRLF + more;
    NumeralValue(code, 10);
    assert Block(code, es) + more == StatusText(digits, phrase, tail);
  }

  lemma ResponseSaysStatus(r: ResponseData)
    requires r.status >= 0
    ensures SaysStatus(HeaderBlock(r), r.status, ReasonPhrase(r.status))
    ensures SaysStatus(Serialize(r), r.status, ReasonPhrase(r.status))
  {
    hide Block, SaysStatus, ReasonPhrase, SerializedEntries;
    BlockSaysStatus(r.status, r.entries, []);
    assert HeaderBlock(r) + [] == HeaderBlock(r);
    BlockSaysStatus(r.status, SerializedEntries(r), r.body);
  }

  /** The status the calls leave: the last one set. */
  function StatusAfter(calls: seq<Call>, code: int): int {
    if calls == [] then code
    else if calls[|calls| - 1].SetStatus? then calls[|calls| - 1].code
    else StatusAfter(calls[..|calls| - 1], code)
  }

  lemma {:induction false} StatusAfterFirst(calls: seq<Call>, code: int)
    requires calls != []
    ensures StatusAfter(calls, code) == StatusAfter(calls[1..], if calls[0].SetStatus? then calls[0].code else code)
    decreases |calls|
  {
    if |calls| == 1 {
      assert calls[..0] == [];
    } else {
      var init := calls[..|calls| - 1];
      StatusAfterFirst(init, code);
      assert calls[1..][..|calls| - 2] == init[1..];
    }
  }

  lemma CallStatus(r: ResponseData, c: Call)
    ensures Apply(r, c).r.status == if c.SetStatus? then c.code else r.status
  {
    hide Block, ChunkPieces, Insert;
  }

  lemma {:induction false} PlayStatus(r: ResponseData, calls: seq<Call>)
    ensures Play(r, calls).r.status == StatusAfter(calls, r.status)
    decreases |calls|
  {
    if calls != [] {
      hide Apply;
      CallStatus(r, calls[0]);
      PlayStatus(Apply(r, calls[0]).r, calls[1..]);
      StatusAfterFirst(calls, r.status);
    }
  }

  /** The piece's bytes are a header block that prints its entries, and perhaps a body. */
  ghost predicate Printed(p: Piece) {
    p.Head? ==> exists code: int, rest: bytes :: p.data == Block(code, p.entries) + rest
  }

  ghost predicate AllPrinted(out: seq<Piece>) { forall i :: 0 <= i < |out| ==> Printed(out[i]) }

  lemma BlockIsPrinted(r: ResponseData)
    ensures Printed(Head(HeaderBlock(r), r.entries)) && Printed(Reply(r))
  {
    hide Block, SerializedEntries;
    assert HeaderBlock(r) == Block(r.status, r.entries) + [];
  }

  lemma SendPrints(r: ResponseData, parts: seq<Piece>, ok: bool)
    requires forall p :: p in parts ==> p.Payload?
    ensures AllPrinted(Send(r, parts, ok).out)
  {
    hide HeaderBlock, Reply, Printed;
    BlockIsPrinted(r);
    forall p | p in parts
      ensures Printed(p)
    {
      PayloadIsPrinted(p);
    }
  }

  lemma PayloadIsPrinted(p: Piece)
    requires p.Payload?
    ensures Printed(p)
  {}

  lemma EndPrints(r: ResponseData, flushOk: bool, ok: bool)
    ensures AllPrinted(EndChunks(r, flushOk, ok).out)
  {
    hide Send;
    SendPrints(r, [], flushOk);
  }

  lemma CallPrints(r: ResponseData, c: Call)
    ensures AllPrinted(Apply(r, c).out)
  {
    hide Send, Printed;
    match c
    case DoWrite(data, ok) => SendPrints(LeaveBuffered(r), if data == [] then [] else [Payload(data)], ok);
    case DoWritev(iov, ok) => SendPrints(LeaveBuffered(r), Payloads(iov), ok);
    case DoWriteChunk(data, ok) => SendPrints(LeaveBuffered(MarkChunked(r)), ChunkPieces(data), ok);
    case DoEndChunks(flushOk, ok) => EndPrints(r, flushOk, ok);
    case _ =>
  }

  /** Whatever is called, a header block on the wire prints the entries it is said to print. */
  lemma {:induction false} PlayPrints(r: ResponseData, calls: seq<Call>)
    ensures AllPrinted(Play(r, calls).out)
    decreases |calls|
  {
    if calls != [] {
      hide Apply, Printed;
      CallPrints(r, calls[0]);
      PlayPrints(Apply(r, calls[0]).r, calls[1..]);
    }
  }

  // ── which call sends the header block, and what it says ───────────

  predicate IsChunk(c: Call) { c.DoWriteChunk? && c.data != [] }

  /** The call is a write that succeeds; chunked says whether end_chunks has anything to end. */
  predicate Sends(chunked: bool, c: Call) {
    match c
    case DoWrite(_, ok) => ok
    case DoWritev(_, ok) => ok
    case DoWriteChunk(data, ok) => data != [] && ok
    case DoEndChunks(flushOk, _) => chunked && flushOk
    case _ => false
  }

  /** The position of the first such call, or the number of calls when none succeeds. */
  function FirstSend(chunked: bool, calls: seq<Call>): (k: nat)
    ensures k <= |calls|
    decreases |calls|
  {
    if calls == [] || Sends(chunked, calls[0]) then 0
    else 1 + FirstSend(chunked || IsChunk(calls[0]), calls[1..])
  }

  predicate SomeSends(chunked: bool, calls: seq<Call>) { FirstSend(chunked, calls) < |calls| }

  predicate SomeChunk(calls: seq<Call>) { exists j :: 0 <= j < |calls| && IsChunk(calls[j]) }

  predicate Streams(calls: seq<Call>) { exists j :: 0 <= j < |calls| && calls[j].StartStream? }

  /** The handler writes its response itself. */
  predicate Writes(calls: seq<Call>) {
    exists j :: 0 <= j < |calls| && (calls[j].DoWrite? || calls[j].DoWritev? || IsChunk(calls[j]))
  }

  /** The call sets Content-Length or Transfer-Encoding. */
  predicate SetsFraming(c: Call) {
    c.SetHeader? && (CiEqual(c.name, CONTENT_LENGTH) || CiEqual(c.name, TRANSFER_ENCODING))
  }

  /** The same, or a chunk, which brings its own Transfer-Encoding. */
  predicate Frames(c: Call) { SetsFraming(c) || IsChunk(c) }

  /** One of the first n calls frames the response. */
  predicate FramedBy(calls: seq<Call>, n: nat) { exists j :: 0 <= j < n && j < |calls| && Frames(calls[j]) }

  /** One of the calls after the k-th sets a framing header. */
  predicate FramedAfter(calls: seq<Call>, k: nat) { exists j :: k < j < |calls| && SetsFraming(calls[j]) }

  lemma FramedByTail(calls: seq<Call>, n: nat)
    requires calls != [] && n > 0
    ensures FramedBy(calls, n) <==> Frames(calls[0]) || FramedBy(calls[1..], n - 1)
    ensures !FramedBy(calls, 0)
  {
    if FramedBy(calls[1..], n - 1) {
      var j :| 0 <= j < n - 1 && j < |calls[1..]| && Frames(calls[1..][j]);
      assert Frames(calls[j + 1]);
    }
    if j :| 0 < j < n && j < |calls| && Frames(calls[j]) {
      assert Frames(calls[1..][j - 1]);
    }
  }

  lemma FramedAfterTail(calls: seq<Call>, k: nat)
    requires calls != [] && k > 0
    ensures FramedAfter(calls, k) <==> FramedAfter(calls[1..], k - 1)
  {
    if FramedAfter(calls[1..], k - 1) {
      var j :| k - 1 < j < |calls[1..]| && SetsFraming(calls[1..][j]);
      assert SetsFraming(calls[j + 1]);
    }
    if j :| k < j < |calls| && SetsFraming(calls[j]) {
      assert SetsFraming(calls[1..][j - 1]);
    }
  }

  lemma FramedAfterFirst(calls: seq<Call>)
    requires calls != []
    ensures FramedAfter(calls, 0) <==> exists j :: 0 <= j < |calls[1..]| && SetsFraming(calls[1..][j])
  {
    if j :| 0 < j < |calls| && SetsFraming(calls[j]) {
      assert SetsFraming(calls[1..][j - 1]);
    }
    if j :| 0 <= j < |calls[1..]| && SetsFraming(calls[1..][j]) {
      assert SetsFraming(calls[j + 1]);
    }
  }

  lemma SomeChunkTail(calls: seq<Call>)
    requires calls != []
    ensures SomeChunk(calls) <==> IsChunk(calls[0]) || SomeChunk(calls[1..])
  {
    if SomeChunk(calls[1..]) {
      var j :| 0 <= j < |calls[1..]| && IsChunk(calls[1..][j]);
      assert IsChunk(calls[j + 1]);
    }
    if j :| 0 < j < |calls| && IsChunk(calls[j]) {
      assert IsChunk(calls[1..][j - 1]);
    }
  }

  lemma FramedAfterInsert(r: ResponseData, name: bytes, value: bytes)
    ensures Framed(InsertHeader(r, name, value).entries) <==>
            CiEqual(name, CONTENT_LENGTH) || CiEqual(name, TRANSFER_ENCODING) || Framed(r.entries)
  {
    GetAfterInsert(r.entries, name, value, CONTENT_LENGTH);
    GetAfterInsert(r.entries, name, value, TRANSFER_ENCODING);
  }

  /** One call while the header block is still to be sent. */
  lemma CallAnnounces(r: ResponseData, c: Call)
    requires ModeInvariant(r) && r.attached && !r.flushed
    ensures var e := Apply(r, c);
            && ModeInvariant(e.r) && e.r.attached
            && (e.r.flushed <==> Sends(r.chunked, c))
            && (Framed(e.r.entries) <==> Framed(r.entries) || Frames(c))
            && (if e.r.flushed then e.out != [] && e.out[0] == Head(HeaderBlock(e.r), e.r.entries)
                else e.out == [] && (e.r.chunked <==> r.chunked || IsChunk(c)))
  {
    hide Block, Framed, Insert, ModeInvariant, Payloads, ChunkPieces;
    CallSendsOneHead(r, c);
    match c
    case SetHeader(name, value) => FramedAfterInsert(r, name, value);
    case DoWriteChunk(data, ok) => if data != [] { ChunkAnnounces(r, data, ok); }
    case DoEndChunks(flushOk, ok) => EndAnnounces(r, flushOk, ok);
    case _ =>
  }

  lemma ChunkAnnounces(r: ResponseData, data: bytes, ok: bool)
    requires ModeInvariant(r) && r.attached && !r.flushed && data != []
    ensures var e := WriteChunk(r, data, ok);
            && Framed(e.r.entries) && e.r.chunked && e.r.flushed == ok
            && (if ok then e.out != [] && e.out[0] == Head(HeaderBlock(e.r), e.r.entries) else e.out == [])
  {
    hide Block;
    FramedAfterInsert(r, TRANSFER_ENCODING, "chunked");
  }

  lemma EndAnnounces(r: ResponseData, flushOk: bool, ok: bool)
    requires r.attached && !r.flushed
    ensures var e := EndChunks(r, flushOk, ok);
            && e.r.entries == r.entries && e.r.chunked == r.chunked && e.r.flushed == (r.chunked && flushOk)
            && (if e.r.flushed then e.out != [] && e.out[0] == Head(HeaderBlock(e.r), e.r.entries) else e.out == [])
  {
    hide Block;
  }

  /** And one call after it has been sent. */
  lemma CallAfterHead(r: ResponseData, c: Call)
    requires ModeInvariant(r) && r.flushed
    ensures Framed(Apply(r, c).r.entries) <==> Framed(r.entries) || SetsFraming(c)
    ensures ModeInvariant(Apply(r, c).r) && Apply(r, c).r.flushed
  {
    CallSendsOneHead(r, c);
    match c
    case SetHeader(name, value) => FramedAfterInsert(r, name, value);
    case _ =>
  }

  lemma {:induction false} PlayAfterHead(r: ResponseData, calls: seq<Call>)
    requires ModeInvariant(r) && r.flushed
    ensures Framed(Play(r, calls).r.entries) <==>
            Framed(r.entries) || exists j :: 0 <= j < |calls| && SetsFraming(calls[j])
    decreases |calls|
  {
    if calls != [] {
      hide Apply, ModeInvariant, Framed;
      CallAfterHead(r, calls[0]);
      PlayAfterHead(Apply(r, calls[0]).r, calls[1..]);
      assert [calls[0]] + calls[1..] == calls;
      FramedAfterFirst(calls);
    }
  }

  /** What a run of calls has done to a response whose header block was still to be sent. */
  predicate Announces(r: ResponseData, calls: seq<Call>, e: Effect) {
    var k := FirstSend(r.chunked, calls);
    && (e.r.flushed <==> k < |calls|)
    && (Framed(e.r.entries) <==> Framed(r.entries) || FramedBy(calls, k + 1) || FramedAfter(calls, k))
    && (if e.r.flushed
        then e.out != [] && e.out[0].Head? && (Framed(e.out[0].entries) <==> Framed(r.entries) || FramedBy(calls, k + 1))
        else e.out == [] && (e.r.chunked <==> r.chunked || SomeChunk(calls)))
  }

  /**
   Read off the calls: the header block goes out with the first successful
   write; it announces a framing exactly when the response had one to begin
   with, or one of the calls up to that write gave it one; headers set later
   are in the entries, not in the block.
   */
  lemma {:induction false} PlayAnnounces(r: ResponseData, calls: seq<Call>)
    requires ModeInvariant(r) && r.attached && !r.flushed
    ensures Announces(r, calls, Play(r, calls))
    decreases |calls|
  {
    if calls != [] {
      hide Apply, ModeInvariant, Framed, Frames, IsChunk, SetsFraming;
      var e, k := Apply(r, calls[0]), FirstSend(r.chunked, calls);
      CallAnnounces(r, calls[0]);
      FramedByTail(calls, k + 1);
      SomeChunkTail(calls);
      if e.r.flushed {
        PlayAfterHead(e.r, calls[1..]);
        PlaySendsOneHead(e.r, calls[1..]);
        FramedAfterFirst(calls);
        FramedByNone(calls[1..]);
      } else {
        PlayAnnounces(e.r, calls[1..]);
        FramedAfterTail(calls, k);
        assert [] + Play(e.r, calls[1..]).out == Play(e.r, calls[1..]).out;
      }
    }
  }

  /** The header block that goes out says the status set by then. */
  lemma {:induction false} HeadSaysStatus(r: ResponseData, calls: seq<Call>)
    requires ModeInvariant(r) && r.attached && !r.flushed && SomeSends(r.chunked, calls)
    requires StatusAfter(calls[..FirstSend(r.chunked, calls)], r.status) >= 0
    ensures var code, out := StatusAfter(calls[..FirstSend(r.chunked, calls)], r.status), Play(r, calls).out;
            out != [] && out[0].Head? && SaysStatus(out[0].data, code, ReasonPhrase(code))
    decreases |calls|
  {
    hide Apply, ModeInvariant, Framed, Frames, SaysStatus, ReasonPhrase, HeaderBlock;
    var e, k := Apply(r, calls[0]), FirstSend(r.chunked, calls);
    CallAnnounces(r, calls[0]);
    CallStatus(r, calls[0]);
    if e.r.flushed {
      assert calls[..0] == [];
      ResponseSaysStatus(e.r);
    } else {
      StatusAfterFirst(calls[..k], r.status);
      assert calls[..k][1..] == calls[1..][..k - 1];
      HeadSaysStatus(e.r, calls[1..]);
      assert [] + Play(e.r, calls[1..]).out == Play(e.r, calls[1..]).out;
    }
  }

  lemma FramedByNone(calls: seq<Call>)
    ensures !FramedBy(calls, 0)
  {}

  /** The mode the calls lead to, in whatever order they come. */
  lemma {:induction false} PlayMode(r: ResponseData, calls: seq<Call>)
    ensures Play(r, calls).r.mode ==
            if r.mode.Stream? || Streams(calls) then Stream
            else if r.mode.Immediate? || Writes(calls) then Immediate else Buffered
    decreases |calls|
  {
    if calls != [] {
      PlayMode(Apply(r, calls[0]).r, calls[1..]);
      assert calls == [calls[0]] + calls[1..];
      ModeTail(calls);
      CallMode(r, calls[0]);
    }
  }

  lemma CallMode(r: ResponseData, c: Call)
    ensures Apply(r, c).r.mode ==
            if r.mode.Stream? || c.StartStream? then Stream
            else if r.mode.Immediate? || c.DoWrite? || c.DoWritev? || IsChunk(c) then Immediate else Buffered
  {
    hide HeaderBlock, ChunkPieces;
  }

  lemma ModeTail(calls: seq<Call>)
    requires calls != []
    ensures Streams(calls) <==> calls[0].StartStream? || Streams(calls[1..])
    ensures Writes(calls) <==> calls[0].DoWrite? || calls[0].DoWritev? || IsChunk(calls[0]) || Writes(calls[1..])
  {
    var t := calls[1..];
    assert forall j :: 0 < j < |calls| ==> calls[j] == t[j - 1];
    assert forall j :: 0 <= j < |t| ==> t[j] == calls[j + 1];
  }

  lemma {:induction false} LinesAppend(a: seq<bytes>, b: seq<bytes>)
    ensures Lines(a + b) == Lines(a) + Lines(b)
  {
    if a == [] {
      assert a + b == b;
    } else {
      assert (a + b)[1..] == a[1..] + b;
      LinesAppend(a[1..], b);
      Assoc(a[0] + CRLF, Lines(a[1..]), Lines(b));
    }
  }

  lemma LinesSnoc(a: seq<bytes>, line: bytes)
    ensures Lines(a + [line]) == Lines(a) + (line + CRLF)
  {
    LinesAppend(a, [line]);
    assert Lines([line]) == line + CRLF;
  }

  lemma {:induction false} HeaderLinesSnoc(es: seq<Entry>, e: Entry)
    ensures HeaderLines(es + [e]) == HeaderLines(es) + [HeaderLine(e)]
  {
    if es != [] {
      assert (es + [e])[1..] == es[1..] + [e];
      HeaderLinesSnoc(es[1..], e);
    }
  }

  /** The header loop's step. */
  lemma LinesTake(es: seq<Entry>, k: nat)
    requires k < |es|
    ensures Lines(HeaderLines(es)[..k + 1]) == Lines(HeaderLines(es)[..k]) + (HeaderLine(es[k]) + CRLF)
  {
    TakeSnoc(HeaderLines(es), k);
    LinesSnoc(HeaderLines(es)[..k], HeaderLine(es[k]));
  }
}
