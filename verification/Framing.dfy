/**
 What a whole byte stream means: the requests in it, read with all bytes at
 hand and no buffer. This is the reference the connection is compared with.
 Framing is RFC 7230, sections 3.3.3 (length), 4.1 (chunks) and 6.3.2
 (pipelining), with the choices src/connection.cpp makes.
 */
module Framing {
  import opened Text
  import opened Numbers
  import opened Headers
  import opened Request

  /** Reading one body: its bytes and what follows, or why there is none. */
  datatype Outcome =
    | Done(body: bytes, rest: bytes)
    | TooLarge     // over the limit: 413
    | Malformed    // unreadable chunk size: close
    | Truncated    // the stream ends first: close
    | Overlong     // more than a string can hold: reserve() or resize() throws
    | Wrapped      // the accumulated size passes 2^64

  /** std::string::max_size() of libstdc++; nothing below uses more than that it is below 2^64. */
  const MAX_STRING: nat := 0x3FFF_FFFF_FFFF_FFFF

  /** A chunk-size line: extensions and surrounding spaces dropped, then std::stoul in base 16. */
  function ChunkSize(line: bytes): (r: Option<nat>)
    ensures r.Some? ==> r.value < SIZE_RANGE
  {
    Stoul16(TrimLeft(TrimRight(Before(line, ";"))))
  }

  /** The limit test on a chunk, in 64-bit arithmetic; limit 0 is no limit. */
  predicate Exceeds(limit: nat, have: nat, more: nat) {
    limit != 0 && (have + more) % SIZE_RANGE > limit
  }

  lemma ExceedsWithoutWrap(limit: nat, have: nat, more: nat)
    requires have + more < SIZE_RANGE
    ensures Exceeds(limit, have, more) <==> limit != 0 && have + more > limit
  {}

  function ParseTrailers(acc: bytes, s: bytes): (r: Outcome)
    ensures r.Done? ==> |r.rest| <= |s| && r.body == acc
    decreases |s|
  {
    match Find(s, CRLF, 0)
    case None => Truncated
    case Some(i) => if i == 0 then Done(acc, s[2..]) else ParseTrailers(acc, s[i + 2..])
  }

  function ParseChunks(limit: nat, acc: bytes, s: bytes): (r: Outcome)
    ensures r.Done? ==> |r.rest| <= |s|
    decreases |s|
  {
    match Find(s, CRLF, 0)
    case None => Truncated
    case Some(i) =>
      match ChunkSize(s[..i])
      case None => Malformed
      case Some(n) => AfterSize(limit, acc, n, s[i + 2..])
  }

  /** What a chunk size n leads to, with s the bytes after its line. */
  function AfterSize(limit: nat, acc: bytes, n: nat, s: bytes): (r: Outcome)
    ensures r.Done? ==> |r.rest| <= |s|
    decreases |s|, 1
  {
    if Exceeds(limit, |acc|, n) then TooLarge
    else if |acc| + n >= SIZE_RANGE then Wrapped
    else if n == 0 then ParseTrailers(acc, s)
    else AfterData(limit, acc, n, s)
  }

  /** n bytes of data and the two bytes that end the chunk, whatever they are. */
  function AfterData(limit: nat, acc: bytes, n: nat, s: bytes): (r: Outcome)
    ensures r.Done? ==> |r.rest| <= |s|
    decreases |s|, 0
  {
    if |acc| + n > MAX_STRING then Overlong
    else if |s| < n + 2 then Truncated
    else ParseChunks(limit, acc + s[..n], s[n + 2..])
  }

  predicate IsChunked(req: RequestData) {
    Find(Lower(req.Header(TRANSFER_ENCODING)), "chunked", 0).Some?
  }

  predicate SpelledAt(s: bytes, w: bytes, i: int) { 0 <= i && i + |w| <= |s| && SameSpelling(s[i..i + |w|], w) }

  /** Chunked is a transfer encoding with that word in it, in any case. */
  lemma ChunkedByCode(req: RequestData)
    ensures var v := req.Header("Transfer-Encoding");
            IsChunked(req) <==> exists i :: SpelledAt(v, "chunked", i)
  {
    hide Find, Lower;
    var v, w := req.Header("Transfer-Encoding"), "chunked";
    forall i: int
      ensures OccursAt(Lower(v), w, i) <==> SpelledAt(v, w, i)
    {
      WordOccurs(v, w, i);
    }
    FindFirst(Lower(v), w, 0);
    if i :| SpelledAt(v, w, i) { assert OccursAt(Lower(v), w, i); }
  }

  lemma WordOccurs(v: bytes, w: bytes, i: int)
    requires Lower(w) == w
    ensures OccursAt(Lower(v), w, i) <==> SpelledAt(v, w, i)
  {
    if 0 <= i && i + |w| <= |v| {
      SpellingsFold(v[i..i + |w|], w);
      OccursIsSlice(Lower(v), w, i);
      assert Lower(v)[i..i + |w|] == Lower(v[i..i + |w|]);
    }
  }

  /** Anything behind a semicolon, or nothing. */
  function Extension(ext: Option<bytes>): bytes {
    match ext case None => [] case Some(e) => ";" + e
  }

  /** A size line: blanks around the digits and any extension are dropped, and the digits count in base 16. */
  lemma ChunkSizeReads(b1: bytes, digits: bytes, b2: bytes, ext: Option<bytes>)
    requires AllSpaces(b1) && AllSpaces(b2) && digits != [] && AllDigits(digits, 16)
    ensures ChunkSize(b1 + digits + b2 + Extension(ext)) ==
            if Value(digits, 16) < SIZE_RANGE then Some(Value(digits, 16)) else None
  {
    hide Value, Stoul16, Find, TrimLeft, TrimRight, Before;
    DigitsHaveNoSemicolon(digits);
    BlanksHaveNoSemicolon(b1);
    BlanksHaveNoSemicolon(b2);
    BeforeExtension(b1 + digits + b2, ext);
    assert DigitValue(digits[0], 16).Some? && DigitValue(digits[|digits| - 1], 16).Some?;
    assert (b1 + digits)[|b1 + digits| - 1] == digits[|digits| - 1];
    TrimsBlanksBehind(b1 + digits, b2);
    TrimsBlanks(b1, digits);
    StoulReads([], "", "", digits, []);
    assert [] + ("" + ("" + (digits + []))) == digits;
  }

  /** A line whose first byte that counts is neither a digit nor a sign has no size. */
  lemma ChunkSizeRejects(b1: bytes, junk: bytes, ext: Option<bytes>)
    requires AllSpaces(b1) && ';' !in junk && Trimmed(junk)
    requires junk == [] || (DigitValue(junk[0], 16).None? && junk[0] != '+' && junk[0] != '-')
    ensures ChunkSize(b1 + junk + Extension(ext)) == None
  {
    hide Stoul16, Find, TrimLeft, TrimRight, Before;
    BlanksHaveNoSemicolon(b1);
    BeforeExtension(b1 + junk, ext);
    if junk == [] {
      TrimsBlanksBehind([], b1);
      assert b1 + junk == [] + b1;
      TrimsBlanks([], []);
    } else {
      assert (b1 + junk)[|b1 + junk| - 1] == junk[|junk| - 1];
      TrimsBlanksBehind(b1 + junk, []);
      assert b1 + junk + [] == b1 + junk;
      TrimsBlanks(b1, junk);
    }
    StoulRejects([], junk);
    assert [] + junk == junk;
  }

  lemma BeforeExtension(s: bytes, ext: Option<bytes>)
    requires ';' !in s
    ensures Before(s + Extension(ext), ";") == s
  {
    match ext
    case None =>
      assert s + [] == s;
      FindNoByte(s, ';');
    case Some(e) =>
      var t := s + (";" + e);
      assert t[..|s|] == s && t[|s|] == ';';
      FindByte(t, ';', |s|);
  }

  lemma DigitsHaveNoSemicolon(s: bytes)
    requires AllDigits(s, 16)
    ensures ';' !in s
  {
    assert DigitValue(';', 16).None?;
  }

  lemma BlanksHaveNoSemicolon(s: bytes)
    requires AllSpaces(s)
    ensures ';' !in s
  {
    assert !IsSpace(';');
  }

  function ParseBody(limit: nat, req: RequestData, s: bytes): (r: Outcome)
    ensures r.Done? ==> |r.rest| <= |s|
  {
    if IsChunked(req) then ParseChunks(limit, [], s)
    else
      var n := req.ContentLength();
      if limit != 0 && n > limit then TooLarge
      else if n > MAX_STRING then Overlong
      else if |s| < n then Truncated
      else Done(s[..n], s[n..])
  }

  /** dispatch() keeps the connection for any Connection value but "close" and none. */
  predicate KeepsAlive(req: RequestData) {
    req.Header(CONNECTION) != [] && req.Header(CONNECTION) != "close"
  }

  /** The request asks, by the word or by saying nothing, for the connection to be closed. */
  predicate AsksToClose(req: RequestData) { req.Header("Connection") == "" || req.Header("Connection") == "close" }

  lemma KeepsAliveUnlessAsked(req: RequestData)
    ensures KeepsAlive(req) <==> !AsksToClose(req)
  {}

  /**
   What a server does with a request: hand it over, the bytes of the stream
   behind it being the rest; refuse it; let an exception leave its callback; or
   read past a string resized to a wrapped size.
   */
  datatype Action = Dispatched(req: RequestData, rest: bytes) | Rejected | Escaped | Overran

  /** The callback did not come to its end. */
  predicate Broken(a: Action) { a.Escaped? || a.Overran? }

  /** Everything the server should do for stream s: the requests in order, up to the first that ends the connection. */
  function ParseAll(limit: nat, s: bytes): seq<Action>
    decreases |s|
  {
    match Find(s, CRLFCRLF, 0)
    case None => []
    case Some(i) =>
      match WithHeader(EMPTY_REQUEST, s[..i + 4])
      case None => []
      case Some(req) =>
        match ParseBody(limit, req, s[i + 4..])
        case Done(body, rest) =>
          [Dispatched(req.(body := body), rest)] + if KeepsAlive(req) then ParseAll(limit, rest) else []
        case TooLarge => [Rejected]
        case Overlong => [Escaped]
        case Wrapped => [Overran]
        case _ => []
  }

  /** The same, from the point where the outcome of a body is known. */
  function Continue(limit: nat, req: RequestData, b: Outcome): seq<Action> {
    match b
    case Done(body, rest) =>
      [Dispatched(req.(body := body), rest)] + if KeepsAlive(req) then ParseAll(limit, rest) else []
    case TooLarge => [Rejected]
    case Overlong => [Escaped]
    case Wrapped => [Overran]
    case _ => []
  }

  /** The first request of a stream decides how it is read. */
  lemma ParseAllStep(limit: nat, s: bytes, i: nat)
    requires Find(s, CRLFCRLF, 0) == Some(i) && WithHeader(EMPTY_REQUEST, s[..i + 4]).Some?
    ensures var req := WithHeader(EMPTY_REQUEST, s[..i + 4]).value;
            ParseAll(limit, s) == Continue(limit, req, ParseBody(limit, req, s[i + 4..]))
  {
    hide Find, ParseBody, WithHeader, KeepsAlive;
  }

  /** A stream with a header block in front. */
  lemma HeadStep(limit: nat, stream: bytes, head: bytes, tail: bytes)
    requires stream == head + tail
    requires |head| >= 4 && Find(head, CRLFCRLF, 0) == Some(|head| - 4) && WithHeader(EMPTY_REQUEST, head).Some?
    ensures var req := WithHeader(EMPTY_REQUEST, head).value;
            ParseAll(limit, stream) == Continue(limit, req, ParseBody(limit, req, tail))
  {
    hide Find, ParseBody, WithHeader, ParseAll, Continue;
    FindExtends(head, tail, CRLFCRLF);
    var i: nat := |head| - 4;
    assert stream[..i + 4] == head && stream[i + 4..] == tail;
    ParseAllStep(limit, stream, i);
  }

  /** A request that asks to close is the last thing read from a stream. */
  lemma {:induction false} ClosingIsLast(limit: nat, s: bytes)
    ensures var all := ParseAll(limit, s);
            forall i :: 0 <= i < |all| - 1 ==> all[i].Dispatched? && !AsksToClose(all[i].req)
    decreases |s|
  {
    hide ParseBody, WithHeader, KeepsAlive, AsksToClose, Find;
    if Find(s, CRLFCRLF, 0).Some? {
      var i := Find(s, CRLFCRLF, 0).value;
      var req := WithHeader(EMPTY_REQUEST, s[..i + 4]);
      if req.Some? {
        hide ParseAll;
        ParseAllStep(limit, s, i);
        var b := ParseBody(limit, req.value, s[i + 4..]);
        if b.Done? {
          var handed := req.value.(body := b.body);
          KeepsAliveUnlessAsked(handed);
          SameConnection(req.value, b.body);
          var more := if KeepsAlive(req.value) then ParseAll(limit, b.rest) else [];
          ClosingIsLast(limit, b.rest);
          var all := ParseAll(limit, s);
          assert all == [Dispatched(handed, b.rest)] + more;
          forall k | 0 <= k < |all| - 1
            ensures all[k].Dispatched? && !AsksToClose(all[k].req)
          {
            if k > 0 {
              assert more == ParseAll(limit, b.rest);
              assert all[k] == ParseAll(limit, b.rest)[k - 1];
            } else {
              assert all[k] == Dispatched(handed, b.rest);
            }
          }
        }
      }
    }
  }

  lemma SameConnection(req: RequestData, body: bytes)
    ensures KeepsAlive(req.(body := body)) == KeepsAlive(req)
  {
    assert req.(body := body).Header(CONNECTION) == req.Header(CONNECTION);
  }

  // ── well-formed messages ───────────────────────────────────────────

  /** A line that its own CRLF ends. */
  predicate IsLine(line: bytes) { Find(line + CRLF, CRLF, 0) == Some(|line|) }

  lemma LineIsFound(line: bytes, rest: bytes)
    requires IsLine(line)
    ensures Find(line + CRLF + rest, CRLF, 0) == Some(|line|)
    ensures (line + CRLF + rest)[..|line|] == line
    ensures (line + CRLF + rest)[|line| + 2..] == rest
  {
    FindExtends(line + CRLF, rest, CRLF);
  }

  lemma CleanIsLine(line: bytes)
    requires '\r' !in line
    ensures IsLine(line)
  {
    var s := line + CRLF;
    assert OccursAt(s, CRLF, |line|);
    forall j | 0 <= j < |line|
      ensures !OccursAt(s, CRLF, j)
    {
      assert CRLF[0] == '\r' != line[j] == s[j];
    }
    FindIs(s, CRLF, |line|);
  }

  /** A chunk as sent: its size line (extensions and spaces allowed), its data, two closing bytes. */
  datatype Chunk = Chunk(line: bytes, data: bytes, end: bytes)

  predicate WellFormed(c: Chunk) {
    IsLine(c.line) && ChunkSize(c.line) == Some(|c.data|) && c.data != [] && |c.end| == 2
  }

  function SendChunk(c: Chunk): bytes { c.line + CRLF + (c.data + c.end) }

  function SendChunks(cs: seq<Chunk>): bytes {
    if cs == [] then [] else SendChunk(cs[0]) + SendChunks(cs[1..])
  }

  function Content(cs: seq<Chunk>): bytes {
    if cs == [] then [] else cs[0].data + Content(cs[1..])
  }

  function SendTrailers(ts: seq<bytes>): bytes {
    if ts == [] then CRLF else ts[0] + CRLF + SendTrailers(ts[1..])
  }

  predicate WellFormedEnd(last: bytes, ts: seq<bytes>) {
    IsLine(last) && ChunkSize(last) == Some(0) && forall i :: 0 <= i < |ts| ==> IsLine(ts[i]) && ts[i] != []
  }

  lemma {:induction false} TrailersAreSkipped(acc: bytes, ts: seq<bytes>, rest: bytes)
    requires forall i :: 0 <= i < |ts| ==> IsLine(ts[i]) && ts[i] != []
    ensures ParseTrailers(acc, SendTrailers(ts) + rest) == Done(acc, rest)
    decreases |ts|
  {
    if ts == [] {
      CleanIsLine([]);
      LineIsFound([], rest);
      assert [] + CRLF + rest == CRLF + rest;
    } else {
      LineIsFound(ts[0], SendTrailers(ts[1..]) + rest);
      Assoc(ts[0] + CRLF, SendTrailers(ts[1..]), rest);
      TrailersAreSkipped(acc, ts[1..], rest);
    }
  }

  lemma SizeStep(limit: nat, acc: bytes, line: bytes, n: nat, s: bytes)
    requires IsLine(line) && ChunkSize(line) == Some(n)
    ensures ParseChunks(limit, acc, line + CRLF + s) == AfterSize(limit, acc, n, s)
  {
    hide AfterSize, ChunkSize, Find;
    LineIsFound(line, s);
  }

  lemma DataStep(limit: nat, acc: bytes, data: bytes, end: bytes, more: bytes)
    requires |end| == 2 && |acc| + |data| <= MAX_STRING
    ensures AfterData(limit, acc, |data|, data + end + more) == ParseChunks(limit, acc + data, more)
  {
    hide ParseChunks;
    var s := data + end + more;
    assert s[..|data|] == data && s[|data| + 2..] == more;
  }

  /** One chunk in front of any bytes: taken if it fits the limit, refused if not. */
  lemma OneChunk(limit: nat, acc: bytes, c: Chunk, more: bytes)
    requires WellFormed(c) && |acc| + |c.data| <= MAX_STRING
    ensures ParseChunks(limit, acc, SendChunk(c) + more) ==
            if limit == 0 || |acc| + |c.data| <= limit then ParseChunks(limit, acc + c.data, more) else TooLarge
  {
    hide ParseChunks, AfterData, Exceeds, ChunkSize, IsLine;
    ExceedsWithoutWrap(limit, |acc|, |c.data|);
    Assoc(c.line + CRLF, c.data + c.end, more);
    SizeStep(limit, acc, c.line, |c.data|, c.data + c.end + more);
    DataStep(limit, acc, c.data, c.end, more);
  }

  lemma LastChunk(limit: nat, acc: bytes, last: bytes, ts: seq<bytes>, rest: bytes)
    requires WellFormedEnd(last, ts)
    requires |acc| < SIZE_RANGE && (limit == 0 || |acc| <= limit)
    ensures ParseChunks(limit, acc, last + CRLF + (SendTrailers(ts) + rest)) == Done(acc, rest)
  {
    hide ParseChunks, ParseTrailers, Exceeds;
    ExceedsWithoutWrap(limit, |acc|, 0);
    SizeStep(limit, acc, last, 0, SendTrailers(ts) + rest);
    TrailersAreSkipped(acc, ts, rest);
  }

  /** Chunks in front of any bytes: collected as long as they fit the limit, refused otherwise. */
  lemma {:induction false} ChunksStep(limit: nat, acc: bytes, cs: seq<Chunk>, tail: bytes)
    requires forall i :: 0 <= i < |cs| ==> WellFormed(cs[i])
    requires |acc| + |Content(cs)| <= MAX_STRING
    requires limit == 0 || |acc| <= limit
    ensures ParseChunks(limit, acc, SendChunks(cs) + tail) ==
            if limit == 0 || |acc| + |Content(cs)| <= limit then ParseChunks(limit, acc + Content(cs), tail) else TooLarge
    decreases |cs|
  {
    hide ParseChunks, SendChunk, WellFormed;
    if cs == [] {
      assert SendChunks(cs) + tail == tail && acc + Content(cs) == acc;
    } else {
      Assoc(SendChunk(cs[0]), SendChunks(cs[1..]), tail);
      OneChunk(limit, acc, cs[0], SendChunks(cs[1..]) + tail);
      Assoc(acc, cs[0].data, Content(cs[1..]));
      if limit == 0 || |acc| + |cs[0].data| <= limit {
        ChunksStep(limit, acc + cs[0].data, cs[1..], tail);
      }
    }
  }

  /**
   Chunked framing, for every list of chunks (any extensions, any trailers) and
   any bytes behind it: the body comes back exactly, with what follows left
   alone, if and only if it is within the limit; otherwise it is refused.
   */
  lemma ChunkedBodyExact(limit: nat, acc: bytes, cs: seq<Chunk>, last: bytes, ts: seq<bytes>, rest: bytes)
    requires forall i :: 0 <= i < |cs| ==> WellFormed(cs[i])
    requires WellFormedEnd(last, ts)
    requires |acc| + |Content(cs)| <= MAX_STRING
    requires limit == 0 || |acc| <= limit
    ensures ParseChunks(limit, acc, SendChunks(cs) + (last + CRLF + (SendTrailers(ts) + rest))) ==
            if limit == 0 || |acc| + |Content(cs)| <= limit then Done(acc + Content(cs), rest) else TooLarge
  {
    hide ParseChunks, SendTrailers, WellFormed, WellFormedEnd;
    ChunksStep(limit, acc, cs, last + CRLF + (SendTrailers(ts) + rest));
    if limit == 0 || |acc| + |Content(cs)| <= limit {
      LastChunk(limit, acc + Content(cs), last, ts, rest);
    }
  }

  /** A size, with what was collected before it, that wraps round to within the limit. */
  predicate WrapsWithin(limit: nat, have: nat, more: nat) {
    have + more >= SIZE_RANGE && have + more - SIZE_RANGE <= limit
  }

  /**
   Chunks, and then the size line of a further one, any bytes behind it. The
   limit is tested on a 64-bit sum: over the limit the request is refused if
   and only if that sum does not wrap round to within the limit. A size let
   through overruns the string if and only if the sum wraps, throws if and only
   if no string can hold it, and is otherwise read.
   */
  lemma NextSizeDecides(limit: nat, head: bytes, cs: seq<Chunk>, line: bytes, n: nat, rest: bytes)
    requires |head| >= 4 && Find(head, CRLFCRLF, 0) == Some(|head| - 4) && WithHeader(EMPTY_REQUEST, head).Some?
    requires IsChunked(WithHeader(EMPTY_REQUEST, head).value)
    requires forall i :: 0 <= i < |cs| ==> WellFormed(cs[i])
    requires IsLine(line) && ChunkSize(line) == Some(n) && n > 0
    requires limit < SIZE_RANGE && (limit == 0 || |Content(cs)| <= limit) && |Content(cs)| <= MAX_STRING
    ensures var req, total := WithHeader(EMPTY_REQUEST, head).value, |Content(cs)| + n;
            ParseAll(limit, head + (SendChunks(cs) + (line + CRLF + rest))) ==
            if limit != 0 && total > limit && !WrapsWithin(limit, |Content(cs)|, n) then [Rejected]
            else if total >= SIZE_RANGE then [Overran]
            else if total > MAX_STRING then [Escaped]
            else Continue(limit, req, AfterData(limit, Content(cs), n, rest))
  {
    hide Find, ParseAll, ParseChunks, WithHeader, IsChunked, WellFormed, IsLine, SendChunks, AfterData;
    var tail := line + CRLF + rest;
    HeadStep(limit, head + (SendChunks(cs) + tail), head, SendChunks(cs) + tail);
    ChunksStep(limit, [], cs, tail);
    assert [] + Content(cs) == Content(cs);
    SizeStep(limit, Content(cs), line, n, rest);
    SumTest(limit, |Content(cs)|, n);
    if |Content(cs)| + n > MAX_STRING { TooLongAfterData(limit, Content(cs), n, rest); }
  }

  lemma TooLongAfterData(limit: nat, acc: bytes, n: nat, s: bytes)
    requires |acc| + n > MAX_STRING
    ensures AfterData(limit, acc, n, s) == Overlong
  {}

  lemma SumTest(limit: nat, have: nat, more: nat)
    requires limit < SIZE_RANGE && have < SIZE_RANGE && more < SIZE_RANGE
    ensures Exceeds(limit, have, more) <==> limit != 0 && have + more > limit && !WrapsWithin(limit, have, more)
  {
    if have + more >= SIZE_RANGE {
      assert (have + more) % SIZE_RANGE == have + more - SIZE_RANGE;
    }
  }

  /** A body of the announced length, any bytes behind it: the same rule. */
  lemma FixedBodyExact(limit: nat, req: RequestData, body: bytes, rest: bytes)
    requires !IsChunked(req) && req.ContentLength() == |body| <= MAX_STRING
    ensures ParseBody(limit, req, body + rest) ==
            if limit == 0 || |body| <= limit then Done(body, rest) else TooLarge
  {
    assert (body + rest)[..|body|] == body && (body + rest)[|body|..] == rest;
  }

  /**
   A length no string can hold: whatever follows the header block, the
   exception of reserve() leaves the callback if and only if the limit lets the
   length through.
   */
  lemma OverlongLengthEscapes(limit: nat, head: bytes, tail: bytes)
    requires |head| >= 4 && Find(head, CRLFCRLF, 0) == Some(|head| - 4) && WithHeader(EMPTY_REQUEST, head).Some?
    requires !IsChunked(WithHeader(EMPTY_REQUEST, head).value)
    ensures var n := WithHeader(EMPTY_REQUEST, head).value.ContentLength();
            ParseAll(limit, head + tail) == [Escaped] <==> n > MAX_STRING && (limit == 0 || n <= limit)
  {
    hide Find, ParseAll, ParseChunks, WithHeader, IsChunked, KeepsAlive;
    HeadStep(limit, head + tail, head, tail);
    var req := WithHeader(EMPTY_REQUEST, head).value;
    var b := ParseBody(limit, req, tail);
    assert b.Done? ==> Continue(limit, req, b)[0].Dispatched?;
  }

  lemma {:induction false} ChunksNeverOverlong(limit: nat, acc: bytes, s: bytes)
    requires 0 < limit <= MAX_STRING && |acc| <= limit
    ensures !ParseChunks(limit, acc, s).Overlong?
    decreases |s|
  {
    hide ChunkSize, ParseTrailers, Exceeds;
    if Find(s, CRLF, 0).Some? {
      var i := Find(s, CRLF, 0).value;
      var size, rest := ChunkSize(s[..i]), s[i + 2..];
      if size.Some? {
        var n := size.value;
        assert ParseChunks(limit, acc, s) == AfterSize(limit, acc, n, rest);
        if |acc| + n < SIZE_RANGE && !Exceeds(limit, |acc|, n) {
          ExceedsWithoutWrap(limit, |acc|, n);
          if n == 0 {
            assert AfterSize(limit, acc, n, rest) == ParseTrailers(acc, rest);
            TrailersNeverOverlong(acc, rest);
          } else if |rest| >= n + 2 {
            assert AfterSize(limit, acc, n, rest) == ParseChunks(limit, acc + rest[..n], rest[n + 2..]);
            ChunksNeverOverlong(limit, acc + rest[..n], rest[n + 2..]);
          } else {
            assert AfterSize(limit, acc, n, rest) == Truncated;
          }
        }
      }
    }
  }

  lemma {:induction false} TrailersNeverOverlong(acc: bytes, s: bytes)
    ensures !ParseTrailers(acc, s).Overlong?
    decreases |s|
  {
    if Find(s, CRLF, 0).Some? && Find(s, CRLF, 0).value > 0 { TrailersNeverOverlong(acc, s[Find(s, CRLF, 0).value + 2..]); }
  }

  /** With a limit that a string can hold, no stream makes an exception leave a callback. */
  lemma {:induction false} NothingEscapes(limit: nat, s: bytes)
    requires 0 < limit <= MAX_STRING
    ensures Escaped !in ParseAll(limit, s)
    decreases |s|
  {
    hide ParseChunks, ParseBody, WithHeader, KeepsAlive;
    if Find(s, CRLFCRLF, 0).Some? {
      var i := Find(s, CRLFCRLF, 0).value;
      var req, rest := WithHeader(EMPTY_REQUEST, s[..i + 4]), s[i + 4..];
      if req.Some? {
        ParseAllStep(limit, s, i);
        BodyNeverOverlong(limit, req.value, rest);
        var b := ParseBody(limit, req.value, rest);
        if b.Done? { NothingEscapes(limit, b.rest); }
      }
    }
  }

  lemma BodyNeverOverlong(limit: nat, req: RequestData, s: bytes)
    requires 0 < limit <= MAX_STRING
    ensures !ParseBody(limit, req, s).Overlong?
  {
    hide ParseChunks, IsChunked;
    ChunksNeverOverlong(limit, [], s);
  }

  /** Only what fits the limit is ever handed to a handler, whatever the stream. */
  predicate Fits(limit: nat, n: nat) { n <= MAX_STRING && (limit != 0 ==> n <= limit) }

  lemma {:induction false} ChunkedBodyFits(limit: nat, acc: bytes, s: bytes)
    requires Fits(limit, |acc|)
    ensures ParseChunks(limit, acc, s).Done? ==> Fits(limit, |ParseChunks(limit, acc, s).body|)
    decreases |s|
  {
    hide ChunkSize, ParseTrailers, Exceeds;
    if Find(s, CRLF, 0).Some? {
      var i := Find(s, CRLF, 0).value;
      var size, rest := ChunkSize(s[..i]), s[i + 2..];
      if size.Some? {
        var n := size.value;
        assert ParseChunks(limit, acc, s) == AfterSize(limit, acc, n, rest);
        if |acc| + n < SIZE_RANGE && !Exceeds(limit, |acc|, n) {
          ExceedsWithoutWrap(limit, |acc|, n);
          if n == 0 {
            assert AfterSize(limit, acc, n, rest) == ParseTrailers(acc, rest);
          } else if |acc| + n > MAX_STRING {
            assert AfterSize(limit, acc, n, rest) == Overlong;
          } else if |rest| >= n + 2 {
            assert AfterSize(limit, acc, n, rest) == ParseChunks(limit, acc + rest[..n], rest[n + 2..]);
            ChunkedBodyFits(limit, acc + rest[..n], rest[n + 2..]);
          } else {
            assert AfterSize(limit, acc, n, rest) == Truncated;
          }
        }
      }
    }
  }

  lemma {:induction false} HandledBodiesFit(limit: nat, s: bytes)
    ensures forall a :: a in ParseAll(limit, s) && a.Dispatched? ==> Fits(limit, |a.req.body|)
    decreases |s|
  {
    hide ParseChunks, ParseBody, WithHeader, KeepsAlive;
    if Find(s, CRLFCRLF, 0).Some? {
      var i := Find(s, CRLFCRLF, 0).value;
      var req, rest := WithHeader(EMPTY_REQUEST, s[..i + 4]), s[i + 4..];
      if req.Some? {
        ParseAllStep(limit, s, i);
        HandedBodyFits(limit, req.value, rest);
        var b := ParseBody(limit, req.value, rest);
        if b.Done? { HandledBodiesFit(limit, b.rest); }
      }
    }
  }

  lemma HandedBodyFits(limit: nat, req: RequestData, s: bytes)
    ensures ParseBody(limit, req, s).Done? ==> Fits(limit, |ParseBody(limit, req, s).body|)
  {
    hide ParseChunks, IsChunked;
    ChunkedBodyFits(limit, [], s);
  }

  // ── pipelining ─────────────────────────────────────────────────────

  /** One request as sent: its header block, and its body in either framing. */
  datatype Message =
    | Plain(head: bytes, body: bytes)
    | Chunky(head: bytes, chunks: seq<Chunk>, last: bytes, trailers: seq<bytes>)
  {
    function Body(): bytes { if Plain? then body else Content(chunks) }

    function Send(): bytes {
      head + if Plain? then body else SendChunks(chunks) + (last + CRLF + SendTrailers(trailers))
    }

    function Request(): RequestData {
      match WithHeader(EMPTY_REQUEST, head) case None => EMPTY_REQUEST case Some(r) => r
    }

    /** The header block is one block, and announces the framing the body has. */
    predicate Proper() {
      && |head| >= 4 && Find(head, CRLFCRLF, 0) == Some(|head| - 4)
      && WithHeader(EMPTY_REQUEST, head).Some?
      && |Body()| <= MAX_STRING
      && if Plain? then !IsChunked(Request()) && Request().ContentLength() == |body|
         else IsChunked(Request()) && (forall i :: 0 <= i < |chunks| ==> WellFormed(chunks[i]))
              && WellFormedEnd(last, trailers)
    }
  }

  /** A proper request at the front of any bytes is read exactly, or refused exactly when it is over the limit. */
  lemma OneMessage(limit: nat, m: Message, rest: bytes)
    requires m.Proper()
    ensures ParseAll(limit, m.Send() + rest) ==
            if limit != 0 && |m.Body()| > limit then [Rejected]
            else [Dispatched(m.Request().(body := m.Body()), rest)]
                 + if KeepsAlive(m.Request()) then ParseAll(limit, rest) else []
  {
    hide Find, ParseAll, ParseChunks, WithHeader, IsChunked, KeepsAlive, WellFormed, WellFormedEnd, SendChunks, SendTrailers;
    var tail := if m.Plain? then m.body + rest
                else SendChunks(m.chunks) + (m.last + CRLF + (SendTrailers(m.trailers) + rest));
    assert m.Send() + rest == m.head + tail;
    HeadStep(limit, m.head + tail, m.head, tail);
    if m.Plain? {
      FixedBodyExact(limit, m.Request(), m.body, rest);
    } else {
      ChunkedBodyExact(limit, [], m.chunks, m.last, m.trailers, rest);
      assert [] + Content(m.chunks) == Content(m.chunks);
    }
  }

  function SendAll(ms: seq<Message>): bytes { if ms == [] then [] else ms[0].Send() + SendAll(ms[1..]) }

  /** The requests of those messages, each with all that comes behind it. */
  function Requests(ms: seq<Message>, rest: bytes): (r: seq<Action>)
    ensures |r| == |ms|
  {
    if ms == [] then []
    else [Dispatched(ms[0].Request().(body := ms[0].Body()), SendAll(ms[1..]) + rest)] + Requests(ms[1..], rest)
  }

  lemma {:induction false} RequestsAt(ms: seq<Message>, rest: bytes, i: nat)
    requires i < |ms|
    ensures Requests(ms, rest)[i] == Dispatched(ms[i].Request().(body := ms[i].Body()), SendAll(ms[i + 1..]) + rest)
    decreases |ms|
  {
    if i > 0 { RequestsAt(ms[1..], rest, i - 1); }
  }

  lemma {:induction false} SendAllSplits(ms: seq<Message>, k: nat)
    requires k <= |ms|
    ensures SendAll(ms) == SendAll(ms[..k]) + SendAll(ms[k..])
    decreases |ms|
  {
    if k > 0 {
      SendAllSplits(ms[1..], k - 1);
      assert ms[..k][1..] == ms[1..][..k - 1] && ms[1..][k - 1..] == ms[k..];
      Assoc(ms[0].Send(), SendAll(ms[1..][..k - 1]), SendAll(ms[k..]));
    } else {
      assert ms[..k] == [] && ms[k..] == ms;
    }
  }

  predicate AllProper(limit: nat, ms: seq<Message>) {
    forall i :: 0 <= i < |ms| ==>
      ms[i].Proper() && KeepsAlive(ms[i].Request()) && (limit == 0 || |ms[i].Body()| <= limit)
  }

  /** Requests sent back to back are read one by one, in order, and what follows them is read from its start. */
  lemma {:induction false} PipelinedRequests(limit: nat, ms: seq<Message>, rest: bytes)
    requires AllProper(limit, ms)
    ensures ParseAll(limit, SendAll(ms) + rest) == Requests(ms, rest) + ParseAll(limit, rest)
    decreases |ms|
  {
    hide ParseAll, KeepsAlive, Message.Proper, Message.Send, Message.Body, Message.Request;
    if ms == [] {
      assert SendAll(ms) + rest == rest;
      assert Requests(ms, rest) + ParseAll(limit, rest) == ParseAll(limit, rest);
    } else {
      hide SendAll, Requests;
      var more := SendAll(ms[1..]) + rest;
      var first := Dispatched(ms[0].Request().(body := ms[0].Body()), more);
      FirstOf(ms, rest);
      Assoc(ms[0].Send(), SendAll(ms[1..]), rest);
      OneMessage(limit, ms[0], more);
      PipelinedRequests(limit, ms[1..], rest);
      Assoc([first], Requests(ms[1..], rest), ParseAll(limit, rest));
    }
  }

  lemma FirstOf(ms: seq<Message>, rest: bytes)
    requires ms != []
    ensures SendAll(ms) == ms[0].Send() + SendAll(ms[1..])
    ensures Requests(ms, rest) == [Dispatched(ms[0].Request().(body := ms[0].Body()), SendAll(ms[1..]) + rest)]
                                  + Requests(ms[1..], rest)
  {
    hide Message.Send, Message.Body, Message.Request;
  }
}
