/**
 What HttpResponse writes with write_chunk and end_chunks, read back by the
 chunked decoder of the connection.
 */
module ChunkRoundTrip {
  import opened Text
  import opened Numbers
  import opened Headers
  import opened Framing
  import opened Request
  import R = Response
  import RT = ResponseRoundTrip

  /** The bytes of a list of pieces. */
  function Bytes(out: seq<R.Piece>): bytes {
    if out == [] then [] else out[0].data + Bytes(out[1..])
  }

  lemma {:induction false} BytesAppend(a: seq<R.Piece>, b: seq<R.Piece>)
    ensures Bytes(a + b) == Bytes(a) + Bytes(b)
  {
    if a == [] {
      assert a + b == b;
    } else {
      assert (a + b)[1..] == a[1..] + b;
      BytesAppend(a[1..], b);
    }
  }

  // ── the size line ──────────────────────────────────────────────────

  /** The decoder reads back the size the encoder prints, for every 64-bit size. */
  lemma SizeLineRoundTrip(n: nat)
    requires n < SIZE_RANGE
    ensures ChunkSize(Numeral(n, 16)) == Some(n)
    ensures IsLine(Numeral(n, 16))
    ensures |R.SizeLine(n)| < 32
  {
    var s := Numeral(n, 16);
    CleanIsLine(s);
    FindNoByte(s, ';');
    assert s[0] in s && s[|s| - 1] in s;
    assert TrimRight(s) == s && TrimLeft(s) == s;
    HexRoundTrip(n);
    SixteenDigits();
    HexNumeralLength(n, 16);
  }

  lemma SixteenDigits()
    ensures Pow16(16) == SIZE_RANGE
  {
    assert Pow16(4) == 0x1_0000;
    assert Pow16(8) == 0x1_0000_0000;
    assert Pow16(12) == 0x1_0000_0000_0000;
  }

  function ChunkOf(data: bytes): Chunk { Chunk(Numeral(|data|, 16), data, CRLF) }

  lemma ChunkOfIsWellFormed(data: bytes)
    requires data != [] && |data| <= MAX_STRING
    ensures WellFormed(ChunkOf(data))
    ensures Bytes(R.ChunkPieces(data)) == SendChunk(ChunkOf(data))
  {
    SizeLineRoundTrip(|data|);
    var out := R.ChunkPieces(data);
    assert out[1..] == [R.Payload(data), R.Payload(CRLF)] && out[1..][1..] == [R.Payload(CRLF)];
    assert Bytes(out[1..][1..]) == CRLF;
    assert Bytes(out[1..]) == data + CRLF;
  }

  // ── sequences of chunk calls ───────────────────────────────────────

  /** Only write_chunk and end_chunks, every write succeeding. */
  predicate ChunkCalls(calls: seq<R.Call>) {
    forall i :: 0 <= i < |calls| ==>
      || (calls[i].DoWriteChunk? && calls[i].ok && |calls[i].data| <= MAX_STRING)
      || (calls[i].DoEndChunks? && calls[i].ok && calls[i].flushOk)
  }

  predicate Ends(calls: seq<R.Call>) { exists i :: 0 <= i < |calls| && calls[i].DoEndChunks? }

  /** All the data handed to write_chunk, in order. */
  function Data(calls: seq<R.Call>): bytes {
    if calls == [] then []
    else (if calls[0].DoWriteChunk? then calls[0].data else []) + Data(calls[1..])
  }

  /** What such a call puts on the wire once the header block is out. */
  function EncodedCall(c: R.Call): bytes {
    match c
    case DoWriteChunk(data, _) => if data == [] then [] else SendChunk(ChunkOf(data))
    case DoEndChunks(_, _) => R.TERMINATOR
    case _ => []
  }

  function Encoded(calls: seq<R.Call>): bytes {
    if calls == [] then [] else EncodedCall(calls[0]) + Encoded(calls[1..])
  }

  lemma FlushedCallEncodes(r: R.ResponseData, c: R.Call)
    requires ChunkCalls([c]) && r.attached && r.flushed && r.chunked && !r.mode.Buffered?
    ensures R.Apply(r, c).r == r
    ensures Bytes(R.Apply(r, c).out) == EncodedCall(c)
  {
    hide SendChunk, R.ChunkPieces, R.HeaderBlock, R.InsertHeader;
    assert [c][0] == c;
    if c.DoWriteChunk? {
      if c.data == [] {
        assert R.Apply(r, c) == R.Effect(r, [], true);
      } else {
        assert R.Apply(r, c) == R.Effect(r, R.ChunkPieces(c.data), true);
        ChunkOfIsWellFormed(c.data);
      }
    } else {
      assert R.Apply(r, c).out == [R.Payload(R.TERMINATOR)];
      assert Bytes([R.Payload(R.TERMINATOR)]) == R.TERMINATOR;
    }
  }

  lemma {:induction false} FlushedCallsEncode(r: R.ResponseData, calls: seq<R.Call>)
    requires ChunkCalls(calls) && r.attached && r.flushed && r.chunked && !r.mode.Buffered?
    ensures R.Play(r, calls).r == r
    ensures Bytes(R.Play(r, calls).out) == Encoded(calls)
    decreases |calls|
  {
    hide R.Apply, EncodedCall;
    if calls != [] {
      FlushedCallEncodes(r, calls[0]);
      FlushedCallsEncode(r, calls[1..]);
      BytesAppend(R.Apply(r, calls[0]).out, R.Play(r, calls[1..]).out);
    }
  }

  /** The response as its header block describes it once the first chunk goes out. */
  function Announced(r: R.ResponseData): R.ResponseData { R.LeaveBuffered(R.MarkChunked(r)) }

  lemma FirstChunkSendsHead(r: R.ResponseData, data: bytes)
    requires data != [] && |data| <= MAX_STRING && r.attached && !r.flushed && !r.chunked
    ensures R.WriteChunk(r, data, true).r == Announced(r).(flushed := true)
    ensures Bytes(R.WriteChunk(r, data, true).out) == R.HeaderBlock(Announced(r)) + SendChunk(ChunkOf(data))
  {
    hide R.HeaderBlock, R.MarkChunked, R.ChunkPieces, SendChunk;
    ChunkOfIsWellFormed(data);
    AnnouncedHasEncoding(r);
    var head := R.Head(R.HeaderBlock(Announced(r)), Announced(r).entries);
    BytesAppend([head], R.ChunkPieces(data));
    assert Bytes([head]) == R.HeaderBlock(Announced(r));
  }

  lemma ChunkCallsEncode(r: R.ResponseData, calls: seq<R.Call>)
    requires ChunkCalls(calls) && r.attached && !r.flushed && !r.chunked
    requires calls != [] && calls[0].DoWriteChunk? && calls[0].data != []
    ensures R.Play(r, calls).r == Announced(r).(flushed := true)
    ensures Bytes(R.Play(r, calls).out) == R.HeaderBlock(Announced(r)) + Encoded(calls)
    ensures Contains(Announced(r).entries, TRANSFER_ENCODING)
  {
    hide R.HeaderBlock, R.WriteChunk, Announced, SendChunk;
    FirstChunkSendsHead(r, calls[0].data);
    AnnouncedHasEncoding(r);
    var r1, e := Announced(r).(flushed := true), R.Apply(r, calls[0]);
    FlushedCallsEncode(r1, calls[1..]);
    BytesAppend(e.out, R.Play(r1, calls[1..]).out);
    Assoc(R.HeaderBlock(Announced(r)), EncodedCall(calls[0]), Encoded(calls[1..]));
  }

  lemma AnnouncedHasEncoding(r: R.ResponseData)
    requires !r.flushed && !r.chunked
    ensures Contains(Announced(r).entries, TRANSFER_ENCODING) && Announced(r).chunked
    ensures !Announced(r).mode.Buffered? && Announced(r).attached == r.attached && !Announced(r).flushed
  {
    GetAfterInsert(r.entries, TRANSFER_ENCODING, "chunked", TRANSFER_ENCODING);
  }

  // ── decoding ───────────────────────────────────────────────────────

  lemma TerminatorDecodes(acc: bytes, rest: bytes)
    requires |acc| <= MAX_STRING
    ensures ParseChunks(0, acc, R.TERMINATOR + rest) == Done(acc, rest)
  {
    hide ParseChunks, ChunkSize, IsLine;
    SizeLineRoundTrip(0);
    assert Numeral(0, 16) == "0";
    LastChunk(0, acc, "0", [], rest);
    assert R.TERMINATOR + rest == "0" + CRLF + (SendTrailers([]) + rest);
  }

  /** Decoding stops at the first terminator; what is behind it stays. */
  lemma {:induction false} EncodedDecodes(acc: bytes, calls: seq<R.Call>, rest: bytes)
    requires ChunkCalls(calls) && |acc| + |Data(calls)| <= MAX_STRING
    ensures var b := ParseChunks(0, acc, Encoded(calls) + (R.TERMINATOR + rest));
            b.Done? && (if Ends(calls) then |b.rest| > |rest| else b == Done(acc + Data(calls), rest))
    decreases |calls|
  {
    hide ParseChunks, EncodedCall, Ends;
    var tail := R.TERMINATOR + rest;
    if calls == [] {
      assert Encoded(calls) + tail == tail && acc + Data(calls) == acc;
      TerminatorDecodes(acc, rest);
      EndsTail(calls);
    } else {
      var c, more := calls[0], Encoded(calls[1..]) + tail;
      Assoc(EncodedCall(c), Encoded(calls[1..]), tail);
      CallDecodes(acc, c, more);
      EndsTail(calls);
      if c.DoWriteChunk? {
        Assoc(acc, c.data, Data(calls[1..]));
        EncodedDecodes(acc + c.data, calls[1..], rest);
      }
    }
  }

  lemma CallDecodes(acc: bytes, c: R.Call, more: bytes)
    requires ChunkCalls([c]) && |acc| + (if c.DoWriteChunk? then |c.data| else 0) <= MAX_STRING
    ensures ParseChunks(0, acc, EncodedCall(c) + more) ==
            if c.DoWriteChunk? then ParseChunks(0, acc + c.data, more) else Done(acc, more)
  {
    hide ParseChunks, SendChunk, WellFormed;
    assert [c][0] == c;
    if c.DoEndChunks? {
      TerminatorDecodes(acc, more);
    } else if c.data == [] {
      assert [] + more == more && acc + c.data == acc;
    } else {
      ChunkOfIsWellFormed(c.data);
      OneChunk(0, acc, ChunkOf(c.data), more);
    }
  }

  lemma EndsTail(calls: seq<R.Call>)
    ensures Ends(calls) <==> calls != [] && (calls[0].DoEndChunks? || Ends(calls[1..]))
  {
    forall i | 0 < i < |calls| && calls[i].DoEndChunks?
      ensures Ends(calls[1..])
    {
      assert calls[1..][i - 1].DoEndChunks?;
    }
    forall i | 0 <= i < |calls| - 1 && calls[1..][i].DoEndChunks?
      ensures Ends(calls)
    {
      assert calls[i + 1].DoEndChunks?;
    }
  }

  /** The calls from the first non-empty chunk on; the ones before do nothing. */
  function FromFirst(calls: seq<R.Call>): seq<R.Call> {
    if calls == [] || (calls[0].DoWriteChunk? && calls[0].data != []) then calls else FromFirst(calls[1..])
  }

  lemma {:induction false} EarlierCallsDoNothing(r: R.ResponseData, calls: seq<R.Call>)
    requires ChunkCalls(calls) && !r.chunked
    ensures R.Play(r, calls) == R.Play(r, FromFirst(calls))
    ensures Data(FromFirst(calls)) == Data(calls) && ChunkCalls(FromFirst(calls))
    ensures FromFirst(calls) != [] ==> FromFirst(calls)[0].DoWriteChunk? && FromFirst(calls)[0].data != []
    decreases |calls|
  {
    if calls != [] && !(calls[0].DoWriteChunk? && calls[0].data != []) {
      hide R.Send;
      EarlierCallsDoNothing(r, calls[1..]);
      assert R.Apply(r, calls[0]) == R.Effect(r, [], true);
      var rest := R.Play(r, calls[1..]);
      assert [] + rest.out == rest.out;
    }
  }

  /**
   A stream function that writes chunks (and perhaps ends them): its job always
   adds one end_chunks. What goes out is a header block with a
   Transfer-Encoding and a body that decodes to all the data; and the response
   ends where that body ends, any following bytes left alone, if and only if
   the function made no end_chunks call of its own after its first non-empty
   chunk. If it did, a terminator is left over in front of whatever the client
   reads next.
   */
  lemma StreamEndsWhereBodyEnds(r: R.ResponseData, calls: seq<R.Call>, rest: bytes)
    requires r.attached && !r.flushed && !r.chunked
    requires ChunkCalls(calls) && Data(calls) != [] && |Data(calls)| <= MAX_STRING
    ensures var e := R.Play(r, calls);
            Bytes(e.out + R.EndChunks(e.r, true, true).out) ==
            R.HeaderBlock(Announced(r)) + (Encoded(FromFirst(calls)) + R.TERMINATOR)
    ensures Contains(Announced(r).entries, TRANSFER_ENCODING)
    ensures var body := Encoded(FromFirst(calls)) + R.TERMINATOR;
            ParseChunks(0, [], body + rest) == Done(Data(calls), rest) <==> !Ends(FromFirst(calls))
  {
    hide R.HeaderBlock, ParseChunks, Announced, FromFirst, R.Play, Encoded;
    EarlierCallsDoNothing(r, calls);
    var e, from := R.Play(r, calls), FromFirst(calls);
    assert Data([]) == [] && from != [];
    AnnouncedHasEncoding(r);
    ChunkCallsEncode(r, from);
    var last := R.EndChunks(e.r, true, true).out;
    assert last == [R.Payload(R.TERMINATOR)] && Bytes(last) == R.TERMINATOR;
    BytesAppend(e.out, last);
    Assoc(R.HeaderBlock(Announced(r)), Encoded(from), R.TERMINATOR);
    EncodedDecodes([], from, rest);
    Assoc(Encoded(from), R.TERMINATOR, rest);
    assert [] + Data(from) == Data(from);
  }

  // ── what the client makes of it ────────────────────────────────────

  /** The response's own Transfer-Encoding, if it has one, says chunked. */
  predicate SaysChunked(r: R.ResponseData) {
    Contains(r.entries, TRANSFER_ENCODING) ==> Find(Lower(Get(r.entries, TRANSFER_ENCODING)), "chunked", 0).Some?
  }

  /** The header block of a printable chunked response parses, and announces chunks exactly when it should. */
  lemma AnnouncedParses(r: R.ResponseData)
    requires !r.flushed && !r.chunked && NoCaseTwins(r.entries) && RT.AllPrintable(r.entries)
    ensures var b := R.HeaderBlock(Announced(r));
            |b| >= 4 && Find(b, CRLFCRLF, 0) == Some(|b| - 4) && WithHeader(EMPTY_REQUEST, b).Some?
            && (IsChunked(WithHeader(EMPTY_REQUEST, b).value) <==> SaysChunked(r))
  {
    hide Find, WithHeader, R.Block, RT.Printable, Lower, Announced, Contains, Get, NoCaseTwins;
    AnnouncedEntries(r);
    ChunkedIsChunked();
    RT.BlockParses(r.status, Announced(r).entries);
    RT.ParsedLookup(Announced(r).entries, TRANSFER_ENCODING);
  }

  lemma AnnouncedEntries(r: R.ResponseData)
    requires !r.flushed && !r.chunked && NoCaseTwins(r.entries) && RT.AllPrintable(r.entries)
    ensures var es := Announced(r).entries;
            es != [] && RT.AllPrintable(es) && NoCaseTwins(es) && Announced(r).status == r.status
            && Contains(es, TRANSFER_ENCODING)
            && Get(es, TRANSFER_ENCODING) ==
               if Contains(r.entries, TRANSFER_ENCODING) then Get(r.entries, TRANSFER_ENCODING) else "chunked"
  {
    hide RT.Printable, CiEqual, Get, NoCaseTwins;
    EncodingPrintable();
    SameName();
    GetAfterInsert(r.entries, TRANSFER_ENCODING, "chunked", TRANSFER_ENCODING);
  }

  lemma SameName()
    ensures CiEqual(TRANSFER_ENCODING, TRANSFER_ENCODING)
  {}

  lemma EncodingPrintable()
    ensures RT.Printable(Entry(TRANSFER_ENCODING, "chunked"))
  {}

  lemma ChunkedIsChunked()
    ensures Find(Lower("chunked"), "chunked", 0) == Some(0)
  {
    assert Lower("chunked") == "chunked";
  }

  lemma {:induction false} EncodedIsLonger(calls: seq<R.Call>)
    ensures |Encoded(calls)| >= |Data(calls)|
    ensures Data(calls) != [] ==> |Encoded(calls)| > |Data(calls)|
  {
    if calls != [] { EncodedIsLonger(calls[1..]); }
  }

  /**
   The chunked round trip: any run of write_chunk calls with at least one
   non-empty chunk, closed by one end_chunks, sends a header block and a body
   that decodes to the concatenated data, whatever follows it.
   */
  lemma ChunkedResponseRoundTrip(r: R.ResponseData, calls: seq<R.Call>, rest: bytes)
    requires r.attached && !r.flushed && !r.chunked
    requires ChunkCalls(calls) && Data(calls) != [] && |Data(calls)| <= MAX_STRING
    requires forall i :: 0 <= i < |calls| ==> calls[i].DoWriteChunk?
    ensures var out := R.Play(r, calls).out + R.EndChunks(R.Play(r, calls).r, true, true).out;
            exists body :: Bytes(out) == R.HeaderBlock(Announced(r)) + body
                           && ParseChunks(0, [], body + rest) == Done(Data(calls), rest)
  {
    hide R.HeaderBlock, ParseChunks, Announced, R.Play, Encoded;
    StreamEndsWhereBodyEnds(r, calls, rest);
    NothingEnds(calls);
  }

  lemma {:induction false} NothingEnds(calls: seq<R.Call>)
    requires forall i :: 0 <= i < |calls| ==> calls[i].DoWriteChunk?
    ensures !Ends(FromFirst(calls))
  {
    if calls != [] { NothingEnds(calls[1..]); }
  }

  /** For instance: one chunk and one end_chunks of the function's own leave a whole terminator over. */
  lemma OwnTerminatorIsLeftOver()
    ensures var calls := [R.DoWriteChunk("a", true), R.DoEndChunks(true, true)];
            ParseChunks(0, [], Encoded(calls) + R.TERMINATOR) == Done("a", R.TERMINATOR)
  {
    hide ParseChunks, SendChunk;
    var c, d := R.DoWriteChunk("a", true), R.DoEndChunks(true, true);
    assert [c, d][1..] == [d] && [d][1..] == [];
    assert Encoded([d]) == R.TERMINATOR;
    assert Encoded([c, d]) + R.TERMINATOR == EncodedCall(c) + (R.TERMINATOR + R.TERMINATOR);
    assert ChunkCalls([c]) && [] + "a" == "a";
    CallDecodes([], c, R.TERMINATOR + R.TERMINATOR);
    TerminatorDecodes("a", R.TERMINATOR);
  }
}
