/**
 What a client learns from a response besides its body: the status, and whether
 the connection goes on. Said in the words on the wire.
 */
module ClientSees {
  import opened Text
  import opened Headers
  import opened Request
  import opened Framing
  import opened Machine
  import opened ReaderProofs
  import opened WireProofs
  import opened Conversation
  import C = ChunkRoundTrip
  import CR = ClientReads
  import R = Response
  import RT = ResponseRoundTrip

  // ── one serialized response ────────────────────────────────────────

  /** Header fields a client can read, and a body a string can hold. */
  predicate Readable(r: R.ResponseData) {
    NoCaseTwins(r.entries) && RT.AllPrintable(r.entries) && |r.body| <= MAX_STRING && r.status >= 0
  }

  /** The client reads the status, every header the response has, and, if it ends where its block says, the body. */
  lemma ReplyIsRead(r: R.ResponseData, rest: bytes)
    requires Readable(r)
    ensures var p := R.Reply(r);
            p.Head? && R.SaysStatus(p.data, r.status, R.ReasonPhrase(r.status)) && CR.HasBlock(p.data + rest)
            && (forall name :: Contains(r.entries, name) ==> CR.Parsed(p.data + rest).Header(name) == Get(r.entries, name))
            && (CR.ReadsAs(p.data + rest, r.body, rest) <==> CR.ReplyEnds(r))
  {
    hide R.Block, R.ReasonPhrase, R.SaysStatus, CR.ReadsAs, CR.HasBlock, CR.Parsed, CR.ReplyEnds, CR.AsChunks, CR.AsLength,
         RT.Printable, NoCaseTwins, R.SerializedEntries, Get, Contains;
    R.ResponseSaysStatus(r);
    CR.ClientReadsReply(r, rest);
    CR.SerializedSays(r);
    var es := R.SerializedEntries(r);
    var req := CR.BlockIsRead(r.status, es, r.body + rest, r.body, rest);
    Assoc(R.Block(r.status, es), r.body, rest);
    forall name | Contains(r.entries, name)
      ensures Get(es, name) == Get(r.entries, name)
    {
      SerializedKeeps(r, name);
    }
  }

  lemma SerializedKeeps(r: R.ResponseData, name: bytes)
    requires Contains(r.entries, name)
    ensures Get(R.SerializedEntries(r), name) == Get(r.entries, name)
  {
    hide CiEqual;
    FirstIs(R.SerializedEntries(r), name, FindCi(r.entries, name));
  }

  // ── what the calls leave ───────────────────────────────────────────

  predicate NoChunks(calls: seq<R.Call>) { forall i :: 0 <= i < |calls| ==> !R.IsChunk(calls[i]) }

  /** The body the calls leave: the last one set. */
  function BodyAfter(calls: seq<R.Call>, body: bytes): bytes {
    if calls == [] then body
    else if calls[|calls| - 1].SetBody? then calls[|calls| - 1].body
    else BodyAfter(calls[..|calls| - 1], body)
  }

  /** The value last given to a header, under any spelling of its name, if one was. */
  function HeaderAfter(calls: seq<R.Call>, name: bytes): Option<bytes> {
    if calls == [] then None
    else
      var c := calls[|calls| - 1];
      if c.SetHeader? && SameSpelling(c.name, name) then Some(c.value) else HeaderAfter(calls[..|calls| - 1], name)
  }

  lemma {:induction false} AfterFirst(calls: seq<R.Call>, body: bytes, name: bytes)
    requires calls != []
    ensures var c, more := calls[0], calls[1..];
            && BodyAfter(calls, body) == BodyAfter(more, if c.SetBody? then c.body else body)
            && HeaderAfter(calls, name) == if HeaderAfter(more, name).None? && c.SetHeader? && SameSpelling(c.name, name)
                                           then Some(c.value) else HeaderAfter(more, name)
    decreases |calls|
  {
    hide SameSpelling;
    if |calls| == 1 {
      assert calls[..0] == [];
    } else {
      var init := calls[..|calls| - 1];
      AfterFirst(init, body, name);
      assert calls[1..][..|calls| - 2] == init[1..];
    }
  }

  /** What a handler that writes no chunks leaves: the body and the value of each header last set, and what was there before. */
  lemma {:induction false} PlayLeaves(r: R.ResponseData, calls: seq<R.Call>, name: bytes)
    requires NoChunks(calls)
    ensures var e, v := R.Play(r, calls).r, HeaderAfter(calls, name);
            && e.body == BodyAfter(calls, r.body)
            && Get(e.entries, name) == (if v.Some? then v.value else Get(r.entries, name))
            && (Contains(e.entries, name) <==> v.Some? || Contains(r.entries, name))
    decreases |calls|
  {
    if calls != [] {
      hide R.Apply, Get, Contains, SameSpelling;
      AfterFirst(calls, r.body, name);
      CallLeaves(r, calls[0], name);
      PlayLeaves(R.Apply(r, calls[0]).r, calls[1..], name);
    }
  }

  lemma CallLeaves(r: R.ResponseData, c: R.Call, name: bytes)
    requires !R.IsChunk(c)
    ensures var e := R.Apply(r, c).r;
            && e.body == (if c.SetBody? then c.body else r.body)
            && Get(e.entries, name) == (if c.SetHeader? && SameSpelling(c.name, name) then c.value else Get(r.entries, name))
            && (Contains(e.entries, name) <==> (c.SetHeader? && SameSpelling(c.name, name)) || Contains(r.entries, name))
  {
    hide R.HeaderBlock, CiEqual, SameSpelling;
    if c.SetHeader? {
      GetAfterInsert(r.entries, c.name, c.value, name);
      CiEqualIsSpelling(c.name, name);
    }
  }

  lemma NewSaysConnection(keep: bool)
    ensures var r := NewResponse(keep);
            Contains(r.entries, "Connection") && Get(r.entries, "Connection") == (if keep then "keep-alive" else "close")
            && r.status == 200 && r.body == ""
  {
    assert CONNECTION == "Connection";
    FirstIs(NewResponse(keep).entries, "Connection", 0);
  }

  /**
   A buffered response, read by the client: the status and the body last set,
   200 and none if none was; every header as last set, under any spelling; and,
   unless the handler sets it itself, a Connection that says "close" or
   "keep-alive" as the request asked.
   */
  lemma BufferedReplyIsRead(req: RequestData, h: Script, rest: bytes)
    requires Waits(h) && !h.throws && Readable(R.Play(NewResponse(KeepsAlive(req)), h.calls).r)
    ensures var r := R.Play(NewResponse(KeepsAlive(req)), h.calls).r;
            var p, code := R.Reply(r), R.StatusAfter(h.calls, 200);
            && p.Head? && code >= 0 && R.SaysStatus(p.data, code, R.ReasonPhrase(code)) && CR.HasBlock(p.data + rest)
            && var parsed := CR.Parsed(p.data + rest);
               && (forall name :: HeaderAfter(h.calls, name).Some? ==> parsed.Header(name) == HeaderAfter(h.calls, name).value)
               && (HeaderAfter(h.calls, "Connection").None? ==>
                     parsed.Header("Connection") == if AsksToClose(req) then "close" else "keep-alive")
               && (CR.ReadsAs(p.data + rest, BodyAfter(h.calls, ""), rest) <==> CR.ReplyEnds(r))
  {
    hide R.Play, NewResponse, R.Reply, R.ReasonPhrase, R.SaysStatus, CR.ReadsAs, CR.HasBlock, CR.Parsed, CR.ReplyEnds, Readable,
         KeepsAlive, AsksToClose, Get, Contains, HeaderAfter, BodyAfter, R.StatusAfter, NoChunks;
    var r0 := NewResponse(KeepsAlive(req));
    KeepsAliveUnlessAsked(req);
    NewSaysConnection(KeepsAlive(req));
    R.PlayStatus(r0, h.calls);
    ReplyIsRead(R.Play(r0, h.calls).r, rest);
    ReadableIs(R.Play(r0, h.calls).r);
    WaitsWritesNothing(h);
    PlayLeaves(r0, h.calls, "Connection");
    forall name | HeaderAfter(h.calls, name).Some?
      ensures CR.Parsed(R.Reply(R.Play(r0, h.calls).r).data + rest).Header(name) == HeaderAfter(h.calls, name).value
    {
      PlayLeaves(r0, h.calls, name);
    }
  }

  lemma WaitsWritesNothing(h: Script)
    requires Waits(h)
    ensures NoChunks(h.calls)
  {}

  lemma ReadableIs(r: R.ResponseData)
    requires Readable(r)
    ensures r.status >= 0
  {}

  // ── the library's own answers ──────────────────────────────────────

  /** The client reads an answer of the library's own: its status, text, a plain body, and that the connection closes. */
  ghost predicate IsPlainError(p: R.Piece, code: nat, phrase: bytes, body: bytes) {
    p.Head? && R.SaysStatus(p.data, code, phrase)
    && forall rest: bytes ::
         CR.HasBlock(p.data + rest) && CR.ReadsAs(p.data + rest, body, rest)
         && CR.Parsed(p.data + rest).Header("Connection") == "close"
         && CR.Parsed(p.data + rest).Header("Content-Type") == "text/plain; charset=utf-8"
  }

  lemma ErrorIsRead(code: nat, body: bytes)
    requires |body| <= MAX_STRING
    ensures IsPlainError(R.Reply(ErrorResponse(code, body)), code, R.ReasonPhrase(code), body)
  {
    hide R.Reply, R.ReasonPhrase, R.SaysStatus, CR.ReadsAs, CR.HasBlock, CR.Parsed, CR.ReplyEnds, Get, Contains;
    var r := ErrorResponse(code, body);
    ErrorFacts(code, body);
    forall rest: bytes
      ensures CR.HasBlock(R.Reply(r).data + rest) && CR.ReadsAs(R.Reply(r).data + rest, body, rest)
              && CR.Parsed(R.Reply(r).data + rest).Header("Connection") == "close"
              && CR.Parsed(R.Reply(r).data + rest).Header("Content-Type") == "text/plain; charset=utf-8"
    {
      ReplyIsRead(r, rest);
    }
    ReplyIsRead(r, []);
  }

  lemma ErrorFacts(code: nat, body: bytes)
    requires |body| <= MAX_STRING
    ensures var r := ErrorResponse(code, body);
            Readable(r) && r.body == body && r.status == code && CR.ReplyEnds(r)
            && Contains(r.entries, "Connection") && Get(r.entries, "Connection") == "close"
            && Contains(r.entries, "Content-Type") && Get(r.entries, "Content-Type") == "text/plain; charset=utf-8"
  {
    hide RT.Printable, CiEqual, Find, Lower, NoCaseTwins;
    ErrorEntries(code, body);
    ErrorEntriesPrintable();
    ErrorNames();
    var es := ErrorResponse(code, body).entries;
    FirstIs(es, "Connection", 1);
    FirstIs(es, "Content-Type", 0);
    NoChunksInNothing();
    assert RT.AllPrintable(es);
  }

  lemma ErrorEntries(status: int, body: bytes)
    ensures var r := ErrorResponse(status, body);
            r.entries == [Entry(CONTENT_TYPE, PLAIN), Entry(CONNECTION, CLOSE)] && r.body == body
            && NoCaseTwins(r.entries) && !Contains(r.entries, CONTENT_LENGTH) && !Contains(r.entries, TRANSFER_ENCODING)
  {
    assert |Lower(CONTENT_TYPE)| == 12 && |Lower(CONNECTION)| == 10;
    assert |Lower(CONTENT_LENGTH)| == 14 && |Lower(TRANSFER_ENCODING)| == 17;
  }

  lemma ErrorEntriesPrintable()
    ensures RT.Printable(Entry(CONTENT_TYPE, PLAIN)) && RT.Printable(Entry(CONNECTION, CLOSE))
  {
    hide RT.Printable;
    PlainIsPrintable();
    CloseIsPrintable();
  }

  lemma PlainIsPrintable()
    ensures RT.Printable(Entry(CONTENT_TYPE, PLAIN))
  {
    hide Clean, Trimmed;
    PlainIsTrimmed();
    PlainIsClean();
    TypeIsClean();
  }

  lemma PlainIsTrimmed()
    ensures Trimmed(CONTENT_TYPE) && Trimmed(PLAIN)
  {}

  lemma PlainIsClean()
    ensures Clean(PLAIN)
  {}

  lemma TypeIsClean()
    ensures Clean(CONTENT_TYPE) && ':' !in CONTENT_TYPE
  {}

  lemma CloseIsPrintable()
    ensures RT.Printable(Entry(CONNECTION, CLOSE))
  {}

  lemma ErrorNames()
    ensures CiEqual(CONTENT_TYPE, "Content-Type") && CiEqual(CONNECTION, "Connection") && !CiEqual(CONTENT_TYPE, "Connection")
  {
    assert |Lower(CONTENT_TYPE)| == 12 && |Lower("Connection")| == 10;
  }

  lemma NoChunksInNothing()
    ensures Find(Lower([]), "chunked", 0).None?
  {
    FindFirst(Lower([]), "chunked", 0);
  }

  /** A refusal is a 413. */
  lemma RefusalIsRead()
    ensures IsPlainError(Refusal(), 413, "Payload Too Large", "413 Payload Too Large\n")
  {
    hide R.Reply, ErrorResponse, R.ReasonPhrase, IsPlainError;
    ErrorIsRead(413, "413 Payload Too Large\n");
    R.PhrasesBelow500();
  }

  /** The text of a 500: its title, and what the handler threw, if that says anything. */
  function ThrownText(message: bytes): bytes {
    if message == "" then "500 Internal Server Error\n" else "500 Internal Server Error\n" + message + "\n"
  }

  /** What replaces the response of a handler that threw is a 500 with what it threw. */
  lemma ReplacementIsRead(message: bytes)
    requires |ThrownText(message)| <= MAX_STRING
    ensures IsPlainError(R.Reply(Replacement(message)), 500, "Internal Server Error", ThrownText(message))
  {
    hide ErrorResponse, R.ReasonPhrase, IsPlainError, R.Block, R.SerializedEntries;
    var body := ThrownText(message);
    Assoc("500 Internal Server Error\n", message, "\n");
    assert "500 Internal Server Error\n" + [] == "500 Internal Server Error\n";
    var r := ErrorResponse(500, body);
    assert R.Reply(r.(attached := true)) == R.Reply(r) by { AttachedIsSent(r); }
    ErrorIsRead(500, body);
    R.PhrasesFrom500();
  }

  lemma AttachedIsSent(r: R.ResponseData)
    ensures R.Reply(r.(attached := true)) == R.Reply(r)
  {}
}
