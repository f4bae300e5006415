/**
 A whole connection with buffered handlers, read by the client: one answer
 after another, each with the status, the headers and the body its handler set.
 */
module ConversationRead {
  import opened Text
  import opened Numbers
  import opened Headers
  import opened Request
  import opened Framing
  import opened Machine
  import opened ReaderProofs
  import opened WireProofs
  import opened Conversation
  import opened ClientSees
  import opened ClientInStep
  import opened ReuseProofs
  import CR = ClientReads
  import R = Response
  import RT = ResponseRoundTrip

  // ── ordinary handlers ──────────────────────────────────────────────

  /** Each header set can be read back, and framing is left to the library. */
  predicate HeadersFit(calls: seq<R.Call>) {
    forall i :: 0 <= i < |calls| && calls[i].SetHeader? ==>
      RT.Printable(Entry(calls[i].name, calls[i].value))
      && !SameSpelling(calls[i].name, "Content-Length") && !SameSpelling(calls[i].name, "Transfer-Encoding")
  }

  /** A handler that sets status, headers and body, and returns. */
  predicate Ordinary(h: Script) {
    && Waits(h) && !h.throws && HeadersFit(h.calls)
    && R.StatusAfter(h.calls, 200) >= 0 && |BodyAfter(h.calls, "")| <= MAX_STRING
  }

  lemma {:induction false} PlayStaysPrintable(r: R.ResponseData, calls: seq<R.Call>)
    requires RT.AllPrintable(r.entries) && NoCaseTwins(r.entries) && NoChunks(calls) && HeadersFit(calls)
    ensures var e := R.Play(r, calls).r; RT.AllPrintable(e.entries) && NoCaseTwins(e.entries)
    decreases |calls|
  {
    if calls != [] {
      hide R.Apply, NoCaseTwins, RT.AllPrintable, RT.Printable, SameSpelling;
      CallStaysPrintable(r, calls[0]);
      PlayStaysPrintable(R.Apply(r, calls[0]).r, calls[1..]);
    }
  }

  lemma CallStaysPrintable(r: R.ResponseData, c: R.Call)
    requires RT.AllPrintable(r.entries) && NoCaseTwins(r.entries) && !R.IsChunk(c)
    requires c.SetHeader? ==> RT.Printable(Entry(c.name, c.value))
    ensures var e := R.Apply(r, c).r; RT.AllPrintable(e.entries) && NoCaseTwins(e.entries)
  {
    hide R.HeaderBlock, NoCaseTwins, CiEqual, Trimmed, Clean;
  }

  lemma {:induction false} NeverSet(calls: seq<R.Call>, name: bytes)
    requires forall i :: 0 <= i < |calls| && calls[i].SetHeader? ==> !SameSpelling(calls[i].name, name)
    ensures HeaderAfter(calls, name) == None
  {
    hide SameSpelling;
    if calls != [] { NeverSet(calls[..|calls| - 1], name); }
  }

  /** What it leaves can be read, and ends where its block says. */
  lemma OrdinaryIsReadable(keep: bool, h: Script)
    requires Ordinary(h)
    ensures var r := R.Play(NewResponse(keep), h.calls).r; Readable(r) && CR.ReplyEnds(r)
  {
    hide R.Play, HeaderAfter, BodyAfter, R.StatusAfter, RT.Printable, SameSpelling, NoCaseTwins, Find, R.Writes, R.Streams, NoChunks;
    var r0 := NewResponse(keep);
    NewIsPlain(keep);
    WaitsWritesNothing(h);
    PlayStaysPrintable(r0, h.calls);
    R.PlayStatus(r0, h.calls);
    NeverSet(h.calls, "Content-Length");
    NeverSet(h.calls, "Transfer-Encoding");
    PlayLeaves(r0, h.calls, "Content-Length");
    PlayLeaves(r0, h.calls, "Transfer-Encoding");
    NoChunksInNothing();
  }

  lemma NewIsPlain(keep: bool)
    ensures var r := NewResponse(keep);
            && RT.AllPrintable(r.entries) && NoCaseTwins(r.entries) && r.status == 200 && r.body == ""
            && !Contains(r.entries, CONTENT_LENGTH) && Get(r.entries, TRANSFER_ENCODING) == ""
  {
    hide RT.Printable, CiEqual;
    KeptPrintable();
    ErrorEntriesPrintable();
    ConnectionIsOther();
    var r := NewResponse(keep);
    FirstIs(r.entries, CONTENT_LENGTH, 1);
    FirstIs(r.entries, TRANSFER_ENCODING, 1);
  }

  lemma KeptPrintable()
    ensures RT.Printable(Entry(CONNECTION, KEEP_ALIVE))
  {}

  lemma ConnectionIsOther()
    ensures !CiEqual(CONNECTION, CONTENT_LENGTH) && !CiEqual(CONNECTION, TRANSFER_ENCODING)
  {
    assert |Lower(CONNECTION)| == 10 && |Lower(CONTENT_LENGTH)| == 14 && |Lower(TRANSFER_ENCODING)| == 17;
  }

  /** And it meets every condition that the results about runs put on a handler. */
  lemma OrdinaryMeetsAll(h: Script)
    requires Ordinary(h)
    ensures Behaves(h) && Answers(h) && FramesItself(h) && HandlerMinds(h)
  {
    hide R.Play, NewResponse, Readable, R.SomeSends, FramesInTime, R.FirstSend, R.FramedBy, RespondsInFull, R.Framed,
         HeadersFit, R.StatusAfter, BodyAfter, CR.ReplyEnds, RT.AllPrintable, NoCaseTwins;
    forall keep: bool
      ensures R.Play(NewResponse(keep), h.calls).r.mode.Buffered? && RepliesInFull(R.Play(NewResponse(keep), h.calls).r)
    {
      OrdinaryIsReadable(keep, h);
      R.PlayMode(NewResponse(keep), h.calls);
      NewIsBuffered(keep);
      ReadableReplies(R.Play(NewResponse(keep), h.calls).r);
    }
  }

  lemma NewIsBuffered(keep: bool)
    ensures NewResponse(keep).mode.Buffered?
  {}

  lemma ReadableReplies(r: R.ResponseData)
    requires Readable(r) && CR.ReplyEnds(r)
    ensures RepliesInFull(r)
  {}

  // ── one answer ─────────────────────────────────────────────────────

  /**
   The answer to one request, read: what its handler set; a 500 with what it
   threw; or the refusal.
   */
  ghost predicate AnswerIsRead(hs: nat -> Script, k: nat, a: Action, wire: bytes, rest: bytes) {
    CR.HasBlock(wire) &&
    var parsed := CR.Parsed(wire);
    match a
    case Dispatched(req, _) =>
      var h := hs(k);
      if h.throws then
        && R.SaysStatus(wire, 500, "Internal Server Error") && CR.ReadsAs(wire, ThrownText(h.message), rest)
        && parsed.Header("Connection") == "close"
      else
        var code := R.StatusAfter(h.calls, 200);
        && code >= 0 && R.SaysStatus(wire, code, R.ReasonPhrase(code)) && CR.ReadsAs(wire, BodyAfter(h.calls, ""), rest)
        && (forall name :: HeaderAfter(h.calls, name).Some? ==> parsed.Header(name) == HeaderAfter(h.calls, name).value)
        && (HeaderAfter(h.calls, "Connection").None? ==> parsed.Header("Connection") == if AsksToClose(req) then "close" else "keep-alive")
    case _ =>
      && R.SaysStatus(wire, 413, "Payload Too Large") && CR.ReadsAs(wire, "413 Payload Too Large\n", rest)
      && parsed.Header("Connection") == "close"
  }

  /** The handler of that request is ordinary, or throws something a string can hold. */
  predicate Answerable(hs: nat -> Script, k: nat, a: Action) {
    !Broken(a) && (a.Dispatched? ==>
                     if hs(k).throws then |ThrownText(hs(k).message)| <= MAX_STRING else Ordinary(hs(k)))
  }

  lemma OneAnswerIsRead(hs: nat -> Script, k: nat, a: Action, rest: bytes)
    requires Answerable(hs, k, a)
    ensures AnswerIsRead(hs, k, a, ReplyTo(hs, k, a).data + rest, rest)
  {
    hide R.Play, R.Reply, R.ReasonPhrase, R.SaysStatus, CR.ReadsAs, CR.HasBlock, CR.Parsed, CR.ReplyEnds, NewResponse, Replacement,
         Refusal, HeaderAfter, BodyAfter, R.StatusAfter, KeepsAlive, AsksToClose, ThrownText, Readable, HeadersFit, Waits;
    var p := ReplyTo(hs, k, a);
    match a
    case Dispatched(req, _) =>
      if hs(k).throws {
        ReplacementIsRead(hs(k).message);
        StatusStays(p.data, rest, 500, "Internal Server Error");
      } else {
        OrdinaryIsReadable(KeepsAlive(req), hs(k));
        BufferedReplyIsRead(req, hs(k), rest);
        var code := R.StatusAfter(hs(k).calls, 200);
        StatusStays(p.data, rest, code, R.ReasonPhrase(code));
      }
    case Rejected =>
      RefusalIsRead();
      StatusStays(p.data, rest, 413, "Payload Too Large");
    case _ =>
  }

  lemma StatusStays(wire: bytes, rest: bytes, code: nat, phrase: bytes)
    requires R.SaysStatus(wire, code, phrase)
    ensures R.SaysStatus(wire + rest, code, phrase)
  {
    hide Value;
    var digits: bytes, tail: bytes :| R.StatusText(digits, phrase, tail) == wire && digits != [] && AllDigits(digits, 10) && Value(digits, 10) == code;
    assert R.StatusText(digits, phrase, tail + rest) == wire + rest;
  }

  // ── all of them ────────────────────────────────────────────────────

  /** From the answer to request k + 1 on, the bytes are the answers, one behind the other, and nothing more. */
  ghost predicate AllRead(hs: nat -> Script, actions: seq<Action>, k: nat, wire: bytes)
    requires k <= |actions|
    decreases |actions| - k
  {
    if k == |actions| then wire == []
    else exists rest: bytes :: NextIsRead(hs, actions, k, wire, rest) && AllRead(hs, actions, k + 1, rest)
  }

  /** The answer to request k + 1, with rest behind it. */
  ghost predicate NextIsRead(hs: nat -> Script, actions: seq<Action>, k: nat, wire: bytes, rest: bytes)
    requires k < |actions|
  {
    AnswerIsRead(hs, k + 1, actions[k], wire, rest)
  }

  lemma {:induction false} RepliesAre(hs: nat -> Script, actions: seq<Action>)
    requires forall i :: 0 <= i < |actions| ==> !Broken(actions[i])
    ensures var w := Replies(hs, actions);
            |w| == |actions| && forall i :: 0 <= i < |w| ==> w[i] == Sent(i + 1, ReplyTo(hs, i + 1, actions[i]))
    decreases |actions|
  {
    hide ReplyTo;
    if actions != [] { RepliesAre(hs, actions[..|actions| - 1]); }
  }

  lemma {:induction false} RepliesAreRead(hs: nat -> Script, actions: seq<Action>, k: nat)
    requires k <= |actions| && forall i :: 0 <= i < |actions| ==> Answerable(hs, i + 1, actions[i])
    requires |Replies(hs, actions)| == |actions|
    requires forall i :: 0 <= i < |actions| ==> Replies(hs, actions)[i] == Sent(i + 1, ReplyTo(hs, i + 1, actions[i]))
    ensures AllRead(hs, actions, k, WireBytes(Replies(hs, actions)[k..]))
    decreases |actions| - k
  {
    hide AnswerIsRead, ReplyTo, Answerable, Replies;
    var w := Replies(hs, actions);
    if k < |actions| {
      RepliesAreRead(hs, actions, k + 1);
      var rest := WireBytes(w[k + 1..]);
      assert w[k..][1..] == w[k + 1..];
      OneAnswerIsRead(hs, k + 1, actions[k], rest);
      assert NextIsRead(hs, actions, k, WireBytes(w[k..]), rest);
    }
  }

  /**
   In every run with buffered handlers whose writes succeed, whatever the
   stream and however it is read: when nothing is left to do, the client has
   read one answer for each request handed over or refused, in order, each with
   what its handler set, and has no byte left.
   */
  lemma ConversationIsRead(hs: nat -> Script, limit: nat, stream: bytes, run: seq<Turn>)
    requires CanRun(limit, Start(stream), run) && AllServed(hs, limit, Start(stream), run) && WritesSucceed(run)
    requires var t := Run(limit, Start(stream), run);
             t.pending == [] && forall i :: 0 <= i < |t.actions| ==> Answerable(hs, i + 1, t.actions[i])
    ensures var t := Run(limit, Start(stream), run); AllRead(hs, t.actions, 0, WireBytes(t.wire))
  {
    hide Sound, Run, CanRun, AllServed, WritesSucceed, Replies, ReplyTo, AllRead, Ends, Ordinary;
    var t := Run(limit, Start(stream), run);
    BufferedConversation(hs, limit, stream, run);
    RepliesAre(hs, t.actions);
    RepliesAreRead(hs, t.actions, 0);
    assert Replies(hs, t.actions)[0..] == Replies(hs, t.actions);
  }
}
