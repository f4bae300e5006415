/**
 How requests end: whether the connection goes on behind a response, and what
 every failure leads to. Said in the words on the wire.
 */
module ConnectionEnds {
  import opened Text
  import opened Headers
  import opened Request
  import opened Framing
  import opened Machine
  import opened ReaderProofs
  import opened WireProofs
  import opened Conversation
  import opened ClientSees
  import opened ConnectionTheorems
  import CR = ClientReads
  import R = Response

  // ── every run ──────────────────────────────────────────────────────

  /** In every run: a request that asks to close is the last one handed over, and nothing is refused behind it. */
  lemma ClosingRequestIsLast(limit: nat, stream: bytes, run: seq<Turn>, i: nat)
    requires CanRun(limit, Start(stream), run)
    requires var t := Run(limit, Start(stream), run); i < |t.actions| && t.actions[i].Dispatched? && AsksToClose(t.actions[i].req)
    ensures i == |Run(limit, Start(stream), run).actions| - 1
  {
    hide ParseAll, Run, CanRun, Sound, AsksToClose;
    RequestsFollowTheStream(limit, stream, run);
    ClosingIsLast(limit, stream);
    var t := Run(limit, Start(stream), run);
    assert t.actions[i] == ParseAll(limit, stream)[i];
  }

  /**
   With buffered handlers, in every run: when the response to the last request
   has been written, the connection shuts down if that request asked to close,
   and otherwise waits for the next header.
   */
  lemma AnswerDecidesReuse(hs: nat -> Script, limit: nat, stream: bytes, run: seq<Turn>)
    requires CanRun(limit, Start(stream), run) && AllServed(hs, limit, Start(stream), run)
    requires var t := Run(limit, Start(stream), run);
             && t.pending != [] && t.pending[0].op.WriteOut?
             && t.actions != [] && t.actions[|t.actions| - 1].Dispatched? && !hs(|t.actions|).throws
    ensures var t := Run(limit, Start(stream), run);
            var req := t.actions[|t.actions| - 1].req;
            && Enabled(t, t.pending[0].op, WriteEnded(true))
            && var u := Step(limit, t, 0, WriteEnded(true));
               if AsksToClose(req) then u.pending == [] && u.socket == ShutDown
               else |u.pending| == 1 && u.pending[0].op.HeaderRead?
  {
    hide Live, Conversed, Run, CanRun, AllServed, AsksToClose, Step, Enabled;
    var t := Run(limit, Start(stream), run);
    StartLives(limit, stream);
    RunLives(limit, stream, Start(stream), run);
    assert Conversed(hs, Start(stream), true) by { NothingYet(hs, stream); }
    RunConverses(hs, limit, stream, Start(stream), run, true);
    KeptAsAsked(hs, t, WritesSucceed(run));
    WriteCompletes(limit, stream, t);
  }

  lemma KeptAsAsked(hs: nat -> Script, s: State, ok: bool)
    requires Conversed(hs, s, ok) && s.actions != [] && s.actions[|s.actions| - 1].Dispatched? && !hs(|s.actions|).throws
    ensures s.keepAlive <==> !AsksToClose(s.actions[|s.actions| - 1].req)
  {
    hide Replies, KeepsAlive, AsksToClose;
    KeepsAliveUnlessAsked(s.actions[|s.actions| - 1].req);
  }

  lemma WriteCompletes(limit: nat, stream: bytes, s: State)
    requires Live(limit, stream, s) && s.pending != [] && s.pending[0].op.WriteOut?
    ensures Enabled(s, s.pending[0].op, WriteEnded(true))
    ensures var u := Step(limit, s, 0, WriteEnded(true));
            if s.keepAlive then |u.pending| == 1 && u.pending[0].op.HeaderRead? else u.pending == [] && u.socket == ShutDown
  {
    hide HeadsOf, InTurn;
    StepIsComplete(limit, stream, s, 0, WriteEnded(true));
    WrittenGoesOn(s.(pending := []), s.pending[0].op.reply);
  }

  lemma WrittenGoesOn(s: State, reply: R.Piece)
    requires s.pending == [] && s.socket.Open?
    ensures var u := OnWritten(s, reply, true);
            if s.keepAlive then |u.pending| == 1 && u.pending[0].op.HeaderRead? else u.pending == [] && u.socket == ShutDown
  {}

  /**
   With buffered handlers, at the end of every run whose writes succeed: if the
   last request asked to close, its response, the last thing on the wire, says
   close, unless the handler made it say something else; and the socket is shut
   down.
   */
  lemma ClosingIsAnnounced(hs: nat -> Script, limit: nat, stream: bytes, run: seq<Turn>, rest: bytes)
    requires CanRun(limit, Start(stream), run) && AllServed(hs, limit, Start(stream), run) && WritesSucceed(run)
    requires var t := Run(limit, Start(stream), run);
             var n := |t.actions|;
             && t.pending == [] && n > 0 && t.actions[n - 1].Dispatched? && AsksToClose(t.actions[n - 1].req)
             && !hs(n).throws && Waits(hs(n)) && HeaderAfter(hs(n).calls, "Connection").None?
             && Readable(R.Play(NewResponse(false), hs(n).calls).r)
    ensures var t := Run(limit, Start(stream), run);
            && t.socket == ShutDown && t.wire != [] && t.wire[|t.wire| - 1].request == |t.actions|
            && var sent := t.wire[|t.wire| - 1].piece.data;
               CR.HasBlock(sent + rest) && CR.Parsed(sent + rest).Header("Connection") == "close"
  {
    hide ParseAll, Sound, Run, CanRun, AllServed, KeepsAlive, AsksToClose, WritesSucceed, Waits, HeaderAfter, BodyAfter, Readable,
         R.Play, NewResponse, R.Reply, CR.HasBlock, CR.Parsed, R.StatusAfter, R.SaysStatus, R.ReasonPhrase;
    var t := Run(limit, Start(stream), run);
    var n := |t.actions|;
    var req := t.actions[n - 1].req;
    KeepsAliveUnlessAsked(req);
    BufferedConversation(hs, limit, stream, run);
    BufferedReplyIsRead(req, hs(n), rest);
    var p := ReplyTo(hs, n, t.actions[n - 1]);
    assert t.wire == Replies(hs, t.actions[..n - 1]) + [Sent(n, p)];
    assert t.wire[|t.wire| - 1] == Sent(n, p);
  }

  /** The same when the last handler threw: its 500 is the last thing on the wire, and the socket is shut down. */
  lemma ThrowIsAnnounced(hs: nat -> Script, limit: nat, stream: bytes, run: seq<Turn>)
    requires CanRun(limit, Start(stream), run) && AllServed(hs, limit, Start(stream), run) && WritesSucceed(run)
    requires var t := Run(limit, Start(stream), run);
             var n := |t.actions|;
             && t.pending == [] && n > 0 && t.actions[n - 1].Dispatched? && hs(n).throws
             && |ThrownText(hs(n).message)| <= MAX_STRING
    ensures var t := Run(limit, Start(stream), run);
            && t.socket == ShutDown && t.wire != [] && t.wire[|t.wire| - 1].request == |t.actions|
            && IsPlainError(t.wire[|t.wire| - 1].piece, 500, "Internal Server Error", ThrownText(hs(|t.actions|).message))
  {
    hide ParseAll, Sound, Run, CanRun, AllServed, KeepsAlive, WritesSucceed, ThrownText, IsPlainError,
         R.Play, NewResponse, R.Reply, Replacement;
    var t := Run(limit, Start(stream), run);
    var n := |t.actions|;
    BufferedConversation(hs, limit, stream, run);
    ReplacementIsRead(hs(n).message);
    var p := ReplyTo(hs, n, t.actions[n - 1]);
    assert t.wire == Replies(hs, t.actions[..n - 1]) + [Sent(n, p)];
    assert t.wire[|t.wire| - 1] == Sent(n, p);
  }

  // ── how a connection ends ──────────────────────────────────────────

  /** A read that fails, in every run: the socket closes, but for a header read that fails otherwise than by end or abort. */
  lemma FailedReadEnds(limit: nat, stream: bytes, s: State, pull: nat, error: Error)
    requires Live(limit, stream, s) && s.pending != [] && Enabled(s, s.pending[0].op, ReadFailed(pull, error))
    ensures var t := Step(limit, s, 0, ReadFailed(pull, error));
            && t.pending == [] && !t.processing && t.actions == s.actions && t.wire == s.wire
            && t.socket == if s.pending[0].op.HeaderRead? && error == Other then Open else Closed
  {
    hide Find, HeadsOf, InTurn;
    StepIsComplete(limit, stream, s, 0, ReadFailed(pull, error));
  }

  /** A size line that has no size: the socket closes and nothing more is done. */
  lemma MalformedSizeEnds(limit: nat, stream: bytes, s: State, pull: nat, h: Script, line: bytes, more: bytes)
    requires Live(limit, stream, s) && s.pending != [] && s.pending[0].op.SizeLine? && pull <= |s.unread|
    requires IsLine(line) && ChunkSize(line) == None && s.buffer + s.unread[..pull] == line + "\r\n" + more
    ensures Enabled(s, s.pending[0].op, LineArrived(pull, h))
    ensures var t := Step(limit, s, 0, LineArrived(pull, h));
            t.pending == [] && !t.processing && t.actions == s.actions && t.wire == s.wire && t.socket == Closed
  {
    hide Find, ChunkSize, IsLine, HeadsOf, InTurn, AfterSizeLine, OnHeader, OnTrailer;
    LineIsFound(line, more);
    StepIsComplete(limit, stream, s, 0, LineArrived(pull, h));
    assert (line + CRLF + more)[..|line|] == line;
  }

  /** A write that fails ends the connection and leaves the socket as it is. */
  lemma FailedWriteEnds(limit: nat, stream: bytes, s: State)
    requires Live(limit, stream, s) && s.pending != [] && s.pending[0].op.WriteOut?
    ensures var t := Step(limit, s, 0, WriteEnded(false));
            t.pending == [] && !t.processing && t.actions == s.actions && t.wire == s.wire && t.socket == Open
  {
    hide Find, HeadsOf, InTurn;
    StepIsComplete(limit, stream, s, 0, WriteEnded(false));
  }

  // ── nothing is left out of the runs ────────────────────────────────

  /** A read up to a delimiter can complete with any amount taken that holds the delimiter, with any handler. */
  lemma AnyOvershoot(s: State, op: Op, pull: nat, i: nat, h: Script)
    requires ReadsLine(op) && pull <= |s.unread|
    requires OccursAt(s.buffer + s.unread[..pull], if op.HeaderRead? then "\r\n\r\n" else "\r\n", i)
    ensures Enabled(s, op, LineArrived(pull, h))
  {
    FindFirst(s.buffer + s.unread[..pull], Delimiter(op), 0);
  }

  /** A read of a number of bytes can complete when they are there; and every read can fail at any point before that. */
  lemma AnyFailure(s: State, op: Op, pull: nat, h: Script)
    requires pull <= |s.unread|
    ensures ReadsBytes(op) && op.need <= |s.unread| ==> Enabled(s, op, BytesArrived(h))
    ensures ReadsLine(op) || (ReadsBytes(op) && pull < op.need) ==>
              Enabled(s, op, ReadFailed(pull, Aborted)) && Enabled(s, op, ReadFailed(pull, Other))
    ensures ReadsLine(op) && !(exists i :: OccursAt(s.buffer + s.unread, Delimiter(op), i)) ==> Enabled(s, op, ReadFailed(|s.unread|, Eof))
    ensures ReadsBytes(op) && |s.unread| < op.need ==> Enabled(s, op, ReadFailed(|s.unread|, Eof))
  {
    if ReadsLine(op) { FindFirst(s.buffer + s.unread, Delimiter(op), 0); }
  }
}
