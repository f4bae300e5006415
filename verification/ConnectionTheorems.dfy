/**
 What holds of every run of a connection: termination, what the wire carries,
 and the results a user of the library relies on.
 */
module ConnectionTheorems {
  import opened Text
  import opened Numbers
  import opened Headers
  import opened Request
  import opened Framing
  import opened Machine
  import opened ReaderProofs
  import opened WireProofs
  import opened ReuseProofs
  import opened Conversation
  import opened ClientSees
  import R = Response
  import RT = ResponseRoundTrip

  // ── the requests ───────────────────────────────────────────────────

  /**
   Safety: whatever the reads overshoot by, whatever the handlers do and
   whatever fails, the requests handed over so far (and the refusals) are the
   first ones of the whole-stream reading, in order, each once; and every
   state on the way is sound.
   */
  lemma RequestsFollowTheStream(limit: nat, stream: bytes, run: seq<Turn>)
    requires CanRun(limit, Start(stream), run)
    ensures Sound(limit, stream, Run(limit, Start(stream), run))
    ensures Run(limit, Start(stream), run).actions <= ParseAll(limit, stream)
  {
    hide ParseAll, Sound, Remaining;
    StartLives(limit, stream);
    RunKeeps(limit, stream, Start(stream), run);
    assert Start(stream).actions + Remaining(limit, Start(stream)) == ParseAll(limit, stream);
  }

  /**
   Completeness: if nothing failed before the peer's end of stream and the
   handlers behaved, a connection with nothing left to do has handed over
   exactly the requests of the whole-stream reading.
   */
  lemma RequestsCompleteTheStream(limit: nat, stream: bytes, run: seq<Turn>)
    requires CanRun(limit, Start(stream), run) && AllBenign(run)
    requires Run(limit, Start(stream), run).pending == []
    ensures Run(limit, Start(stream), run).actions == ParseAll(limit, stream)
  {
    hide ParseAll, Sound, Remaining, Run, CanRun, Benign;
    StartLives(limit, stream);
    RunKeeps(limit, stream, Start(stream), run);
    assert Start(stream).actions + Remaining(limit, Start(stream)) == ParseAll(limit, stream);
    NothingRemains(limit, Run(limit, Start(stream), run));
  }

  /** Termination: no run takes more than four turns a byte, and one. */
  lemma RunsAreFinite(limit: nat, stream: bytes, run: seq<Turn>)
    requires CanRun(limit, Start(stream), run)
    ensures |run| <= 4 * |stream| + 1
  {
    StartLives(limit, stream);
    RunLives(limit, stream, Start(stream), run);
  }

  const QUIET := Script([], false, [])

  lemma QuietBehaves()
    ensures Behaves(QUIET)
  {
    forall keep: bool
      ensures R.Play(NewResponse(keep), QUIET.calls).r == NewResponse(keep)
    {}
  }

  /** No connection is stuck: whatever it waits for, the socket, the pool or the end of the stream can complete it. */
  lemma SomethingCanHappen(limit: nat, stream: bytes, s: State) returns (e: Event)
    requires Sound(limit, stream, s) && s.pending != []
    ensures Enabled(s, s.pending[0].op, e) && Benign(e)
  {
    hide Find, Behaves;
    QuietBehaves();
    var op, n := s.pending[0].op, |s.unread|;
    if ReadsLine(op) {
      assert s.unread[..n] == s.unread;
      e := if Find(s.buffer + s.unread, Delimiter(op), 0).Some? then LineArrived(n, QUIET) else ReadFailed(n, Eof);
    } else if ReadsBytes(op) {
      e := if op.need <= n then BytesArrived(QUIET) else ReadFailed(n, Eof);
    } else {
      e := match op case WriteOut(_) => WriteEnded(true) case PoolJob(_) => JobRan(QUIET, true, true, true) case _ => HopRan;
    }
  }

  /** So every sound connection can be run to its end, and then it has done all the stream asks for. */
  lemma {:induction false} EveryStreamIsServed(limit: nat, stream: bytes, s: State) returns (run: seq<Turn>)
    requires Live(limit, stream, s)
    ensures CanRun(limit, s, run) && AllBenign(run) && Run(limit, s, run).pending == []
    ensures Run(limit, s, run).actions == s.actions + Remaining(limit, s)
    decreases Fuel(s)
  {
    hide Find, Step, Remaining, Benign, Orderly, Owes, Follows, Fuel, Enabled, Sound;
    if s.pending == [] {
      run := [];
      NothingRemains(limit, s);
    } else {
      var e := SomethingCanHappen(limit, stream, s);
      StepKeeps(limit, stream, s, 0, e);
      StepLives(limit, stream, s, 0, e);
      var t := Step(limit, s, 0, e);
      var more := EveryStreamIsServed(limit, stream, t);
      run := [Turn(0, e)] + more;
      assert run[1..] == more;
      FollowsExactly(limit, t, s.actions + Remaining(limit, s));
    }
  }

  lemma FollowsExactly(limit: nat, t: State, expected: seq<Action>)
    requires Follows(limit, t, expected, true)
    ensures t.actions + Remaining(limit, t) == expected
  {}

  // ── after a throw ──────────────────────────────────────────────────

  /** Once nothing remains of the whole-stream reading, no run hands over another request. */
  lemma NoFurtherRequest(limit: nat, stream: bytes, s: State, run: seq<Turn>)
    requires Live(limit, stream, s) && CanRun(limit, s, run)
    requires Remaining(limit, s) == []
    ensures Run(limit, s, run).actions == s.actions
  {
    hide Sound, Orderly, Owes, CanRun, Run, Remaining;
    RunKeeps(limit, stream, s, run);
    RunLives(limit, stream, s, run);
    assert s.actions + [] == s.actions;
  }

  lemma DispatchThrows(limit: nat, s: State, req: RequestData, h: Script)
    requires s.pending == [] && h.throws
    ensures Remaining(limit, Dispatch(s, req, h)) == []
  {
    hide R.Play, ParseAll, R.Reply, Replacement, NewResponse;
  }

  lemma LandThrows(limit: nat, s: State, l: Landing, h: Script)
    requires s.pending == [] && h.throws && WithinBody(l)
    ensures Land(s, l, h).actions == s.actions || Remaining(limit, Land(s, l, h)) == []
  {
    hide Dispatch, ParseAll, R.Reply, ErrorResponse;
    match l
    case ToHandler(req) => DispatchThrows(limit, s, req, h);
    case _ =>
  }

  predicate Throws(e: Event) {
    match e
    case LineArrived(_, h) => h.throws
    case BytesArrived(h) => h.throws
    case JobRan(job, _, _, _) => job.throws
    case _ => false
  }

  /** If the handler ran and threw, or the stream function did, nothing more will be read. */
  lemma ThrowEndsReading(limit: nat, s: State, op: Op, e: Event)
    requires s.pending == [] && Enabled(s, op, e) && Throws(e)
    ensures var t := Complete(limit, s, op, e);
            (e.JobRan? || t.actions != s.actions) ==> Remaining(limit, t) == []
  {
    hide Complete, Land, Remaining, Find;
    if Arrives(e) {
      var s1, l := ReadLands(limit, s, op, e);
      LandThrows(limit, s1, l, e.handler);
    } else {
      JobThrows(limit, s, op, e);
    }
  }

  lemma JobThrows(limit: nat, s: State, op: Op, e: Event)
    requires s.pending == [] && Enabled(s, op, e) && e.JobRan? && Throws(e)
    ensures Remaining(limit, Complete(limit, s, op, e)) == []
  {
    hide JobOut, ParseAll;
  }

  /** After a throw no further request is handed over, in any continuation. */
  lemma NoRequestAfterThrow(limit: nat, stream: bytes, s: State, k: nat, e: Event, run: seq<Turn>)
    requires Live(limit, stream, s) && k < |s.pending| && Enabled(s, s.pending[k].op, e) && Throws(e)
    requires var t := Step(limit, s, k, e);
             CanRun(limit, t, run) && (e.JobRan? || t.actions != s.actions)
    ensures Run(limit, Step(limit, s, k, e), run).actions == Step(limit, s, k, e).actions
  {
    hide Complete, CanRun, Run, Sound, Orderly, Owes, Find, Remaining;
    StepLives(limit, stream, s, k, e);
    assert s.pending[..k] + s.pending[k + 1..] == [] by { LiveIsAlone(limit, stream, s); }
    ThrowEndsReading(limit, s.(pending := []), s.pending[k].op, e);
    NoFurtherRequest(limit, stream, Step(limit, s, k, e), run);
  }

  lemma LiveIsAlone(limit: nat, stream: bytes, s: State)
    requires Live(limit, stream, s)
    ensures |s.pending| <= 1
  {}

  /** In every run, each request is answered with at most one header block. */
  lemma OneHeaderBlockPerRequest(limit: nat, stream: bytes, run: seq<Turn>, k: nat)
    requires CanRun(limit, Start(stream), run)
    ensures HeadsOf(Run(limit, Start(stream), run).wire, k) <= 1
  {
    hide Sound, CanRun, Run, HeadsOf;
    StartLives(limit, stream);
    RunLives(limit, stream, Start(stream), run);
  }

  /**
   And when the calls of every handler and stream function get a response out,
   a connection with nothing left to do has answered every request with exactly
   one header block.
   */
  lemma EveryRequestIsAnsweredOnce(limit: nat, stream: bytes, run: seq<Turn>, k: nat)
    requires CanRun(limit, Start(stream), run) && AllAnswering(limit, Start(stream), run)
    requires var t := Run(limit, Start(stream), run);
             t.pending == [] && 1 <= k <= |t.actions| && !Broken(t.actions[k - 1])
    ensures HeadsOf(Run(limit, Start(stream), run).wire, k) == 1
  {
    hide Sound, CanRun, Run, HeadsOf, AllAnswering, InTurn;
    StartLives(limit, stream);
    RunAnswers(limit, stream, Start(stream), run);
  }

  /**
   In every run, responses go out in the order of the requests, none before its
   request is handed over; and each header block prints its entries.
   */
  lemma ResponsesAreInTurn(limit: nat, stream: bytes, run: seq<Turn>)
    requires CanRun(limit, Start(stream), run)
    ensures InTurn(Run(limit, Start(stream), run).wire, |Run(limit, Start(stream), run).actions|)
    ensures Legible(Run(limit, Start(stream), run).wire)
  {
    hide Sound, CanRun, Run, HeadsOf, InTurn, Legible;
    StartLives(limit, stream);
    RunLives(limit, stream, Start(stream), run);
  }

  /** In every run, a header is awaited at the start of the stream or exactly behind the last request. */
  lemma HeaderIsAwaitedAtBoundary(limit: nat, stream: bytes, run: seq<Turn>)
    requires CanRun(limit, Start(stream), run)
    requires var t := Run(limit, Start(stream), run); t.pending != [] && t.pending[0].op.HeaderRead?
    ensures var t := Run(limit, Start(stream), run);
            if t.actions == [] then t.consumed == []
            else t.actions[|t.actions| - 1].Dispatched? && t.consumed + t.actions[|t.actions| - 1].rest == stream
  {
    hide CanRun, Run, HeadsOf, InTurn;
    StartLives(limit, stream);
    RunLives(limit, stream, Start(stream), run);
  }

  // ── answers ────────────────────────────────────────────────────────

  /** The state once the one outstanding write has succeeded. */
  function AfterWrite(limit: nat, t: State): State
    requires |t.pending| == 1 && t.pending[0].op.WriteOut?
  {
    Step(limit, t, 0, WriteEnded(true))
  }

  lemma AfterWriteIs(limit: nat, t: State)
    requires |t.pending| == 1 && t.pending[0].op.WriteOut?
    ensures AfterWrite(limit, t) == OnWritten(t.(pending := []), t.pending[0].op.reply, true)
  {
    assert t.pending[..0] + t.pending[1..] == [];
  }

  /**
   A buffered answer: nothing goes out before it; what goes out is the
   handler's response, serialized, once, as the answer to this request; and
   then the next request is read exactly when this one asked for it.
   */
  lemma BufferedAnswer(limit: nat, s: State, req: RequestData, h: Script)
    requires s.pending == [] && s.socket.Open? && !h.throws && Waits(h)
    ensures var t, reply := Dispatch(s, req, h), R.Reply(R.Play(NewResponse(KeepsAlive(req)), h.calls).r);
            t.wire == s.wire && |t.pending| == 1 && t.pending[0].op == WriteOut(reply)
            && var u := AfterWrite(limit, t);
               u.wire == s.wire + [Sent(|s.actions| + 1, reply)]
               && u.actions == s.actions + [Dispatched(req, Upcoming(s))]
               && (if KeepsAlive(req) then u.pending != [] && u.pending[0].op.HeaderRead?
                   else u.pending == [] && u.socket == ShutDown)
  {
    hide R.Play, NewResponse, R.Reply, KeepsAlive, AfterWrite, Dispatch, Waits;
    BufferedDispatch(s, req, h);
    DispatchKeepsSocket(s, req, h);
    AfterWriteIs(limit, Dispatch(s, req, h));
  }

  lemma DispatchKeepsSocket(s: State, req: RequestData, h: Script)
    requires s.pending == [] && Waits(h)
    ensures Dispatch(s, req, h).socket == s.socket
  {
    hide R.Play, NewResponse, R.Reply, KeepsAlive, R.Writes, R.Streams, R.SomeSends, R.Heads;
    HandlerLeaves(KeepsAlive(req), h.calls);
  }

  /** A handler that throws before any of its writes succeeds: the client reads the 500 with what it threw, and the connection ends. */
  lemma ThrownAnswer(limit: nat, s: State, req: RequestData, h: Script)
    requires s.pending == [] && s.socket.Open? && h.throws && !R.SomeSends(false, h.calls)
    ensures var t, reply := Dispatch(s, req, h), R.Reply(Replacement(h.message));
            t.wire == s.wire && |t.pending| == 1 && t.pending[0].op == WriteOut(reply)
            && var u := AfterWrite(limit, t);
               u.wire == s.wire + [Sent(|s.actions| + 1, reply)] && u.pending == [] && u.socket == ShutDown
               && (|ThrownText(h.message)| <= MAX_STRING ==>
                     IsPlainError(reply, 500, "Internal Server Error", ThrownText(h.message)))
  {
    hide R.Play, NewResponse, R.Reply, KeepsAlive, Replacement, AfterWrite, IsPlainError, ThrownText, R.Writes, R.Streams, R.SomeSends, R.Heads;
    if |ThrownText(h.message)| <= MAX_STRING { ReplacementIsRead(h.message); }
    HandlerLeaves(KeepsAlive(req), h.calls);
    NewResponseSound(KeepsAlive(req), h.calls);
    assert s.wire + Tag(|s.actions| + 1, []) == s.wire;
    AfterWriteIs(limit, Dispatch(s, req, h));
  }

  /**
   In every run, whatever came before it: a refused request is answered with
   the 413 and nothing else, the connection is not kept, and when the write is
   done the socket is shut down.
   */
  lemma EveryRefusalIsAnswered(limit: nat, stream: bytes, run: seq<Turn>)
    requires CanRun(limit, Start(stream), run) && WritesSucceed(run)
    requires Run(limit, Start(stream), run).pending == [] && Refuses(Run(limit, Start(stream), run))
    ensures var t := Run(limit, Start(stream), run);
            AnswerTo(t.wire, |t.actions|) == [Refusal()] && !t.keepAlive && t.socket == ShutDown
            && IsPlainError(Refusal(), 413, "Payload Too Large", "413 Payload Too Large\n")
  {
    hide Live, CanRun, Run, AnswerTo, WritesSucceed, Refusal, IsPlainError;
    RefusalIsRead();
    StartLives(limit, stream);
    RunRefuses(limit, stream, Start(stream), run, true);
  }

  // ── what a client sees ─────────────────────────────────────────────

  /** No handler is ever given a body over the limit, in any run. */
  lemma EveryHandledBodyFits(limit: nat, stream: bytes, run: seq<Turn>, i: nat)
    requires CanRun(limit, Start(stream), run)
    requires i < |Run(limit, Start(stream), run).actions| && Run(limit, Start(stream), run).actions[i].Dispatched?
    ensures Fits(limit, |Run(limit, Start(stream), run).actions[i].req.body|)
  {
    hide ParseAll, Run, CanRun, Sound;
    RequestsFollowTheStream(limit, stream, run);
    HandledBodiesFit(limit, stream);
    assert Run(limit, Start(stream), run).actions[i] == ParseAll(limit, stream)[i];
  }

  /**
   Pipelining, end to end: requests sent back to back, each within the limit
   and asking to keep the connection, are handed over one by one, in order and
   with exactly their bodies, whatever amounts the reads happen to take.
   */
  lemma PipelinedConnection(limit: nat, ms: seq<Message>, run: seq<Turn>)
    requires AllProper(limit, ms)
    requires CanRun(limit, Start(SendAll(ms)), run) && AllBenign(run)
    requires Run(limit, Start(SendAll(ms)), run).pending == []
    ensures Run(limit, Start(SendAll(ms)), run).actions == Requests(ms, [])
  {
    hide Run, CanRun, Requests, SendAll, AllProper;
    RequestsCompleteTheStream(limit, SendAll(ms), run);
    PipelineParses(limit, ms);
  }

  lemma PipelineParses(limit: nat, ms: seq<Message>)
    requires AllProper(limit, ms)
    ensures ParseAll(limit, SendAll(ms)) == Requests(ms, [])
  {
    hide Requests, SendAll, AllProper;
    PipelinedRequests(limit, ms, []);
    assert SendAll(ms) + [] == SendAll(ms);
    assert ParseAll(limit, []) == [];
    assert Requests(ms, []) + [] == Requests(ms, []);
  }

  /** And whenever it waits for the next header after k of them, exactly those k have been taken from the stream. */
  lemma PipelinedBoundaries(limit: nat, ms: seq<Message>, run: seq<Turn>)
    requires AllProper(limit, ms) && CanRun(limit, Start(SendAll(ms)), run)
    requires var t := Run(limit, Start(SendAll(ms)), run); t.pending != [] && t.pending[0].op.HeaderRead?
    ensures var t := Run(limit, Start(SendAll(ms)), run);
            |t.actions| <= |ms| && t.consumed == SendAll(ms[..|t.actions|])
  {
    hide Run, CanRun, Requests, SendAll, AllProper, ParseAll, Sound;
    RequestsFollowTheStream(limit, SendAll(ms), run);
    PipelineParses(limit, ms);
    HeaderIsAwaitedAtBoundary(limit, SendAll(ms), run);
    var t := Run(limit, Start(SendAll(ms)), run);
    var k := |t.actions|;
    assert k <= |ms|;
    SendAllSplits(ms, k);
    if k > 0 {
      RequestsAt(ms, [], k - 1);
      assert t.actions[k - 1] == Requests(ms, [])[k - 1];
      assert SendAll(ms[k..]) + [] == SendAll(ms[k..]);
      SameFront(t.consumed, SendAll(ms[..k]), SendAll(ms[k..]));
    } else {
      assert ms[..0] == [] && SendAll([]) == [] by { SendNothing(); }
    }
  }

  lemma SendNothing()
    ensures SendAll([]) == []
  {}

  lemma SameFront<T>(a: seq<T>, b: seq<T>, c: seq<T>)
    requires a + c == b + c
    ensures a == b
  {
    assert |a + c| == |b + c|;
    assert a == (a + c)[..|a|] && b == (b + c)[..|b|];
  }

  /** With buffered handlers, the client gets exactly their responses, in order. */
  lemma PipelinedReplies(hs: nat -> Script, limit: nat, ms: seq<Message>, run: seq<Turn>)
    requires AllProper(limit, ms)
    requires CanRun(limit, Start(SendAll(ms)), run) && AllBenign(run) && AllServed(hs, limit, Start(SendAll(ms)), run)
    requires Run(limit, Start(SendAll(ms)), run).pending == []
    ensures Run(limit, Start(SendAll(ms)), run).wire == Replies(hs, Requests(ms, []))
  {
    hide Run, CanRun, Requests, SendAll, AllProper, AllServed, Replies, ParseAll;
    BufferedConversation(hs, limit, SendAll(ms), run);
    PipelineParses(limit, ms);
  }

  /**
   The limit, end to end: behind any requests that are served, a proper request
   over the limit is refused and not handled; nothing behind it is read; its
   whole answer is the 413, and the socket is shut down.
   */
  lemma OversizedRequestIsRefused(limit: nat, ms: seq<Message>, m: Message, rest: bytes, run: seq<Turn>)
    requires AllProper(limit, ms) && m.Proper() && limit != 0 && |m.Body()| > limit
    requires CanRun(limit, Start(SendAll(ms) + (m.Send() + rest)), run) && AllBenign(run)
    requires Run(limit, Start(SendAll(ms) + (m.Send() + rest)), run).pending == []
    ensures var t := Run(limit, Start(SendAll(ms) + (m.Send() + rest)), run);
            t.actions == Requests(ms, m.Send() + rest) + [Rejected]
            && AnswerTo(t.wire, |ms| + 1) == [Refusal()] && !t.keepAlive && t.socket == ShutDown
            && (ms == [] ==> t.wire == [Sent(1, Refusal())])
  {
    hide Run, CanRun, ParseAll, AllProper, Requests, SendAll, AnswerTo, Refusal, Benign, InTurn,
         Message.Proper, Message.Send, Message.Body;
    var stream := SendAll(ms) + (m.Send() + rest);
    RequestsCompleteTheStream(limit, stream, run);
    PipelinedRequests(limit, ms, m.Send() + rest);
    OneMessage(limit, m, rest);
    BenignWrites(run);
    EveryRefusalIsAnswered(limit, stream, run);
    if ms == [] {
      ResponsesAreInTurn(limit, stream, run);
      OnlyAnswer(Run(limit, Start(stream), run).wire, Refusal());
    }
  }

  lemma {:induction false} AllToTheFirst(w: seq<Sent>)
    requires InTurn(w, 1)
    ensures |AnswerTo(w, 1)| == |w| && forall i :: 0 <= i < |w| ==> w[i] == Sent(1, AnswerTo(w, 1)[i])
  {
    if w != [] { AllToTheFirst(w[1..]); }
  }

  lemma OnlyAnswer(w: seq<Sent>, p: R.Piece)
    requires InTurn(w, 1) && AnswerTo(w, 1) == [p]
    ensures w == [Sent(1, p)]
  {
    AllToTheFirst(w);
  }

  /** The library's own 413 and 500: the client parses the header block, is told to close, and finds exactly the body. */
  lemma ErrorResponseRoundTrip(status: int, body: bytes, rest: bytes)
    requires |body| <= MAX_STRING
    ensures var wire := R.Serialize(ErrorResponse(status, body)) + rest;
            exists i: nat :: Find(wire, CRLFCRLF, 0) == Some(i) && WithHeader(EMPTY_REQUEST, wire[..i + 4]).Some?
              && var req := WithHeader(EMPTY_REQUEST, wire[..i + 4]).value;
                 req.Header(CONNECTION) == CLOSE && ParseBody(0, req, wire[i + 4..]) == Done(body, rest)
  {
    hide R.Serialize, R.Block, R.SerializedEntries, Find, WithHeader, ParseBody, RT.Printable;
    var r := ErrorResponse(status, body);
    ErrorEntries(status, body);
    ErrorEntriesPrintable();
    RT.BufferedResponseRoundTrip(r, rest, CONNECTION);
    SerializedConnection(r);
    var b, wire := R.Block(r.status, R.SerializedEntries(r)), R.Serialize(r) + rest;
    var i: nat := |b| - 4;
    assert wire[..i + 4] == b && wire[i + 4..] == body + rest;
    assert Find(wire, CRLFCRLF, 0) == Some(i);
  }

  lemma SerializedConnection(r: R.ResponseData)
    requires r.entries == [Entry(CONTENT_TYPE, PLAIN), Entry(CONNECTION, CLOSE)] && !Contains(r.entries, CONTENT_LENGTH)
    ensures Contains(R.SerializedEntries(r), CONNECTION) && Get(R.SerializedEntries(r), CONNECTION) == CLOSE
  {
    assert |Lower(CONTENT_TYPE)| == 12 && |Lower(CONNECTION)| == 10;
    FirstIs(R.SerializedEntries(r), CONNECTION, 1);
  }
}
