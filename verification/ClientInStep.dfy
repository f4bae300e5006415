/**
 The client's side of whole runs: when every response ends where its header
 block says, a client that reads the bytes as the blocks say gets one response
 for each request and is left, whenever the server awaits the next header, with
 nothing.
 */
module ClientInStep {
  import opened Text
  import opened Headers
  import opened Request
  import opened Framing
  import opened Machine
  import opened ReaderProofs
  import opened WireProofs
  import opened ReuseProofs
  import opened Conversation
  import C = ChunkRoundTrip
  import CR = ClientReads
  import R = Response
  import RT = ResponseRoundTrip

  // ── headers first, then the body ───────────────────────────────────

  predicate IsSetup(c: R.Call) { c.SetStatus? || c.SetHeader? || c.SetBody? || c.StartStream? }

  predicate AllSetup(calls: seq<R.Call>) { forall i :: 0 <= i < |calls| ==> IsSetup(calls[i]) }

  /** The calls up to the first that writes. */
  function Setup(calls: seq<R.Call>): (s: seq<R.Call>)
    ensures AllSetup(s) && s <= calls
  {
    if calls == [] || !IsSetup(calls[0]) then [] else [calls[0]] + Setup(calls[1..])
  }

  /** And the others. */
  function Body(calls: seq<R.Call>): (b: seq<R.Call>)
    ensures Setup(calls) + b == calls
  {
    calls[|Setup(calls)|..]
  }

  lemma {:induction false} PlayAppend(r: R.ResponseData, a: seq<R.Call>, b: seq<R.Call>)
    ensures var e := R.Play(r, a);
            R.Play(r, a + b).r == R.Play(e.r, b).r && R.Play(r, a + b).out == e.out + R.Play(e.r, b).out
    decreases |a|
  {
    hide R.Apply;
    if a == [] {
      assert a + b == b && [] + R.Play(r, b).out == R.Play(r, b).out;
    } else {
      var e := R.Apply(r, a[0]);
      assert (a + b)[1..] == a[1..] + b;
      PlayAppend(e.r, a[1..], b);
      Assoc(e.out, R.Play(e.r, a[1..]).out, R.Play(R.Play(e.r, a[1..]).r, b).out);
    }
  }

  /** A response none of which has been sent, whatever its header fields. */
  predicate Unsent(r: R.ResponseData) {
    R.ModeInvariant(r) && r.attached && !r.flushed && !r.chunked && r.entries != []
  }

  lemma {:induction false} SetupKeeps(r: R.ResponseData, calls: seq<R.Call>)
    requires Unsent(r) && AllSetup(calls)
    ensures Unsent(R.Play(r, calls).r) && R.Play(r, calls).out == []
    decreases |calls|
  {
    if calls != [] {
      hide R.Apply, Unsent;
      OneKeeps(r, calls[0]);
      SetupKeeps(R.Apply(r, calls[0]).r, calls[1..]);
    }
  }

  lemma OneKeeps(r: R.ResponseData, c: R.Call)
    requires Unsent(r) && IsSetup(c)
    ensures Unsent(R.Apply(r, c).r) && R.Apply(r, c).out == []
  {
    hide NoCaseTwins;
    R.CallSendsOneHead(r, c);
  }

  /** The response with its headers set, as it is when the body begins. */
  function Begun(r: R.ResponseData, calls: seq<R.Call>): R.ResponseData { R.Play(r, Setup(calls)).r }

  /** The calls set printable headers and then write a body in one of the two ways. */
  predicate Responds(r: R.ResponseData, calls: seq<R.Call>) {
    RT.AllPrintable(Begun(r, calls).entries) && CR.WritesBody(Body(calls))
  }

  /** And the body ends where the header block says. */
  predicate RespondsInFull(r: R.ResponseData, calls: seq<R.Call>, inJob: bool) {
    Responds(r, calls) && CR.BodyEnds(Begun(r, calls), Body(calls), inJob)
  }

  lemma BegunIsReady(r: R.ResponseData, calls: seq<R.Call>)
    requires Unsent(r) && Responds(r, calls)
    ensures CR.Ready(Begun(r, calls)) && Unsent(Begun(r, calls))
    ensures R.Play(r, calls).out == R.Play(Begun(r, calls), Body(calls)).out
    ensures R.Play(r, calls).r == R.Play(Begun(r, calls), Body(calls)).r
  {
    hide R.Play, CR.WritesBody, RT.Printable, NoCaseTwins;
    SetupKeeps(r, Setup(calls));
    PlayAppend(r, Setup(calls), Body(calls));
    assert [] + R.Play(Begun(r, calls), Body(calls)).out == R.Play(Begun(r, calls), Body(calls)).out;
  }

  lemma NewIsUnsent(keep: bool)
    ensures Unsent(NewResponse(keep))
  {
    NewResponseSound(keep, []);
    NewResponseUnframed(keep);
  }

  /** Writing a body writes. */
  lemma BodyWrites(calls: seq<R.Call>)
    requires CR.WritesBody(Body(calls))
    ensures R.Writes(calls)
  {
    hide Setup;
    var b, n := Body(calls), |Setup(calls)|;
    if CR.RawWrites(b) && b != [] {
      assert calls[n] == b[0];
    } else {
      var i := SomeChunkIn(b);
      assert calls[n + i] == b[i];
    }
  }

  lemma {:induction false} SomeChunkIn(calls: seq<R.Call>) returns (i: nat)
    requires C.Data(calls) != []
    ensures i < |calls| && R.IsChunk(calls[i])
  {
    i := 0;
    if !R.IsChunk(calls[0]) {
      var j := SomeChunkIn(calls[1..]);
      i := j + 1;
    }
  }

  /** The entries when the calls are done. */
  lemma FinalFraming(r: R.ResponseData, calls: seq<R.Call>)
    requires r.attached && !r.flushed && !r.chunked && CR.WritesBody(calls)
    ensures R.Framed(R.Play(r, calls).r.entries) <==> (CR.RawWrites(calls) ==> R.Framed(r.entries))
  {
    hide R.Play, R.MarkChunked, R.HeaderBlock, C.FromFirst, C.Encoded;
    assert C.Data([]) == [];
    if CR.RawWrites(calls) {
      CR.RawEncode(r, calls);
    } else {
      C.EarlierCallsDoNothing(r, calls);
      C.ChunkCallsEncode(r, C.FromFirst(calls));
    }
  }

  // ── one answer ─────────────────────────────────────────────────────

  /**
   A handler that writes its response itself, on the wire: the next request is
   read exactly when this one asked for it and the body is sent in chunks or a
   framing header was set before it; and a client that reads the response as its
   header block says gets exactly the body and leaves what follows if and only
   if the body ends where the block says. For chunks that is when the encoding
   says chunked and the handler made one end_chunks call, behind all of them.
   */
  lemma HandlerBodyOnTheWire(s: State, req: RequestData, h: Script, rest: bytes)
    requires s.pending == [] && !h.throws && !R.Streams(h.calls)
    requires Responds(NewResponse(KeepsAlive(req)), h.calls)
    ensures var t, r, body := Dispatch(s, req, h), Begun(NewResponse(KeepsAlive(req)), h.calls), Body(h.calls);
            var out := CR.BodyOut(r, body, false);
            && t.wire == s.wire + Tag(|s.actions| + 1, out)
            && (t.pending != [] <==> KeepsAlive(req) && (CR.RawWrites(body) ==> R.Framed(r.entries)))
            && (t.pending != [] ==> t.pending[0].op.HeaderRead?)
            && CR.HasBlock(C.Bytes(out) + rest)
            && (CR.ReadsAs(C.Bytes(out) + rest, CR.BodyOf(body), rest) <==> CR.BodyEnds(r, body, false))
  {
    hide R.Play, NewResponse, KeepsAlive, R.Framed, R.Writes, R.Streams, R.SomeSends, Setup, Responds, Begun, Body,
         CR.WritesBody, CR.RawWrites, CR.BodyOf, CR.BodyEnds, CR.HasBlock, CR.ReadsAs, CR.Ready, C.Bytes, Unsent, R.ModeInvariant;
    var keep := KeepsAlive(req);
    HandlerSends(keep, h.calls);
    HandlerLeaves(keep, h.calls);
    CR.ClientReadsBody(Begun(NewResponse(keep), h.calls), Body(h.calls), false, rest);
  }

  /** What such a handler has sent, and leaves in the entries. */
  lemma HandlerSends(keep: bool, calls: seq<R.Call>)
    requires Responds(NewResponse(keep), calls)
    ensures var r, body, e := Begun(NewResponse(keep), calls), Body(calls), R.Play(NewResponse(keep), calls);
            && CR.Ready(r) && CR.WritesBody(body) && R.Writes(calls)
            && e.out == CR.BodyOut(r, body, false)
            && (R.Framed(e.r.entries) <==> (CR.RawWrites(body) ==> R.Framed(r.entries)))
  {
    hide R.Play, NewResponse, R.Framed, R.Writes, Setup, Begun, Body, CR.WritesBody, CR.RawWrites, RT.Printable;
    var r, body := Begun(NewResponse(keep), calls), Body(calls);
    NewIsUnsent(keep);
    BegunIsReady(NewResponse(keep), calls);
    BodyWrites(calls);
    FinalFraming(r, body);
    assert R.Play(r, body).out + [] == R.Play(r, body).out;
  }

  /** The same of a stream job, which ends the chunks itself. */
  lemma StreamBodyOnTheWire(s: State, resp: R.ResponseData, job: Script, sendOk: bool, rest: bytes)
    requires Unsent(resp) && !job.throws && Responds(resp, job.calls)
    ensures var r, body := Begun(resp, job.calls), Body(job.calls);
            var out := CR.BodyOut(r, body, true);
            && OnJob(s, resp, job, true, true, sendOk).wire == s.wire + Tag(|s.actions|, out)
            && CR.HasBlock(C.Bytes(out) + rest)
            && (CR.ReadsAs(C.Bytes(out) + rest, CR.BodyOf(body), rest) <==> CR.BodyEnds(r, body, true))
  {
    hide R.Play, R.EndChunks, Setup, Begun, Body, CR.WritesBody, CR.BodyOf, CR.BodyEnds, CR.HasBlock, CR.ReadsAs, CR.Ready, C.Bytes, Unsent, RT.Printable;
    BegunIsReady(resp, job.calls);
    CR.ClientReadsBody(Begun(resp, job.calls), Body(job.calls), true, rest);
  }

  // ── every run ──────────────────────────────────────────────────────

  /** Whatever follows it, a client reads these pieces as one response with that body. */
  ghost predicate IsResponse(out: seq<R.Piece>, body: bytes) {
    forall rest: bytes :: CR.ReadsAs(C.Bytes(out) + rest, body, rest)
  }

  /** They are one response. */
  ghost predicate IsWhole(out: seq<R.Piece>) { exists body :: IsResponse(out, body) }

  /** A handler all of whose responses are complete: throws end the connection, the rest has to end where its block says. */
  predicate HandlerMinds(h: Script) {
    forall keep: bool ::
      var r := NewResponse(keep);
      || h.throws
      || (if R.Streams(h.calls) then AllSetup(h.calls)
          else if R.Writes(h.calls) then RespondsInFull(r, h.calls, false)
          else RepliesInFull(R.Play(r, h.calls).r))
  }

  predicate RepliesInFull(r: R.ResponseData) {
    RT.AllPrintable(r.entries) && |r.body| <= MAX_STRING && CR.ReplyEnds(r)
  }

  /** What each completion has to see to. */
  predicate Minds(op: Op, e: Event) {
    match e
    case LineArrived(_, h) => HandlerMinds(h)
    case BytesArrived(h) => HandlerMinds(h)
    case JobRan(job, flushOk, endOk, _) =>
      op.PoolJob? ==> job.throws || (flushOk && endOk && RespondsInFull(op.resp, job.calls, true))
    case _ => true
  }

  ghost predicate WholeUpTo(s: State, n: int) {
    forall k: nat :: 1 <= k <= n ==> IsWhole(AnswerTo(s.wire, k))
  }

  /** Every response after which the connection was used again is complete; one still to come will be. */
  ghost predicate InStep(s: State) {
    && WholeUpTo(s, if Reusing(s) then |s.actions| else |s.actions| - 1)
    && (s.pending != [] ==>
          var op, sent := s.pending[0].op, AnswerTo(s.wire, |s.actions|);
          && (op.WriteOut? && s.keepAlive ==> sent == [] && IsWhole([op.reply]))
          && (op.PoolJob? ==> sent == [] && Unsent(op.resp)))
  }

  lemma WholeAfter(s: State, n: nat, out: seq<R.Piece>)
    requires WholeUpTo(s, n - 1)
    ensures forall k: nat :: 1 <= k < n ==> IsWhole(AnswerTo(s.wire + Tag(n, out), k))
    ensures AnswerTo(s.wire + Tag(n, out), n) == AnswerTo(s.wire, n) + out
  {
    hide AnswerTo, IsWhole;
    AnswersAfter(s.wire, n, out);
    forall k: nat | 1 <= k < n
      ensures IsWhole(AnswerTo(s.wire + Tag(n, out), k))
    {
      assert AnswerTo(s.wire, k) + [] == AnswerTo(s.wire, k);
    }
  }

  lemma BodyIsWhole(r: R.ResponseData, calls: seq<R.Call>, inJob: bool)
    requires CR.Ready(r) && CR.WritesBody(calls) && CR.BodyEnds(r, calls, inJob)
    ensures IsWhole(CR.BodyOut(r, calls, inJob))
  {
    hide CR.BodyOut, CR.BodyOf, CR.BodyEnds, CR.Ready, CR.WritesBody, CR.ReadsAs, CR.HasBlock, C.Bytes;
    forall rest: bytes
      ensures CR.ReadsAs(C.Bytes(CR.BodyOut(r, calls, inJob)) + rest, CR.BodyOf(calls), rest)
    {
      CR.ClientReadsBody(r, calls, inJob, rest);
    }
    assert IsResponse(CR.BodyOut(r, calls, inJob), CR.BodyOf(calls));
  }

  lemma ReplyIsWhole(r: R.ResponseData)
    requires NoCaseTwins(r.entries) && RepliesInFull(r)
    ensures IsWhole([R.Reply(r)])
  {
    hide R.Serialize, CR.ReplyEnds, CR.ReadsAs, CR.HasBlock, RT.Printable, NoCaseTwins;
    var out := [R.Reply(r)];
    assert C.Bytes(out) == R.Serialize(r) by { assert out[1..] == []; }
    forall rest: bytes
      ensures CR.ReadsAs(C.Bytes(out) + rest, r.body, rest)
    {
      CR.ClientReadsReply(r, rest);
    }
    assert IsResponse(out, r.body);
  }

  lemma SetupLeaves(keep: bool, calls: seq<R.Call>)
    requires AllSetup(calls)
    ensures Unsent(R.Play(NewResponse(keep), calls).r) && R.Play(NewResponse(keep), calls).out == []
  {
    NewIsUnsent(keep);
    SetupKeeps(NewResponse(keep), calls);
  }

  lemma DispatchInStep(s: State, req: RequestData, h: Script)
    requires Ready(s) && WholeUpTo(s, |s.actions|) && HandlerMinds(h)
    ensures InStep(Dispatch(s, req, h))
  {
    hide R.Play, NewResponse, KeepsAlive, R.Framed, R.Writes, R.Streams, R.Reply, Replacement, RespondsInFull, RepliesInFull, AllSetup,
         AnswerTo, IsWhole, Unsent, InTurn, Legible, R.SomeSends, HeadsOf, NoCaseTwins, Contains;
    var keep, n := KeepsAlive(req), |s.actions| + 1;
    var e := R.Play(NewResponse(keep), h.calls);
    HandlerLeaves(keep, h.calls);
    NewResponseSound(keep, h.calls);
    WholeAfter(s, n, e.out);
    NothingSent(s);
    if !h.throws {
      if R.Streams(h.calls) {
        SetupLeaves(keep, h.calls);
      } else if R.Writes(h.calls) {
        HandlerIsWhole(keep, h.calls);
        assert [] + e.out == e.out;
      } else {
        ReplyIsWhole(e.r);
      }
    }
  }

  lemma HandlerIsWhole(keep: bool, calls: seq<R.Call>)
    requires RespondsInFull(NewResponse(keep), calls, false)
    ensures IsWhole(R.Play(NewResponse(keep), calls).out)
  {
    hide R.Play, NewResponse, IsWhole, Begun, Body, CR.BodyEnds, Responds;
    HandlerSends(keep, calls);
    BodyIsWhole(Begun(NewResponse(keep), calls), Body(calls), false);
  }

  lemma JobIsWhole(resp: R.ResponseData, job: Script, sendOk: bool)
    requires Unsent(resp) && !job.throws && RespondsInFull(resp, job.calls, true)
    ensures IsWhole(JobOut(resp, job, true, true, sendOk))
  {
    hide R.Play, R.EndChunks, IsWhole, Unsent, Begun, Body, CR.BodyEnds, CR.WritesBody, CR.Ready, RT.Printable;
    BegunIsReady(resp, job.calls);
    BodyIsWhole(Begun(resp, job.calls), Body(job.calls), true);
  }

  lemma LandInStep(s: State, l: Landing, h: Script)
    requires Ready(s) && WholeUpTo(s, |s.actions|) && HandlerMinds(h) && WithinBody(l)
    ensures InStep(Land(s, l, h))
  {
    hide Dispatch, HandlerMinds, ErrorResponse, R.Reply, IsWhole, InTurn, Legible, AnswerTo, HeadsOf;
    match l
    case ToHandler(req) => DispatchInStep(s, req, h);
    case _ =>
  }

  lemma WrittenInStep(s: State, reply: R.Piece, ok: bool)
    requires s.pending == [] && InStep(Issue(s, WriteOut(reply)))
    ensures InStep(OnWritten(s, reply, ok))
  {
    hide AnswerTo, IsWhole;
    WholeAfter(s, |s.actions|, [reply]);
    assert [] + [reply] == [reply];
  }

  lemma JobInStep(s: State, resp: R.ResponseData, job: Script, flushOk: bool, endOk: bool, sendOk: bool)
    requires s.pending == [] && InStep(Issue(s, PoolJob(resp))) && Minds(PoolJob(resp), JobRan(job, flushOk, endOk, sendOk))
    ensures InStep(OnJob(s, resp, job, flushOk, endOk, sendOk))
  {
    hide AnswerTo, IsWhole, JobOut, RespondsInFull, Unsent;
    var out := JobOut(resp, job, flushOk, endOk, sendOk);
    WholeAfter(s, |s.actions|, out);
    if !job.throws { JobIsWhole(resp, job, sendOk); }
    assert [] + out == out;
  }

  lemma CompleteInStep(limit: nat, s: State, op: Op, e: Event)
    requires Ready(s) && Enabled(s, op, e) && InStep(Issue(s, op)) && Minds(op, e)
    ensures InStep(Complete(limit, s, op, e))
  {
    hide Land, OnJob, OnWritten, Find, Orderly, HandlerMinds, RespondsInFull, IsWhole, AnswerTo, Unsent;
    match e
    case WriteEnded(ok) => WrittenInStep(s, op.reply, ok);
    case JobRan(job, flushOk, endOk, sendOk) => JobInStep(s, op.resp, job, flushOk, endOk, sendOk);
    case HopRan =>
    case ReadFailed(pull, error) =>
    case _ =>
      hide Complete;
      var s1, l := ReadLands(limit, s, op, e);
      OnwardIsReady(s, s1);
      LandInStep(s1, l, e.handler);
  }

  predicate AllMind(limit: nat, s: State, run: seq<Turn>)
    requires CanRun(limit, s, run)
    decreases |run|
  {
    run == [] ||
    (Minds(s.pending[run[0].k].op, run[0].event)
     && AllMind(limit, Step(limit, s, run[0].k, run[0].event), run[1..]))
  }

  lemma {:induction false} RunInStep(limit: nat, stream: bytes, s: State, run: seq<Turn>)
    requires Live(limit, stream, s) && InStep(s) && CanRun(limit, s, run) && AllMind(limit, s, run)
    ensures InStep(Run(limit, s, run))
    decreases |run|
  {
    if run != [] {
      hide Live, Step, Enabled, Complete, Minds, InStep, WireProofs.Ready, Owes, Fuel, Answered, AnswersEvent;
      StepIsComplete(limit, stream, s, run[0].k, run[0].event);
      CompleteInStep(limit, Taken(s), s.pending[0].op, run[0].event);
      StepLives(limit, stream, s, run[0].k, run[0].event);
      RunInStep(limit, stream, Step(limit, s, run[0].k, run[0].event), run[1..]);
    }
  }

  lemma StartInStep(stream: bytes)
    ensures InStep(Start(stream))
  {}

  /** In every such run, each response after which the connection was used again is complete on the wire. */
  lemma EveryReusedResponseIsWhole(limit: nat, stream: bytes, run: seq<Turn>, k: nat)
    requires CanRun(limit, Start(stream), run) && AllMind(limit, Start(stream), run)
    requires var t := Run(limit, Start(stream), run);
             1 <= k <= |t.actions| && (k == |t.actions| ==> Reusing(t))
    ensures IsWhole(AnswerTo(Run(limit, Start(stream), run).wire, k))
  {
    hide Live, CanRun, Run, IsWhole, AllMind, AnswerTo;
    StartLives(limit, stream);
    StartInStep(stream);
    RunInStep(limit, stream, Start(stream), run);
  }

  // ── the whole wire ─────────────────────────────────────────────────

  /** All the bytes sent. */
  function WireBytes(w: seq<Sent>): bytes {
    if w == [] then [] else w[0].piece.data + WireBytes(w[1..])
  }

  /** The answers to requests k to n, one behind the other. */
  function AnswersFrom(w: seq<Sent>, k: nat, n: nat): bytes
    decreases n + 1 - k
  {
    if k > n then [] else C.Bytes(AnswerTo(w, k)) + AnswersFrom(w, k + 1, n)
  }

  lemma {:induction false} OthersUnmoved(w: seq<Sent>, k: nat, n: nat)
    requires w != [] && w[0].request < k
    ensures AnswersFrom(w, k, n) == AnswersFrom(w[1..], k, n)
    decreases n + 1 - k
  {
    if k <= n {
      OthersUnmoved(w, k + 1, n);
      assert AnswerTo(w, k) == [] + AnswerTo(w[1..], k) == AnswerTo(w[1..], k);
    }
  }

  lemma {:induction false} NotYetBegun(w: seq<Sent>, k: nat)
    requires forall i :: 0 <= i < |w| ==> w[i].request > k
    ensures AnswerTo(w, k) == []
  {
    if w != [] { NotYetBegun(w[1..], k); }
  }

  lemma {:induction false} NoAnswers(k: nat, n: nat)
    ensures AnswersFrom([], k, n) == []
    decreases n + 1 - k
  {
    if k <= n { NoAnswers(k + 1, n); }
  }

  /** Sent in turn, the bytes on the wire are the answers one behind the other. */
  lemma {:induction false} WireIsAnswers(w: seq<Sent>, k: nat, n: nat)
    requires InTurn(w, n) && forall i :: 0 <= i < |w| ==> w[i].request >= k
    ensures WireBytes(w) == AnswersFrom(w, k, n)
    decreases |w|, n + 1 - k
  {
    hide AnswersFrom, AnswerTo, C.Bytes;
    if w == [] {
      NoAnswers(k, n);
    } else {
      assert k <= w[0].request <= n;
      if w[0].request == k {
        assert forall i :: 0 <= i < |w[1..]| ==> w[1..][i] == w[i + 1];
        WireIsAnswers(w[1..], k, n);
        FirstPiece(w, k, n);
      } else {
        assert forall i :: 0 <= i < |w| ==> w[i].request >= w[0].request > k;
        WireIsAnswers(w, k + 1, n);
        FromStep(w, k, n);
        NotYetBegun(w, k);
        assert C.Bytes([]) == [] by { NoBytes(); }
      }
    }
  }

  lemma NoBytes()
    ensures C.Bytes([]) == []
  {}

  lemma FirstPiece(w: seq<Sent>, k: nat, n: nat)
    requires w != [] && w[0].request == k <= n
    ensures AnswersFrom(w, k, n) == w[0].piece.data + AnswersFrom(w[1..], k, n)
  {
    hide AnswersFrom;
    OthersUnmoved(w, k + 1, n);
    FromStep(w, k, n);
    FromStep(w[1..], k, n);
    assert C.Bytes(AnswerTo(w, k)) == w[0].piece.data + C.Bytes(AnswerTo(w[1..], k)) by {
      assert ([w[0].piece] + AnswerTo(w[1..], k))[1..] == AnswerTo(w[1..], k);
    }
    Assoc(w[0].piece.data, C.Bytes(AnswerTo(w[1..], k)), AnswersFrom(w[1..], k + 1, n));
  }

  lemma FromStep(w: seq<Sent>, k: nat, n: nat)
    requires k <= n
    ensures AnswersFrom(w, k, n) == C.Bytes(AnswerTo(w, k)) + AnswersFrom(w, k + 1, n)
  {
    hide AnswerTo, C.Bytes;
  }

  /** Read one response after another, the wire has these bodies and nothing more. */
  ghost predicate ReadsAll(wire: bytes, bodies: seq<bytes>)
    decreases |bodies|
  {
    if bodies == [] then wire == []
    else exists rest: bytes :: CR.ReadsAs(wire, bodies[0], rest) && ReadsAll(rest, bodies[1..])
  }

  lemma {:induction false} AnswersAreRead(s: State, k: nat, n: nat) returns (bodies: seq<bytes>)
    requires 1 <= k <= n + 1 && WholeUpTo(s, n)
    ensures |bodies| == n + 1 - k && ReadsAll(AnswersFrom(s.wire, k, n), bodies)
    decreases n + 1 - k
  {
    hide CR.ReadsAs, C.Bytes, AnswerTo;
    if k > n {
      bodies := [];
    } else {
      var more := AnswersAreRead(s, k + 1, n);
      var body :| IsResponse(AnswerTo(s.wire, k), body);
      bodies := [body] + more;
      var rest := AnswersFrom(s.wire, k + 1, n);
      assert CR.ReadsAs(C.Bytes(AnswerTo(s.wire, k)) + rest, body, rest);
      assert bodies[1..] == more;
    }
  }

  /**
   Whenever the server awaits the next header, a client that reads what it was
   sent as the header blocks say has read exactly one response for each request
   handed over, and has no byte left.
   */
  lemma ClientIsInStep(limit: nat, stream: bytes, run: seq<Turn>) returns (bodies: seq<bytes>)
    requires CanRun(limit, Start(stream), run) && AllMind(limit, Start(stream), run)
    requires var t := Run(limit, Start(stream), run); t.pending != [] && t.pending[0].op.HeaderRead?
    ensures var t := Run(limit, Start(stream), run);
            |bodies| == |t.actions| && ReadsAll(WireBytes(t.wire), bodies)
  {
    hide Sound, CanRun, Run, IsWhole, AllMind, AnswerTo, HeadsOf, ReadsAll;
    var t := Run(limit, Start(stream), run);
    StartLives(limit, stream);
    StartInStep(stream);
    RunLives(limit, stream, Start(stream), run);
    RunInStep(limit, stream, Start(stream), run);
    bodies := AnswersAreRead(t, 1, |t.actions|);
    WireIsAnswers(t.wire, 1, |t.actions|);
  }
}
