/**
 Reusing a connection after a response: does the header block that was sent
 announce a framing, that is a length or an encoding? The connection decides by
 the entries of the response object; what counts is the block on the wire.
 Whether the body then ends where the block says is the matter of ClientReads
 and ClientInStep.
 */
module ReuseProofs {
  import opened Text
  import opened Headers
  import opened Request
  import opened Framing
  import opened Machine
  import opened ReaderProofs
  import opened WireProofs
  import Numbers
  import R = Response

  // ── framing on the wire ────────────────────────────────────────────

  /** A header block among these pieces announces a length or an encoding. */
  predicate ShowsFraming(out: seq<R.Piece>) { exists i :: 0 <= i < |out| && out[i].Head? && R.Framed(out[i].entries) }

  /** The header block of the response to request k announces a framing. */
  predicate AnswerAnnounces(w: seq<Sent>, k: nat) { ShowsFraming(AnswerTo(w, k)) }

  lemma ShowsAppend(a: seq<R.Piece>, b: seq<R.Piece>)
    ensures ShowsFraming(a + b) <==> ShowsFraming(a) || ShowsFraming(b)
  {
    hide R.Framed;
    if ShowsFraming(a) {
      var i :| 0 <= i < |a| && a[i].Head? && R.Framed(a[i].entries);
      assert (a + b)[i] == a[i];
    }
    if ShowsFraming(b) {
      var i :| 0 <= i < |b| && b[i].Head? && R.Framed(b[i].entries);
      assert (a + b)[|a| + i] == b[i];
    }
  }

  lemma {:induction false} NoHeadShowsNothing(out: seq<R.Piece>)
    requires R.Heads(out) == 0
    ensures !ShowsFraming(out)
  {
    hide R.Framed;
    if out != [] {
      NoHeadShowsNothing(out[1..]);
      assert out == [out[0]] + out[1..];
      ShowsAppend([out[0]], out[1..]);
    }
  }

  lemma FirstShows(out: seq<R.Piece>)
    requires out != [] && out[0].Head? && R.Heads(out) == 1
    ensures ShowsFraming(out) <==> R.Framed(out[0].entries)
  {
    hide R.Framed;
    assert out == [out[0]] + out[1..];
    NoHeadShowsNothing(out[1..]);
    ShowsAppend([out[0]], out[1..]);
  }

  lemma AnnouncedAfter(w: seq<Sent>, j: nat, out: seq<R.Piece>)
    ensures forall k: nat :: AnswerAnnounces(w + Tag(j, out), k) <==> AnswerAnnounces(w, k) || (j == k && ShowsFraming(out))
  {
    hide ShowsFraming, AnswerTo;
    AnswersAfter(w, j, out);
    forall k: nat
      ensures AnswerAnnounces(w + Tag(j, out), k) <==> AnswerAnnounces(w, k) || (j == k && ShowsFraming(out))
    {
      ShowsAppend(AnswerTo(w, k), if j == k then out else []);
      NoHeadShowsNothing([]);
    }
  }

  lemma ReplyShowsFraming(r: R.ResponseData)
    ensures R.Reply(r).Head? && R.Framed(R.Reply(r).entries) && ShowsFraming([R.Reply(r)])
  {
    hide R.Block;
    if !Contains(r.entries, CONTENT_LENGTH) {
      var e := Entry(CONTENT_LENGTH, Numbers.Numeral(|r.body|, 10));
      FirstIs(r.entries + [e], CONTENT_LENGTH, |r.entries|);
    }
    assert [R.Reply(r)][0] == R.Reply(r);
  }

  // ── read off the calls ─────────────────────────────────────────────

  /** What calls on a response whose header block is still to be sent make of it. */
  predicate CallsFrame(r: R.ResponseData, calls: seq<R.Call>) {
    R.SomeSends(r.chunked, calls) && (R.Framed(r.entries) || R.FramedBy(calls, R.FirstSend(r.chunked, calls) + 1))
  }

  lemma PlayShows(r: R.ResponseData, calls: seq<R.Call>)
    requires R.ModeInvariant(r) && r.attached
    ensures ShowsFraming(R.Play(r, calls).out) <==> !r.flushed && CallsFrame(r, calls)
  {
    hide R.ModeInvariant, R.Play, R.Framed, R.FramedBy, R.FramedAfter;
    R.PlaySendsOneHead(r, calls);
    var out := R.Play(r, calls).out;
    if r.flushed {
      NoHeadShowsNothing(out);
    } else {
      R.PlayAnnounces(r, calls);
      if R.Play(r, calls).r.flushed { FirstShows(out); } else { NoHeadShowsNothing(out); }
    }
  }

  lemma EndShows(r: R.ResponseData, flushOk: bool, endOk: bool)
    requires R.ModeInvariant(r) && r.attached
    ensures ShowsFraming(R.EndChunks(r, flushOk, endOk).out) <==> !r.flushed && r.chunked && flushOk
  {
    hide R.HeaderBlock;
    R.EndSendsOneHead(r, flushOk, endOk);
    var out := R.EndChunks(r, flushOk, endOk).out;
    if !r.flushed && r.chunked && flushOk { FirstShows(out); } else { NoHeadShowsNothing(out); }
  }

  /**
   A stream job has its response announce a framing: at its first successful
   write the response has a framing header, of its own or set by then, or that
   write is a chunk; or no write succeeded, but there was a chunk to end and the
   header block went out with that.
   */
  predicate JobFrames(resp: R.ResponseData, calls: seq<R.Call>, flushOk: bool) {
    if R.SomeSends(resp.chunked, calls) then CallsFrame(resp, calls)
    else flushOk && (resp.chunked || R.SomeChunk(calls))
  }

  lemma JobShows(resp: R.ResponseData, job: Script, flushOk: bool, endOk: bool, sendOk: bool)
    requires R.ModeInvariant(resp) && resp.attached && !job.throws
    ensures ShowsFraming(JobOut(resp, job, flushOk, endOk, sendOk)) <==>
            !resp.flushed && JobFrames(resp, job.calls, flushOk)
  {
    hide R.Play, R.EndChunks, ShowsFraming, R.ModeInvariant, R.Framed, R.FramedBy, R.FramedAfter, R.SomeChunk;
    var e := R.Play(resp, job.calls);
    R.PlaySendsOneHead(resp, job.calls);
    PlayShows(resp, job.calls);
    EndShows(e.r, flushOk, endOk);
    ShowsAppend(e.out, R.EndChunks(e.r, flushOk, endOk).out);
    if !resp.flushed { R.PlayAnnounces(resp, job.calls); }
  }

  /**
   A handler that writes its response itself sets its framing headers, if any,
   in time: not for the first time after the first successful write; and if no
   write succeeds, not at all.
   */
  predicate FramesInTime(calls: seq<R.Call>) {
    var k := R.FirstSend(false, calls);
    if k < |calls| then R.FramedBy(calls, k + 1) || !R.FramedAfter(calls, k) else !R.FramedBy(calls, k)
  }

  lemma NewResponseUnframed(keep: bool)
    ensures !R.Framed(NewResponse(keep).entries) && !NewResponse(keep).chunked
    ensures NewResponse(keep).entries == [Entry(CONNECTION, if keep then KEEP_ALIVE else CLOSE)]
  {
    assert |Lower(CONNECTION)| == 10 && |Lower(CONTENT_LENGTH)| == 14 && |Lower(TRANSFER_ENCODING)| == 17;
  }

  /** The response of a handler, its entries and the block it sent. */
  lemma HandlerFrames(keep: bool, calls: seq<R.Call>)
    ensures var e, k := R.Play(NewResponse(keep), calls), R.FirstSend(false, calls);
            && (R.Framed(e.r.entries) <==> R.FramedBy(calls, k + 1) || R.FramedAfter(calls, k))
            && (ShowsFraming(e.out) <==> k < |calls| && R.FramedBy(calls, k + 1))
  {
    hide R.Play, R.Framed, ShowsFraming, R.FramedBy, R.FramedAfter, R.ModeInvariant, NewResponse, R.Heads, R.OneHeadStep, R.FirstSend;
    NewResponseSound(keep, calls);
    NewResponseUnframed(keep);
    R.PlayAnnounces(NewResponse(keep), calls);
    PlayShows(NewResponse(keep), calls);
  }

  lemma FramedByAll(calls: seq<R.Call>)
    ensures R.FramedBy(calls, |calls| + 1) <==> R.FramedBy(calls, |calls|)
    ensures !R.FramedAfter(calls, |calls|)
  {}

  // ── exactly when the block announces a framing ─────────────────────

  /**
   A handler that wrote its response itself. The next request is read exactly
   when this one asked for it and a framing header was set at any time. That
   the header block on the wire announces a framing then is true exactly when
   the framing headers were set in time, or the request did not ask for reuse.
   */
  lemma ImmediateReuseAnnounces(s: State, req: RequestData, h: Script)
    requires Ready(s) && !h.throws && R.Writes(h.calls) && !R.Streams(h.calls)
    ensures var t, k := Dispatch(s, req, h), R.FirstSend(false, h.calls);
            && (t.pending != [] <==> KeepsAlive(req) && (R.FramedBy(h.calls, k + 1) || R.FramedAfter(h.calls, k)))
            && (t.pending != [] ==> t.pending[0].op.HeaderRead?)
            && ((t.pending != [] ==> AnswerAnnounces(t.wire, |t.actions|)) <==> !KeepsAlive(req) || FramesInTime(h.calls))
  {
    hide R.Play, NewResponse, KeepsAlive, R.Framed, R.Writes, R.Streams, AnswerTo, ShowsFraming, R.FramedBy, R.FramedAfter, R.ModeInvariant;
    var keep, n := KeepsAlive(req), |s.actions| + 1;
    HandlerLeaves(keep, h.calls);
    HandlerFrames(keep, h.calls);
    FramedByAll(h.calls);
    AnnouncedAfter(s.wire, n, R.Play(NewResponse(keep), h.calls).out);
    NotYetAnswered(s);
  }

  lemma NotYetAnswered(s: State)
    requires Orderly(s)
    ensures !AnswerAnnounces(s.wire, |s.actions| + 1)
  {
    hide AnswerTo, InTurn;
    assert HeadsOf(s.wire, |s.actions| + 1) == 0;
    NoHeadShowsNothing(AnswerTo(s.wire, |s.actions| + 1));
  }

  /**
   A stream function. When its job and the hop back are done the next request
   is read exactly when this one asked for it and nothing threw, whatever the
   header block announced. That it announces a framing then is true exactly when
   the job had it do so (or the handler had already sent a block that does), or
   the connection is not reused.
   */
  lemma StreamReuseAnnounces(limit: nat, s: State, resp: R.ResponseData, job: Script, flushOk: bool, endOk: bool, sendOk: bool)
    requires Ready(s) && R.ModeInvariant(resp) && resp.attached
    requires HeadsOf(s.wire, |s.actions|) == if resp.flushed then 1 else 0
    ensures var t := OnJob(s, resp, job, flushOk, endOk, sendOk);
            && |t.pending| == 1 && t.pending[0].op.FinishHop? && Enabled(t, FinishHop, HopRan)
            && var u := Step(limit, t, 0, HopRan);
               && (u.pending != [] <==> s.keepAlive && !job.throws)
               && (u.pending != [] ==> u.pending[0].op.HeaderRead?)
               && ((u.pending != [] ==> AnswerAnnounces(u.wire, |u.actions|)) <==>
                   !s.keepAlive || job.throws
                   || (if resp.flushed then AnswerAnnounces(s.wire, |s.actions|) else JobFrames(resp, job.calls, flushOk)))
  {
    hide JobOut, JobFrames, AnswerTo, ShowsFraming, R.ModeInvariant;
    AnnouncedAfter(s.wire, |s.actions|, JobOut(resp, job, flushOk, endOk, sendOk));
    if !job.throws { JobShows(resp, job, flushOk, endOk, sendOk); }
    if !resp.flushed { NoHeadShowsNothing(AnswerTo(s.wire, |s.actions|)); }
  }

  /**
   A stream job leaves its request without any header block, and the connection
   goes on to the next request, exactly when none was sent before it, it does
   not throw and none of its writes gets one out.
   */
  lemma SilentReuse(limit: nat, s: State, resp: R.ResponseData, job: Script, flushOk: bool, endOk: bool, sendOk: bool)
    requires Ready(s) && R.ModeInvariant(resp) && resp.attached
    requires HeadsOf(s.wire, |s.actions|) == if resp.flushed then 1 else 0
    ensures var t := OnJob(s, resp, job, flushOk, endOk, sendOk);
            && |t.pending| == 1 && t.pending[0].op.FinishHop? && Enabled(t, FinishHop, HopRan)
            && var u := Step(limit, t, 0, HopRan);
               (u.pending != [] && HeadsOf(u.wire, |u.actions|) == 0 <==>
                s.keepAlive && !job.throws && !resp.flushed && !JobAnswers(resp, job, flushOk, sendOk))
  {
    hide JobOut, JobAnswers, AnswerTo, R.ModeInvariant, R.Heads;
    JobHeads(resp, job, flushOk, endOk, sendOk);
    AnswersAfter(s.wire, |s.actions|, JobOut(resp, job, flushOk, endOk, sendOk));
  }

  // ── every run ──────────────────────────────────────────────────────

  /** What the handler, or the stream function, has to see to; a buffered response and a throw need nothing. */
  predicate FramesEvent(op: Op, e: Event) {
    match e
    case LineArrived(_, h) => FramesItself(h)
    case BytesArrived(h) => FramesItself(h)
    case JobRan(job, flushOk, _, _) =>
      op.PoolJob? ==> job.throws || op.resp.flushed || JobFrames(op.resp, job.calls, flushOk)
    case _ => true
  }

  predicate FramesItself(h: Script) {
    var k := R.FirstSend(false, h.calls);
    || h.throws
    || (if R.Streams(h.calls) then k < |h.calls| ==> R.FramedBy(h.calls, k + 1)
        else R.Writes(h.calls) ==> FramesInTime(h.calls))
  }

  ghost predicate AnnouncedUpTo(s: State, n: int) {
    forall k: nat :: 1 <= k <= n ==> AnswerAnnounces(s.wire, k)
  }

  /** The last response is done with, and the connection is in use for the next request. */
  predicate Reusing(s: State) {
    s.pending != [] && !s.pending[0].op.WriteOut? && !s.pending[0].op.PoolJob? && (s.pending[0].op.FinishHop? ==> s.keepAlive)
  }

  /** Every response after which the connection was reused announces a framing; one still to be completed will. */
  ghost predicate ReuseAnnounced(s: State) {
    && AnnouncedUpTo(s, if Reusing(s) then |s.actions| else |s.actions| - 1)
    && (s.pending != [] ==>
          var op := s.pending[0].op;
          && (op.WriteOut? ==> op.reply.Head? && R.Framed(op.reply.entries))
          && (op.PoolJob? && op.resp.flushed ==> AnswerAnnounces(s.wire, |s.actions|)))
  }

  lemma DispatchReuses(s: State, req: RequestData, h: Script)
    requires Ready(s) && AnnouncedUpTo(s, |s.actions|) && FramesItself(h)
    ensures ReuseAnnounced(Dispatch(s, req, h))
  {
    hide R.Play, NewResponse, KeepsAlive, R.Framed, R.Writes, R.Streams, R.Reply, R.ModeInvariant, Replacement,
         AnswerTo, ShowsFraming, InTurn, R.FramedBy, R.FramedAfter;
    var keep, n := KeepsAlive(req), |s.actions| + 1;
    var e := R.Play(NewResponse(keep), h.calls);
    HandlerLeaves(keep, h.calls);
    HandlerFrames(keep, h.calls);
    FramedByAll(h.calls);
    AnnouncedAfter(s.wire, n, e.out);
    ReplyShowsFraming(e.r);
    ReplyShowsFraming(Replacement(h.message));
  }

  lemma LandReuses(s: State, l: Landing, h: Script)
    requires Ready(s) && AnnouncedUpTo(s, |s.actions|) && FramesItself(h) && WithinBody(l)
    ensures ReuseAnnounced(Land(s, l, h))
  {
    hide Dispatch, FramesItself, ErrorResponse, R.Reply, R.Framed, AnswerAnnounces, InTurn, AnswerTo;
    match l
    case ToHandler(req) => DispatchReuses(s, req, h);
    case ToRefusal => ReplyShowsFraming(ErrorResponse(413, "413 Payload Too Large\n"));
    case _ =>
  }

  lemma WrittenReuses(s: State, reply: R.Piece, ok: bool)
    requires s.pending == [] && AnnouncedUpTo(s, |s.actions| - 1) && reply.Head? && R.Framed(reply.entries)
    ensures ReuseAnnounced(OnWritten(s, reply, ok))
  {
    hide AnswerTo, R.Framed;
    AnnouncedAfter(s.wire, |s.actions|, [reply]);
    assert ShowsFraming([reply]) by { assert [reply][0] == reply; }
  }

  lemma JobReuses(s: State, resp: R.ResponseData, job: Script, flushOk: bool, endOk: bool, sendOk: bool)
    requires s.pending == [] && AnnouncedUpTo(s, |s.actions| - 1) && R.ModeInvariant(resp) && resp.attached
    requires resp.flushed ==> AnswerAnnounces(s.wire, |s.actions|)
    requires FramesEvent(PoolJob(resp), JobRan(job, flushOk, endOk, sendOk))
    ensures ReuseAnnounced(OnJob(s, resp, job, flushOk, endOk, sendOk))
  {
    hide AnswerTo, ShowsFraming, JobOut, JobFrames, R.ModeInvariant;
    AnnouncedAfter(s.wire, |s.actions|, JobOut(resp, job, flushOk, endOk, sendOk));
    if !job.throws { JobShows(resp, job, flushOk, endOk, sendOk); }
  }

  lemma CompleteReuses(limit: nat, s: State, op: Op, e: Event)
    requires Ready(s) && Owes(Issue(s, op)) && Enabled(s, op, e) && (ReadsBytes(op) ==> op.need > 0)
    requires ReuseAnnounced(Issue(s, op)) && FramesEvent(op, e)
    ensures ReuseAnnounced(Complete(limit, s, op, e))
  {
    hide Land, OnJob, OnWritten, Find, Orderly, FramesItself, JobFrames, R.ModeInvariant, HeadsOf, AtBoundary, AnswerAnnounces, R.Framed, R.Printed;
    match e
    case WriteEnded(ok) => WrittenReuses(s, op.reply, ok);
    case JobRan(job, flushOk, endOk, sendOk) => JobReuses(s, op.resp, job, flushOk, endOk, sendOk);
    case HopRan =>
    case ReadFailed(pull, error) =>
    case _ =>
      hide Complete;
      var s1, l := ReadLands(limit, s, op, e);
      OnwardIsReady(s, s1);
      LandReuses(s1, l, e.handler);
  }

  predicate AllFraming(limit: nat, s: State, run: seq<Turn>)
    requires CanRun(limit, s, run)
    decreases |run|
  {
    run == [] ||
    (FramesEvent(s.pending[run[0].k].op, run[0].event)
     && AllFraming(limit, Step(limit, s, run[0].k, run[0].event), run[1..]))
  }

  lemma {:induction false} RunReuses(limit: nat, stream: bytes, s: State, run: seq<Turn>)
    requires Live(limit, stream, s) && ReuseAnnounced(s) && CanRun(limit, s, run) && AllFraming(limit, s, run)
    ensures ReuseAnnounced(Run(limit, s, run))
    decreases |run|
  {
    if run != [] {
      hide Live, Step, Enabled, Complete, FramesEvent, ReuseAnnounced, Ready, Owes, Fuel, Answered, AnswersEvent;
      StepIsComplete(limit, stream, s, run[0].k, run[0].event);
      CompleteReuses(limit, Taken(s), s.pending[0].op, run[0].event);
      StepLives(limit, stream, s, run[0].k, run[0].event);
      RunReuses(limit, stream, Step(limit, s, run[0].k, run[0].event), run[1..]);
    }
  }

  /**
   In every run whose handlers and stream functions see to it, each response
   after which the connection was used again has a header block on the wire
   that announces a framing.
   */
  lemma EveryReusedResponseAnnounces(limit: nat, stream: bytes, run: seq<Turn>, k: nat)
    requires CanRun(limit, Start(stream), run) && AllFraming(limit, Start(stream), run)
    requires var t := Run(limit, Start(stream), run);
             1 <= k <= |t.actions| && (k == |t.actions| ==> Reusing(t))
    ensures AnswerAnnounces(Run(limit, Start(stream), run).wire, k)
  {
    hide Live, CanRun, Run, AnswerAnnounces, AllFraming;
    StartLives(limit, stream);
    RunReuses(limit, stream, Start(stream), run);
  }
}
