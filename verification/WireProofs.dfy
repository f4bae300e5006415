/**
 What every completion does to the wire, to the place in the stream and to the
 distance from the end: each request is answered once and in its turn, a header
 is awaited only where the last request ended, and every run ends.
 */
module WireProofs {
  import opened Text
  import opened Numbers
  import opened Headers
  import opened Request
  import opened Framing
  import opened Machine
  import opened ReaderProofs
  import R = Response

  // ── what a request is answered with ────────────────────────────────

  /** The pieces sent in answer to request k, in order. */
  function AnswerTo(w: seq<Sent>, k: nat): seq<R.Piece> {
    if w == [] then []
    else (if w[0].request == k then [w[0].piece] else []) + AnswerTo(w[1..], k)
  }

  lemma {:induction false} AnswerAppend(a: seq<Sent>, b: seq<Sent>, k: nat)
    ensures AnswerTo(a + b, k) == AnswerTo(a, k) + AnswerTo(b, k)
  {
    if a == [] {
      assert a + b == b;
    } else {
      assert (a + b)[1..] == a[1..] + b;
      AnswerAppend(a[1..], b, k);
      Assoc(if a[0].request == k then [a[0].piece] else [], AnswerTo(a[1..], k), AnswerTo(b, k));
    }
  }

  lemma {:induction false} AnswerOfTag(j: nat, out: seq<R.Piece>, k: nat)
    ensures AnswerTo(Tag(j, out), k) == if j == k then out else []
  {
    if out != [] {
      assert Tag(j, out)[1..] == Tag(j, out[1..]);
      AnswerOfTag(j, out[1..], k);
      assert out == [out[0]] + out[1..];
    }
  }

  /** How many header blocks request k has been answered with. */
  function HeadsOf(w: seq<Sent>, k: nat): nat { R.Heads(AnswerTo(w, k)) }

  lemma AnswersAfter(w: seq<Sent>, j: nat, out: seq<R.Piece>)
    ensures forall k: nat :: AnswerTo(w + Tag(j, out), k) == AnswerTo(w, k) + if j == k then out else []
    ensures forall k: nat :: HeadsOf(w + Tag(j, out), k) == HeadsOf(w, k) + if j == k then R.Heads(out) else 0
  {
    forall k: nat
      ensures AnswerTo(w + Tag(j, out), k) == AnswerTo(w, k) + if j == k then out else []
      ensures HeadsOf(w + Tag(j, out), k) == HeadsOf(w, k) + if j == k then R.Heads(out) else 0
    {
      AnswerAppend(w, Tag(j, out), k);
      AnswerOfTag(j, out, k);
      R.HeadsAppend(AnswerTo(w, k), if j == k then out else []);
    }
  }

  /** Responses go out in the order of their requests, the first being 1 and the last at most n. */
  predicate InTurn(w: seq<Sent>, n: nat) {
    && (forall i :: 0 <= i < |w| ==> 1 <= w[i].request <= n)
    && (forall i, j :: 0 <= i < j < |w| ==> w[i].request <= w[j].request)
  }

  /** Every header block prints the entries recorded with it. */
  ghost predicate Legible(w: seq<Sent>) { forall i :: 0 <= i < |w| ==> R.Printed(w[i].piece) }

  lemma InTurnAfter(w: seq<Sent>, n: nat, j: nat, out: seq<R.Piece>)
    requires InTurn(w, n) && Legible(w) && 1 <= j && n <= j && R.AllPrinted(out)
    ensures InTurn(w + Tag(j, out), j) && Legible(w + Tag(j, out))
  {
    hide R.Printed;
  }

  /** Responses legible and in turn; no request with two header blocks, none for requests not yet read. */
  ghost predicate Orderly(s: State) {
    && InTurn(s.wire, |s.actions|) && Legible(s.wire)
    && forall k: nat :: HeadsOf(s.wire, k) <= (if k <= |s.actions| then 1 else 0)
  }

  // ── what an outstanding operation owes ─────────────────────────────

  /** The bytes to come are those behind the last request; after a refusal none of them is wanted. */
  predicate AtBoundary(s: State) {
    s.actions != [] ==>
      match s.actions[|s.actions| - 1]
      case Dispatched(_, rest) => rest == Upcoming(s)
      case Rejected => !s.keepAlive
      case _ => false
  }

  predicate Broke(s: State) { s.actions != [] && Broken(s.actions[|s.actions| - 1]) }

  /**
   A response still to be written, or still being streamed, has sent what it
   says; between two requests the place in the stream is a boundary.
   */
  ghost predicate Owes(s: State) {
    s.pending != [] ==>
      var op, n := s.pending[0].op, |s.actions|;
      && !Broke(s)
      && (op.WriteOut? ==> n > 0 && op.reply.Head? && R.Printed(op.reply) && HeadsOf(s.wire, n) == 0)
      && (op.PoolJob? ==> n > 0 && R.ModeInvariant(op.resp) && op.resp.attached
                          && HeadsOf(s.wire, n) == if op.resp.flushed then 1 else 0)
      && (!ReadsBytes(op) && !op.SizeLine? && !op.TrailerLine? ==> AtBoundary(s))
      && (op.FinishHop? ==> n > 0)
      && (op.HeaderRead? ==> if n == 0 then s.consumed == [] else s.actions[n - 1].Dispatched?)
  }

  /** Distance to the end of the connection: four per byte to come, and a rank for the operation. */
  function Rank(s: State): nat {
    if s.pending == [] then 0
    else
      match s.pending[0].op
      case PoolJob(_) => 3
      case WriteOut(_) => 2
      case FinishHop => 2
      case _ => 1
  }

  function Fuel(s: State): nat { 4 * |Upcoming(s)| + Rank(s) }

  /** From s, a callback takes bytes only from the front, adds actions only at the end, and keeps the wire orderly. */
  ghost predicate Tame(s: State, t: State, rank: nat) {
    && |Upcoming(t)| <= |Upcoming(s)| && Rank(t) <= rank
    && s.actions <= t.actions
    && Orderly(t) && Owes(t)
  }

  ghost predicate Ready(s: State) { s.pending == [] && Orderly(s) && !Broke(s) }

  // ── every request answered ─────────────────────────────────────────

  /** Every request up to the n-th has its header block. */
  ghost predicate AnsweredUpTo(s: State, n: int) {
    forall k: nat :: 1 <= k <= n ==> HeadsOf(s.wire, k) == 1
  }

  /** The response to the last request is still to be written or streamed. */
  predicate AwaitsHead(s: State) {
    s.pending != [] && (s.pending[0].op.WriteOut? || (s.pending[0].op.PoolJob? && !s.pending[0].op.resp.flushed))
  }

  /** Every request has exactly one header block, but for the last one while it is being answered, or if it never is. */
  ghost predicate Answered(s: State) {
    AnsweredUpTo(s, if AwaitsHead(s) || Broke(s) then |s.actions| - 1 else |s.actions|)
  }

  ghost predicate Settled(s: State) { Ready(s) && AnsweredUpTo(s, |s.actions|) }

  /** A handler that gets a response out: it leaves it buffered, streams it, throws, or one of its writes succeeds. */
  predicate Answers(h: Script) {
    h.throws || R.Streams(h.calls) || !R.Writes(h.calls) || R.SomeSends(false, h.calls)
  }

  /**
   A stream job that gets a response out, if the handler has not: one of its
   writes succeeds; or there is a chunk to end, and the header block goes out
   with that; or it throws, and the 500 goes out.
   */
  predicate JobAnswers(resp: R.ResponseData, job: Script, flushOk: bool, sendOk: bool) {
    || R.SomeSends(resp.chunked, job.calls)
    || (if job.throws then sendOk else flushOk && (resp.chunked || R.SomeChunk(job.calls)))
  }

  /** The completion gets the response out as far as it is concerned. */
  predicate AnswersEvent(op: Op, e: Event) {
    match e
    case LineArrived(_, h) => Answers(h)
    case BytesArrived(h) => Answers(h)
    case WriteEnded(ok) => ok
    case JobRan(job, flushOk, _, sendOk) =>
      op.PoolJob? && !op.resp.flushed ==> JobAnswers(op.resp, job, flushOk, sendOk)
    case _ => true
  }

  lemma WriteTame(s: State, r: R.ResponseData)
    requires Ready(s) && AtBoundary(s) && s.actions != [] && HeadsOf(s.wire, |s.actions|) == 0
    ensures Tame(s, WriteBuffered(s, r), 3)
    ensures AnsweredUpTo(s, |s.actions| - 1) ==> Answered(WriteBuffered(s, r))
  {
    hide R.Reply, R.HeaderBlock, InTurn, Legible, R.Printed, AnswerTo;
    R.BlockIsPrinted(r);
    ReplyIsHead(r);
  }

  lemma NextTame(s: State)
    requires Ready(s) && AtBoundary(s) && s.actions != []
    ensures Tame(s, NextOrShut(s), 1)
    ensures Settled(s) ==> Answered(NextOrShut(s))
  {
    hide InTurn, Legible, R.Printed;
  }

  lemma AnswerTame(s: State, r: R.ResponseData, h: Script)
    requires Ready(s) && AtBoundary(s) && s.actions != [] && R.ModeInvariant(r) && r.attached
    requires HeadsOf(s.wire, |s.actions|) == if r.flushed then 1 else 0
    ensures Tame(s, Answer(s, r, h), 3)
    ensures AnsweredUpTo(s, |s.actions| - 1) && (h.throws || !r.mode.Immediate? || r.flushed) ==> Answered(Answer(s, r, h))
  {
    hide R.Reply, Replacement, R.Framed, InTurn, Legible, R.Printed, NoCaseTwins, Contains, AnswerTo, HeadsOf, WriteBuffered, NextOrShut;
    if h.throws {
      if !r.flushed {
        WriteTame(s.(keepAlive := false), Replacement(h.message));
      } else {
        NextTame(s.(keepAlive := false, processing := false));
      }
    } else {
      match r.mode
      case Buffered => WriteTame(s, r);
      case Immediate => NextTame(s.(keepAlive := s.keepAlive && R.Framed(r.entries), processing := false));
      case Stream =>
    }
  }

  /** The response a handler leaves behind, read off its calls. */
  lemma HandlerLeaves(keep: bool, calls: seq<R.Call>)
    ensures var r := R.Play(NewResponse(keep), calls).r;
            && R.ModeInvariant(r) && r.attached
            && (r.flushed <==> R.SomeSends(false, calls))
            && r.mode == if R.Streams(calls) then R.Stream else if R.Writes(calls) then R.Immediate else R.Buffered
  {
    NewResponseSound(keep, calls);
    R.PlayMode(NewResponse(keep), calls);
    R.PlayAnnounces(NewResponse(keep), calls);
  }

  lemma DispatchTame(s: State, req: RequestData, h: Script)
    requires Ready(s)
    ensures Tame(s, Dispatch(s, req, h), 3)
    ensures Settled(s) && Answers(h) ==> Answered(Dispatch(s, req, h))
  {
    hide R.Play, NewResponse, KeepsAlive, Answer, Answered, R.Heads, R.ModeInvariant, InTurn, Legible, R.Printed, R.Streams, R.Writes, R.SomeSends, AnswerTo;
    var keep, k := KeepsAlive(req), |s.actions| + 1;
    var e := R.Play(NewResponse(keep), h.calls);
    NewResponseSound(keep, h.calls);
    HandlerLeaves(keep, h.calls);
    R.PlayPrints(NewResponse(keep), h.calls);
    AnswersAfter(s.wire, k, e.out);
    InTurnAfter(s.wire, |s.actions|, k, e.out);
    assert HeadsOf(s.wire, k) == 0;
    var s1 := s.(keepAlive := keep, actions := s.actions + [Dispatched(req, Upcoming(s))], wire := s.wire + Tag(k, e.out));
    assert Ready(s1) && Upcoming(s1) == Upcoming(s);
    AnswerTame(s1, e.r, h);
  }

  lemma RejectTame(s: State)
    requires Ready(s)
    ensures Tame(s, RejectPayloadTooLarge(s), 3)
    ensures Settled(s) ==> Answered(RejectPayloadTooLarge(s))
  {
    hide R.Serialize, R.SerializedEntries, ErrorResponse, AnswerTo, R.Printed, Legible;
    R.BlockIsPrinted(ErrorResponse(413, "413 Payload Too Large\n"));
    assert HeadsOf(s.wire, |s.actions| + 1) == 0;
  }

  lemma BreakTame(s: State, a: Action)
    requires Ready(s) && Broken(a)
    ensures Tame(s, Break(s, a), 3)
    ensures Settled(s) ==> Answered(Break(s, a))
  {
    hide AnswerTo;
  }

  // ── where a read callback can lead ─────────────────────────────────

  datatype Landing = ToHandler(req: RequestData) | ToRefusal | ToBreak(action: Action) | ToRead(op: Op) | ToEnd

  function Land(s: State, l: Landing, h: Script): State {
    match l
    case ToHandler(req) => Dispatch(s, req, h)
    case ToRefusal => RejectPayloadTooLarge(s)
    case ToBreak(a) => Break(s, a)
    case ToRead(op) => Issue(s, op)
    case ToEnd => s
  }

  /** s1 is s with bytes moved or taken. */
  predicate Onward(s: State, s1: State) {
    && s1.pending == [] && s1.actions == s.actions && s1.wire == s.wire && s1.keepAlive == s.keepAlive
    && |Upcoming(s1)| <= |Upcoming(s)|
  }

  /** A further read is within the same request, and only a break breaks off. */
  predicate WithinBody(l: Landing) {
    && (l.ToRead? ==> ReadsBytes(l.op) || l.op.SizeLine? || l.op.TrailerLine?)
    && (l.ToBreak? ==> Broken(l.action))
  }

  lemma FixedLands(s: State, req: RequestData, n: nat, h: Script) returns (s1: State, l: Landing)
    requires s.pending == []
    ensures Onward(s, s1) && WithinBody(l) && ReadFixedBody(s, req, n, h) == Land(s1, l, h)
  {
    hide Dispatch;
    var take := Min(|s.buffer|, n);
    s1 := if n > MAX_STRING then s else Consume(s, take);
    l := if n > MAX_STRING then ToBreak(Escaped)
         else if take == n then ToHandler(req.(body := s.buffer[..take]))
         else ToRead(FixedRest(req, s.buffer[..take], n - take));
  }

  lemma BodyLands(limit: nat, s: State, req: RequestData, h: Script) returns (s1: State, l: Landing)
    requires s.pending == []
    ensures Onward(s, s1) && WithinBody(l) && ReadBody(limit, s, req, h) == Land(s1, l, h)
  {
    hide Dispatch, ReadFixedBody, RejectPayloadTooLarge;
    s1 := s;
    if IsChunked(req) {
      l := ToRead(SizeLine(req, []));
    } else if limit != 0 && req.ContentLength() > limit {
      l := ToRefusal;
    } else if req.ContentLength() == 0 {
      l := ToHandler(req);
    } else {
      s1, l := FixedLands(s, req, req.ContentLength(), h);
    }
  }

  lemma ChunkEndLands(s: State, req: RequestData, acc: bytes, h: Script) returns (s1: State, l: Landing)
    requires s.pending == []
    ensures Onward(s, s1) && WithinBody(l) && ReadChunkTrailingCrlf(s, req, acc) == Land(s1, l, h)
  {
    s1 := Consume(s, Min(|s.buffer|, 2));
    l := ToRead(if |s.buffer| >= 2 then SizeLine(req, acc) else ChunkEnd(req, acc, 2 - |s.buffer|));
  }

  lemma SizeLands(limit: nat, s: State, req: RequestData, acc: bytes, size: nat, h: Script) returns (s1: State, l: Landing)
    requires s.pending == []
    ensures Onward(s, s1) && WithinBody(l) && AfterSizeLine(limit, s, req, acc, size) == Land(s1, l, h)
  {
    hide RejectPayloadTooLarge, ReadChunkTrailingCrlf, Exceeds;
    s1 := s;
    if Exceeds(limit, |acc|, size) {
      l := ToRefusal;
    } else if |acc| + size >= SIZE_RANGE {
      l := ToBreak(Overran);
    } else if size == 0 {
      l := ToRead(TrailerLine(req, acc));
    } else if |acc| + size > MAX_STRING {
      l := ToBreak(Escaped);
    } else {
      var take := Min(|s.buffer|, size);
      s1 := Consume(s, take);
      if take == size {
        s1, l := ChunkEndLands(s1, req, acc + s.buffer[..take], h);
      } else {
        l := ToRead(ChunkRest(req, acc + s.buffer[..take], size - take));
      }
    }
  }

  lemma LineLands(limit: nat, s: State, op: Op, pull: nat, h: Script) returns (s1: State, l: Landing)
    requires s.pending == [] && Enabled(s, op, LineArrived(pull, h))
    ensures Onward(s, s1) && WithinBody(l) && |Upcoming(s1)| < |Upcoming(s)|
    ensures Complete(limit, s, op, LineArrived(pull, h)) == Land(s1, l, h)
  {
    hide Dispatch, ReadBody, AfterSizeLine, WithHeader, ChunkSize, Find;
    var p := Pull(s, pull);
    var n := Find(p.buffer, Delimiter(op), 0).value + |Delimiter(op)|;
    s1 := Consume(if op.HeaderRead? then p.(processing := true) else p, n);
    assert |Upcoming(s1)| + n == |Upcoming(s)|;
    if op.HeaderRead? {
      var req := WithHeader(EMPTY_REQUEST, p.buffer[..n]);
      if req.Some? { s1, l := BodyLands(limit, s1, req.value, h); } else { s1, l := s1.(socket := Closed), ToEnd; }
    } else if op.SizeLine? {
      var size := ChunkSize(p.buffer[..n - 2]);
      if size.Some? {
        s1, l := SizeLands(limit, s1, op.req, op.acc, size.value, h);
      } else {
        s1, l := s1.(processing := false, socket := Closed), ToEnd;
      }
    } else {
      l := if n == 2 then ToHandler(op.req.(body := op.acc)) else ToRead(TrailerLine(op.req, op.acc));
    }
  }

  lemma BytesLands(limit: nat, s: State, op: Op, h: Script) returns (s1: State, l: Landing)
    requires s.pending == [] && Enabled(s, op, BytesArrived(h))
    ensures Onward(s, s1) && WithinBody(l) && (op.need > 0 ==> |Upcoming(s1)| < |Upcoming(s)|)
    ensures Complete(limit, s, op, BytesArrived(h)) == Land(s1, l, h)
  {
    hide Dispatch, ReadChunkTrailingCrlf;
    var data := s.unread[..op.need];
    s1 := TakeDirect(s, op.need);
    if op.FixedRest? {
      l := ToHandler(op.req.(body := op.got + data));
    } else if op.ChunkRest? {
      s1, l := ChunkEndLands(s1, op.req, op.acc + data, h);
    } else {
      l := ToRead(SizeLine(op.req, op.acc));
    }
  }

  predicate Arrives(e: Event) { e.LineArrived? || e.BytesArrived? }

  /** Every callback of a successful read takes what it asked for, and then does one of five things. */
  lemma ReadLands(limit: nat, s: State, op: Op, e: Event) returns (s1: State, l: Landing)
    requires s.pending == [] && Enabled(s, op, e) && Arrives(e)
    ensures Onward(s, s1) && WithinBody(l)
    ensures (ReadsBytes(op) ==> op.need > 0) ==> |Upcoming(s1)| < |Upcoming(s)|
    ensures Complete(limit, s, op, e) == Land(s1, l, e.handler)
  {
    hide Complete, Land, Find;
    if e.LineArrived? { s1, l := LineLands(limit, s, op, e.pull, e.handler); } else { s1, l := BytesLands(limit, s, op, e.handler); }
  }

  lemma OnwardIsReady(s: State, s1: State)
    requires Ready(s) && Onward(s, s1)
    ensures Ready(s1)
    ensures Settled(s) ==> Settled(s1)
  {}

  lemma LandTame(s: State, l: Landing, h: Script)
    requires Ready(s) && WithinBody(l)
    ensures Tame(s, Land(s, l, h), 3)
    ensures Settled(s) && Answers(h) ==> Answered(Land(s, l, h))
  {
    hide Dispatch, RejectPayloadTooLarge, Break, Answers, AnswerTo, InTurn, Legible, R.Printed;
    match l
    case ToHandler(req) => DispatchTame(s, req, h);
    case ToRefusal => RejectTame(s);
    case ToBreak(a) => BreakTame(s, a);
    case _ =>
  }

  // ── the other completions ──────────────────────────────────────────

  lemma JobHeads(resp: R.ResponseData, job: Script, flushOk: bool, endOk: bool, sendOk: bool)
    requires R.ModeInvariant(resp) && resp.attached
    ensures R.Heads(JobOut(resp, job, flushOk, endOk, sendOk)) ==
            if !resp.flushed && JobAnswers(resp, job, flushOk, sendOk) then 1 else 0
  {
    hide R.Reply, Replacement, R.Apply;
    var e := R.Play(resp, job.calls);
    R.PlaySendsOneHead(resp, job.calls);
    R.EndSendsOneHead(e.r, flushOk, endOk);
    if !resp.flushed { R.PlayAnnounces(resp, job.calls); }
    R.HeadsAppend(e.out, JobTail(e.r, job, flushOk, endOk, sendOk));
    assert R.Heads([R.Reply(Replacement(job.message))]) == 1 by { ReplyIsHead(Replacement(job.message)); }
  }

  lemma JobPrints(resp: R.ResponseData, job: Script, flushOk: bool, endOk: bool, sendOk: bool)
    ensures R.AllPrinted(JobOut(resp, job, flushOk, endOk, sendOk))
  {
    hide R.Printed, R.Play, R.EndChunks, R.Reply, Replacement;
    R.PlayPrints(resp, job.calls);
    R.EndPrints(R.Play(resp, job.calls).r, flushOk, endOk);
    R.BlockIsPrinted(Replacement(job.message));
  }

  lemma ReplyIsHead(r: R.ResponseData)
    ensures R.Reply(r).Head? && R.Heads([R.Reply(r)]) == 1
  {
    assert [R.Reply(r)][1..] == [];
  }

  lemma JobTame(s: State, resp: R.ResponseData, job: Script, flushOk: bool, endOk: bool, sendOk: bool)
    requires Ready(s) && AtBoundary(s) && s.actions != [] && R.ModeInvariant(resp) && resp.attached
    requires HeadsOf(s.wire, |s.actions|) == if resp.flushed then 1 else 0
    ensures Tame(s, OnJob(s, resp, job, flushOk, endOk, sendOk), 2)
    ensures AnsweredUpTo(s, |s.actions| - 1) && (resp.flushed || JobAnswers(resp, job, flushOk, sendOk)) ==>
              Answered(OnJob(s, resp, job, flushOk, endOk, sendOk))
  {
    hide JobOut, JobAnswers, R.Heads, InTurn, Legible, R.Printed, AnswerTo, R.ModeInvariant;
    JobHeads(resp, job, flushOk, endOk, sendOk);
    JobPrints(resp, job, flushOk, endOk, sendOk);
    AnswersAfter(s.wire, |s.actions|, JobOut(resp, job, flushOk, endOk, sendOk));
    InTurnAfter(s.wire, |s.actions|, |s.actions|, JobOut(resp, job, flushOk, endOk, sendOk));
  }

  lemma WrittenTame(s: State, reply: R.Piece, ok: bool)
    requires Ready(s) && AtBoundary(s) && s.actions != [] && HeadsOf(s.wire, |s.actions|) == 0
    requires reply.Head? && R.Printed(reply)
    ensures Tame(s, OnWritten(s, reply, ok), 1)
    ensures AnsweredUpTo(s, |s.actions| - 1) && ok ==> Answered(OnWritten(s, reply, ok))
  {
    hide AnswerTo, InTurn, Legible, R.Printed;
    AnswersAfter(s.wire, |s.actions|, [reply]);
    InTurnAfter(s.wire, |s.actions|, |s.actions|, [reply]);
    assert R.Heads([reply]) == 1 by { assert [reply][1..] == []; }
  }

  lemma FailTame(s: State, op: Op, pull: nat, error: Error)
    requires Ready(s) && Enabled(s, op, ReadFailed(pull, error))
    ensures var t := OnReadFailed(if ReadsLine(op) then Pull(s, pull) else TakeDirect(s, pull), op, error);
            Tame(s, t, 0) && (Settled(s) ==> Answered(t))
  {
    hide Find, AnswerTo, InTurn, Legible, R.Printed;
  }

  /** Each completion spends fuel: bytes, or rank at the same bytes. */
  lemma CompleteTame(limit: nat, s: State, op: Op, e: Event)
    requires Ready(s) && Owes(Issue(s, op)) && Enabled(s, op, e)
    requires ReadsBytes(op) ==> op.need > 0
    ensures var t := Complete(limit, s, op, e);
            s.actions <= t.actions && Orderly(t) && Owes(t) && Fuel(t) < Fuel(Issue(s, op))
    ensures Answered(Issue(s, op)) && AnswersEvent(op, e) ==> Answered(Complete(limit, s, op, e))
  {
    hide Land, OnJob, OnWritten, Find, InTurn, Legible, R.Printed, Answers, JobAnswers, R.ModeInvariant, AnswerTo, HeadsOf;
    assert |Upcoming(Issue(s, op))| == |Upcoming(s)|;
    match e
    case WriteEnded(ok) => WrittenTame(s, op.reply, ok);
    case JobRan(job, flushOk, endOk, sendOk) => JobTame(s, op.resp, job, flushOk, endOk, sendOk);
    case HopRan => NextTame(s.(processing := false));
    case ReadFailed(pull, error) => FailTame(s, op, pull, error);
    case _ =>
      hide Complete;
      var s1, l := ReadLands(limit, s, op, e);
      OnwardIsReady(s, s1);
      LandTame(s1, l, e.handler);
  }

  // ── every run ──────────────────────────────────────────────────────

  ghost predicate Live(limit: nat, stream: bytes, s: State) {
    Sound(limit, stream, s) && Orderly(s) && Owes(s)
  }

  /** The state with the one outstanding operation taken off the list. */
  function Taken(s: State): State { s.(pending := []) }

  lemma StepIsComplete(limit: nat, stream: bytes, s: State, k: nat, e: Event)
    requires Live(limit, stream, s) && k < |s.pending| && Enabled(s, s.pending[k].op, e)
    ensures k == 0 && Ready(Taken(s)) && s.socket.Open? && Enabled(Taken(s), s.pending[0].op, e)
    ensures Step(limit, s, k, e) == Complete(limit, Taken(s), s.pending[0].op, e)
    ensures Issue(Taken(s), s.pending[0].op) == s && Owes(s)
    ensures ReadsBytes(s.pending[0].op) ==> s.pending[0].op.need > 0
  {
    hide Complete, Find, InTurn, Legible, R.Printed, HeadsOf;
    assert s.pending[..k] + s.pending[k + 1..] == [];
    assert Issue(Taken(s), s.pending[0].op).pending == s.pending;
  }

  lemma StepLives(limit: nat, stream: bytes, s: State, k: nat, e: Event)
    requires Live(limit, stream, s) && k < |s.pending| && Enabled(s, s.pending[k].op, e)
    ensures var t := Step(limit, s, k, e);
            Live(limit, stream, t) && s.actions <= t.actions && Fuel(t) < Fuel(s)
            && (Answered(s) && AnswersEvent(s.pending[k].op, e) ==> Answered(t))
  {
    hide Complete, Follows, Step, Sound, Enabled, HeadsOf, Answered, AnswersEvent, Fuel, InTurn, Legible, R.Printed, Owes;
    StepIsComplete(limit, stream, s, k, e);
    StepKeeps(limit, stream, s, k, e);
    CompleteTame(limit, Taken(s), s.pending[0].op, e);
  }

  lemma {:induction false} RunLives(limit: nat, stream: bytes, s: State, run: seq<Turn>)
    requires Live(limit, stream, s) && CanRun(limit, s, run)
    ensures var t := Run(limit, s, run);
            Live(limit, stream, t) && s.actions <= t.actions && Fuel(t) + |run| <= Fuel(s)
    decreases |run|
  {
    if run != [] {
      hide Live, Step, Enabled, Fuel;
      var t := Step(limit, s, run[0].k, run[0].event);
      StepLives(limit, stream, s, run[0].k, run[0].event);
      RunLives(limit, stream, t, run[1..]);
    }
  }

  lemma StartLives(limit: nat, stream: bytes)
    ensures Live(limit, stream, Start(stream))
    ensures Remaining(limit, Start(stream)) == ParseAll(limit, stream)
    ensures Fuel(Start(stream)) == 4 * |stream| + 1
  {
    assert Upcoming(Start(stream)) == stream && [] + stream == stream;
  }

  /** Every completion on the way gets the responses out as far as it is concerned. */
  predicate AllAnswering(limit: nat, s: State, run: seq<Turn>)
    requires CanRun(limit, s, run)
    decreases |run|
  {
    run == [] ||
    (AnswersEvent(s.pending[run[0].k].op, run[0].event)
     && AllAnswering(limit, Step(limit, s, run[0].k, run[0].event), run[1..]))
  }

  lemma {:induction false} RunAnswers(limit: nat, stream: bytes, s: State, run: seq<Turn>)
    requires Live(limit, stream, s) && Answered(s) && CanRun(limit, s, run) && AllAnswering(limit, s, run)
    ensures Answered(Run(limit, s, run))
    decreases |run|
  {
    if run != [] {
      hide Live, Step, Enabled, Fuel, AnswersEvent, Answered;
      StepLives(limit, stream, s, run[0].k, run[0].event);
      RunAnswers(limit, stream, Step(limit, s, run[0].k, run[0].event), run[1..]);
    }
  }
}
