/**
 What every step of the connection keeps, and how the connection refines the
 whole-stream reading of Framing: for any overshoot of any read, any handler
 and any failure.
 */
module ReaderProofs {
  import opened Text
  import opened Numbers
  import opened Headers
  import opened Request
  import opened Framing
  import opened Machine
  import R = Response

  // ── the invariant ──────────────────────────────────────────────────

  /** No byte is lost, duplicated or reordered. */
  predicate Conserves(stream: bytes, s: State) { s.consumed + Upcoming(s) == stream }

  /** A body being collected, its pre-sized part included, stays within the limit. */
  function Collected(op: Op): nat {
    match op
    case FixedRest(_, got, need) => |got| + need
    case SizeLine(_, acc) => |acc|
    case ChunkRest(_, acc, need) => |acc| + need
    case ChunkEnd(_, acc, _) => |acc|
    case TrailerLine(_, acc) => |acc|
    case _ => 0
  }

  predicate OpSound(limit: nat, s: State, p: Pending) {
    && p.buffer == s.buffer && p.keepAlive == s.keepAlive
    && (ReadsBytes(p.op) ==> s.buffer == [] && p.op.need > 0)
    && Fits(limit, Collected(p.op))
    && (p.op.PoolJob? ==> R.ModeInvariant(p.op.resp) && p.op.resp.attached)
    && (s.processing <==> !p.op.HeaderRead?)
    && s.socket.Open?
  }

  /**
   At most one operation is outstanding; nothing it could race with has changed
   since it was started; direct reads find the buffer empty; the body fits; the
   connection counts as idle exactly while it waits for a header.
   */
  predicate Sound(limit: nat, stream: bytes, s: State) {
    && Conserves(stream, s)
    && |s.pending| <= 1
    && (s.pending != [] ==> OpSound(limit, s, s.pending[0]))
  }

  /** Inside a callback, before it starts the next operation. */
  predicate Midway(stream: bytes, s: State) {
    Conserves(stream, s) && s.pending == [] && s.processing && s.socket.Open?
  }

  // ── the refinement relation ────────────────────────────────────────

  function FixedOutcome(got: bytes, need: nat, u: bytes): Outcome {
    if |got| + need > MAX_STRING then Overlong
    else if |u| < need then Truncated
    else Done(got + u[..need], u[need..])
  }

  /** What the whole-stream reading still has to do after op, given the bytes to come. */
  function OpRemaining(limit: nat, keepAlive: bool, op: Op, u: bytes): seq<Action> {
    match op
    case HeaderRead => ParseAll(limit, u)
    case FixedRest(req, got, need) => Continue(limit, req, FixedOutcome(got, need, u))
    case SizeLine(req, acc) => Continue(limit, req, ParseChunks(limit, acc, u))
    case ChunkRest(req, acc, need) => Continue(limit, req, AfterData(limit, acc, need, u))
    case ChunkEnd(req, acc, need) =>
      if |u| < need then [] else Continue(limit, req, ParseChunks(limit, acc, u[need..]))
    case TrailerLine(req, acc) => Continue(limit, req, ParseTrailers(acc, u))
    case _ => if keepAlive then ParseAll(limit, u) else []
  }

  function Remaining(limit: nat, s: State): seq<Action> {
    if s.pending == [] then [] else OpRemaining(limit, s.keepAlive, s.pending[0].op, Upcoming(s))
  }

  /** t has done, and will do, no more than expected, in order; and all of it when nothing went wrong. */
  predicate Follows(limit: nat, t: State, expected: seq<Action>, exact: bool) {
    && t.actions + Remaining(limit, t) <= expected
    && (exact ==> t.actions + Remaining(limit, t) == expected)
  }

  lemma NothingRemains(limit: nat, s: State)
    requires s.pending == []
    ensures s.actions + Remaining(limit, s) == s.actions
  {}

  /** A handler that does not throw and, if it wrote its response itself, said how it is framed. */
  predicate Behaves(h: Script) {
    && !h.throws
    && forall keep: bool ::
         var r := R.Play(NewResponse(keep), h.calls).r;
         r.mode.Immediate? ==> R.Framed(r.entries)
  }

  predicate Benign(e: Event) {
    match e
    case LineArrived(_, h) => Behaves(h)
    case BytesArrived(h) => Behaves(h)
    case ReadFailed(_, error) => error.Eof?
    case WriteEnded(ok) => ok
    case JobRan(job, _, _, _) => !job.throws
    case HopRan => true
  }

  // ── moving bytes ───────────────────────────────────────────────────

  lemma ConsumeKeeps(stream: bytes, s: State, n: nat)
    requires n <= |s.buffer|
    ensures Upcoming(Consume(s, n)) == Upcoming(s)[n..]
    ensures s.buffer[..n] == Upcoming(s)[..n]
    ensures Conserves(stream, s) ==> Conserves(stream, Consume(s, n))
    ensures Midway(stream, s) ==> Midway(stream, Consume(s, n))
    ensures n == |s.buffer| ==> Consume(s, n).buffer == []
    ensures Consume(s, n).actions == s.actions && Consume(s, n).keepAlive == s.keepAlive
    ensures |s.buffer| <= |Upcoming(s)|
  {
    assert s.buffer == s.buffer[..n] + s.buffer[n..];
    assert s.consumed + s.buffer[..n] + (s.buffer[n..] + s.unread) == s.consumed + Upcoming(s);
  }

  lemma PullKeeps(stream: bytes, s: State, n: nat)
    requires n <= |s.unread|
    ensures Upcoming(Pull(s, n)) == Upcoming(s)
    ensures Conserves(stream, s) ==> Conserves(stream, Pull(s, n))
  {
    assert s.unread == s.unread[..n] + s.unread[n..];
  }

  lemma TakeDirectKeeps(stream: bytes, s: State, n: nat)
    requires n <= |s.unread| && s.buffer == []
    ensures Upcoming(TakeDirect(s, n)) == Upcoming(s)[n..]
    ensures s.unread[..n] == Upcoming(s)[..n]
    ensures Conserves(stream, s) ==> Conserves(stream, TakeDirect(s, n))
  {
    assert Upcoming(s) == s.unread;
    assert s.unread == s.unread[..n] + s.unread[n..];
    assert s.consumed + s.unread[..n] + (s.buffer + s.unread[n..]) == s.consumed + s.unread;
  }

  // ── answering ──────────────────────────────────────────────────────

  lemma NewResponseSound(keep: bool, calls: seq<R.Call>)
    ensures R.ModeInvariant(NewResponse(keep)) && NewResponse(keep).attached && !NewResponse(keep).flushed
    ensures R.ModeInvariant(R.Play(NewResponse(keep), calls).r)
    ensures R.OneHeadStep(NewResponse(keep), R.Play(NewResponse(keep), calls))
  {
    assert NoCaseTwins(R.FRESH.entries);
    R.PlaySendsOneHead(NewResponse(keep), calls);
  }

  lemma NextKeeps(limit: nat, stream: bytes, s: State, was: bool)
    requires Conserves(stream, s) && s.pending == [] && !s.processing && s.socket.Open?
    requires s.keepAlive ==> was
    ensures Sound(limit, stream, NextOrShut(s))
    ensures Follows(limit, NextOrShut(s), s.actions + (if was then ParseAll(limit, Upcoming(s)) else []), s.keepAlive == was)
  {}

  lemma WriteKeeps(limit: nat, stream: bytes, s: State, r: R.ResponseData, was: bool)
    requires Midway(stream, s)
    requires s.keepAlive ==> was
    ensures Sound(limit, stream, WriteBuffered(s, r))
    ensures Follows(limit, WriteBuffered(s, r), s.actions + (if was then ParseAll(limit, Upcoming(s)) else []), s.keepAlive == was)
  {}

  lemma DispatchKeeps(limit: nat, stream: bytes, s: State, req: RequestData, h: Script)
    requires Midway(stream, s)
    ensures Sound(limit, stream, Dispatch(s, req, h))
    ensures Follows(limit, Dispatch(s, req, h),
                    s.actions + ([Dispatched(req, Upcoming(s))] + if KeepsAlive(req) then ParseAll(limit, Upcoming(s)) else []),
                    Behaves(h))
  {
    hide ParseAll, R.Play, NewResponse;
    var keep := KeepsAlive(req);
    NewResponseSound(keep, h.calls);
    var e := R.Play(NewResponse(keep), h.calls);
    var rest := if keep then ParseAll(limit, Upcoming(s)) else [];
    var s1 := s.(keepAlive := keep, actions := s.actions + [Dispatched(req, Upcoming(s))],
                 wire := s.wire + Tag(|s.actions| + 1, e.out));
    Assoc(s.actions, [Dispatched(req, Upcoming(s))], rest);
    if h.throws {
      if !e.r.flushed {
        WriteKeeps(limit, stream, s1.(keepAlive := false), Replacement(h.message), keep);
      } else {
        NextKeeps(limit, stream, s1.(keepAlive := false, processing := false), keep);
      }
    } else {
      match e.r.mode
      case Buffered => WriteKeeps(limit, stream, s1, e.r, keep);
      case Immediate => NextKeeps(limit, stream, s1.(keepAlive := keep && R.Framed(e.r.entries), processing := false), keep);
      case Stream =>
    }
  }

  lemma RejectKeeps(limit: nat, stream: bytes, s: State, req: RequestData)
    requires Midway(stream, s)
    ensures Sound(limit, stream, RejectPayloadTooLarge(s))
    ensures Follows(limit, RejectPayloadTooLarge(s), s.actions + Continue(limit, req, TooLarge), true)
  {
    hide ParseAll, ErrorResponse;
    WriteKeeps(limit, stream, s.(keepAlive := false, actions := s.actions + [Rejected]),
               ErrorResponse(413, "413 Payload Too Large\n"), false);
  }

  /** A callback that breaks off: nothing further is started. */
  lemma BreakKeeps(limit: nat, stream: bytes, s: State, req: RequestData, b: Outcome)
    requires Midway(stream, s) && (b.Overlong? || b.Wrapped?)
    ensures var t := Break(s, if b.Overlong? then Escaped else Overran);
            Sound(limit, stream, t) && Follows(limit, t, s.actions + Continue(limit, req, b), true)
  {
    hide ParseAll;
  }

  /** Starting a read inside a callback. */
  lemma IssueKeeps(limit: nat, stream: bytes, s: State, op: Op)
    requires Midway(stream, s) && (ReadsLine(op) || ReadsBytes(op)) && !op.HeaderRead?
    requires ReadsBytes(op) ==> s.buffer == [] && op.need > 0
    requires Fits(limit, Collected(op))
    ensures Sound(limit, stream, Issue(s, op))
    ensures Follows(limit, Issue(s, op), s.actions + OpRemaining(limit, s.keepAlive, op, Upcoming(s)), true)
  {
    hide ParseAll, ParseChunks, ParseTrailers, AfterData, Continue;
    assert Upcoming(Issue(s, op)) == Upcoming(s);
  }

  // ── reading bodies ─────────────────────────────────────────────────

  lemma FixedSplits(a: nat, b: nat, u: bytes)
    requires a <= |u|
    ensures FixedOutcome([], a + b, u) == FixedOutcome(u[..a], b, u[a..])
  {
    if |u| >= a + b {
      assert [] + u[..a + b] == u[..a] + u[a..][..b];
      assert u[a..][b..] == u[a + b..];
    }
  }

  lemma FixedKeeps(limit: nat, stream: bytes, s: State, req: RequestData, n: nat, h: Script)
    requires Midway(stream, s) && (limit != 0 ==> n <= limit)
    ensures Sound(limit, stream, ReadFixedBody(s, req, n, h))
    ensures Follows(limit, ReadFixedBody(s, req, n, h),
                    s.actions + Continue(limit, req, FixedOutcome([], n, Upcoming(s))), Behaves(h))
  {
    hide ParseAll, Dispatch, Behaves, Sound, Upcoming, Conserves, Midway, Consume, KeepsAlive;
    SameConnection(req, s.buffer[..Min(|s.buffer|, n)]);
    var take, u := Min(|s.buffer|, n), Upcoming(s);
    var s1 := Consume(s, take);
    ConsumeKeeps(stream, s, take);
    if n > MAX_STRING {
      BreakKeeps(limit, stream, s, req, Overlong);
    } else if take == n {
      assert FixedOutcome([], n, u) == Done(s.buffer[..take], u[n..]) by { assert u[..n] == [] + u[..n]; }
      DispatchKeeps(limit, stream, s1, req.(body := s.buffer[..take]), h);
    } else {
      hide Continue, Follows;
      FixedSplits(take, n - take, u);
      IssueKeeps(limit, stream, s1, FixedRest(req, s.buffer[..take], n - take));
      WeakenFollows(limit, ReadFixedBody(s, req, n, h), s.actions + Continue(limit, req, FixedOutcome([], n, u)), Behaves(h));
    }
  }

  lemma WeakenFollows(limit: nat, t: State, expected: seq<Action>, exact: bool)
    requires Follows(limit, t, expected, true)
    ensures Follows(limit, t, expected, exact)
  {}

  lemma ChunkEndKeeps(limit: nat, stream: bytes, s: State, req: RequestData, acc: bytes)
    requires Midway(stream, s) && Fits(limit, |acc|)
    ensures Sound(limit, stream, ReadChunkTrailingCrlf(s, req, acc))
    ensures Follows(limit, ReadChunkTrailingCrlf(s, req, acc),
                    s.actions + Continue(limit, req, AfterData(limit, acc, 0, Upcoming(s))), true)
  {
    hide ParseAll, ParseChunks, Sound, Follows, Upcoming, Conserves, Midway, Consume;
    var have, u := Min(|s.buffer|, 2), Upcoming(s);
    ConsumeKeeps(stream, s, have);
    assert acc + u[..0] == acc;
    if have < 2 {
      assert |u| >= 2 ==> u[have..][2 - have..] == u[2..];
      IssueKeeps(limit, stream, Consume(s, have), ChunkEnd(req, acc, 2 - have));
    } else {
      IssueKeeps(limit, stream, Consume(s, 2), SizeLine(req, acc));
    }
  }

  lemma ChunkDataKeeps(limit: nat, stream: bytes, s: State, req: RequestData, acc: bytes, n: nat)
    requires Midway(stream, s) && Fits(limit, |acc|) && (limit != 0 ==> |acc| + n <= limit) && n > 0
    ensures Sound(limit, stream, ReadChunkData(s, req, acc, n))
    ensures Follows(limit, ReadChunkData(s, req, acc, n),
                    s.actions + Continue(limit, req, AfterData(limit, acc, n, Upcoming(s))), true)
  {
    hide Continue, AfterData, ParseChunks, ReadChunkTrailingCrlf, Sound, Follows, Upcoming, Conserves, Midway, Consume;
    var take, u := Min(|s.buffer|, n), Upcoming(s);
    var acc', s1 := acc + s.buffer[..take], Consume(s, take);
    ConsumeKeeps(stream, s, take);
    AfterDataSplits(limit, acc, take, n - take, u);
    if |acc| + n > MAX_STRING {
      assert AfterData(limit, acc, n, u) == Overlong by { TooLongAfterData(limit, acc, n, u); }
      BreakKeeps(limit, stream, s, req, Overlong);
    } else if take == n {
      ChunkEndKeeps(limit, stream, s1, req, acc');
    } else {
      IssueKeeps(limit, stream, s1, ChunkRest(req, acc', n - take));
    }
  }

  /** Taking a chunk's data in two pieces. */
  lemma AfterDataSplits(limit: nat, acc: bytes, a: nat, b: nat, u: bytes)
    requires a <= |u|
    ensures AfterData(limit, acc, a + b, u) == AfterData(limit, acc + u[..a], b, u[a..])
  {
    hide ParseChunks;
    if |u| >= a + b + 2 {
      assert acc + u[..a + b] == acc + u[..a] + u[a..][..b];
      assert u[a..][b + 2..] == u[a + b + 2..];
    }
  }

  lemma BodyKeeps(limit: nat, stream: bytes, s: State, req: RequestData, h: Script)
    requires Midway(stream, s) && req.body == []
    ensures Sound(limit, stream, ReadBody(limit, s, req, h))
    ensures Follows(limit, ReadBody(limit, s, req, h),
                    s.actions + Continue(limit, req, ParseBody(limit, req, Upcoming(s))), Behaves(h))
  {
    hide ParseAll, ParseChunks, Dispatch, ReadFixedBody, RejectPayloadTooLarge, Behaves, Sound, Conserves, Midway, IsChunked;
    var n, u := req.ContentLength(), Upcoming(s);
    if IsChunked(req) {
      IssueKeeps(limit, stream, s, SizeLine(req, []));
    } else if limit != 0 && n > limit {
      RejectKeeps(limit, stream, s, req);
    } else if n == 0 {
      assert ParseBody(limit, req, u) == Done([], u) by { assert u[..0] == [] && u[0..] == u; }
      assert req.(body := []) == req;
      DispatchKeeps(limit, stream, s, req, h);
    } else {
      assert ParseBody(limit, req, u) == FixedOutcome([], n, u) by { assert |u| >= n ==> [] + u[..n] == u[..n]; }
      FixedKeeps(limit, stream, s, req, n, h);
    }
  }

  // ── callbacks ──────────────────────────────────────────────────────

  /** The line found in the buffer is the first line of everything to come. */
  lemma LineIsNext(s: State, d: bytes)
    requires Find(s.buffer, d, 0).Some?
    ensures Find(Upcoming(s), d, 0) == Find(s.buffer, d, 0)
  {
    FindExtends(s.buffer, s.unread, d);
  }

  lemma HeaderKeeps(limit: nat, stream: bytes, s: State, h: Script)
    requires Conserves(stream, s) && s.pending == [] && s.socket.Open?
    requires Find(s.buffer, CRLFCRLF, 0).Some?
    ensures var t := OnHeader(limit, s, Find(s.buffer, CRLFCRLF, 0).value + 4, h);
            Sound(limit, stream, t) && Follows(limit, t, s.actions + ParseAll(limit, Upcoming(s)), Behaves(h))
  {
    hide ParseBody, ReadBody, Behaves, Sound, Find, WithHeader, Follows;
    var i, u := Find(s.buffer, CRLFCRLF, 0).value, Upcoming(s);
    var p := s.(processing := true);
    LineIsNext(s, CRLFCRLF);
    ConsumeKeeps(stream, p, i + 4);
    assert u[..i + 4] == s.buffer[..i + 4];
    HeaderParses(s.buffer, i);
    var req := WithHeader(EMPTY_REQUEST, s.buffer[..i + 4]).value;
    BodyKeeps(limit, stream, Consume(p, i + 4), req, h);
  }

  lemma HeaderParses(buffer: bytes, i: nat)
    requires Find(buffer, CRLFCRLF, 0) == Some(i)
    ensures WithHeader(EMPTY_REQUEST, buffer[..i + 4]).Some?
  {
    FindFirst(buffer, CRLFCRLF, 0);
    DelimitedBlockParses(buffer[..i + 4], i);
  }

  lemma SizeLineKeeps(limit: nat, stream: bytes, s: State, req: RequestData, acc: bytes)
    requires Midway(stream, s) && Fits(limit, |acc|)
    requires Find(s.buffer, CRLF, 0).Some?
    ensures var t := OnSizeLine(limit, s, req, acc, Find(s.buffer, CRLF, 0).value + 2);
            Sound(limit, stream, t)
            && Follows(limit, t, s.actions + Continue(limit, req, ParseChunks(limit, acc, Upcoming(s))), true)
  {
    hide ParseAll, ParseTrailers, AfterData, ReadChunkData, RejectPayloadTooLarge, ChunkSize, Find, Exceeds;
    var i, u := Find(s.buffer, CRLF, 0).value, Upcoming(s);
    var s1 := Consume(s, i + 2);
    LineIsNext(s, CRLF);
    ConsumeKeeps(stream, s, i + 2);
    assert u[..i] == s.buffer[..i];
    var size := ChunkSize(s.buffer[..i]);
    if size.Some? {
      assert ParseChunks(limit, acc, u) == AfterSize(limit, acc, size.value, u[i + 2..]);
      SizeKeeps(limit, stream, s1, req, acc, size.value);
    }
  }

  lemma SizeKeeps(limit: nat, stream: bytes, s: State, req: RequestData, acc: bytes, size: nat)
    requires Midway(stream, s) && Fits(limit, |acc|)
    ensures var t := AfterSizeLine(limit, s, req, acc, size);
            Sound(limit, stream, t)
            && Follows(limit, t, s.actions + Continue(limit, req, AfterSize(limit, acc, size, Upcoming(s))), true)
  {
    hide ParseAll, ParseTrailers, AfterData, ReadChunkData, RejectPayloadTooLarge, Exceeds;
    if Exceeds(limit, |acc|, size) {
      RejectKeeps(limit, stream, s, req);
    } else if |acc| + size >= SIZE_RANGE {
      BreakKeeps(limit, stream, s, req, Wrapped);
    } else {
      ExceedsWithoutWrap(limit, |acc|, size);
      if size == 0 {
        IssueKeeps(limit, stream, s, TrailerLine(req, acc));
      } else {
        ChunkDataKeeps(limit, stream, s, req, acc, size);
      }
    }
  }

  lemma TrailerStep(acc: bytes, u: bytes)
    ensures ParseTrailers(acc, u) == match Find(u, CRLF, 0)
                                     case None => Truncated
                                     case Some(i) => if i == 0 then Done(acc, u[2..]) else ParseTrailers(acc, u[i + 2..])
  {
    hide Find;
  }

  lemma TrailerKeeps(limit: nat, stream: bytes, s: State, req: RequestData, acc: bytes, h: Script)
    requires Midway(stream, s) && Fits(limit, |acc|)
    requires Find(s.buffer, CRLF, 0).Some?
    ensures var t := OnTrailer(s, req, acc, Find(s.buffer, CRLF, 0).value + 2, h);
            Sound(limit, stream, t)
            && Follows(limit, t, s.actions + Continue(limit, req, ParseTrailers(acc, Upcoming(s))), Behaves(h))
  {
    hide Find, Sound, Follows, Upcoming, Conserves, Midway, Consume, Behaves, Continue, ParseTrailers, Dispatch, Fits;
    var n := Find(s.buffer, CRLF, 0).value + 2;
    LineIsNext(s, CRLF);
    TrailerStep(acc, Upcoming(s));
    ConsumeKeeps(stream, s, n);
    AfterTrailerKeeps(limit, stream, Consume(s, n), req, acc, n, h);
  }

  /** The rest of that callback, n being the length of the line taken. */
  lemma AfterTrailerKeeps(limit: nat, stream: bytes, s1: State, req: RequestData, acc: bytes, n: nat, h: Script)
    requires Midway(stream, s1) && Fits(limit, |acc|)
    ensures var t := if n == 2 then Dispatch(s1, req.(body := acc), h) else ReadChunkTrailers(s1, req, acc);
            var b := if n == 2 then Done(acc, Upcoming(s1)) else ParseTrailers(acc, Upcoming(s1));
            Sound(limit, stream, t) && Follows(limit, t, s1.actions + Continue(limit, req, b), Behaves(h))
  {
    hide ParseAll, ParseTrailers, Dispatch, Sound, Behaves, Upcoming, Conserves, Midway, KeepsAlive;
    if n == 2 {
      SameConnection(req, acc);
      DispatchKeeps(limit, stream, s1, req.(body := acc), h);
    } else {
      IssueKeeps(limit, stream, s1, TrailerLine(req, acc));
    }
  }

  lemma JobKeeps(limit: nat, stream: bytes, s: State, resp: R.ResponseData, job: Script, flushOk: bool, endOk: bool, sendOk: bool)
    requires Midway(stream, s)
    ensures var t := OnJob(s, resp, job, flushOk, endOk, sendOk);
            Sound(limit, stream, t)
            && Follows(limit, t, s.actions + (if s.keepAlive then ParseAll(limit, Upcoming(s)) else []), !job.throws)
  {
    hide ParseAll, R.Play, R.EndChunks;
  }

  // ── steps and runs ─────────────────────────────────────────────────

  /** What can happen next, at an operation of a sound state with the entry taken off the list. */
  predicate Detached(limit: nat, stream: bytes, s: State, op: Op) {
    Conserves(stream, s) && s.pending == [] && OpSound(limit, s, Pending(op, s.buffer, s.keepAlive))
  }

  lemma LineArrivedKeeps(limit: nat, stream: bytes, s: State, op: Op, pull: nat, h: Script)
    requires Detached(limit, stream, s, op) && Enabled(s, op, LineArrived(pull, h))
    ensures var t := Complete(limit, s, op, LineArrived(pull, h));
            Sound(limit, stream, t)
            && Follows(limit, t, s.actions + OpRemaining(limit, s.keepAlive, op, Upcoming(s)), Behaves(h))
  {
    hide Upcoming, Conserves, Find, ParseAll, ParseChunks, ParseTrailers, Continue, Sound, Follows, Behaves, OnHeader, OnSizeLine, OnTrailer;
    var s1 := Pull(s, pull);
    PullKeeps(stream, s, pull);
    if op.HeaderRead? {
      HeaderKeeps(limit, stream, s1, h);
    } else if op.SizeLine? {
      SizeLineKeeps(limit, stream, s1, op.req, op.acc);
      WeakenFollows(limit, Complete(limit, s, op, LineArrived(pull, h)),
                    s.actions + OpRemaining(limit, s.keepAlive, op, Upcoming(s)), Behaves(h));
    } else {
      TrailerKeeps(limit, stream, s1, op.req, op.acc, h);
    }
  }

  lemma BytesArrivedKeeps(limit: nat, stream: bytes, s: State, op: Op, h: Script)
    requires Detached(limit, stream, s, op) && Enabled(s, op, BytesArrived(h))
    ensures var t := Complete(limit, s, op, BytesArrived(h));
            Sound(limit, stream, t)
            && Follows(limit, t, s.actions + OpRemaining(limit, s.keepAlive, op, Upcoming(s)), Behaves(h))
  {
    hide Conserves, ParseAll, ParseChunks, Sound, Behaves, Dispatch, ReadChunkTrailingCrlf, Follows, KeepsAlive;
    var s1, data := TakeDirect(s, op.need), s.unread[..op.need];
    var t, expected := Complete(limit, s, op, BytesArrived(h)), s.actions + OpRemaining(limit, s.keepAlive, op, Upcoming(s));
    TakeDirectKeeps(stream, s, op.need);
    assert |Upcoming(s)| == |s.unread|;
    if op.FixedRest? {
      SameConnection(op.req, op.got + data);
      DispatchKeeps(limit, stream, s1, op.req.(body := op.got + data), h);
    } else if op.ChunkRest? {
      AfterDataSplits(limit, op.acc, op.need, 0, Upcoming(s));
      ChunkEndKeeps(limit, stream, s1, op.req, op.acc + data);
      WeakenFollows(limit, t, expected, Behaves(h));
    } else {
      IssueKeeps(limit, stream, s1, SizeLine(op.req, op.acc));
      WeakenFollows(limit, t, expected, Behaves(h));
    }
  }

  lemma ReadFailedKeeps(limit: nat, stream: bytes, s: State, op: Op, pull: nat, error: Error)
    requires Detached(limit, stream, s, op) && Enabled(s, op, ReadFailed(pull, error))
    ensures var t := Complete(limit, s, op, ReadFailed(pull, error));
            Sound(limit, stream, t)
            && Follows(limit, t, s.actions + OpRemaining(limit, s.keepAlive, op, Upcoming(s)), error.Eof?)
  {
    hide Find;
    if ReadsLine(op) { PullKeeps(stream, s, pull); } else { TakeDirectKeeps(stream, s, pull); }
  }

  lemma CompleteKeeps(limit: nat, stream: bytes, s: State, op: Op, e: Event)
    requires Detached(limit, stream, s, op) && Enabled(s, op, e)
    ensures var t := Complete(limit, s, op, e);
            Sound(limit, stream, t)
            && Follows(limit, t, s.actions + OpRemaining(limit, s.keepAlive, op, Upcoming(s)), Benign(e))
  {
    hide ParseAll, ParseChunks, ParseTrailers, AfterData, Continue, OnJob, NextOrShut, Follows, Sound;
    match e
    case LineArrived(pull, h) => LineArrivedKeeps(limit, stream, s, op, pull, h);
    case BytesArrived(h) => BytesArrivedKeeps(limit, stream, s, op, h);
    case ReadFailed(pull, error) => ReadFailedKeeps(limit, stream, s, op, pull, error);
    case WriteEnded(ok) => WrittenKeeps(limit, stream, s, op.reply, ok);
    case JobRan(job, flushOk, endOk, sendOk) => JobKeeps(limit, stream, s, op.resp, job, flushOk, endOk, sendOk);
    case HopRan => NextKeeps(limit, stream, s.(processing := false), s.keepAlive);
  }

  lemma WrittenKeeps(limit: nat, stream: bytes, s: State, reply: R.Piece, ok: bool)
    requires Conserves(stream, s) && s.pending == [] && s.socket.Open?
    ensures var t := OnWritten(s, reply, ok);
            Sound(limit, stream, t)
            && Follows(limit, t, s.actions + (if s.keepAlive then ParseAll(limit, Upcoming(s)) else []), ok)
  {
    hide ParseAll;
    NextKeeps(limit, stream, s.(processing := false, wire := s.wire + Tag(|s.actions|, [reply])), s.keepAlive);
  }

  /** Every step of every connection keeps the invariant and stays on the whole-stream reading. */
  lemma StepKeeps(limit: nat, stream: bytes, s: State, k: nat, e: Event)
    requires Sound(limit, stream, s) && k < |s.pending| && Enabled(s, s.pending[k].op, e)
    ensures Sound(limit, stream, Step(limit, s, k, e))
    ensures Follows(limit, Step(limit, s, k, e), s.actions + Remaining(limit, s), Benign(e))
  {
    hide Complete, Follows, ParseAll, OpRemaining, Benign, Find;
    var s0 := s.(pending := []);
    assert s.pending[..k] + s.pending[k + 1..] == [];
    CompleteKeeps(limit, stream, s0, s.pending[k].op, e);
  }

  predicate AllBenign(run: seq<Turn>) { forall i :: 0 <= i < |run| ==> Benign(run[i].event) }

  lemma {:induction false} RunKeeps(limit: nat, stream: bytes, s: State, run: seq<Turn>)
    requires Sound(limit, stream, s) && CanRun(limit, s, run)
    ensures Sound(limit, stream, Run(limit, s, run))
    ensures Follows(limit, Run(limit, s, run), s.actions + Remaining(limit, s), AllBenign(run))
    decreases |run|
  {
    hide Sound, Remaining, Step, Enabled, Benign;
    if run != [] {
      var t := Step(limit, s, run[0].k, run[0].event);
      StepKeeps(limit, stream, s, run[0].k, run[0].event);
      RunKeeps(limit, stream, t, run[1..]);
    }
  }
}
