/**
 The bytes a server answers with. Refusals in every run; and, for handlers that
 leave their responses buffered, the whole wire as a function of the stream.
 */
module Conversation {
  import opened Text
  import opened Request
  import opened Framing
  import opened Machine
  import opened ReaderProofs
  import opened WireProofs
  import R = Response

  predicate WriteOk(e: Event) { e.WriteEnded? ==> e.ok }

  predicate WritesSucceed(run: seq<Turn>) { forall i :: 0 <= i < |run| ==> WriteOk(run[i].event) }

  function Refusal(): R.Piece { R.Reply(ErrorResponse(413, "413 Payload Too Large\n")) }

  predicate Refuses(s: State) { s.actions != [] && s.actions[|s.actions| - 1].Rejected? }

  // ── a refusal, whatever came before it ─────────────────────────────

  /**
   After a refusal the connection is not kept; the 413 is the one thing it
   still sends, and when that is out the socket is shut down.
   */
  ghost predicate RefusalShown(s: State, ok: bool) {
    Refuses(s) ==>
      var sent := AnswerTo(s.wire, |s.actions|);
      && !s.keepAlive
      && (s.pending != [] ==> s.pending[0].op == WriteOut(Refusal()) && sent == [])
      && (s.pending == [] && ok ==> sent == [Refusal()] && s.socket == ShutDown)
  }

  lemma NothingSent(s: State)
    requires Orderly(s)
    ensures AnswerTo(s.wire, |s.actions| + 1) == []
  {
    NoAnswerBeyond(s.wire, |s.actions|, |s.actions| + 1);
  }

  lemma {:induction false} NoAnswerBeyond(w: seq<Sent>, n: nat, k: nat)
    requires InTurn(w, n) && n < k
    ensures AnswerTo(w, k) == []
  {
    if w != [] { NoAnswerBeyond(w[1..], n, k); }
  }

  lemma LandRefuses(s: State, l: Landing, h: Script)
    requires Ready(s) && !Refuses(s) && WithinBody(l)
    ensures RefusalShown(Land(s, l, h), true)
  {
    hide R.Reply, ErrorResponse, R.Play, Answer, NewResponse, AnswerTo, Refusal;
    match l
    case ToHandler(req) => DispatchedLast(s, req, h);
    case ToRefusal =>
      NothingSent(s);
      RejectWrites(s);
    case _ =>
  }

  lemma RejectWrites(s: State)
    requires s.pending == []
    ensures var t := RejectPayloadTooLarge(s);
            |t.pending| == 1 && t.pending[0].op == WriteOut(Refusal()) && !t.keepAlive && t.wire == s.wire
            && t.actions == s.actions + [Rejected]
  {
    hide R.Reply, ErrorResponse;
  }

  lemma DispatchedLast(s: State, req: RequestData, h: Script)
    requires s.pending == []
    ensures Dispatch(s, req, h).actions == s.actions + [Dispatched(req, Upcoming(s))]
  {
    hide R.Play, R.Reply, NewResponse, Replacement, R.Framed;
  }

  /** A read never starts behind a refusal. */
  lemma ReadsAreWanted(s: State, op: Op)
    requires s.pending == [] && RefusalShown(Issue(s, op), true) && !op.WriteOut?
    ensures !Refuses(s)
  {
    hide AnswerTo;
  }

  lemma CompleteRefuses(limit: nat, s: State, op: Op, e: Event)
    requires Ready(s) && s.socket.Open? && Owes(Issue(s, op)) && Enabled(s, op, e) && (ReadsBytes(op) ==> op.need > 0)
    requires RefusalShown(Issue(s, op), true)
    ensures RefusalShown(Complete(limit, s, op, e), WriteOk(e))
  {
    hide Complete, Find, Orderly, AnswerTo, HeadsOf, AtBoundary, R.ModeInvariant, Refusal;
    if e.WriteEnded? {
      WrittenRefuses(s, op.reply, e.ok);
      WriteCompletes(limit, s, op, e);
    } else {
      ReadsAreWanted(s, op);
      if Arrives(e) {
        var s1, l := ReadLands(limit, s, op, e);
        OnwardIsReady(s, s1);
        LandRefuses(s1, l, e.handler);
      } else {
        OthersKeepActions(limit, s, op, e);
      }
    }
  }

  lemma WriteCompletes(limit: nat, s: State, op: Op, e: Event)
    requires Enabled(s, op, e) && e.WriteEnded?
    ensures Complete(limit, s, op, e) == OnWritten(s, op.reply, e.ok)
  {}

  lemma WrittenRefuses(s: State, reply: R.Piece, ok: bool)
    requires s.pending == [] && s.socket.Open? && RefusalShown(Issue(s, WriteOut(reply)), true)
    ensures RefusalShown(OnWritten(s, reply, ok), ok)
  {
    hide AnswerTo, Refusal;
    AnswersAfter(s.wire, |s.actions|, [reply]);
  }

  lemma OthersKeepActions(limit: nat, s: State, op: Op, e: Event)
    requires Enabled(s, op, e) && !Arrives(e)
    ensures Complete(limit, s, op, e).actions == s.actions
  {
    hide Find, JobOut;
  }

  lemma StepRefuses(limit: nat, stream: bytes, s: State, k: nat, e: Event, ok: bool)
    requires Live(limit, stream, s) && RefusalShown(s, ok) && k < |s.pending| && Enabled(s, s.pending[k].op, e)
    ensures RefusalShown(Step(limit, s, k, e), WriteOk(e))
  {
    hide Live, Step, Enabled, Complete, Ready, Owes, AnswerTo;
    StepIsComplete(limit, stream, s, k, e);
    CompleteRefuses(limit, Taken(s), s.pending[0].op, e);
  }

  lemma WritesTail(run: seq<Turn>)
    requires run != []
    ensures WritesSucceed(run) ==> WriteOk(run[0].event) && WritesSucceed(run[1..])
    ensures WritesSucceed([])
    ensures WriteOk(run[0].event) && WritesSucceed(run[1..]) ==> WritesSucceed(run)
  {
    hide WriteOk;
    assert run == [run[0]] + run[1..];
  }

  lemma {:induction false} RunRefuses(limit: nat, stream: bytes, s: State, run: seq<Turn>, ok: bool)
    requires Live(limit, stream, s) && RefusalShown(s, ok) && CanRun(limit, s, run)
    ensures RefusalShown(Run(limit, s, run), ok && WritesSucceed(run))
    decreases |run|
  {
    if run != [] {
      hide Live, Step, Enabled, Fuel, RefusalShown, Answered, AnswersEvent, WritesSucceed, WriteOk;
      var e := run[0].event;
      WritesTail(run);
      StepRefuses(limit, stream, s, run[0].k, e, ok);
      StepLives(limit, stream, s, run[0].k, e);
      RunRefuses(limit, stream, Step(limit, s, run[0].k, e), run[1..], WriteOk(e));
    }
  }

  // ── buffered handlers: the wire is a function of the stream ────────

  /** The handler leaves its response buffered. */
  predicate Waits(h: Script) { !R.Writes(h.calls) && !R.Streams(h.calls) }

  /** The response to the k-th request, when hs(k) is what its handler does. */
  function ReplyTo(hs: nat -> Script, k: nat, a: Action): R.Piece {
    match a
    case Dispatched(req, _) =>
      R.Reply(if hs(k).throws then Replacement(hs(k).message) else R.Play(NewResponse(KeepsAlive(req)), hs(k).calls).r)
    case _ => Refusal()
  }

  /** What the server sends for these actions: one response for each, in order. */
  function Replies(hs: nat -> Script, actions: seq<Action>): seq<Sent> {
    if actions == [] then []
    else
      var n := |actions|;
      Replies(hs, actions[..n - 1])
      + if Broken(actions[n - 1]) then [] else [Sent(n, ReplyTo(hs, n, actions[n - 1]))]
  }

  lemma RepliesSnoc(hs: nat -> Script, actions: seq<Action>, a: Action)
    ensures Replies(hs, actions + [a]) ==
            Replies(hs, actions) + if Broken(a) then [] else [Sent(|actions| + 1, ReplyTo(hs, |actions| + 1, a))]
  {
    hide ReplyTo;
    assert (actions + [a])[..|actions|] == actions;
  }

  lemma {:induction false} RepliesPrefix(hs: nat -> Script, a: seq<Action>, b: seq<Action>)
    requires a <= b
    ensures Replies(hs, a) <= Replies(hs, b)
    decreases |b|
  {
    hide ReplyTo;
    if a != b {
      var n := |b|;
      RepliesPrefix(hs, a, b[..n - 1]);
    } else {
      assert a == b;
    }
  }

  /** The last request ended the connection. */
  predicate Ends(hs: nat -> Script, actions: seq<Action>) {
    actions != [] &&
      match actions[|actions| - 1]
      case Dispatched(req, _) => !KeepsAlive(req) || hs(|actions|).throws
      case _ => true
  }

  /** The reply being written. */
  function Outgoing(s: State): seq<Sent> {
    if s.pending != [] && s.pending[0].op.WriteOut? then [Sent(|s.actions|, s.pending[0].op.reply)] else []
  }

  /** Everything due has been sent or is being written; ok says whether no write has failed. */
  ghost predicate Conversed(hs: nat -> Script, s: State, ok: bool) {
    && (s.pending != [] ==> !s.pending[0].op.PoolJob? && !s.pending[0].op.FinishHop?)
    && s.wire <= Replies(hs, s.actions)
    && (ok || s.pending != [] ==> s.wire + Outgoing(s) == Replies(hs, s.actions))
    && (s.actions != [] && !Broke(s) ==> (s.keepAlive <==> !Ends(hs, s.actions)))
    && (s.pending != [] && !s.pending[0].op.WriteOut? && s.actions != [] ==> s.keepAlive)
    && (s.pending == [] && ok && Ends(hs, s.actions) && !Broke(s) ==> s.socket == ShutDown)
  }

  /** A callback starts from here: all replies are out, and the connection is wanted. */
  ghost predicate Caught(hs: nat -> Script, s: State) {
    && s.pending == [] && s.wire == Replies(hs, s.actions)
    && (s.actions != [] ==> s.keepAlive && !Ends(hs, s.actions) && !Broke(s))
  }

  lemma BufferedDispatch(s: State, req: RequestData, h: Script)
    requires s.pending == [] && Waits(h)
    ensures var keep := KeepsAlive(req);
            var r := R.Play(NewResponse(keep), h.calls).r;
            && R.Play(NewResponse(keep), h.calls).out == [] && r.mode.Buffered? && !r.flushed
            && var t := Dispatch(s, req, h);
               && t.actions == s.actions + [Dispatched(req, Upcoming(s))] && t.wire == s.wire
               && t.keepAlive == (keep && !h.throws) && |t.pending| == 1
               && t.pending[0].op == WriteOut(R.Reply(if h.throws then Replacement(h.message) else r))
  {
    hide R.Play, NewResponse, KeepsAlive, R.Reply, Replacement, R.Writes, R.Streams, R.SomeSends, R.Heads;
    var keep := KeepsAlive(req);
    HandlerLeaves(keep, h.calls);
    NewResponseSound(keep, h.calls);
    assert s.wire + Tag(|s.actions| + 1, []) == s.wire;
  }

  lemma DispatchConverses(hs: nat -> Script, s: State, req: RequestData, h: Script)
    requires Caught(hs, s) && Waits(h) && h == hs(|s.actions| + 1)
    ensures Conversed(hs, Dispatch(s, req, h), true)
  {
    hide R.Play, NewResponse, KeepsAlive, R.Reply, Replacement, Dispatch, Waits, Replies;
    BufferedDispatch(s, req, h);
    RepliesSnoc(hs, s.actions, Dispatched(req, Upcoming(s)));
  }

  lemma RefusalConverses(hs: nat -> Script, s: State)
    requires Caught(hs, s)
    ensures Conversed(hs, RejectPayloadTooLarge(s), true)
  {
    hide Replies, ReplyTo, Refusal, RejectPayloadTooLarge, KeepsAlive;
    RejectWrites(s);
    RepliesSnoc(hs, s.actions, Rejected);
    RefusalReply(hs, |s.actions| + 1);
  }

  lemma BreakConverses(hs: nat -> Script, s: State, a: Action)
    requires Caught(hs, s) && Broken(a)
    ensures Conversed(hs, Break(s, a), true)
  {
    hide Replies, ReplyTo, KeepsAlive;
    RepliesSnoc(hs, s.actions, a);
  }

  /** A read goes on, or the connection ends. */
  lemma ReadConverses(hs: nat -> Script, s: State, op: Op)
    requires Caught(hs, s) && !op.WriteOut? && !op.PoolJob? && !op.FinishHop?
    ensures Conversed(hs, Issue(s, op), true) && Conversed(hs, s, true)
  {
    hide Replies, KeepsAlive;
    assert s.wire + [] == s.wire;
  }

  lemma RefusalReply(hs: nat -> Script, k: nat)
    ensures ReplyTo(hs, k, Rejected) == Refusal()
  {}

  /** If the completion hands over a request, its handler is the one hs names, and a buffered one. */
  predicate ServedBy(hs: nat -> Script, s: State, t: State, e: Event) {
    |t.actions| > |s.actions| && t.actions[|t.actions| - 1].Dispatched? ==>
      Arrives(e) && Waits(e.handler) && e.handler == hs(|t.actions|)
  }

  predicate AllServed(hs: nat -> Script, limit: nat, s: State, run: seq<Turn>)
    requires CanRun(limit, s, run)
    decreases |run|
  {
    run == [] ||
    var t := Step(limit, s, run[0].k, run[0].event);
    ServedBy(hs, s, t, run[0].event) && AllServed(hs, limit, t, run[1..])
  }

  lemma OnwardIsCaught(hs: nat -> Script, s: State, s1: State)
    requires Caught(hs, s) && Onward(s, s1)
    ensures Caught(hs, s1)
  {}

  lemma WrittenConverses(hs: nat -> Script, s: State, reply: R.Piece, ok: bool)
    requires s.pending == [] && s.socket.Open? && s.actions != [] && !Broke(s)
    requires Conversed(hs, Issue(s, WriteOut(reply)), true)
    ensures Conversed(hs, OnWritten(s, reply, ok), ok)
  {
    hide Replies, Ends;
    assert Tag(|s.actions|, [reply]) == [Sent(|s.actions|, reply)];
  }

  lemma CompleteConverses(hs: nat -> Script, limit: nat, s: State, op: Op, e: Event)
    requires Ready(s) && s.socket.Open? && Owes(Issue(s, op)) && Enabled(s, op, e) && (ReadsBytes(op) ==> op.need > 0)
    requires Conversed(hs, Issue(s, op), true) && ServedBy(hs, s, Complete(limit, s, op, e), e)
    ensures Conversed(hs, Complete(limit, s, op, e), WriteOk(e))
  {
    hide Land, OnWritten, Find, Orderly, HeadsOf, AtBoundary, R.ModeInvariant, R.Printed, Waits, Replies, KeepsAlive;
    if e.WriteEnded? {
      WrittenConverses(hs, s, op.reply, e.ok);
    } else {
      CaughtAtRead(hs, s, op);
      if Arrives(e) { ArrivedConverses(hs, limit, s, op, e); }
    }
  }

  lemma ArrivedConverses(hs: nat -> Script, limit: nat, s: State, op: Op, e: Event)
    requires s.pending == [] && Caught(hs, s) && Enabled(s, op, e) && Arrives(e) && (ReadsBytes(op) ==> op.need > 0)
    requires ServedBy(hs, s, Complete(limit, s, op, e), e)
    ensures Conversed(hs, Complete(limit, s, op, e), true)
  {
    hide Complete, Dispatch, RejectPayloadTooLarge, Break, Issue, Find, Waits, Replies, Caught, Conversed;
    var s1, l := ReadLands(limit, s, op, e);
    OnwardIsCaught(hs, s, s1);
    match l
    case ToHandler(req) =>
      LandsAtHandler(s1, l, e.handler);
      DispatchConverses(hs, s1, req, e.handler);
    case ToRefusal => RefusalConverses(hs, s1);
    case ToBreak(a) => BreakConverses(hs, s1, a);
    case ToRead(next) => ReadConverses(hs, s1, next);
    case ToEnd => ReadConverses(hs, s1, HeaderRead);
  }

  lemma CaughtAtRead(hs: nat -> Script, s: State, op: Op)
    requires s.pending == [] && !op.WriteOut? && Owes(Issue(s, op)) && Conversed(hs, Issue(s, op), true)
    ensures Caught(hs, s)
  {
    hide Replies, Ends, HeadsOf, AtBoundary, R.ModeInvariant;
    assert s.wire + [] == s.wire;
  }

  lemma LandsAtHandler(s: State, l: Landing, h: Script)
    requires s.pending == [] && l.ToHandler?
    ensures Land(s, l, h).actions == s.actions + [Dispatched(l.req, Upcoming(s))]
  {
    DispatchedLast(s, l.req, h);
  }

  lemma StepConverses(hs: nat -> Script, limit: nat, stream: bytes, s: State, k: nat, e: Event, ok: bool)
    requires Live(limit, stream, s) && Conversed(hs, s, ok) && k < |s.pending| && Enabled(s, s.pending[k].op, e)
    requires ServedBy(hs, s, Step(limit, s, k, e), e)
    ensures Conversed(hs, Step(limit, s, k, e), WriteOk(e))
  {
    hide Live, Step, Enabled, Complete, Ready, Owes, Conversed, ServedBy;
    StepIsComplete(limit, stream, s, k, e);
    OkIsIdle(hs, s, ok);
    SameServed(hs, s, Step(limit, s, k, e), e);
    CompleteConverses(hs, limit, Taken(s), s.pending[0].op, e);
  }

  lemma ServedTail(hs: nat -> Script, limit: nat, s: State, run: seq<Turn>)
    requires CanRun(limit, s, run) && AllServed(hs, limit, s, run) && run != []
    ensures var t := Step(limit, s, run[0].k, run[0].event);
            ServedBy(hs, s, t, run[0].event) && AllServed(hs, limit, t, run[1..]) && Run(limit, s, run) == Run(limit, t, run[1..])
  {
    hide Step, Enabled, ServedBy;
  }

  lemma {:induction false} RunConverses(hs: nat -> Script, limit: nat, stream: bytes, s: State, run: seq<Turn>, ok: bool)
    requires Live(limit, stream, s) && Conversed(hs, s, ok) && CanRun(limit, s, run) && AllServed(hs, limit, s, run)
    ensures Conversed(hs, Run(limit, s, run), ok && WritesSucceed(run))
    decreases |run|
  {
    if run != [] {
      hide Live, Step, Enabled, Fuel, Conversed, ServedBy, Answered, AnswersEvent, WritesSucceed, WriteOk, AllServed, Run;
      var e := run[0].event;
      WritesTail(run);
      ServedTail(hs, limit, s, run);
      StepConverses(hs, limit, stream, s, run[0].k, e, ok);
      StepLives(limit, stream, s, run[0].k, e);
      RunConverses(hs, limit, stream, Step(limit, s, run[0].k, e), run[1..], WriteOk(e));
    }
  }

  lemma OkIsIdle(hs: nat -> Script, s: State, ok: bool)
    requires s.pending != [] && Conversed(hs, s, ok)
    ensures Conversed(hs, s, true)
  {
    hide Replies, Ends;
  }

  lemma SameServed(hs: nat -> Script, s: State, t: State, e: Event)
    requires ServedBy(hs, s, t, e)
    ensures ServedBy(hs, Taken(s), t, e)
  {}

  /**
   A whole connection with buffered handlers, hs(k) being what the handler of
   the k-th request does: the bytes sent so far are the first of the responses
   to the requests of the stream, one for each, in order. When no write failed
   and nothing is left to do they are the responses to all that was read; if
   the last request ended the connection, the socket is shut down. And when
   nothing failed before the end of the stream and no handler threw, they are
   the responses to everything in the stream.
   */
  lemma BufferedConversation(hs: nat -> Script, limit: nat, stream: bytes, run: seq<Turn>)
    requires CanRun(limit, Start(stream), run) && AllServed(hs, limit, Start(stream), run)
    ensures var t := Run(limit, Start(stream), run);
            && t.wire <= Replies(hs, ParseAll(limit, stream))
            && (t.pending == [] && WritesSucceed(run) ==>
                  t.wire == Replies(hs, t.actions)
                  && (Ends(hs, t.actions) && !Broke(t) ==> !t.keepAlive && t.socket == ShutDown))
            && (t.pending == [] && AllBenign(run) ==> t.wire == Replies(hs, ParseAll(limit, stream)))
  {
    hide ParseAll, Sound, Replies, Remaining, Run, CanRun, AllServed, KeepsAlive, Benign;
    var t := Run(limit, Start(stream), run);
    StartLives(limit, stream);
    assert Conversed(hs, Start(stream), true) by { NothingYet(hs, stream); }
    RunConverses(hs, limit, stream, Start(stream), run, true);
    RunKeeps(limit, stream, Start(stream), run);
    assert Start(stream).actions + Remaining(limit, Start(stream)) == ParseAll(limit, stream);
    RepliesPrefix(hs, t.actions, ParseAll(limit, stream));
    if AllBenign(run) { BenignWrites(run); }
    if t.pending == [] {
      assert t.wire + Outgoing(t) == t.wire;
      NothingRemains(limit, t);
    }
  }

  lemma NothingYet(hs: nat -> Script, stream: bytes)
    ensures Conversed(hs, Start(stream), true)
  {}

  lemma BenignWrites(run: seq<Turn>)
    requires AllBenign(run)
    ensures WritesSucceed(run)
  {
    hide Behaves;
  }
}
