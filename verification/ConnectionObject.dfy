/**
 The Connection object of src/connection.cpp. Its methods change the fields
 step by step as the source does; each is proved to do to the state what the
 function of the same name in Machine says, so what ReaderProofs and
 ConnectionTheorems prove of every run holds of the object.
 */
module ConnectionObject {
  import opened Text
  import opened Numbers
  import opened Headers
  import opened Request
  import opened Framing
  import R = Response
  import M = Machine
  import T = ConnectionTheorems
  import opened ResponseObject

  /** The handler and the stream function respect the assertions of HttpResponse. */
  ghost predicate Lawful(h: M.Script) {
    forall keep: bool :: R.AllPermitted(M.NewResponse(keep), h.calls)
  }

  ghost predicate LawfulEvent(op: M.Op, e: M.Event) {
    match e
    case LineArrived(_, h) => Lawful(h)
    case BytesArrived(h) => Lawful(h)
    case JobRan(job, _, _, _) => op.PoolJob? ==> R.AllPermitted(op.resp, job.calls)
    case _ => true
  }

  ghost predicate LawfulRun(limit: nat, s: M.State, run: seq<M.Turn>)
    requires M.CanRun(limit, s, run)
    decreases |run|
  {
    run == [] ||
    (LawfulEvent(s.pending[run[0].k].op, run[0].event)
     && LawfulRun(limit, M.Step(limit, s, run[0].k, run[0].event), run[1..]))
  }

  class Connection {
    const maxBodySize: nat
    var requestBuffer: bytes
    var keepAlive: bool
    var isProcessing: bool
    var socket: M.Socket

    // The outside: operations in flight, the peer's bytes, and what has been done.
    var pending: seq<M.Pending>
    var unread: bytes
    ghost var consumed: bytes
    ghost var actions: seq<Action>
    ghost var wire: seq<M.Sent>

    ghost function View(): M.State
      reads this
    {
      M.State(requestBuffer, keepAlive, isProcessing, socket, pending, consumed, unread, actions, wire)
    }

    /** A connection just accepted; start() is its first read. */
    constructor (limit: nat, stream: bytes)
      ensures maxBodySize == limit && View() == M.Start(stream)
    {
      maxBodySize := limit;
      requestBuffer, keepAlive, isProcessing, socket := [], false, false, M.Open;
      pending, unread, consumed, actions, wire := [], stream, [], [], [];
      new;
      Read();
    }

    /** Starting an asynchronous operation: a snapshot of what it may race with goes with it. */
    method Issue(op: M.Op)
      modifies this`pending
      ensures View() == M.Issue(old(View()), op)
    {
      pending := pending + [M.Pending(op, requestBuffer, keepAlive)];
    }

    method ConsumeBuffer(n: nat)
      requires n <= |requestBuffer|
      modifies this`requestBuffer, this`consumed
      ensures View() == M.Consume(old(View()), n)
    {
      consumed := consumed + requestBuffer[..n];
      requestBuffer := requestBuffer[n..];
    }

    method Read()
      modifies this
      ensures View() == M.Read(old(View()))
    {
      Issue(M.HeaderRead);
    }

    method OnHeader(n: nat, h: M.Script)
      requires n <= |requestBuffer| && Lawful(h)
      modifies this
      ensures View() == M.OnHeader(maxBodySize, old(View()), n, h)
    {
      hide WithHeader, M.ReadBody;
      isProcessing := true;
      var headerData := requestBuffer[..n];
      ConsumeBuffer(n);
      var request := new HttpRequest();
      var ok := request.ParseHeader(headerData);
      if !ok {
        socket := M.Closed;
        return;
      }
      ReadBody(request.View(), h);
    }

    method ReadBody(request: RequestData, h: M.Script)
      requires Lawful(h)
      modifies this
      ensures View() == M.ReadBody(maxBodySize, old(View()), request, h)
    {
      hide M.Dispatch, M.ReadFixedBody, M.RejectPayloadTooLarge;
      if IsChunked(request) {
        ReadChunkedBody(request, []);
        return;
      }
      var bodyLen := request.ContentLength();
      if maxBodySize != 0 && bodyLen > maxBodySize {
        RejectPayloadTooLarge();
        return;
      }
      if bodyLen == 0 {
        Dispatch(request, h);
        return;
      }
      ReadFixedBody(request, bodyLen, h);
    }

    method ReadFixedBody(request: RequestData, bodyLen: nat, h: M.Script)
      requires Lawful(h)
      modifies this
      ensures View() == M.ReadFixedBody(old(View()), request, bodyLen, h)
    {
      hide M.Dispatch;
      if bodyLen > MAX_STRING {
        Break(Escaped);
        return;
      }
      var have := |requestBuffer|;
      var take := if have < bodyLen then have else bodyLen;
      var body := requestBuffer[..take];
      ConsumeBuffer(take);
      if |body| == bodyLen {
        Dispatch(request.(body := body), h);
        return;
      }
      Issue(M.FixedRest(request, body, bodyLen - |body|));
    }

    method OnFixedRest(request: RequestData, got: bytes, need: nat, h: M.Script)
      requires need <= |unread| && Lawful(h)
      modifies this
      ensures View() == M.Dispatch(M.TakeDirect(old(View()), need), request.(body := got + old(unread)[..need]), h)
    {
      hide M.Dispatch;
      var data := ReadExactly(need);
      Dispatch(request.(body := got + data), h);
    }

    /** A direct read of n bytes from the socket, bypassing the buffer. */
    method ReadExactly(n: nat) returns (data: bytes)
      requires n <= |unread|
      modifies this`consumed, this`unread
      ensures View() == M.TakeDirect(old(View()), n) && data == old(unread)[..n]
    {
      data := unread[..n];
      consumed := consumed + data;
      unread := unread[n..];
    }

    /** The callback breaks off, for the reason a. */
    method Break(ghost a: Action)
      modifies this`actions
      ensures View() == M.Break(old(View()), a)
    {
      actions := actions + [a];
    }

    method ReadChunkedBody(request: RequestData, acc: bytes)
      modifies this
      ensures View() == M.ReadChunkedBody(old(View()), request, acc)
    {
      Issue(M.SizeLine(request, acc));
    }

    method OnSizeLine(request: RequestData, acc: bytes, n: nat)
      requires 2 <= n <= |requestBuffer|
      modifies this
      ensures View() == M.OnSizeLine(maxBodySize, old(View()), request, acc, n)
    {
      hide ChunkSize, M.AfterSizeLine, Exceeds;
      var line := requestBuffer[..n - 2];
      ConsumeBuffer(n);
      var chunkSize := ParseSize(line);
      if chunkSize.None? {
        isProcessing := false;
        socket := M.Closed;
        return;
      }
      AfterSizeLine(request, acc, chunkSize.value);
    }

    /** Extensions and surrounding spaces come off the line in the source's order. */
    method ParseSize(text: bytes) returns (size: Option<nat>)
      ensures size == ChunkSize(text)
    {
      var line := text;
      var semi := Find(line, ";", 0);
      if semi.Some? { line := line[..semi.value]; }
      while line != [] && IsSpace(line[|line| - 1])
        invariant TrimRight(line) == TrimRight(Before(text, ";"))
      {
        line := line[..|line| - 1];
      }
      while line != [] && IsSpace(line[0])
        invariant TrimLeft(line) == TrimLeft(TrimRight(Before(text, ";")))
      {
        line := line[1..];
      }
      size := Stoul16(line);
    }

    method AfterSizeLine(request: RequestData, acc: bytes, chunkSize: nat)
      modifies this
      ensures View() == M.AfterSizeLine(maxBodySize, old(View()), request, acc, chunkSize)
    {
      hide M.RejectPayloadTooLarge, M.ReadChunkData;
      if maxBodySize != 0 && (|acc| + chunkSize) % SIZE_RANGE > maxBodySize {
        RejectPayloadTooLarge();
        return;
      }
      if |acc| + chunkSize >= SIZE_RANGE {
        Break(Overran);
        return;
      }
      if chunkSize == 0 {
        ReadChunkTrailers(request, acc);
      } else {
        ReadChunkData(request, acc, chunkSize);
      }
    }

    method ReadChunkData(request: RequestData, acc0: bytes, chunkSize: nat)
      modifies this
      ensures View() == M.ReadChunkData(old(View()), request, acc0, chunkSize)
    {
      hide M.ReadChunkTrailingCrlf;
      if |acc0| + chunkSize > MAX_STRING {
        Break(Escaped);
        return;
      }
      var have := |requestBuffer|;
      var toTakeFromBuf := if have < chunkSize then have else chunkSize;
      var acc := acc0 + requestBuffer[..toTakeFromBuf];
      ConsumeBuffer(toTakeFromBuf);
      var remaining := chunkSize - toTakeFromBuf;
      if remaining == 0 {
        ReadChunkTrailingCrlf(request, acc);
        return;
      }
      Issue(M.ChunkRest(request, acc, remaining));
    }

    method OnChunkRest(request: RequestData, acc: bytes, need: nat)
      requires need <= |unread|
      modifies this
      ensures View() == M.ReadChunkTrailingCrlf(M.TakeDirect(old(View()), need), request, acc + old(unread)[..need])
    {
      hide M.ReadChunkTrailingCrlf;
      var data := ReadExactly(need);
      ReadChunkTrailingCrlf(request, acc + data);
    }

    method ReadChunkTrailingCrlf(request: RequestData, acc: bytes)
      modifies this
      ensures View() == M.ReadChunkTrailingCrlf(old(View()), request, acc)
    {
      if |requestBuffer| >= 2 {
        ConsumeBuffer(2);
        ReadChunkedBody(request, acc);
        return;
      }
      var need := 2 - |requestBuffer|;
      ConsumeBuffer(|requestBuffer|);
      Issue(M.ChunkEnd(request, acc, need));
    }

    method OnChunkEnd(request: RequestData, acc: bytes, need: nat)
      requires need <= |unread|
      modifies this
      ensures View() == M.ReadChunkedBody(M.TakeDirect(old(View()), need), request, acc)
    {
      var dummy := ReadExactly(need);
      ReadChunkedBody(request, acc);
    }

    method ReadChunkTrailers(request: RequestData, acc: bytes)
      modifies this
      ensures View() == M.ReadChunkTrailers(old(View()), request, acc)
    {
      Issue(M.TrailerLine(request, acc));
    }

    method OnTrailer(request: RequestData, acc: bytes, n: nat, h: M.Script)
      requires n <= |requestBuffer| && Lawful(h)
      modifies this
      ensures View() == M.OnTrailer(old(View()), request, acc, n, h)
    {
      hide M.Dispatch;
      var emptyLine := n == 2;
      ConsumeBuffer(n);
      if emptyLine {
        Dispatch(request.(body := acc), h);
      } else {
        ReadChunkTrailers(request, acc);
      }
    }

    /** The error branch every read callback shares; op tells which one it is. */
    method OnReadFailed(op: M.Op, error: M.Error)
      modifies this`isProcessing, this`socket
      ensures View() == M.OnReadFailed(old(View()), op, error)
    {
      isProcessing := false;
      if op.HeaderRead? && error.Other? { return; }
      socket := M.Closed;
    }

    /** cancel() while waiting for a header: the wait ends as aborted. */
    method Cancel()
      requires pending != [] ==> pending[0].op.HeaderRead?
      modifies this`pending, this`isProcessing, this`socket
      ensures View() == M.Cancelled(old(View()))
    {
      if pending == [] { return; }
      var op := pending[0].op;
      pending := [];
      OnReadFailed(op, M.Aborted);
    }

    method Dispatch(request: RequestData, h: M.Script)
      requires Lawful(h)
      modifies this
      ensures View() == M.Dispatch(old(View()), request, h)
    {
      hide R.Play, M.Answer, R.AllPermitted, M.NewResponse;
      var connHdr := request.Header(CONNECTION);
      if connHdr == [] || connHdr == "close" {
        keepAlive := false;
      } else {
        keepAlive := true;
      }
      assert keepAlive == KeepsAlive(request);
      hide KeepsAlive;
      var response := NewResponse();

      // handler_.handle(*request, response)
      response.Play(h.calls);
      assert response.wire == R.Play(M.NewResponse(keepAlive), h.calls).out;
      actions := actions + [Dispatched(request, requestBuffer + unread)];
      wire := wire + M.Tag(|actions|, response.wire);
      Answer(response, h);
    }

    /** The response as the handler gets it: attached, with the Connection header set. */
    method NewResponse() returns (response: HttpResponse)
      ensures fresh(response) && response.View() == M.NewResponse(keepAlive) && response.wire == []
    {
      response := new HttpResponse();
      response.AttachStream();
      response.InsertHeader(CONNECTION, if keepAlive then M.KEEP_ALIVE else M.CLOSE);
    }

    /** The rest of dispatch(), once the handler has returned or thrown. */
    method Answer(response: HttpResponse, h: M.Script)
      modifies this
      ensures View() == M.Answer(old(View()), response.View(), h)
    {
      hide R.Serialize, M.Replacement;
      if h.throws {
        if !response.headersFlushed {
          var replacement := ReplaceWith500(h.message);
          WriteBuffered(replacement);
        } else {
          keepAlive := false;
          FinishRequest();
        }
        return;
      }
      match response.mode {
        case Buffered =>
          WriteBuffered(response);
        case Immediate =>
          var length := response.FindCi(CONTENT_LENGTH);
          var encoding := response.FindCi(TRANSFER_ENCODING);
          if length == |response.entries| && encoding == |response.entries| { keepAlive := false; }
          FinishRequest();
        case Stream =>
          Issue(M.PoolJob(response.View()));
      }
    }

    method ReplaceWith500(message: bytes) returns (response: HttpResponse)
      modifies this`keepAlive
      ensures fresh(response) && response.View() == M.Replacement(message) && response.mode.Buffered? && !keepAlive
    {
      response := new HttpResponse();
      response.AttachStream();
      response.SetStatus(500);
      response.InsertHeader(CONTENT_TYPE, M.PLAIN);
      response.InsertHeader(CONNECTION, M.CLOSE);
      var body := "500 Internal Server Error\n";
      if message != [] { body := body + (message + "\n"); }
      assert message == [] ==> body + [] == body;
      response.SetBody(body);
      keepAlive := false;
    }

    method RejectPayloadTooLarge()
      modifies this
      ensures View() == M.RejectPayloadTooLarge(old(View()))
    {
      hide R.Reply, Insert;
      keepAlive := false;
      actions := actions + [Rejected];
      var response := new HttpResponse();
      response.SetStatus(413);
      response.InsertHeader(CONTENT_TYPE, M.PLAIN);
      response.InsertHeader(CONNECTION, M.CLOSE);
      response.SetBody("413 Payload Too Large\n");
      WriteBuffered(response);
    }

    method WriteBuffered(response: HttpResponse)
      requires response.mode.Buffered?
      modifies this
      ensures View() == M.WriteBuffered(old(View()), response.View())
    {
      hide R.Serialize;
      var payload := response.Serialize();
      Issue(M.WriteOut(R.Head(payload, R.SerializedEntries(response.View()))));
    }

    method OnWritten(reply: R.Piece, ok: bool)
      modifies this
      ensures View() == M.OnWritten(old(View()), reply, ok)
    {
      isProcessing := false;
      if !ok { return; }
      wire := wire + M.Tag(|actions|, [reply]);
      if keepAlive {
        Read();
      } else if socket.Open? {
        socket := M.ShutDown;
      }
    }

    /** The job post_stream_work hands to the pool. */
    method StreamJob(resp: R.ResponseData, job: M.Script, flushOk: bool, endOk: bool, sendOk: bool)
      requires R.AllPermitted(resp, job.calls)
      modifies this
      ensures View() == M.OnJob(old(View()), resp, job, flushOk, endOk, sendOk)
    {
      hide R.Play, R.EndChunks, R.AllPermitted, R.Serialize, M.Replacement;
      var response := new HttpResponse.Moved(resp);
      response.Play(job.calls);
      ghost var sent := response.wire;
      assert sent == R.Play(resp, job.calls).out;
      if job.throws {
        ghost var out := RecoverJob(response, job.message, sendOk);
        sent := sent + out;
      } else {
        var ended := response.EndChunks(flushOk, endOk);
        sent := response.wire;
      }
      wire := wire + M.Tag(|actions|, sent);
      Issue(M.FinishHop);
    }

    /** A throw out of the stream function: a 500 if nothing was sent yet, and no further request. */
    method RecoverJob(response: HttpResponse, message: bytes, sendOk: bool) returns (ghost out: seq<R.Piece>)
      modifies this`keepAlive
      ensures !keepAlive
      ensures out == if !response.headersFlushed && sendOk then [R.Reply(M.Replacement(message))] else []
    {
      hide R.Serialize, M.Replacement;
      out := [];
      if !response.headersFlushed {
        var replacement := ReplaceWith500(message);
        var payload := replacement.Serialize();
        if sendOk { out := [R.Head(payload, R.SerializedEntries(replacement.View()))]; }
      }
      keepAlive := false;
    }

    method FinishRequest()
      modifies this
      ensures View() == M.FinishRequest(old(View()))
    {
      isProcessing := false;
      if keepAlive {
        Read();
      } else if socket.Open? {
        socket := M.ShutDown;
      }
    }

    /** Bytes the socket puts into the buffer before a read-until completes. */
    method PullIntoBuffer(n: nat)
      requires n <= |unread|
      modifies this`requestBuffer, this`unread
      ensures View() == M.Pull(old(View()), n)
    {
      requestBuffer := requestBuffer + unread[..n];
      unread := unread[n..];
    }

    /** The system completes operation k with event e, and its callback runs. */
    method Turn(k: nat, e: M.Event)
      requires k < |pending| && M.Enabled(View(), pending[k].op, e) && LawfulEvent(pending[k].op, e)
      modifies this
      ensures View() == M.Step(maxBodySize, old(View()), k, e)
    {
      hide M.OnHeader, M.OnSizeLine, M.OnTrailer, M.Dispatch, M.ReadChunkTrailingCrlf, M.OnJob, M.OnWritten, M.FinishRequest, Find;
      var op := pending[k].op;
      pending := pending[..k] + pending[k + 1..];
      match e {
        case LineArrived(pull, h) =>
          PullIntoBuffer(pull);
          var i := Find(requestBuffer, M.Delimiter(op), 0);
          if op.HeaderRead? {
            OnHeader(i.value + 4, h);
          } else if op.SizeLine? {
            OnSizeLine(op.req, op.acc, i.value + 2);
          } else {
            OnTrailer(op.req, op.acc, i.value + 2, h);
          }
        case BytesArrived(h) =>
          if op.FixedRest? {
            OnFixedRest(op.req, op.got, op.need, h);
          } else if op.ChunkRest? {
            OnChunkRest(op.req, op.acc, op.need);
          } else {
            OnChunkEnd(op.req, op.acc, op.need);
          }
        case ReadFailed(pull, error) =>
          if M.ReadsLine(op) {
            PullIntoBuffer(pull);
          } else {
            var lost := ReadExactly(pull);
          }
          OnReadFailed(op, error);
        case WriteEnded(ok) =>
          OnWritten(op.reply, ok);
        case JobRan(job, flushOk, endOk, sendOk) =>
          StreamJob(op.resp, job, flushOk, endOk, sendOk);
        case HopRan =>
          FinishRequest();
      }
    }

    /**
     A connection through any sequence of completions: it ends in the state the
     machine gives, every byte accounted for, at most one operation in flight,
     and the requests handed over are the first of the whole-stream reading.
     */
    method Serve(ghost stream: bytes, run: seq<M.Turn>)
      requires View() == M.Start(stream)
      requires M.CanRun(maxBodySize, View(), run) && LawfulRun(maxBodySize, View(), run)
      modifies this
      ensures View() == M.Run(maxBodySize, M.Start(stream), run)
      ensures consumed + requestBuffer + unread == stream
      ensures |pending| <= 1
      ensures actions <= ParseAll(maxBodySize, stream)
    {
      hide M.Step, M.Enabled, LawfulEvent, ParseAll;
      var i := 0;
      ghost var last := M.Run(maxBodySize, M.Start(stream), run);
      assert run[0..] == run;
      while i < |run|
        invariant 0 <= i <= |run|
        invariant M.CanRun(maxBodySize, View(), run[i..]) && LawfulRun(maxBodySize, View(), run[i..])
        invariant M.Run(maxBodySize, View(), run[i..]) == last
      {
        assert run[i..][1..] == run[i + 1..];
        Turn(run[i].k, run[i].event);
        i := i + 1;
      }
      assert run[i..] == [];
      T.RequestsFollowTheStream(maxBodySize, stream, run);
      Assoc(consumed, requestBuffer, unread);
    }
  }
}
