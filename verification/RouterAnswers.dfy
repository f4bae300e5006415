/**
 The answers the router gives itself, read by the client: default_404, and the
 405 of handle() with the methods that have a route for the path.
 */
module RouterAnswers {
  import opened Text
  import opened Headers
  import opened Request
  import opened Machine
  import opened Routing
  import opened RoutingByText
  import opened ClientSees
  import opened ConversationRead
  import F = Framing
  import CR = ClientReads
  import R = Response
  import RT = ResponseRoundTrip

  /** What default_404 does with the response. */
  const NOT_FOUND := Script([R.SetStatus(404), R.SetHeader(CONTENT_TYPE, PLAIN), R.SetBody("404 Not Found\n")], false, "")

  /** What handle() does with it when only other methods have a route. */
  function MethodNotAllowed(allow: bytes): Script {
    Script([R.SetStatus(405), R.SetHeader("Allow", allow), R.SetHeader(CONTENT_TYPE, PLAIN), R.SetBody("405 Method Not Allowed\n")],
           false, "")
  }

  /** The response as written, read by the client. */
  function Answered(req: RequestData, h: Script): bytes { R.Reply(R.Play(NewResponse(F.KeepsAlive(req)), h.calls).r).data }

  lemma NotFoundIs()
    ensures Ordinary(NOT_FOUND) && BodyAfter(NOT_FOUND.calls, "") == "404 Not Found\n" && R.StatusAfter(NOT_FOUND.calls, 200) == 404
    ensures HeaderAfter(NOT_FOUND.calls, "Content-Type") == Some(PLAIN) && HeaderAfter(NOT_FOUND.calls, "Connection") == None
  {
    hide SameSpelling, RT.Printable;
    OtherNames();
    ErrorEntriesPrintable();
    Sets([R.SetStatus(404), R.SetHeader(CONTENT_TYPE, PLAIN)], "404 Not Found\n", "Content-Type");
    Sets([R.SetStatus(404), R.SetHeader(CONTENT_TYPE, PLAIN)], "404 Not Found\n", "Connection");
    Types([R.SetStatus(404)], "Content-Type");
    Types([R.SetStatus(404)], "Connection");
    Begins(404);
    assert [R.SetStatus(404)] + [R.SetHeader(CONTENT_TYPE, PLAIN)] == [R.SetStatus(404), R.SetHeader(CONTENT_TYPE, PLAIN)];
    assert [R.SetStatus(404), R.SetHeader(CONTENT_TYPE, PLAIN)] + [R.SetBody("404 Not Found\n")] == NOT_FOUND.calls;
  }

  lemma Sets(calls: seq<R.Call>, body: bytes, name: bytes)
    ensures var all := calls + [R.SetBody(body)];
            BodyAfter(all, "") == body && R.StatusAfter(all, 200) == R.StatusAfter(calls, 200) && HeaderAfter(all, name) == HeaderAfter(calls, name)
  {
    assert (calls + [R.SetBody(body)])[..|calls|] == calls;
  }

  lemma Types(calls: seq<R.Call>, name: bytes)
    ensures var all := calls + [R.SetHeader(CONTENT_TYPE, PLAIN)];
            && R.StatusAfter(all, 200) == R.StatusAfter(calls, 200)
            && HeaderAfter(all, name) == if SameSpelling(CONTENT_TYPE, name) then Some(PLAIN) else HeaderAfter(calls, name)
  {
    hide SameSpelling;
    assert (calls + [R.SetHeader(CONTENT_TYPE, PLAIN)])[..|calls|] == calls;
  }

  lemma Begins(code: int)
    ensures R.StatusAfter([R.SetStatus(code)], 200) == code && forall name :: HeaderAfter([R.SetStatus(code)], name) == None
  {
    assert [R.SetStatus(code)][..0] == [];
  }

  lemma Allows(code: int, allow: bytes, name: bytes)
    ensures var all := [R.SetStatus(code), R.SetHeader("Allow", allow)];
            R.StatusAfter(all, 200) == code && HeaderAfter(all, name) == if SameSpelling("Allow", name) then Some(allow) else None
  {
    hide SameSpelling;
    Begins(code);
    assert [R.SetStatus(code), R.SetHeader("Allow", allow)][..1] == [R.SetStatus(code)];
  }

  lemma OtherNames()
    ensures SameSpelling(CONTENT_TYPE, "Content-Type") && SameSpelling("Allow", "Allow") && !SameSpelling(CONTENT_TYPE, "Allow")
    ensures !SameSpelling(CONTENT_TYPE, "Connection") && !SameSpelling("Allow", "Connection")
    ensures !SameSpelling(CONTENT_TYPE, "Content-Length") && !SameSpelling("Allow", "Content-Length")
    ensures !SameSpelling(CONTENT_TYPE, "Transfer-Encoding") && !SameSpelling("Allow", "Transfer-Encoding")
  {
    assert |CONTENT_TYPE| == 12 && |"Allow"| == 5 && |"Connection"| == 10 && |"Content-Length"| == 14 && |"Transfer-Encoding"| == 17;
  }

  /** A path without a route: 404, in plain text, whole whatever follows. */
  lemma NotFoundIsRead(req: RequestData, rest: bytes)
    ensures var wire := Answered(req, NOT_FOUND) + rest;
            && R.SaysStatus(Answered(req, NOT_FOUND), 404, "Not Found") && CR.HasBlock(wire)
            && CR.Parsed(wire).Header("Content-Type") == "text/plain; charset=utf-8"
            && CR.Parsed(wire).Header("Connection") == (if F.AsksToClose(req) then "close" else "keep-alive")
            && CR.ReadsAs(wire, "404 Not Found\n", rest)
  {
    hide R.Play, R.Reply, R.ReasonPhrase, R.SaysStatus, CR.ReadsAs, CR.HasBlock, CR.Parsed, CR.ReplyEnds, NewResponse,
         HeaderAfter, BodyAfter, R.StatusAfter, F.KeepsAlive, F.AsksToClose, Readable, HeadersFit;
    NotFoundIs();
    OrdinaryIsReadable(F.KeepsAlive(req), NOT_FOUND);
    BufferedReplyIsRead(req, NOT_FOUND, rest);
    assert R.ReasonPhrase(404) == "Not Found" by { R.PhrasesBelow410(); }
  }

  lemma NameIsPlain(v: Verb)
    ensures var n := VerbName(v); n != [] && Clean(n) && !IsSpace(n[0]) && !IsSpace(n[|n| - 1])
  {}

  lemma {:induction false} ListedIsPlain(vs: seq<Verb>)
    ensures Clean(Listed(vs)) && Trimmed(Listed(vs))
    ensures vs != [] ==> Listed(vs) != []
  {
    hide VerbName, IsSpace;
    if vs != [] {
      NameIsPlain(vs[0]);
      if |vs| > 1 { ListedIsPlain(vs[1..]); }
    }
  }

  lemma NotAllowedIs(vs: seq<Verb>)
    ensures var h := MethodNotAllowed(Listed(vs));
            && Ordinary(h) && BodyAfter(h.calls, "") == "405 Method Not Allowed\n" && R.StatusAfter(h.calls, 200) == 405
            && HeaderAfter(h.calls, "Allow") == Some(Listed(vs)) && HeaderAfter(h.calls, "Connection") == None
  {
    hide SameSpelling, RT.Printable, Listed;
    OtherNames();
    ErrorEntriesPrintable();
    AllowPrintable(vs);
    var a := [R.SetStatus(405), R.SetHeader("Allow", Listed(vs))];
    var b := a + [R.SetHeader(CONTENT_TYPE, PLAIN)];
    assert b + [R.SetBody("405 Method Not Allowed\n")] == MethodNotAllowed(Listed(vs)).calls;
    Allows(405, Listed(vs), "Allow");
    Allows(405, Listed(vs), "Connection");
    Types(a, "Allow");
    Types(a, "Connection");
    Sets(b, "405 Method Not Allowed\n", "Allow");
    Sets(b, "405 Method Not Allowed\n", "Connection");
  }

  lemma AllowPrintable(vs: seq<Verb>)
    ensures RT.Printable(Entry("Allow", Listed(vs)))
  {
    hide Listed;
    ListedIsPlain(vs);
  }

  /**
   A path that only other methods have a route for, whatever was registered: the
   client reads a 405 whose Allow header lists exactly those methods, in order.
   */
  lemma NotAllowedIsRead(log: seq<Registration>, verb: Verb, path: bytes, params: map<bytes, bytes>, c404: Option<HandlerId>, o: Outcome,
                         req: RequestData, rest: bytes)
    requires Correct(log, verb, path, params, None, c404, o) && o.NotAllowed?
    ensures var wire := Answered(req, MethodNotAllowed(o.allow)) + rest;
            && R.SaysStatus(Answered(req, MethodNotAllowed(o.allow)), 405, "Method Not Allowed") && CR.HasBlock(wire)
            && (exists vs :: CR.Parsed(wire).Header("Allow") == Listed(vs) && InOrder(vs, |VERBS|) && verb !in vs
                             && forall v: Verb :: v in vs <==> v != UNKNOWN && AnyFits(log, v, path))
            && CR.Parsed(wire).Header("Connection") == (if F.AsksToClose(req) then "close" else "keep-alive")
            && CR.ReadsAs(wire, "405 Method Not Allowed\n", rest)
  {
    hide R.Play, R.Reply, R.ReasonPhrase, R.SaysStatus, CR.ReadsAs, CR.HasBlock, CR.Parsed, CR.ReplyEnds, NewResponse,
         HeaderAfter, BodyAfter, R.StatusAfter, F.KeepsAlive, F.AsksToClose, Readable, HeadersFit,
         Correct, Listed, InOrder, AnyFits, MethodNotAllowed;
    AllowByText(log, verb, path, params, c404, o);
    var vs :| o.allow == Listed(vs) && InOrder(vs, |VERBS|) && verb !in vs
              && forall v: Verb :: v in vs <==> v != UNKNOWN && AnyFits(log, v, path);
    NotAllowedIs(vs);
    var h := MethodNotAllowed(o.allow);
    OrdinaryIsReadable(F.KeepsAlive(req), h);
    BufferedReplyIsRead(req, h, rest);
    assert R.ReasonPhrase(405) == "Method Not Allowed" by { R.PhrasesBelow410(); }
    assert CR.Parsed(Answered(req, h) + rest).Header("Allow") == Listed(vs);
  }
}
