/**
 What a handler is given of a request, said in the text of the request: its
 first line, its header lines, and its body in either framing, with any bytes
 behind it.
 */
module HandlerSees {
  import opened Text
  import opened Numbers
  import opened Headers
  import opened Form
  import opened Request
  import opened Framing
  import R = Response
  import RT = ResponseRoundTrip

  // ── header lines ───────────────────────────────────────────────────

  /** The k-th line is the last one under that name, in any spelling. */
  predicate LastOf(es: seq<Entry>, k: int, name: bytes) {
    0 <= k < |es| && SameSpelling(es[k].name, name) && forall i :: k < i < |es| ==> !SameSpelling(es[i].name, name)
  }

  predicate Absent(es: seq<Entry>, name: bytes) { forall i :: 0 <= i < |es| ==> !SameSpelling(es[i].name, name) }

  lemma {:induction false} LastCounts(es: seq<Entry>, k: nat, name: bytes)
    requires LastOf(es, k, name)
    ensures LastWritten(es, name) == Some(es[k].value)
    decreases |es|
  {
    hide CiEqual, SameSpelling;
    var n := |es| - 1;
    CiEqualIsSpelling(es[n].name, name);
    if k < n {
      LastCounts(es[..n], k, name);
    }
  }

  lemma {:induction false} AbsentIsNotWritten(es: seq<Entry>, name: bytes)
    requires Absent(es, name)
    ensures LastWritten(es, name) == None
    decreases |es|
  {
    hide CiEqual, SameSpelling;
    if es != [] {
      var n := |es| - 1;
      CiEqualIsSpelling(es[n].name, name);
      AbsentIsNotWritten(es[..n], name);
    }
  }

  /** The request holds what the lines say: the last value under each name. */
  ghost predicate Holds(req: RequestData, es: seq<Entry>) {
    && (forall name, k :: LastOf(es, k, name) ==> req.Header(name) == es[k].value)
    && (forall name :: Absent(es, name) ==> req.Header(name) == "")
  }

  lemma HoldsLast(req: RequestData, es: seq<Entry>)
    requires req.headers == AssignAll(es)
    ensures Holds(req, es)
  {
    hide CiEqual, SameSpelling, LastWritten, AssignAll, InsertAll, Lookup;
    forall name, k | LastOf(es, k, name)
      ensures req.Header(name) == es[k].value
    {
      LastCounts(es, k, name);
      HeaderMapsAgree(es, name);
    }
    forall name | Absent(es, name)
      ensures req.Header(name) == ""
    {
      AbsentIsNotWritten(es, name);
      HeaderMapsAgree(es, name);
    }
  }

  // ── the header block ───────────────────────────────────────────────

  /** The first line of the request, in parts; the query encodes the fields fs. */
  predicate Says(l: Line, qs: seq<Field>, fs: seq<Field>) {
    && l.Proper() && Clean(l.Text()) && FieldsEncode(qs, fs)
    && match l.query case None => fs == [] case Some(q) => q == JoinFields(qs)
  }

  predicate AsSent(req: RequestData, l: Line, fs: seq<Field>) {
    Names(l.name, req.verb) && req.path == l.path && req.version == l.version && req.query == FieldMap(fs, map[])
  }

  /** The text of a header block. */
  function BlockText(l: Line, es: seq<Entry>): bytes { RT.HeadText(l.Text(), es) }

  /** A block with any printable header lines, none at all included. */
  lemma BlockIsRead(l: Line, es: seq<Entry>, qs: seq<Field>, fs: seq<Field>)
    requires Says(l, qs, fs) && RT.AllPrintable(es)
    ensures var h := BlockText(l, es);
            && |h| >= 4 && Find(h, CRLFCRLF, 0) == Some(|h| - 4) && WithHeader(EMPTY_REQUEST, h).Some?
            && var req := WithHeader(EMPTY_REQUEST, h).value;
               AsSent(req, l, fs) && Holds(req, es)
  {
    hide Find, WithHeader, RT.HeadText, RT.Printable, Line.Text, Line.Proper, FieldsEncode, Names, AssignAll, Holds;
    if es == [] { BareBlock(l.Text()); } else { RT.HeadParses(l.Text(), es); }
    HoldsLast(WithHeader(EMPTY_REQUEST, BlockText(l, es)).value, es);
    BlockShows(l, es);
    CleanIsLine(l.Text());
    RequestLineRoundTrip(l, qs, fs, BlockText(l, es)[|l.Text()| + 2..]);
    CleanVersion(l);
  }

  lemma BlockShows(l: Line, es: seq<Entry>)
    ensures var h := BlockText(l, es); |h| >= |l.Text()| + 2 && h == l.Text() + CRLF + h[|l.Text()| + 2..]
  {
    hide Line.Text;
    Assoc(l.Text() + CRLF, R.Lines(R.HeaderLines(es)), CRLF);
  }

  lemma CleanVersion(l: Line)
    requires Clean(l.Text())
    ensures WithoutReturn(l.version) == l.version
  {
    var v, t := l.version, l.Text();
    if v != [] { assert t[|t| - 1] == v[|v| - 1]; }
  }

  /** A first line and the empty line. */
  lemma BareBlock(first: bytes)
    requires Clean(first)
    ensures var h := RT.HeadText(first, []);
            && |h| >= 4 && Find(h, CRLFCRLF, 0) == Some(|h| - 4) && WithHeader(EMPTY_REQUEST, h).Some?
            && WithHeader(EMPTY_REQUEST, h).value.headers == AssignAll([])
  {
    hide Find, WithRequestLine, FoldHeaders;
    var h := RT.HeadText(first, []);
    assert h == first + CRLFCRLF && h == first + CRLF + CRLF;
    RT.LastLineEnds(first);
    CleanIsLine(first);
    LineIsFound(first, CRLF);
    assert Find(CRLF, CRLFCRLF, 0) == None by { FindFirst(CRLF, CRLFCRLF, 0); }
    NoLines();
  }

  lemma NoLines()
    ensures FoldHeaders(CRLF, []) == []
  {
    CleanIsLine([]);
    LineIsFound([], []);
    assert [] + CRLF + [] == CRLF;
    FindNoByte([], ':');
  }

  // ── the body ───────────────────────────────────────────────────────

  /** The transfer encoding has the word chunked in it, in any spelling. */
  ghost predicate SaysChunked(es: seq<Entry>) {
    exists k, i :: LastOf(es, k, "Transfer-Encoding") && SpelledAt(es[k].value, "chunked", i)
  }

  /** The length is n: the digits in front of the last Content-Length, or zero without any. */
  predicate SaysLength(es: seq<Entry>, k: nat, digits: bytes, n: nat) {
    if k == |es| then Absent(es, "Content-Length") && n == 0
    else && LastOf(es, k, "Content-Length") && digits <= es[k].value
         && digits != [] && AllDigits(digits, 10) && Value(digits, 10) == n < SIZE_RANGE
         && (|digits| < |es[k].value| ==> DigitValue(es[k].value[|digits|], 10).None?)
  }

  /** The last Connection line, if there is one, is empty or the word "close". */
  ghost predicate SaysClose(es: seq<Entry>) {
    forall k :: LastOf(es, k, "Connection") ==> es[k].value == "" || es[k].value == "close"
  }

  /** If any line has the name, one is the last. */
  lemma {:induction false} LastExists(es: seq<Entry>, name: bytes) returns (k: nat)
    ensures if k == |es| then Absent(es, name) else LastOf(es, k, name)
    decreases |es|
  {
    hide SameSpelling;
    if es == [] { return 0; }
    var n := |es| - 1;
    if SameSpelling(es[n].name, name) { return n; }
    k := LastExists(es[..n], name);
    if k == n {
      k := |es|;
      assert forall i :: 0 <= i < n ==> es[i] == es[..n][i];
    } else {
      assert forall i :: 0 <= i < n ==> es[i] == es[..n][i];
    }
  }

  lemma ChunkedIsSaid(req: RequestData, es: seq<Entry>)
    requires Holds(req, es)
    ensures IsChunked(req) <==> SaysChunked(es)
  {
    hide IsChunked, SameSpelling, RequestData.Header;
    ChunkedByCode(req);
    var k := LastExists(es, "Transfer-Encoding");
    if k == |es| {
      assert forall j :: !LastOf(es, j, "Transfer-Encoding");
    } else {
      assert forall j :: LastOf(es, j, "Transfer-Encoding") ==> j == k;
    }
  }

  lemma LengthIsSaid(req: RequestData, es: seq<Entry>, k: nat, digits: bytes, n: nat)
    requires Holds(req, es) && k <= |es| && SaysLength(es, k, digits, n)
    ensures req.ContentLength() == n
  {
    hide SameSpelling, RequestData.Header, Value, AllDigits, FromChars;
    assert CONTENT_LENGTH == "Content-Length";
    if k == |es| {
      NoDigits();
    } else {
      var v := es[k].value;
      assert v == digits + v[|digits|..];
      FromCharsReads(digits, v[|digits|..]);
    }
  }

  lemma NoDigits()
    ensures FromChars([]) == None
  {}

  lemma CloseIsSaid(req: RequestData, es: seq<Entry>)
    requires Holds(req, es)
    ensures KeepsAlive(req) <==> !SaysClose(es)
  {
    hide SameSpelling, RequestData.Header, KeepsAlive;
    KeepsAliveUnlessAsked(req);
    var k := LastExists(es, "Connection");
    if k == |es| {
      assert forall j :: !LastOf(es, j, "Connection");
    } else {
      assert forall j :: LastOf(es, j, "Connection") ==> j == k;
    }
  }

  /** The request is the first thing handed over, with that body and those bytes behind it; what follows is as it asked. */
  ghost predicate HandsOver(all: seq<Action>, limit: nat, l: Line, es: seq<Entry>, fs: seq<Field>, body: bytes, rest: bytes) {
    && all != [] && all[0].Dispatched? && all[0].rest == rest
    && AsSent(all[0].req, l, fs) && Holds(all[0].req, es) && all[0].req.body == body
    && all[1..] == if SaysClose(es) then [] else ParseAll(limit, rest)
  }

  /** A request sent in whole, in front of any bytes, with its length in any spelling: handed over as sent, or refused exactly when it is over the limit. */
  lemma PlainIsHandedOver(limit: nat, l: Line, es: seq<Entry>, qs: seq<Field>, fs: seq<Field>, k: nat, digits: bytes,
                          body: bytes, rest: bytes)
    requires Says(l, qs, fs) && RT.AllPrintable(es)
    requires !SaysChunked(es) && k <= |es| && SaysLength(es, k, digits, |body|) && |body| <= MAX_STRING
    ensures var all := ParseAll(limit, BlockText(l, es) + (body + rest));
            if limit != 0 && |body| > limit then all == [Rejected] else HandsOver(all, limit, l, es, fs, body, rest)
  {
    hide Find, WithHeader, IsChunked, KeepsAlive, ParseAll, BlockText, RT.AllPrintable, Says, SaysChunked, SaysLength, SaysClose,
         Holds, AsSent, ParseChunks, RequestData.Header, RequestData.ContentLength;
    BlockIsRead(l, es, qs, fs);
    var h := BlockText(l, es);
    var req := WithHeader(EMPTY_REQUEST, h).value;
    ChunkedIsSaid(req, es);
    LengthIsSaid(req, es, k, digits, |body|);
    FixedBodyExact(limit, req, body, rest);
    HeadStep(limit, h + (body + rest), h, body + rest);
    IsHandedOver(limit, l, es, fs, req, body, rest);
  }

  lemma IsHandedOver(limit: nat, l: Line, es: seq<Entry>, fs: seq<Field>, req: RequestData, body: bytes, rest: bytes)
    requires AsSent(req, l, fs) && Holds(req, es)
    ensures HandsOver(Continue(limit, req, Done(body, rest)), limit, l, es, fs, body, rest)
  {
    hide KeepsAlive, ParseAll, SaysClose, SameSpelling, RequestData.Header;
    CloseIsSaid(req, es);
    WithBody(req, es, body);
  }

  lemma WithBody(req: RequestData, es: seq<Entry>, body: bytes)
    requires Holds(req, es)
    ensures Holds(req.(body := body), es)
  {
    hide SameSpelling, LastOf, Absent, Lookup;
    assert forall name :: req.(body := body).Header(name) == req.Header(name);
  }

  /** A request sent in chunks, the encoding in any spelling: the same. */
  lemma ChunkedIsHandedOver(limit: nat, l: Line, es: seq<Entry>, qs: seq<Field>, fs: seq<Field>,
                            cs: seq<Chunk>, last: bytes, ts: seq<bytes>, rest: bytes)
    requires Says(l, qs, fs) && RT.AllPrintable(es) && SaysChunked(es)
    requires (forall i :: 0 <= i < |cs| ==> WellFormed(cs[i])) && WellFormedEnd(last, ts) && |Content(cs)| <= MAX_STRING
    ensures var all := ParseAll(limit, BlockText(l, es) + (SendChunks(cs) + (last + CRLF + (SendTrailers(ts) + rest))));
            if limit != 0 && |Content(cs)| > limit then all == [Rejected] else HandsOver(all, limit, l, es, fs, Content(cs), rest)
  {
    hide Find, WithHeader, IsChunked, KeepsAlive, ParseAll, BlockText, RT.AllPrintable, Says, SaysChunked, SaysClose,
         Holds, AsSent, ParseChunks, RequestData.Header, RequestData.ContentLength, WellFormed, WellFormedEnd, SendChunks, SendTrailers;
    BlockIsRead(l, es, qs, fs);
    var h := BlockText(l, es);
    var req := WithHeader(EMPTY_REQUEST, h).value;
    ChunkedIsSaid(req, es);
    ChunkedBodyExact(limit, [], cs, last, ts, rest);
    assert [] + Content(cs) == Content(cs);
    var tail := SendChunks(cs) + (last + CRLF + (SendTrailers(ts) + rest));
    HeadStep(limit, h + tail, h, tail);
    IsHandedOver(limit, l, es, fs, req, Content(cs), rest);
  }
}
