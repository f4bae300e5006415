/**
 Conversations byte for byte. The general results say for which other bytes the
 same is true.
 */
module Examples {
  import opened Text
  import opened Numbers
  import opened Headers
  import opened Form
  import opened Request
  import opened Framing
  import opened HandlerSees
  import opened Machine
  import opened ReaderProofs
  import opened WireProofs
  import opened Conversation
  import R = Response
  import RT = ResponseRoundTrip
  import CX = Counterexamples
  import T = ConnectionTheorems
  import C = ChunkRoundTrip
  import CR = ClientReads
  import CIS = ClientInStep
  import RU = ReuseProofs
  import CV = ConversationRead

  // ── requests ───────────────────────────────────────────────────────

  const POST_LINE := Line("POST", "/", None, "HTTP/1.1")

  lemma PostSays()
    ensures Says(POST_LINE, [], []) && POST_LINE.Text() == "POST / HTTP/1.1"
  {
    hide Clean, Encodes;
    PostText();
    PostClean();
  }

  lemma PostText()
    ensures POST_LINE.Target() == "/" && POST_LINE.Text() == "POST / HTTP/1.1"
  {}

  lemma PostClean()
    ensures Clean("POST / HTTP/1.1") && ' ' !in "POST" && ' ' !in "/" && '?' !in "/"
  {}

  lemma OneHeader(l: Line, e: Entry)
    ensures BlockText(l, [e]) == l.Text() + CRLF + (e.name + ": " + e.value + CRLF) + CRLF
  {
    hide Line.Text;
    assert R.HeaderLines([e]) == [R.HeaderLine(e)];
    R.LinesSnoc([], R.HeaderLine(e));
    assert [] + [R.HeaderLine(e)] == [R.HeaderLine(e)];
    assert R.Lines([]) + (R.HeaderLine(e) + CRLF) == R.HeaderLine(e) + CRLF;
  }

  lemma OnlyLine(e: Entry, name: bytes)
    ensures SameSpelling(e.name, name) ==> LastOf([e], 0, name)
    ensures !SameSpelling(e.name, name) ==> Absent([e], name)
    ensures forall k :: LastOf([e], k, name) ==> k == 0 && SameSpelling(e.name, name)
  {
    hide SameSpelling;
  }

  /** A length in small letters is the length; nothing says to keep the connection. */
  lemma SmallLetterLength(rest: bytes)
    ensures var all := ParseAll(0, "POST / HTTP/1.1\r\ncontent-length: 5\r\n\r\nhello" + rest);
            |all| == 1 && all[0].Dispatched? && all[0].rest == rest
            && var req := all[0].req;
               req.verb == POST && req.path == "/" && req.version == "HTTP/1.1" && req.query == map[]
               && req.body == "hello" && req.Header("Content-Length") == "5"
  {
    hide ParseAll, RequestData.Header, Says, AsSent, SaysClose, SaysChunked, BlockText;
    var e := Entry("content-length", "5");
    PostSays();
    OneHeader(POST_LINE, e);
    var h, stream := BlockText(POST_LINE, [e]), "POST / HTTP/1.1\r\ncontent-length: 5\r\n\r\nhello" + rest;
    assert h == "POST / HTTP/1.1\r\ncontent-length: 5\r\n\r\n" by { SmallBlock(); }
    assert stream == h + ("hello" + rest) by { SmallStream(rest); }
    SmallEntry(e);
    PlainIsHandedOver(0, POST_LINE, [e], [], [], 0, "5", "hello", rest);
    PostReads(ParseAll(0, stream)[0].req);
  }

  lemma SmallBlock()
    ensures "POST / HTTP/1.1" + CRLF + ("content-length" + ": " + "5" + CRLF) + CRLF == "POST / HTTP/1.1\r\ncontent-length: 5\r\n\r\n"
  {}

  lemma SmallStream(rest: bytes)
    ensures "POST / HTTP/1.1\r\ncontent-length: 5\r\n\r\nhello" + rest == "POST / HTTP/1.1\r\ncontent-length: 5\r\n\r\n" + ("hello" + rest)
  {
    assert "POST / HTTP/1.1\r\ncontent-length: 5\r\n\r\nhello" == "POST / HTTP/1.1\r\ncontent-length: 5\r\n\r\n" + "hello";
  }

  lemma SmallEntry(e: Entry)
    requires e == Entry("content-length", "5")
    ensures RT.AllPrintable([e]) && LastOf([e], 0, "Content-Length") && SaysLength([e], 0, "5", 5)
    ensures !SaysChunked([e]) && SaysClose([e])
  {
    hide SameSpelling;
    assert SameSpelling("content-length", "Content-Length") by { SmallLength(); }
    OnlyLine(e, "Content-Length");
    assert !SameSpelling(e.name, "Transfer-Encoding") && !SameSpelling(e.name, "Connection") by { OtherNames(); }
    OnlyLine(e, "Transfer-Encoding");
    OnlyLine(e, "Connection");
    FiveIsFive();
    assert RT.Printable(e) by { SmallIsPrintable(); }
  }

  lemma SmallLength()
    ensures SameSpelling("content-length", "Content-Length")
  {}

  lemma OtherNames()
    ensures !SameSpelling("content-length", "Transfer-Encoding") && !SameSpelling("content-length", "Connection")
  {}

  lemma FiveIsFive()
    ensures AllDigits("5", 10) && Value("5", 10) == 5
  {
    assert "5"[..0] == [] && Value([], 10) == 0;
  }

  lemma SmallIsPrintable()
    ensures RT.Printable(Entry("content-length", "5"))
  {}

  lemma PostReads(req: RequestData)
    requires AsSent(req, POST_LINE, [])
    ensures req.verb == POST && req.path == "/" && req.version == "HTTP/1.1" && req.query == map[]
  {}

  const UPLOAD_LINE := Line("post", "/up", None, "HTTP/1.1")

  const UPLOAD: seq<Entry> := [Entry("TRANSFER-encoding", "gzip, Chunked"), Entry("Connection", "Keep-Alive")]

  /** Chunks, the method, the header name and the word in odd spellings; any Connection value but two keeps the connection. */
  lemma OddSpellingChunks(rest: bytes)
    ensures var stream := "post /up HTTP/1.1\r\n" + ("TRANSFER-encoding: gzip, Chunked\r\n" + "Connection: Keep-Alive\r\n") + "\r\n"
                          + ("5;x=y\r\nhello\r\n" + ("0\r\n\r\n" + rest));
            var all := ParseAll(0, stream);
            && all != [] && all[0].Dispatched? && all[0].rest == rest && all[1..] == ParseAll(0, rest)
            && all[0].req.verb == POST && all[0].req.path == "/up" && all[0].req.body == "hello"
  {
    hide ParseAll, RequestData.Header, Says, AsSent, SaysClose, SaysChunked, BlockText, WellFormed, WellFormedEnd,
         SendChunks, SendTrailers, RT.AllPrintable;
    UploadSays();
    UploadBlock();
    UploadEntries();
    var c := Chunk("5;x=y", "hello", "\r\n");
    HelloChunk(c, rest);
    ChunkedIsHandedOver(0, UPLOAD_LINE, UPLOAD, [], [], [c], "0", [], rest);
    UploadReads(ParseAll(0, BlockText(UPLOAD_LINE, UPLOAD) + (SendChunks([c]) + ("0" + CRLF + (SendTrailers([]) + rest))))[0].req);
  }

  lemma UploadSays()
    ensures Says(UPLOAD_LINE, [], []) && UPLOAD_LINE.Text() == "post /up HTTP/1.1"
  {
    hide Clean, Encodes;
    UploadText();
    UploadIsOneLine();
  }

  lemma UploadText()
    ensures UPLOAD_LINE.Target() == "/up" && UPLOAD_LINE.Text() == "post /up HTTP/1.1"
  {}

  lemma UploadIsOneLine()
    ensures Clean("post /up HTTP/1.1") && ' ' !in "post" && ' ' !in "/up" && '?' !in "/up"
  {}

  lemma UploadBlock()
    ensures BlockText(UPLOAD_LINE, UPLOAD) ==
            "post /up HTTP/1.1\r\n" + ("TRANSFER-encoding: gzip, Chunked\r\n" + "Connection: Keep-Alive\r\n") + "\r\n"
  {
    hide Line.Text;
    UploadSays();
    var a, b := R.HeaderLine(UPLOAD[0]), R.HeaderLine(UPLOAD[1]);
    assert a == "TRANSFER-encoding: gzip, Chunked" && b == "Connection: Keep-Alive";
    assert R.HeaderLines(UPLOAD) == [a, b];
    TwoLines(a, b);
    UploadBytes();
  }

  lemma UploadBytes()
    ensures "post /up HTTP/1.1" + CRLF + ("TRANSFER-encoding: gzip, Chunked" + CRLF + ("Connection: Keep-Alive" + CRLF)) + CRLF
            == "post /up HTTP/1.1\r\n" + ("TRANSFER-encoding: gzip, Chunked\r\n" + "Connection: Keep-Alive\r\n") + "\r\n"
  {
    var a, b := "TRANSFER-encoding: gzip, Chunked" + CRLF, "Connection: Keep-Alive" + CRLF;
    assert a == "TRANSFER-encoding: gzip, Chunked\r\n" && b == "Connection: Keep-Alive\r\n";
    assert "post /up HTTP/1.1" + CRLF == "post /up HTTP/1.1\r\n";
  }

  lemma TwoLines(a: bytes, b: bytes)
    ensures R.Lines([a, b]) == a + CRLF + (b + CRLF)
  {
    R.LinesSnoc([a], b);
    R.LinesSnoc([], a);
    assert [a] + [b] == [a, b];
    assert [] + [a] == [a] && R.Lines([]) + (a + CRLF) == a + CRLF;
  }

  lemma UploadEntries()
    ensures RT.AllPrintable(UPLOAD) && SaysChunked(UPLOAD) && !SaysClose(UPLOAD)
  {
    hide SameSpelling, RT.Printable;
    UploadSpellings();
    assert LastOf(UPLOAD, 0, "Transfer-Encoding") && LastOf(UPLOAD, 1, "Connection");
    assert SpelledAt(UPLOAD[0].value, "chunked", 6) by { assert "gzip, Chunked"[6..6 + 7] == "Chunked"; }
    assert UPLOAD[1].value != "close" by { assert |UPLOAD[1].value| == 10; }
    UploadPrintable();
  }

  lemma UploadSpellings()
    ensures SameSpelling("TRANSFER-encoding", "Transfer-Encoding") && SameSpelling("Connection", "Connection")
    ensures !SameSpelling("Connection", "Transfer-Encoding") && SameSpelling("Chunked", "chunked")
  {}

  lemma UploadPrintable()
    ensures RT.Printable(UPLOAD[0]) && RT.Printable(UPLOAD[1])
  {
    hide Trimmed, Clean;
    UploadIsTrimmed();
    UploadIsClean();
    assert ':' !in "TRANSFER-encoding" && ':' !in "Connection";
  }

  lemma UploadIsTrimmed()
    ensures Trimmed("TRANSFER-encoding") && Trimmed("gzip, Chunked") && Trimmed("Connection") && Trimmed("Keep-Alive")
  {}

  lemma UploadIsClean()
    ensures Clean("TRANSFER-encoding") && Clean("gzip, Chunked") && Clean("Connection") && Clean("Keep-Alive")
  {}

  lemma HelloChunk(c: Chunk, rest: bytes)
    requires c == Chunk("5;x=y", "hello", "\r\n")
    ensures WellFormed(c) && WellFormedEnd("0", []) && Content([c]) == "hello"
    ensures SendChunks([c]) + ("0" + CRLF + (SendTrailers([]) + rest)) == "5;x=y\r\nhello\r\n" + ("0\r\n\r\n" + rest)
  {
    hide ChunkSize, Value, AllDigits, SendChunk, IsLine;
    HelloSize();
    CleanIsLine("5;x=y");
    CleanIsLine("0");
    assert SendChunks([c]) == SendChunk(c) + [] && SendChunk(c) + [] == SendChunk(c) && Content([c]) == "hello" + [];
    assert SendChunk(c) == "5;x=y\r\nhello\r\n" by { HelloText(c); }
    assert "0" + CRLF + (SendTrailers([]) + rest) == "0\r\n\r\n" + rest;
  }

  lemma HelloText(c: Chunk)
    requires c == Chunk("5;x=y", "hello", "\r\n")
    ensures SendChunk(c) == "5;x=y\r\nhello\r\n"
  {}

  lemma HelloSize()
    ensures ChunkSize("5;x=y") == Some(5) && ChunkSize("0") == Some(0)
  {
    hide ChunkSize;
    assert "5"[..0] == [] && "0"[..0] == [] && Value([], 16) == 0;
    assert Value("5", 16) == 5 && Value("0", 16) == 0;
    ChunkSizeReads([], "5", [], Some("x=y"));
    ChunkSizeReads([], "0", [], None);
    assert [] + "5" + [] + (";" + "x=y") == "5;x=y" && [] + "0" + [] + [] == "0";
  }

  lemma UploadReads(req: RequestData)
    requires AsSent(req, UPLOAD_LINE, [])
    ensures req.verb == POST && req.path == "/up"
  {
    assert SameSpelling("post", "POST");
  }

  // ── a whole connection ─────────────────────────────────────────────

  const FIND_LINE := Line("GET", "/a", Some("q=%2F+x"), "HTTP/1.1")

  const FIND_STREAM: bytes := "GET /a?q=%2F+x HTTP/1.1\r\nConnection: close\r\n\r\n"

  const NOT_FOUND := Script([R.SetStatus(404), R.SetBody("no")], false, [])

  lemma FindSays()
    ensures Says(FIND_LINE, [Field("q", "%2F+x")], [Field("q", "/ x")]) && FIND_LINE.Text() == "GET /a?q=%2F+x HTTP/1.1"
  {
    hide Encodes;
    FindText();
    QueryEncodes();
    assert JoinFields([Field("q", "%2F+x")]) == "q=%2F+x";
  }

  lemma FindText()
    ensures FIND_LINE.Text() == "GET /a?q=%2F+x HTTP/1.1" && Clean(FIND_LINE.Text()) && FIND_LINE.Proper()
  {
    hide Clean;
    assert FIND_LINE.Target() == "/a?q=%2F+x";
    assert FIND_LINE.Text() == "GET /a?q=%2F+x HTTP/1.1";
    FindClean();
  }

  lemma FindClean()
    ensures Clean("GET /a?q=%2F+x HTTP/1.1") && ' ' !in "GET" && ' ' !in "/a?q=%2F+x" && '?' !in "/a"
  {}

  lemma QueryEncodes()
    ensures Encodes("q", "q") && Encodes("%2F+x", "/ x")
  {
    assert "q"[1..] == [] && "x"[1..] == [];
    assert Encodes("x", "x");
    assert "+x"[1..] == "x" && " x"[1..] == "x";
    assert Encodes("+x", " x");
    assert "%2F+x"[3..] == "+x" && "/ x"[1..] == " x";
  }

  /** The bytes of a connection that is closed after one request: what the handler is given, and what the client reads. */
  lemma OneRequestConnection(limit: nat) returns (run: seq<Turn>)
    ensures CanRun(limit, Start(FIND_STREAM), run)
    ensures var t := Run(limit, Start(FIND_STREAM), run);
            && |t.actions| == 1 && t.actions[0].Dispatched?
            && (var req := t.actions[0].req;
                req.verb == GET && req.path == "/a" && req.version == "HTTP/1.1" && req.query == map["q" := "/ x"]
                && req.Header("CONNECTION") == "close" && req.body == "")
            && |t.wire| == 1 && t.wire[0].request == 1
            && t.wire[0].piece.data == "HTTP/1.1 404 Not Found\r\n" + ("Connection: close\r\n" + "Content-Length: 2\r\n") + "\r\n" + "no"
            && t.pending == [] && t.socket == ShutDown
  {
    hide Find, WithHeader, IsChunked, KeepsAlive, RequestData.Header, RequestData.ContentLength, Step, Enabled, Dispatch,
         Run, CanRun, Start, R.Reply, R.Play, NewResponse, AsSent, Waits;
    var req := FindReads();
    CX.Arrives(limit, FIND_STREAM, req, NOT_FOUND);
    var first, second := Turn(0, LineArrived(|FIND_STREAM|, NOT_FOUND)), Turn(0, WriteEnded(true));
    run := [first, second];
    var s := State([], false, true, Open, [], FIND_STREAM, [], [], []);
    NotFoundWaits();
    T.BufferedAnswer(limit, s, req, NOT_FOUND);
    TwoTurns(limit, Start(FIND_STREAM), first, second);
    NotFoundReply();
    assert [] + [Sent(1, R.Reply(R.Play(NewResponse(false), NOT_FOUND.calls).r))] == [Sent(1, R.Reply(R.Play(NewResponse(false), NOT_FOUND.calls).r))];
    FindIsAsSent(req);
  }

  lemma TwoTurns(limit: nat, s: State, first: Turn, second: Turn)
    requires first.k == 0 && |s.pending| == 1 && Enabled(s, s.pending[0].op, first.event)
    requires var t := Step(limit, s, 0, first.event);
             |t.pending| == 1 && t.pending[0].op.WriteOut? && second == Turn(0, WriteEnded(true))
    ensures CanRun(limit, s, [first, second])
    ensures Run(limit, s, [first, second]) == T.AfterWrite(limit, Step(limit, s, 0, first.event))
  {
    hide Step;
    var t := Step(limit, s, 0, first.event);
    CX.RunOne(limit, t, second);
    assert [first, second][1..] == [second];
  }

  lemma FindReads() returns (req: RequestData)
    ensures |FIND_STREAM| >= 4 && Find(FIND_STREAM, CRLFCRLF, 0) == Some(|FIND_STREAM| - 4)
    ensures WithHeader(EMPTY_REQUEST, FIND_STREAM) == Some(req)
    ensures !IsChunked(req) && req.ContentLength() == 0 && !KeepsAlive(req)
    ensures AsSent(req, FIND_LINE, [Field("q", "/ x")]) && req.Header("CONNECTION") == "close" && req.body == ""
  {
    hide Find, WithHeader, IsChunked, KeepsAlive, RequestData.Header, RequestData.ContentLength, Says, AsSent, SaysClose, SaysChunked,
         BlockText, SameSpelling, LastOf, Absent;
    var e := Entry("Connection", "close");
    FindSays();
    OneHeader(FIND_LINE, e);
    assert BlockText(FIND_LINE, [e]) == FIND_STREAM by { FindBlock(); }
    CloseEntry(e);
    BlockIsRead(FIND_LINE, [e], [Field("q", "%2F+x")], [Field("q", "/ x")]);
    req := WithHeader(EMPTY_REQUEST, FIND_STREAM).value;
    ChunkedIsSaid(req, [e]);
    LengthIsSaid(req, [e], 1, [], 0);
    CloseIsSaid(req, [e]);
  }

  lemma FindBlock()
    ensures "GET /a?q=%2F+x HTTP/1.1" + CRLF + ("Connection" + ": " + "close" + CRLF) + CRLF == FIND_STREAM
  {}

  lemma CloseEntry(e: Entry)
    requires e == Entry("Connection", "close")
    ensures RT.AllPrintable([e]) && SaysLength([e], 1, [], 0) && !SaysChunked([e]) && SaysClose([e]) && LastOf([e], 0, "CONNECTION")
  {
    hide SameSpelling, RT.Printable;
    CloseSpellings();
    OnlyLine(e, "CONNECTION");
    OnlyLine(e, "Transfer-Encoding");
    OnlyLine(e, "Content-Length");
    OnlyLine(e, "Connection");
    ClosePrintable();
  }

  lemma CloseSpellings()
    ensures SameSpelling("Connection", "CONNECTION") && SameSpelling("Connection", "Connection")
    ensures !SameSpelling("Connection", "Transfer-Encoding") && !SameSpelling("Connection", "Content-Length")
  {}

  lemma ClosePrintable()
    ensures RT.Printable(Entry("Connection", "close"))
  {}

  lemma FindIsAsSent(req: RequestData)
    requires AsSent(req, FIND_LINE, [Field("q", "/ x")])
    ensures req.verb == GET && req.path == "/a" && req.version == "HTTP/1.1" && req.query == map["q" := "/ x"]
  {
    assert SameSpelling("GET", "GET");
    FieldMapIs();
  }

  lemma FieldMapIs()
    ensures FieldMap([Field("q", "/ x")], map[]) == map["q" := "/ x"]
  {
    assert [Field("q", "/ x")][1..] == [];
  }

  lemma NotFoundWaits()
    ensures Waits(NOT_FOUND)
  {}

  lemma NotFoundReply()
    ensures R.Reply(R.Play(NewResponse(false), NOT_FOUND.calls).r).data
            == "HTTP/1.1 404 Not Found\r\n" + ("Connection: close\r\n" + "Content-Length: 2\r\n") + "\r\n" + "no"
  {
    hide NewResponse, R.Serialize;
    var r := NewResponse(false);
    CX.PlayTwo(r, R.SetStatus(404), R.SetBody("no"));
    assert NOT_FOUND.calls == [R.SetStatus(404), R.SetBody("no")];
    NotFoundText(R.Play(r, NOT_FOUND.calls).r);
  }

  lemma NotFoundText(r: R.ResponseData)
    requires r == NewResponse(false).(status := 404, body := "no")
    ensures R.Serialize(r) == "HTTP/1.1 404 Not Found\r\n" + ("Connection: close\r\n" + "Content-Length: 2\r\n") + "\r\n" + "no"
  {
    hide NewResponse, R.StatusLine, R.HeaderLines, R.Lines, R.SerializedEntries;
    NotFoundEntries(r);
    NotFoundLine();
    CloseAndLength();
    TwoLines("Connection: close", "Content-Length: 2");
    NotFoundBytes();
  }

  lemma NotFoundEntries(r: R.ResponseData)
    requires r == NewResponse(false).(status := 404, body := "no")
    ensures R.SerializedEntries(r) == [Entry("Connection", "close"), Entry("Content-Length", "2")]
  {
    hide CiEqual;
    var a := Entry("Connection", "close");
    assert r.entries == [a];
    CX.NameLengths();
    FirstIs([a], CONTENT_LENGTH, 1);
    assert Numeral(2, 10) == "2" by { TwoIsTwo(); }
  }

  lemma CloseAndLength()
    ensures R.HeaderLines([Entry("Connection", "close"), Entry("Content-Length", "2")]) == ["Connection: close", "Content-Length: 2"]
  {
    var a, b := Entry("Connection", "close"), Entry("Content-Length", "2");
    assert R.HeaderLine(a) == "Connection: close" && R.HeaderLine(b) == "Content-Length: 2";
    assert R.HeaderLines([a, b]) == [R.HeaderLine(a), R.HeaderLine(b)];
  }

  lemma NotFoundBytes()
    ensures "HTTP/1.1 404 Not Found" + CRLF + ("Connection: close" + CRLF + ("Content-Length: 2" + CRLF)) + CRLF + "no"
            == "HTTP/1.1 404 Not Found\r\n" + ("Connection: close\r\n" + "Content-Length: 2\r\n") + "\r\n" + "no"
  {
    var a, b := "Connection: close" + CRLF, "Content-Length: 2" + CRLF;
    assert a == "Connection: close\r\n" && b == "Content-Length: 2\r\n";
    assert "HTTP/1.1 404 Not Found" + CRLF == "HTTP/1.1 404 Not Found\r\n";
  }

  lemma TwoIsTwo()
    ensures Numeral(2, 10) == "2"
  {}

  lemma NotFoundLine()
    ensures R.StatusLine(404) == "HTTP/1.1 404 Not Found"
  {
    hide R.ReasonPhrase;
    assert R.ReasonPhrase(404) == "Not Found" by { R.PhrasesBelow410(); }
    assert Numeral(404, 10) == "404" by { FourOhFour(); }
  }

  lemma FourOhFour()
    ensures Numeral(404, 10) == "404"
  {
    assert Numeral(40, 10) == Numeral(4, 10) + Numeral(0, 10);
    assert Numeral(4, 10) == "4" && Numeral(0, 10) == "0";
  }

  // ── a chunked response ─────────────────────────────────────────────

  /** Two chunks, and their end. */
  const CHUNKER := Script([R.DoWriteChunk("hello", true), R.DoWriteChunk(", ", true), R.DoEndChunks(true, true)], false, [])

  /** Byte for byte what goes out, and that the handler meets the conditions of the results about runs. */
  lemma TwoChunks()
    ensures var out := R.Play(NewResponse(true), CHUNKER.calls).out;
            && |out| == 8 && out[0].data == "HTTP/1.1 200 OK\r\n" + ("Connection: keep-alive\r\n" + "Transfer-Encoding: chunked\r\n") + "\r\n"
            && out[1].data == "5\r\n" && out[2].data == "hello" && out[3].data == "\r\n"
            && out[4].data == "2\r\n" && out[5].data == ", " && out[6].data == "\r\n" && out[7].data == "0\r\n\r\n"
    ensures CIS.HandlerMinds(CHUNKER) && Answers(CHUNKER) && RU.FramesItself(CHUNKER)
  {
    hide NewResponse, R.Play, R.WriteChunk, R.EndChunks, R.Block, R.MarkChunked, CIS.HandlerMinds, Answers, RU.FramesItself;
    CX.NewResponseIs();
    var r, cs := NewResponse(true), CHUNKER.calls;
    CX.FreshChunks(r);
    CX.MarkKeeps(r);
    var m := R.MarkChunked(r);
    var u := R.LeaveBuffered(m).(flushed := true);
    FirstChunk(r, "hello");
    NextChunk(u, ", ");
    End(u);
    ThreeCalls(r, cs[0], cs[1], cs[2]);
    assert cs == [cs[0], cs[1], cs[2]];
    Sizes();
    ChunkedBlock();
    ChunkerMinds();
  }

  lemma FirstChunk(r: R.ResponseData, data: bytes)
    requires r.attached && !r.flushed && !r.chunked && data != []
    ensures var m := R.MarkChunked(r);
            R.Apply(r, R.DoWriteChunk(data, true)) ==
            R.Effect(R.LeaveBuffered(m).(flushed := true), [R.Head(R.Block(r.status, m.entries), m.entries)] + R.ChunkPieces(data), true)
  {
    hide R.Block;
    CX.MarkKeeps(r);
  }

  lemma NextChunk(r: R.ResponseData, data: bytes)
    requires r.attached && r.flushed && r.mode.Immediate? && data != []
    ensures R.Apply(r, R.DoWriteChunk(data, true)) == R.Effect(r, R.ChunkPieces(data), true)
  {}

  lemma End(r: R.ResponseData)
    requires r.attached && r.flushed && r.chunked
    ensures R.Apply(r, R.DoEndChunks(true, true)) == R.Effect(r, [R.Payload("0\r\n\r\n")], true)
  {}

  lemma ThreeCalls(r: R.ResponseData, a: R.Call, b: R.Call, c: R.Call)
    ensures var x := R.Apply(r, a);
            var y := R.Apply(x.r, b);
            R.Play(r, [a, b, c]).out == x.out + (y.out + R.Apply(y.r, c).out)
  {
    hide R.Apply;
    CX.PlayTwo(R.Apply(r, a).r, b, c);
    assert [a, b, c][1..] == [b, c];
  }

  lemma Sizes()
    ensures R.SizeLine(5) == "5\r\n" && R.SizeLine(2) == "2\r\n"
  {
    assert Numeral(5, 16) == "5" && Numeral(2, 16) == "2";
  }

  lemma ChunkedBlock()
    ensures R.Block(200, [CX.KEPT, CX.CHUNKED]) ==
            "HTTP/1.1 200 OK\r\n" + ("Connection: keep-alive\r\n" + "Transfer-Encoding: chunked\r\n") + "\r\n"
  {
    var a, b := R.HeaderLine(CX.KEPT), R.HeaderLine(CX.CHUNKED);
    assert a == "Connection: keep-alive" && b == "Transfer-Encoding: chunked";
    assert R.HeaderLines([CX.KEPT, CX.CHUNKED]) == [a, b];
    TwoLines(a, b);
    assert a + CRLF == "Connection: keep-alive\r\n" && b + CRLF == "Transfer-Encoding: chunked\r\n";
    OkLine();
  }

  lemma OkLine()
    ensures R.StatusLine(200) + CRLF == "HTTP/1.1 200 OK\r\n"
  {
    hide R.ReasonPhrase;
    assert R.ReasonPhrase(200) == "OK" by { R.PhrasesBelow400(); }
    assert Numeral(20, 10) == Numeral(2, 10) + Numeral(0, 10) && Numeral(2, 10) == "2" && Numeral(0, 10) == "0";
    assert Numeral(200, 10) == "200";
  }

  lemma ChunkerMinds()
    ensures CIS.HandlerMinds(CHUNKER) && Answers(CHUNKER) && RU.FramesItself(CHUNKER)
  {
    hide CIS.RespondsInFull, CIS.RepliesInFull, RU.FramesInTime, R.FirstSend, R.Streams, R.Writes, R.FramedBy;
    ChunkerShape();
    forall keep: bool
      ensures CIS.RespondsInFull(NewResponse(keep), CHUNKER.calls, false)
    {
      ChunkerResponds(keep);
    }
  }

  lemma ChunkerShape()
    ensures var cs := CHUNKER.calls;
            !R.Streams(cs) && R.Writes(cs) && R.SomeSends(false, cs) && RU.FramesInTime(cs)
  {
    var cs := CHUNKER.calls;
    assert R.Sends(false, cs[0]) && R.FirstSend(false, cs) == 0 && R.Frames(cs[0]);
    assert R.FramedBy(cs, 1);
  }

  lemma ChunkerResponds(keep: bool)
    ensures CIS.RespondsInFull(NewResponse(keep), CHUNKER.calls, false)
  {
    hide NewResponse, R.Play, C.SaysChunked, RT.AllPrintable, C.FromFirst, CR.EndsOnce, CR.WritesBody, CR.RawWrites;
    var cs := CHUNKER.calls;
    assert CIS.Setup(cs) == [] && CIS.Body(cs) == cs;
    ChunkerEnds();
    NoCalls(NewResponse(keep));
    PlainlyChunked(keep);
  }

  lemma NoCalls(r: R.ResponseData)
    ensures R.Play(r, []).r == r
  {}

  lemma ChunkerEnds()
    ensures var cs := CHUNKER.calls;
            C.FromFirst(cs) == cs && CR.EndsOnce(cs) && CR.WritesBody(cs) && !CR.RawWrites(cs)
  {
    var cs := CHUNKER.calls;
    assert cs[2].DoEndChunks? && cs[3..] == [] && CR.Silent(cs[2 + 1..]);
    assert cs[0].DoWriteChunk?;
    assert C.Data(cs) == "hello" + C.Data(cs[1..]) && C.Data(cs[1..]) == ", " + C.Data(cs[1..][1..]);
    assert C.Data(cs[1..][1..]) == [] + C.Data(cs[1..][1..][1..]) && cs[1..][1..][1..] == [] && C.Data([]) == [];
  }

  lemma PlainlyChunked(keep: bool)
    ensures C.SaysChunked(NewResponse(keep)) && RT.AllPrintable(NewResponse(keep).entries)
  {
    hide RT.Printable, CiEqual, Find;
    CV.NewIsPlain(keep);
    CX.NameLengths();
    FirstIs(NewResponse(keep).entries, TRANSFER_ENCODING, 1);
  }
}
