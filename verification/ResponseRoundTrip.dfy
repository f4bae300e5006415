/**
 A buffered response on the wire, read back by the header parser and the
 fixed-length reader: the two sides of Content-Length framing agree.
 */
module ResponseRoundTrip {
  import opened Text
  import opened Numbers
  import opened Headers
  import opened Request
  import opened Framing
  import opened Response

  /** Header fields that survive printing and parsing: trimmed, on one line, a name without a colon. */
  predicate Printable(e: Entry) {
    && e.name != [] && Trimmed(e.name) && Clean(e.name) && ':' !in e.name
    && Trimmed(e.value) && Clean(e.value)
  }

  predicate AllPrintable(es: seq<Entry>) { forall i :: 0 <= i < |es| ==> Printable(es[i]) }

  /** Lines joined by CRLF. */
  function Join(lines: seq<bytes>): bytes
    requires lines != []
  {
    if |lines| == 1 then lines[0] else lines[0] + CRLF + Join(lines[1..])
  }

  predicate CleanLines(lines: seq<bytes>) { forall i :: 0 <= i < |lines| ==> Clean(lines[i]) && lines[i] != [] }

  lemma {:induction false} LinesAreJoined(lines: seq<bytes>)
    requires lines != []
    ensures Lines(lines) == Join(lines) + CRLF
    decreases |lines|
  {
    if |lines| == 1 {
      assert Lines(lines[1..]) == [];
    } else {
      LinesAreJoined(lines[1..]);
      Assoc(lines[0] + CRLF, Join(lines[1..]), CRLF);
    }
  }

  lemma LastLineEnds(l: bytes)
    requires Clean(l)
    ensures Find(l + CRLFCRLF, CRLFCRLF, 0) == Some(|l|)
  {
    var s := l + CRLFCRLF;
    assert OccursAt(s, CRLFCRLF, |l|);
    forall j | 0 <= j < |l|
      ensures !OccursAt(s, CRLFCRLF, j)
    {
      assert s[j] == l[j] != CRLFCRLF[0];
    }
    FindIs(s, CRLFCRLF, |l|);
  }

  /** A clean line in front of a text that does not begin with CR only moves the first CRLFCRLF. */
  lemma LineMovesEnd(l: bytes, t: bytes, i: nat)
    requires Clean(l) && Find(t, CRLFCRLF, 0) == Some(i) && t[0] != '\r'
    ensures Find(l + CRLF + t, CRLFCRLF, 0) == Some(|l| + 2 + i)
  {
    hide Find, OccursAt, Clean;
    var a := l + CRLF;
    var s := a + t;
    FindFirst(t, CRLFCRLF, 0);
    OccursShift(a, t, CRLFCRLF, i);
    forall j | 0 <= j < |a| + i
      ensures !OccursAt(s, CRLFCRLF, j)
    {
      if j < |a| { NoEndInLine(l, t, j); } else { OccursShift(a, t, CRLFCRLF, j - |a|); }
    }
    FindIs(s, CRLFCRLF, |a| + i);
  }

  lemma NoEndInLine(l: bytes, t: bytes, j: nat)
    requires Clean(l) && t != [] && t[0] != '\r' && j < |l| + 2
    ensures !OccursAt(l + CRLF + t, CRLFCRLF, j)
  {
    var s := l + CRLF + t;
    if j < |l| {
      assert s[j] == l[j] != CRLFCRLF[0];
    } else if j == |l| {
      assert s[j + 2] == t[0] != CRLFCRLF[2];
    } else {
      assert s[j] == '\n' != CRLFCRLF[0];
    }
  }

  /** Clean, non-empty lines hold no CRLFCRLF: the block ends where it is meant to end. */
  lemma {:induction false} BlockEnds(lines: seq<bytes>)
    requires lines != [] && CleanLines(lines)
    ensures Find(Join(lines) + CRLFCRLF, CRLFCRLF, 0) == Some(|Join(lines)|)
    ensures Join(lines) != [] && Join(lines)[0] != '\r'
    decreases |lines|
  {
    hide Find;
    if |lines| == 1 {
      LastLineEnds(lines[0]);
    } else {
      var more := Join(lines[1..]);
      BlockEnds(lines[1..]);
      LineMovesEnd(lines[0], more + CRLFCRLF, |more|);
      Assoc(lines[0] + CRLF, more, CRLFCRLF);
    }
  }

  lemma {:induction false} SpaceTrims(v: bytes)
    requires Trimmed(v)
    ensures Trim(" " + v) == v
  {
    assert (" " + v)[1..] == v;
    assert TrimLeft(" " + v) == TrimLeft(v) == v;
  }

  /** A printed header line parses to its entry. */
  lemma HeaderLineParses(e: Entry, m: seq<Entry>)
    requires Printable(e)
    ensures AddHeaderLine(HeaderLine(e), m) == Assign(m, e.name, e.value)
    ensures Clean(HeaderLine(e)) && HeaderLine(e) != []
  {
    var line := HeaderLine(e);
    assert line == e.name + ": " + e.value;
    assert line[..|e.name|] == e.name;
    assert line[|e.name| + 1..] == " " + e.value;
    FindByte(line, ':', |e.name|);
    SpaceTrims(e.value);
  }

  lemma CleanCut(line: bytes, rest: bytes)
    requires Clean(line)
    ensures Before(line, CRLF) == line && After(line, CRLF) == []
    ensures Before(line + CRLF + rest, CRLF) == line && After(line + CRLF + rest, CRLF) == rest
  {
    CleanIsLine(line);
    LineIsFound(line, rest);
    FindFirst(line, CRLF, 0);
    forall j | 0 <= j && j + 2 <= |line|
      ensures !OccursAt(line, CRLF, j)
    {
      assert line[j] != CRLF[0];
    }
  }

  lemma FoldStep(line: bytes, more: bytes, m: seq<Entry>)
    requires Clean(line) && line != []
    ensures FoldHeaders(line, m) == AddHeaderLine(line, m)
    ensures FoldHeaders(line + CRLF + more, m) == FoldHeaders(more, AddHeaderLine(line, m))
  {
    hide Before, After, AddHeaderLine;
    CleanCut(line, more);
    assert FoldHeaders([], AddHeaderLine(line, m)) == AddHeaderLine(line, m);
  }

  /** The header loop over printed entries assigns them in order. */
  lemma {:induction false} HeadersParse(es: seq<Entry>, done: seq<Entry>)
    requires es != [] && AllPrintable(es)
    ensures FoldHeaders(Join(HeaderLines(es)), AssignAll(done)) == AssignAll(done + es)
    decreases |es|
  {
    hide FoldHeaders, AssignAll, HeaderLine, Assign, AddHeaderLine, Printable, HeaderLines, Join;
    var e, line := es[0], HeaderLine(es[0]);
    HeaderLineParses(e, AssignAll(done));
    AssignAllSnoc(done, e);
    MoveHead(done, es);
    JoinStep(es);
    if |es| == 1 {
      FoldStep(line, [], AssignAll(done));
    } else {
      FoldStep(line, Join(HeaderLines(es[1..])), AssignAll(done));
      HeadersParse(es[1..], done + [e]);
    }
  }

  lemma JoinStep(es: seq<Entry>)
    requires es != []
    ensures Join(HeaderLines(es)) == if |es| == 1 then HeaderLine(es[0])
                                     else HeaderLine(es[0]) + CRLF + Join(HeaderLines(es[1..]))
  {
    hide HeaderLine;
    assert HeaderLines(es)[1..] == HeaderLines(es[1..]);
  }

  lemma AssignAllSnoc(log: seq<Entry>, e: Entry)
    ensures AssignAll(log + [e]) == Assign(AssignAll(log), e.name, e.value)
  {
    assert (log + [e])[..|log|] == log;
  }

  /** A list without case twins is what inserting its entries one by one gives. */
  lemma {:induction false} InsertAllIdentity(es: seq<Entry>)
    requires NoCaseTwins(es)
    ensures InsertAll(es) == es
  {
    if es != [] {
      var init, last := es[..|es| - 1], es[|es| - 1];
      InsertAllIdentity(init);
      FirstIs(init, last.name, |init|);
    }
  }

  lemma HeaderLinesClean(es: seq<Entry>)
    requires AllPrintable(es)
    ensures CleanLines(HeaderLines(es))
  {
    forall i | 0 <= i < |es|
      ensures Clean(HeaderLines(es)[i]) && HeaderLines(es)[i] != []
    {
      HeaderLineParses(es[i], []);
    }
  }

  /** A first line, header lines, and the empty line. */
  function HeadText(first: bytes, es: seq<Entry>): bytes { first + CRLF + Lines(HeaderLines(es)) + CRLF }

  lemma HeadShape(first: bytes, es: seq<Entry>)
    requires es != []
    ensures HeadText(first, es) == first + CRLF + (Join(HeaderLines(es)) + CRLFCRLF)
  {
    hide HeaderLines;
    var hl := HeaderLines(es);
    LinesAreJoined(hl);
    assert CRLF + CRLF == CRLFCRLF;
    Assoc(Join(hl), CRLF, CRLF);
    Assoc(first + CRLF, Lines(hl), CRLF);
  }

  /** Printable fields behind any clean first line: the block ends at its first CRLFCRLF and parses back to them. */
  lemma HeadParses(first: bytes, es: seq<Entry>)
    requires Clean(first) && es != [] && AllPrintable(es)
    ensures var b := HeadText(first, es);
            |b| >= 4 && Find(b, CRLFCRLF, 0) == Some(|b| - 4)
            && WithHeader(EMPTY_REQUEST, b).Some? && WithHeader(EMPTY_REQUEST, b).value.headers == AssignAll(es)
  {
    hide HeadText, HeaderLines, Lines, Find, FoldHeaders, AssignAll, WithRequestLine, Join;
    var text := Join(HeaderLines(es));
    var rest := text + CRLFCRLF;
    HeadShape(first, es);
    HeaderLinesClean(es);
    BlockEnds(HeaderLines(es));
    LineMovesEnd(first, rest, |text|);
    CleanIsLine(first);
    LineIsFound(first, rest);
    assert rest[..|text|] == text;
    HeadersParse(es, []);
    assert [] + es == es && AssignAll([]) == [] by { EmptyLog(); }
  }

  /** The block of a printable response. */
  lemma BlockParses(status: int, es: seq<Entry>)
    requires es != [] && AllPrintable(es)
    ensures var b := Block(status, es);
            |b| >= 4 && Find(b, CRLFCRLF, 0) == Some(|b| - 4)
            && WithHeader(EMPTY_REQUEST, b).Some? && WithHeader(EMPTY_REQUEST, b).value.headers == AssignAll(es)
  {
    hide HeaderLines, Lines, Find, WithHeader, StatusLine;
    HeadParses(StatusLine(status), es);
  }

  /** The client that parses a printed block finds a framing header in it exactly when its entries hold one. */
  lemma FramingIsRead(status: int, es: seq<Entry>)
    requires es != [] && AllPrintable(es) && NoCaseTwins(es)
    ensures var parsed := WithHeader(EMPTY_REQUEST, Block(status, es));
            parsed.Some? && (Framed(es) <==> Lookup(parsed.value.headers, CONTENT_LENGTH).Some?
                                             || Lookup(parsed.value.headers, TRANSFER_ENCODING).Some?)
  {
    hide Block, WithHeader, Find;
    BlockParses(status, es);
    ParsedLookup(es, CONTENT_LENGTH);
    ParsedLookup(es, TRANSFER_ENCODING);
  }

  lemma EmptyLog()
    ensures AssignAll([]) == []
  {}

  /** Looking a name up in the parsed block, in any spelling, finds what the response holds under it. */
  lemma ParsedLookup(es: seq<Entry>, name: bytes)
    requires NoCaseTwins(es)
    ensures Lookup(AssignAll(es), name) == if Contains(es, name) then Some(Get(es, name)) else None
  {
    HeaderMapsAgree(es, name);
    InsertAllIdentity(es);
  }

  lemma LengthEntryPrintable(n: nat)
    ensures Printable(Entry(CONTENT_LENGTH, Numeral(n, 10)))
  {
    var v := Numeral(n, 10);
    assert v[0] in v && v[|v| - 1] in v;
  }

  /**
   The framing of a buffered response that leaves Content-Length to the
   library, any bytes behind it: its first CRLFCRLF ends the header block, the
   block parses to exactly the entries and the length, and the fixed-length
   reader takes exactly the body.
   */
  lemma BufferedResponseRoundTrip(r: ResponseData, rest: bytes, name: bytes)
    requires NoCaseTwins(r.entries) && AllPrintable(r.entries) && |r.body| <= MAX_STRING
    requires !Contains(r.entries, CONTENT_LENGTH) && !Contains(r.entries, TRANSFER_ENCODING)
    ensures var b, es := Block(r.status, SerializedEntries(r)), SerializedEntries(r);
            Find(Serialize(r) + rest, CRLFCRLF, 0) == Some(|b| - 4)
            && Serialize(r) + rest == b + (r.body + rest)
            && WithHeader(EMPTY_REQUEST, b).Some?
            && var req := WithHeader(EMPTY_REQUEST, b).value;
               Lookup(req.headers, name) == (if Contains(es, name) then Some(Get(es, name)) else None)
               && req.ContentLength() == |r.body|
               && ParseBody(0, req, r.body + rest) == Done(r.body, rest)
  {
    var es, e := SerializedEntries(r), Entry(CONTENT_LENGTH, Numeral(|r.body|, 10));
    assert es == r.entries + [e] == Insert(r.entries, CONTENT_LENGTH, e.value);
    LengthEntryPrintable(|r.body|);
    BlockParses(r.status, es);
    var b := Block(r.status, es);
    Assoc(b, r.body, rest);
    FindExtends(b, r.body + rest, CRLFCRLF);
    ParsedLookup(es, name);
    ParsedLookup(es, CONTENT_LENGTH);
    ParsedLookup(es, TRANSFER_ENCODING);
    LengthAndEncoding(r, e.value);
    var req := WithHeader(EMPTY_REQUEST, b).value;
    DecimalRoundTrip(|r.body|);
    assert req.Header(CONTENT_LENGTH) == Numeral(|r.body|, 10);
    NotChunked(req);
    FixedBodyExact(0, req, r.body, rest);
  }

  lemma LengthAndEncoding(r: ResponseData, length: bytes)
    requires !Contains(r.entries, CONTENT_LENGTH) && !Contains(r.entries, TRANSFER_ENCODING)
    ensures var es := Insert(r.entries, CONTENT_LENGTH, length);
            Contains(es, CONTENT_LENGTH) && Get(es, CONTENT_LENGTH) == length && !Contains(es, TRANSFER_ENCODING)
  {
    GetAfterInsert(r.entries, CONTENT_LENGTH, length, CONTENT_LENGTH);
    GetAfterInsert(r.entries, CONTENT_LENGTH, length, TRANSFER_ENCODING);
    assert |Lower(CONTENT_LENGTH)| != |Lower(TRANSFER_ENCODING)|;
  }

  lemma NotChunked(req: RequestData)
    requires req.Header(TRANSFER_ENCODING) == []
    ensures !IsChunked(req)
  {
    FindFirst([], "chunked", 0);
  }
}
