/**
 src/http_request.cpp: parsing of the request line, the header lines and the
 query string. RequestData is the value of an HttpRequest object.
 */
module Request {
  import opened Text
  import opened Numbers
  import opened Headers
  import opened Form

  datatype Verb = GET | POST | PUT | DELETE | PATCH | HEAD | OPTIONS | UNKNOWN

  datatype RequestData = RequestData(
    verb: Verb, path: bytes, version: bytes, headers: seq<Entry>, body: bytes,
    query: map<bytes, bytes>, params: map<bytes, bytes>)
  {
    /** header(name): empty when absent. */
    function Header(name: bytes): bytes {
      match Lookup(headers, name) case None => [] case Some(v) => v
    }

    /** content_length(): zero when absent or unreadable. */
    function ContentLength(): (n: nat)
      ensures n < SIZE_RANGE
    {
      match FromChars(Header(CONTENT_LENGTH)) case None => 0 case Some(n) => n
    }
  }

  const EMPTY_REQUEST := RequestData(UNKNOWN, [], [], [], [], map[], map[])

  function VerbFromString(s: bytes): Verb {
    if s == "GET" then GET
    else if s == "POST" then POST
    else if s == "PUT" then PUT
    else if s == "DELETE" then DELETE
    else if s == "PATCH" then PATCH
    else if s == "HEAD" then HEAD
    else if s == "OPTIONS" then OPTIONS
    else UNKNOWN
  }

  function AddQueryToken(token: bytes, q: map<bytes, bytes>): map<bytes, bytes> {
    match Find(token, "=", 0)
    case None => q
    case Some(eq) => q[UrlDecode(token[..eq]) := UrlDecode(token[eq + 1..])]
  }

  function FoldQuery(qs: bytes, q: map<bytes, bytes>): map<bytes, bytes>
    decreases |qs|
  {
    if qs == [] then q else FoldQuery(After(qs, "&"), AddQueryToken(Before(qs, "&"), q))
  }

  /** One header line: "name: value", both trimmed; a line without colon or name is skipped. */
  function AddHeaderLine(line: bytes, m: seq<Entry>): seq<Entry> {
    match Find(line, ":", 0)
    case None => m
    case Some(colon) =>
      var name := Trim(line[..colon]);
      if name == [] then m else Assign(m, name, Trim(line[colon + 1..]))
  }

  function FoldHeaders(block: bytes, m: seq<Entry>): seq<Entry>
    decreases |block|
  {
    if block == [] then m else FoldHeaders(After(block, CRLF), AddHeaderLine(Before(block, CRLF), m))
  }

  function WithTarget(r: RequestData, target: bytes): (t: RequestData)
    ensures t.body == r.body && t.headers == r.headers
  {
    match Find(target, "?", 0)
    case None => r.(path := target)
    case Some(q) => r.(path := target[..q], query := FoldQuery(target[q + 1..], r.query))
  }

  /** The request line; one without two spaces changes nothing. */
  function WithRequestLine(r: RequestData, line: bytes): (t: RequestData)
    ensures t.body == r.body && t.headers == r.headers
  {
    match Find(line, " ", 0)
    case None => r
    case Some(sp1) =>
      match Find(line, " ", sp1 + 1)
      case None => r
      case Some(sp2) =>
        var v := line[sp2 + 1..];
        WithTarget(r.(verb := VerbFromString(Upper(line[..sp1])),
                      version := if v != [] && v[|v| - 1] == '\r' then v[..|v| - 1] else v),
                   line[sp1 + 1..sp2])
  }

  /** parse_header: None when the block has no CRLF. */
  function WithHeader(r: RequestData, block: bytes): (t: Option<RequestData>)
    ensures t.Some? ==> t.value.body == r.body
  {
    match Find(block, CRLF, 0)
    case None => None
    case Some(eol) =>
      var rest := block[eol + 2..];
      var lines := match Find(rest, CRLFCRLF, 0) case None => rest case Some(end) => rest[..end];
      var r1 := WithRequestLine(r, block[..eol]);
      Some(r1.(headers := FoldHeaders(lines, r1.headers)))
  }

  /** v is the method of that name, in any case; any other text names the unknown one. */
  predicate Names(text: bytes, v: Verb) {
    && (v.GET? <==> SameSpelling(text, "GET")) && (v.POST? <==> SameSpelling(text, "POST"))
    && (v.PUT? <==> SameSpelling(text, "PUT")) && (v.DELETE? <==> SameSpelling(text, "DELETE"))
    && (v.PATCH? <==> SameSpelling(text, "PATCH")) && (v.HEAD? <==> SameSpelling(text, "HEAD"))
    && (v.OPTIONS? <==> SameSpelling(text, "OPTIONS"))
  }

  lemma VerbsByName(text: bytes)
    ensures Names(text, VerbFromString(Upper(text)))
  {
    hide SameSpelling;
    assert Upper("GET") == "GET" && Upper("POST") == "POST" && Upper("PUT") == "PUT" && Upper("DELETE") == "DELETE";
    assert Upper("PATCH") == "PATCH" && Upper("HEAD") == "HEAD" && Upper("OPTIONS") == "OPTIONS";
    SpellingsFold(text, "GET");
    SpellingsFold(text, "POST");
    SpellingsFold(text, "PUT");
    SpellingsFold(text, "DELETE");
    SpellingsFold(text, "PATCH");
    SpellingsFold(text, "HEAD");
    SpellingsFold(text, "OPTIONS");
  }

  /** A request line as sent: a method, a target, which is a path and perhaps a query, and a version. */
  datatype Line = Line(name: bytes, path: bytes, query: Option<bytes>, version: bytes)
  {
    function Target(): bytes { path + match query case None => [] case Some(q) => "?" + q }

    function Text(): bytes { name + " " + (Target() + " " + version) }

    predicate Proper() { ' ' !in name && ' ' !in Target() && '?' !in path }
  }

  /** One carriage return at the end is not part of the version. */
  function WithoutReturn(v: bytes): bytes { if v != [] && v[|v| - 1] == '\r' then v[..|v| - 1] else v }

  /** Every part of a request line lands in its own field. */
  lemma RequestLineParses(r: RequestData, l: Line)
    requires l.Proper()
    ensures var t := WithRequestLine(r, l.Text());
            && Names(l.name, t.verb) && t.path == l.path && t.version == WithoutReturn(l.version)
            && t.query == (match l.query case None => r.query case Some(q) => FoldQuery(q, r.query))
            && t.headers == r.headers && t.body == r.body && t.params == r.params
  {
    hide Find, FoldQuery, VerbFromString, Upper, Line.Target, WithTarget, Names;
    VerbsByName(l.name);
    BlankCuts(l.name, l.Target(), l.version);
    TargetParses(r.(verb := VerbFromString(Upper(l.name)), version := WithoutReturn(l.version)), l);
  }

  /** Where the two blanks of a line are, and what they separate. */
  lemma BlankCuts(a: bytes, b: bytes, c: bytes)
    requires ' ' !in a && ' ' !in b
    ensures var line, k := a + " " + (b + " " + c), |a| + 1 + |b|;
            && Find(line, " ", 0) == Some(|a|) && Find(line, " ", |a| + 1) == Some(k)
            && line[..|a|] == a && line[|a| + 1..k] == b && line[k + 1..] == c
  {
    hide Find;
    FirstBlank(a, b + " " + c);
    SecondBlank(a, b, c);
    BlankSlices(a, b, c);
  }

  lemma BlankSlices(a: bytes, b: bytes, c: bytes)
    ensures var line, k := a + " " + (b + " " + c), |a| + 1 + |b|;
            line[..|a|] == a && line[|a| + 1..k] == b && line[k + 1..] == c
  {}

  lemma SecondBlank(a: bytes, b: bytes, c: bytes)
    requires ' ' !in b
    ensures Find(a + " " + (b + " " + c), " ", |a| + 1) == Some(|a| + 1 + |b|)
  {
    hide Find;
    var more := b + " " + c;
    var line := a + " " + more;
    assert line[|a| + 1..] == more;
    assert Find(more, " ", 0) == Some(|b|) by { FirstBlank(b, c); }
    SearchBehind(line, |a| + 1, more, |b|);
  }

  lemma SearchBehind(s: bytes, p: nat, more: bytes, i: nat)
    requires p <= |s| && s[p..] == more && Find(more, " ", 0) == Some(i)
    ensures Find(s, " ", p) == Some(p + i)
  {
    hide Find;
    FindShift(s, " ", p);
  }

  lemma FirstBlank(a: bytes, more: bytes)
    requires ' ' !in a
    ensures Find(a + " " + more, " ", 0) == Some(|a|)
  {
    hide Find;
    var s := a + " " + more;
    assert s[..|a|] == a && s[|a|] == ' ';
    FindByte(s, ' ', |a|);
  }

  lemma TargetParses(r: RequestData, l: Line)
    requires l.Proper()
    ensures var t := WithTarget(r, l.Target());
            t == r.(path := l.path, query := match l.query case None => r.query case Some(q) => FoldQuery(q, r.query))
  {
    hide Find, FoldQuery, Line.Target;
    TargetSplits(l);
  }

  lemma TargetSplits(l: Line)
    requires '?' !in l.path
    ensures match l.query
            case None => Find(l.Target(), "?", 0) == None && l.Target() == l.path
            case Some(q) => Find(l.Target(), "?", 0) == Some(|l.path|) && l.Target()[..|l.path|] == l.path && l.Target()[|l.path| + 1..] == q
  {
    match l.query
    case None => FindNoByte(l.Target(), '?');
    case Some(q) =>
      assert l.Target()[..|l.path|] == l.path;
      FindByte(l.Target(), '?', |l.path|);
  }

  /** A line without two blanks in it says nothing. */
  lemma ShortLineIsIgnored(r: RequestData, a: bytes, b: bytes)
    requires ' ' !in a && ' ' !in b
    ensures WithRequestLine(r, a) == r && WithRequestLine(r, a + " " + b) == r
  {
    hide Find;
    var line := a + " " + b;
    FindNoByte(a, ' ');
    assert line[..|a|] == a && line[|a| + 1..] == b;
    FindByte(line, ' ', |a|);
    FindShift(line, " ", |a| + 1);
    FindNoByte(b, ' ');
  }

  /**
   The request line of a parsed block, in front of any header lines: the method
   by its name, the path, the version, and the query as the fields it encodes.
   */
  lemma RequestLineRoundTrip(l: Line, es: seq<Field>, fs: seq<Field>, rest: bytes)
    requires l.Proper() && Find(l.Text() + CRLF, CRLF, 0) == Some(|l.Text()|)
    requires FieldsEncode(es, fs) && (match l.query case None => fs == [] case Some(q) => q == JoinFields(es))
    ensures var t := WithHeader(EMPTY_REQUEST, l.Text() + CRLF + rest);
            && t.Some? && Names(l.name, t.value.verb) && t.value.path == l.path
            && t.value.version == WithoutReturn(l.version) && t.value.query == FieldMap(fs, map[]) && t.value.body == []
  {
    hide Find, FoldQuery, FoldHeaders, WithRequestLine, Names, Line.Text, Line.Target;
    var block := l.Text() + CRLF + rest;
    FindExtends(l.Text() + CRLF, rest, CRLF);
    assert block[..|l.Text()|] == l.Text();
    RequestLineParses(EMPTY_REQUEST, l);
    QueryRoundTrip(es, fs, map[]);
  }

  /** Blanks around a name or a value are not part of it. */
  lemma TrimIs(before: bytes, v: bytes, after: bytes)
    requires AllSpaces(before) && AllSpaces(after) && Trimmed(v)
    ensures Trim(before + v + after) == v
  {
    if v == [] {
      assert before + v + after == (before + after) + [] && AllSpaces(before + after);
      TrimsBlanks(before + after, []);
    } else {
      assert before + v + after == before + (v + after) && (v + after)[0] == v[0];
      TrimsBlanks(before, v + after);
      TrimsBlanksBehind(v, after);
    }
  }

  lemma {:induction false} TrimsBlanksBehind(v: bytes, after: bytes)
    requires AllSpaces(after) && (v == [] || !IsSpace(v[|v| - 1]))
    ensures TrimRight(v + after) == v
    decreases |after|
  {
    if after == [] {
      assert v + after == v;
    } else {
      var init := after[..|after| - 1];
      assert (v + after)[..|v + after| - 1] == v + init && (v + after)[|v + after| - 1] == after[|after| - 1];
      TrimsBlanksBehind(v, init);
    }
  }

  /** A header line assigns the value behind its first colon to the name before it, both without the blanks around them. */
  lemma HeaderLineReads(b1: bytes, name: bytes, b2: bytes, b3: bytes, value: bytes, b4: bytes, m: seq<Entry>)
    requires AllSpaces(b1) && AllSpaces(b2) && AllSpaces(b3) && AllSpaces(b4) && Trimmed(name) && Trimmed(value)
    requires ':' !in b1 + name + b2
    ensures AddHeaderLine((b1 + name + b2) + ":" + (b3 + value + b4), m) == if name == [] then m else Assign(m, name, value)
    ensures AddHeaderLine(b1 + name + b2, m) == m
  {
    hide Assign, Find, Trim, AllSpaces, Trimmed;
    var left, right := b1 + name + b2, b3 + value + b4;
    var line := left + ":" + right;
    FindNoByte(left, ':');
    assert line[..|left|] == left && line[|left| + 1..] == right;
    FindByte(line, ':', |left|);
    TrimIs(b1, name, b2);
    TrimIs(b3, value, b4);
  }

  /** A query token without '=' is nothing. */
  lemma BareQueryToken(token: bytes, q: map<bytes, bytes>)
    requires '=' !in token
    ensures AddQueryToken(token, q) == q
  {
    FindNoByte(token, '=');
  }

  /** A block read up to its CRLFCRLF always parses, so the malformed-header branch of read() never runs. */
  lemma DelimitedBlockParses(block: bytes, i: nat)
    requires OccursAt(block, CRLFCRLF, i)
    ensures WithHeader(EMPTY_REQUEST, block).Some?
  {
    FindFirst(block, CRLF, 0);
    assert block[i] == CRLFCRLF[0] == CRLF[0] && block[i + 1] == CRLFCRLF[1] == CRLF[1];
    assert OccursAt(block, CRLF, i);
  }

  /** The header map of any parsed block is ordered, so lookups in it find the last value written. */
  lemma {:induction false} FoldHeadersKeepsOrder(block: bytes, m: seq<Entry>)
    requires Ordered(m)
    ensures Ordered(FoldHeaders(block, m))
    decreases |block|
  {
    if block != [] {
      var line := Before(block, CRLF);
      if Find(line, ":", 0).Some? {
        var colon := Find(line, ":", 0).value;
        AssignKeepsOrder(m, Trim(line[..colon]), Trim(line[colon + 1..]));
      }
      FoldHeadersKeepsOrder(After(block, CRLF), AddHeaderLine(line, m));
    }
  }

  /** A query string made of encoded fields parses to those fields, the last one winning. */
  lemma {:induction false} QueryRoundTrip(es: seq<Field>, fs: seq<Field>, q: map<bytes, bytes>)
    requires FieldsEncode(es, fs)
    ensures FoldQuery(JoinFields(es), q) == FieldMap(fs, q)
    decreases |es|
  {
    if es != [] {
      var t, qs := es[0].key + "=" + es[0].value, JoinFields(es);
      AddEncodedField(es[0], fs[0], q);
      DecodeInvertsEncoding(es[0].key, fs[0].key);
      assert t[|es[0].key|] == '=';
      FindByte(t, '=', |es[0].key|);
      assert AddQueryToken(t, q) == AddToken(t, q);
      hide AddToken, AddQueryToken;
      if |es| == 1 {
        FindNoByte(qs, '&');
        assert fs[1..] == [] && FoldQuery([], q[fs[0].key := fs[0].value]) == q[fs[0].key := fs[0].value];
      } else {
        QueryRoundTrip(es[1..], fs[1..], q[fs[0].key := fs[0].value]);
        assert qs[..|t|] == t && qs[|t| + 1..] == JoinFields(es[1..]);
        FindByte(qs, '&', |t|);
      }
    }
  }

  method TrimSpaces(s: bytes) returns (r: bytes)
    ensures r == Trim(s)
  {
    r := s;
    while r != [] && IsSpace(r[0])
      invariant TrimLeft(r) == TrimLeft(s)
    {
      r := r[1..];
    }
    while r != [] && IsSpace(r[|r| - 1])
      invariant TrimRight(r) == Trim(s)
    {
      r := r[..|r| - 1];
    }
  }

  method UpperCase(s: bytes) returns (r: bytes)
    ensures r == Upper(s)
  {
    r := s;
    var k := 0;
    while k < |r|
      invariant 0 <= k <= |r| == |s|
      invariant forall i :: 0 <= i < k ==> r[i] == ToUpper(s[i])
      invariant forall i :: k <= i < |s| ==> r[i] == s[i]
    {
      r := r[k := ToUpper(r[k])];
      k := k + 1;
    }
  }

  class HttpRequest {
    var verb: Verb
    var path: bytes
    var version: bytes
    var headers: seq<Entry>
    var body: bytes
    var queryParams: map<bytes, bytes>
    var pathParams: map<bytes, bytes>

    function View(): RequestData
      reads this
    {
      RequestData(verb, path, version, headers, body, queryParams, pathParams)
    }

    constructor ()
      ensures View() == EMPTY_REQUEST
    {
      verb, path, version, headers, body := UNKNOWN, [], [], [], [];
      queryParams, pathParams := map[], map[];
    }

    method ParseHeader(block: bytes) returns (ok: bool)
      modifies this
      ensures ok == WithHeader(old(View()), block).Some?
      ensures ok ==> View() == WithHeader(old(View()), block).value
      ensures !ok ==> View() == old(View())
    {
      hide Find, FoldHeaders, WithRequestLine;
      var eol := Find(block, CRLF, 0);
      if eol.None? { return false; }
      ParseRequestLine(block[..eol.value]);
      var rest := block[eol.value + 2..];
      var end := Find(rest, CRLFCRLF, 0);
      if end.Some? { rest := rest[..end.value]; }
      ParseHeaders(rest);
      return true;
    }

    method ParseRequestLine(line: bytes)
      modifies this
      ensures View() == WithRequestLine(old(View()), line)
    {
      hide Find, WithTarget;
      var sp1 := Find(line, " ", 0);
      if sp1.None? { return; }
      var sp2 := Find(line, " ", sp1.value + 1);
      if sp2.None? { return; }
      var methodText := UpperCase(line[..sp1.value]);
      verb := VerbFromString(methodText);
      version := line[sp2.value + 1..];
      if version != [] && version[|version| - 1] == '\r' { version := version[..|version| - 1]; }
      SetTarget(line[sp1.value + 1..sp2.value]);
    }

    method SetTarget(target: bytes)
      modifies this
      ensures View() == WithTarget(old(View()), target)
    {
      hide Find, FoldQuery;
      var qpos := Find(target, "?", 0);
      if qpos.Some? {
        path := target[..qpos.value];
        ParseQueryString(target[qpos.value + 1..]);
      } else {
        path := target;
      }
    }

    method ParseHeaders(block: bytes)
      modifies this`headers
      ensures headers == FoldHeaders(block, old(headers))
    {
      var pos := 0;
      assert block[0..] == block;
      while pos < |block|
        invariant 0 <= pos <= |block|
        invariant FoldHeaders(block[pos..], headers) == FoldHeaders(block, old(headers))
      {
        var found := Find(block, CRLF, pos);
        var eol := if found.None? then |block| else found.value;
        var line := block[pos..eol];
        var next := if eol == |block| then eol else eol + 2;
        CutAt(block, CRLF, pos, eol, next);
        pos := next;
        var colon := Find(line, ":", 0);
        if colon.None? { continue; }
        var name := TrimSpaces(line[..colon.value]);
        var value := TrimSpaces(line[colon.value + 1..]);
        if name == [] { continue; }
        headers := Assign(headers, name, value);
      }
      assert block[pos..] == [];
    }

    method ParseQueryString(qs: bytes)
      modifies this`queryParams
      ensures queryParams == FoldQuery(qs, old(queryParams))
    {
      var pos := 0;
      assert qs[0..] == qs;
      while pos < |qs|
        invariant 0 <= pos <= |qs|
        invariant FoldQuery(qs[pos..], queryParams) == FoldQuery(qs, old(queryParams))
      {
        var found := Find(qs, "&", pos);
        var amp := if found.None? then |qs| else found.value;
        var token := qs[pos..amp];
        var next := if amp == |qs| then amp else amp + 1;
        CutAt(qs, "&", pos, amp, next);
        pos := next;
        var eq := Find(token, "=", 0);
        if eq.None? { continue; }
        var key := DecodeUrl(token[..eq.value]);
        var val := DecodeUrl(token[eq.value + 1..]);
        queryParams := queryParams[key := val];
      }
      assert qs[pos..] == [];
    }

    method SetBody(b: bytes)
      modifies this`body
      ensures body == b
    {
      body := b;
    }
  }
}
