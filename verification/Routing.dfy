/**
 What src/http_router.cpp promises, said of the flat list of registrations:
 which handler a request goes to, what it captures, and which methods a 405
 lists. The indexed router in Router is proved against this.
 */
module Routing {
  import opened Text
  import opened Request

  type HandlerId = nat

  datatype Kind = Literal | Param | CatchAll

  datatype Segment = Segment(kind: Kind, text: bytes)

  datatype Route = Route(segments: seq<Segment>, fn: HandlerId)

  datatype Registration = Registration(verb: Verb, pattern: bytes, fn: HandlerId)

  // ── paths and patterns ─────────────────────────────────────────────

  /** split_path: the non-empty parts between slashes. */
  function SplitPath(path: bytes): seq<bytes>
    decreases |path|
  {
    if path == [] then []
    else (if Before(path, "/") == [] then [] else [Before(path, "/")]) + SplitPath(After(path, "/"))
  }

  function Classify(part: bytes): Segment
    requires part != []
  {
    if part[0] == ':' then Segment(Param, part[1..])
    else if part[0] == '*' then Segment(CatchAll, part[1..])
    else Segment(Literal, part)
  }

  /** parse_pattern: the parts of the pattern, each classified. */
  function ParsePattern(pattern: bytes): seq<Segment>
    decreases |pattern|
  {
    if pattern == [] then []
    else (if Before(pattern, "/") == [] then [] else [Classify(Before(pattern, "/"))]) + ParsePattern(After(pattern, "/"))
  }

  function ClassifyAll(parts: seq<bytes>): seq<Segment>
    requires AllSlashFree(parts)
  {
    if parts == [] then [] else [Classify(parts[0])] + ClassifyAll(parts[1..])
  }

  /** parse_pattern is split_path with every part classified. */
  lemma {:induction false} PatternIsClassifiedPath(pattern: bytes)
    ensures AllSlashFree(SplitPath(pattern))
    ensures ParsePattern(pattern) == ClassifyAll(SplitPath(pattern))
    decreases |pattern|
  {
    SplitIsSlashFree(pattern);
    if pattern != [] {
      var part, rest := Before(pattern, "/"), After(pattern, "/");
      PatternIsClassifiedPath(rest);
      hide Before, After, Classify;
      if part == [] {
        assert [] + SplitPath(rest) == SplitPath(rest) && [] + ParsePattern(rest) == ParsePattern(rest);
      } else {
        assert ([part] + SplitPath(rest))[1..] == SplitPath(rest);
      }
    }
  }

  predicate SlashFree(part: bytes) { part != [] && '/' !in part }

  predicate AllSlashFree(parts: seq<bytes>) { forall i :: 0 <= i < |parts| ==> SlashFree(parts[i]) }

  lemma {:induction false} SplitIsSlashFree(path: bytes)
    ensures AllSlashFree(SplitPath(path))
    decreases |path|
  {
    if path != [] {
      CutAtByte(path, '/');
      SplitIsSlashFree(After(path, "/"));
    }
  }

  /** The catch-all's capture: the remaining parts joined by slashes. */
  function JoinSlash(parts: seq<bytes>): bytes {
    if parts == [] then [] else if |parts| == 1 then parts[0] else parts[0] + "/" + JoinSlash(parts[1..])
  }

  lemma CutFirstPart(part: bytes, rest: bytes)
    requires SlashFree(part)
    ensures Before(part, "/") == part && After(part, "/") == []
    ensures Before(part + "/" + rest, "/") == part && After(part + "/" + rest, "/") == rest
  {
    FindNoByte(part, '/');
    var s := part + "/" + rest;
    assert s[..|part|] == part && s[|part| + 1..] == rest;
    FindByte(s, '/', |part|);
  }

  /** split_path inverts joining. */
  lemma {:induction false} SplitInvertsJoin(parts: seq<bytes>)
    requires AllSlashFree(parts)
    ensures SplitPath(JoinSlash(parts)) == parts
    decreases |parts|
  {
    hide Before, After;
    if |parts| == 1 {
      CutFirstPart(parts[0], []);
      assert SplitPath([]) == [];
    } else if parts != [] {
      CutFirstPart(parts[0], JoinSlash(parts[1..]));
      SplitInvertsJoin(parts[1..]);
    }
  }

  /** The key of an all-literal route: "/a/b", or "/" when it has no segments. */
  function Slashed(segs: seq<Segment>): bytes {
    if segs == [] then [] else Slashed(segs[..|segs| - 1]) + "/" + segs[|segs| - 1].text
  }

  function Canonical(segs: seq<Segment>): bytes { if segs == [] then "/" else Slashed(segs) }

  // ── kinds of routes ────────────────────────────────────────────────

  predicate Misplaced(segs: seq<Segment>) { exists k :: 0 <= k < |segs| - 1 && segs[k].kind == CatchAll }

  predicate HasCatchAll(segs: seq<Segment>) { segs != [] && segs[|segs| - 1].kind == CatchAll }

  predicate AllLiteral(segs: seq<Segment>) { forall k :: 0 <= k < |segs| ==> segs[k].kind == Literal }

  predicate IsCatchallRoute(segs: seq<Segment>) { !Misplaced(segs) && HasCatchAll(segs) }

  predicate IsParamRoute(segs: seq<Segment>) { !Misplaced(segs) && !HasCatchAll(segs) && !AllLiteral(segs) }

  // ── matching ───────────────────────────────────────────────────────

  predicate LiteralsAgree(pat: seq<Segment>, path: seq<bytes>, n: nat)
    requires n <= |pat| && n <= |path|
  {
    forall k :: 0 <= k < n ==> pat[k].kind == Literal ==> path[k] == pat[k].text
  }

  predicate Matches(pat: seq<Segment>, path: seq<bytes>) {
    if HasCatchAll(pat) then |pat| - 1 <= |path| && LiteralsAgree(pat, path, |pat| - 1)
    else |path| == |pat| && LiteralsAgree(pat, path, |pat|)
  }

  /** The value segment k captures. */
  function Captured(pat: seq<Segment>, path: seq<bytes>, k: nat): bytes
    requires k < |pat| && k <= |path| && (k < |path| || pat[k].kind == CatchAll)
  {
    if pat[k].kind == CatchAll then JoinSlash(path[k..]) else path[k]
  }

  /** The path parameters after binding the first n segments; a repeated name keeps the last value. */
  function Bind(params: map<bytes, bytes>, pat: seq<Segment>, path: seq<bytes>, n: nat): map<bytes, bytes>
    requires !Misplaced(pat) && Matches(pat, path) && n <= |pat|
  {
    if n == 0 then params
    else
      var before := Bind(params, pat, path, n - 1);
      var s := pat[n - 1];
      if s.kind == Literal then before
      else before[s.text := Captured(pat, path, n - 1)]
  }

  function BindAll(params: map<bytes, bytes>, pat: seq<Segment>, path: seq<bytes>): map<bytes, bytes>
    requires !Misplaced(pat) && Matches(pat, path)
  {
    Bind(params, pat, path, |pat|)
  }

  predicate DistinctNames(pat: seq<Segment>) {
    forall i, j :: 0 <= i < j < |pat| && pat[i].kind != Literal && pat[j].kind != Literal ==> pat[i].text != pat[j].text
  }

  lemma {:induction false} BindHolds(params: map<bytes, bytes>, pat: seq<Segment>, path: seq<bytes>, n: nat, k: nat)
    requires !Misplaced(pat) && Matches(pat, path) && DistinctNames(pat) && k < n <= |pat| && pat[k].kind != Literal
    ensures pat[k].text in Bind(params, pat, path, n)
    ensures Bind(params, pat, path, n)[pat[k].text] == Captured(pat, path, k)
  {
    if k < n - 1 { BindHolds(params, pat, path, n - 1, k); }
  }

  /** The path segments a pattern and its captures stand for, from segment k on. */
  function Rebuild(pat: seq<Segment>, params: map<bytes, bytes>, k: nat): seq<bytes>
    requires k <= |pat| && forall i :: 0 <= i < |pat| && pat[i].kind != Literal ==> pat[i].text in params
    decreases |pat| - k
  {
    if k == |pat| then []
    else (match pat[k].kind
          case Literal => [pat[k].text]
          case Param => [params[pat[k].text]]
          case CatchAll => SplitPath(params[pat[k].text])) + Rebuild(pat, params, k + 1)
  }

  /** The map holds what each capture of the pattern took from the path. */
  predicate HoldsCaptures(all: map<bytes, bytes>, pat: seq<Segment>, parts: seq<bytes>)
    requires !Misplaced(pat) && Matches(pat, parts)
  {
    forall i :: 0 <= i < |pat| && pat[i].kind != Literal ==> pat[i].text in all && all[pat[i].text] == Captured(pat, parts, i)
  }

  /** Captures lose nothing: with distinct names, putting them back into the pattern gives the path's segments. */
  lemma CapturesRebuildPath(params: map<bytes, bytes>, pat: seq<Segment>, path: bytes)
    requires !Misplaced(pat) && DistinctNames(pat) && Matches(pat, SplitPath(path))
    ensures HoldsCaptures(BindAll(params, pat, SplitPath(path)), pat, SplitPath(path))
    ensures Rebuild(pat, BindAll(params, pat, SplitPath(path)), 0) == SplitPath(path)
  {
    var parts := SplitPath(path);
    forall i | 0 <= i < |pat| && pat[i].kind != Literal
      ensures pat[i].text in BindAll(params, pat, parts)
      ensures BindAll(params, pat, parts)[pat[i].text] == Captured(pat, parts, i)
    {
      BindHolds(params, pat, parts, |pat|, i);
    }
    hide BindAll, Matches, DistinctNames;
    SplitIsSlashFree(path);
    RebuildFrom(BindAll(params, pat, parts), pat, parts, 0);
    if pat == [] { EmptyPatternPath(parts); }
    assert parts[0..] == parts;
  }

  lemma EmptyPatternPath(parts: seq<bytes>)
    requires Matches([], parts)
    ensures parts == []
  {}

  lemma {:induction false} RebuildFrom(all: map<bytes, bytes>, pat: seq<Segment>, parts: seq<bytes>, k: nat)
    requires !Misplaced(pat) && Matches(pat, parts) && AllSlashFree(parts) && k <= |pat|
    requires HoldsCaptures(all, pat, parts)
    ensures k < |pat| ==> k <= |parts|
    ensures Rebuild(pat, all, k) == if k == |pat| then [] else parts[k..]
    decreases |pat| - k
  {
    if k < |pat| {
      RebuildFrom(all, pat, parts, k + 1);
      SegmentBack(all, pat, parts, k);
    }
  }

  lemma SegmentBack(all: map<bytes, bytes>, pat: seq<Segment>, parts: seq<bytes>, k: nat)
    requires !Misplaced(pat) && Matches(pat, parts) && AllSlashFree(parts) && k < |pat|
    requires HoldsCaptures(all, pat, parts)
    requires Rebuild(pat, all, k + 1) == if k + 1 == |pat| then [] else parts[k + 1..]
    ensures Rebuild(pat, all, k) == parts[k..]
  {
    hide SplitPath, JoinSlash;
    if pat[k].kind == CatchAll {
      assert k == |pat| - 1;
      SplitInvertsJoin(parts[k..]);
      assert parts[k..] + [] == parts[k..];
    } else {
      assert k < |parts|;
      assert parts[k..] == [parts[k]] + parts[k + 1..];
      assert k + 1 == |pat| ==> parts[k + 1..] == [];
    }
  }

  // ── the flat search ────────────────────────────────────────────────

  /** The last all-literal registration of verb whose canonical form is the path. */
  function StaticFor(log: seq<Registration>, verb: Verb, path: bytes): Option<HandlerId> {
    if log == [] then None
    else
      var r := log[|log| - 1];
      var segs := ParsePattern(r.pattern);
      if r.verb == verb && AllLiteral(segs) && Canonical(segs) == path then Some(r.fn)
      else StaticFor(log[..|log| - 1], verb, path)
  }

  /** The parameter routes of verb, in order of registration. */
  function ParamRoutes(log: seq<Registration>, verb: Verb): seq<Route> {
    if log == [] then []
    else
      var r := log[|log| - 1];
      var segs := ParsePattern(r.pattern);
      ParamRoutes(log[..|log| - 1], verb)
      + if r.verb == verb && IsParamRoute(segs) then [Route(segs, r.fn)] else []
  }

  /** The catch-all routes of verb, in order of registration. */
  function CatchallRoutes(log: seq<Registration>, verb: Verb): seq<Route> {
    if log == [] then []
    else
      var r := log[|log| - 1];
      var segs := ParsePattern(r.pattern);
      CatchallRoutes(log[..|log| - 1], verb)
      + if r.verb == verb && IsCatchallRoute(segs) then [Route(segs, r.fn)] else []
  }

  function FirstMatch(routes: seq<Route>, path: seq<bytes>): (r: Option<Route>)
    ensures r.Some? ==> r.value in routes && Matches(r.value.segments, path)
    ensures r.None? <==> forall i :: 0 <= i < |routes| ==> !Matches(routes[i].segments, path)
  {
    if routes == [] then None
    else if Matches(routes[0].segments, path) then Some(routes[0])
    else FirstMatch(routes[1..], path)
  }

  function LiteralPrefix(segs: seq<Segment>): nat {
    if segs == [] || segs[0].kind != Literal then 0 else 1 + LiteralPrefix(segs[1..])
  }

  /** The order of catch-all routes: longer literal prefix first, then more segments. */
  predicate Ahead(a: Route, b: Route) {
    LiteralPrefix(a.segments) > LiteralPrefix(b.segments)
    || (LiteralPrefix(a.segments) == LiteralPrefix(b.segments) && |a.segments| > |b.segments|)
  }

  predicate AnyMatch(routes: seq<Route>, path: seq<bytes>) {
    exists i :: 0 <= i < |routes| && Matches(routes[i].segments, path)
  }

  /** Some route registered for verb matches the path. */
  predicate Routed(log: seq<Registration>, verb: Verb, path: bytes) {
    || StaticFor(log, verb, path).Some?
    || AnyMatch(ParamRoutes(log, verb), SplitPath(path))
    || AnyMatch(CatchallRoutes(log, verb), SplitPath(path))
  }

  const VERBS: seq<Verb> := [GET, POST, PUT, DELETE, PATCH, HEAD, OPTIONS]

  function VerbName(v: Verb): bytes {
    match v
    case GET => "GET"
    case POST => "POST"
    case PUT => "PUT"
    case DELETE => "DELETE"
    case PATCH => "PATCH"
    case HEAD => "HEAD"
    case OPTIONS => "OPTIONS"
    case UNKNOWN => "UNKNOWN"
  }

  /** The methods among the first n of the enumeration that have a route for the path. */
  function Allowed(log: seq<Registration>, path: bytes, n: nat): seq<Verb>
    requires n <= |VERBS|
  {
    if n == 0 then []
    else Allowed(log, path, n - 1) + if Routed(log, VERBS[n - 1], path) then [VERBS[n - 1]] else []
  }

  function CommaList(vs: seq<Verb>): bytes {
    if vs == [] then []
    else
      var init := CommaList(vs[..|vs| - 1]);
      (if init == [] then [] else init + ", ") + VerbName(vs[|vs| - 1])
  }

  lemma AllowedNone(log: seq<Registration>, path: bytes)
    ensures CommaList(Allowed(log, path, 0)) == []
  {}

  /** The list grows by one method that has a route. */
  lemma AllowedStep(log: seq<Registration>, path: bytes, n: nat)
    requires n < |VERBS|
    ensures var before := CommaList(Allowed(log, path, n));
            CommaList(Allowed(log, path, n + 1)) ==
            if Routed(log, VERBS[n], path) then (if before == [] then [] else before + ", ") + VerbName(VERBS[n]) else before
  {
    hide Routed, VerbName;
    var a, v := Allowed(log, path, n), VERBS[n];
    assert (a + [v])[..|a|] == a && a + [] == a;
  }

  datatype Outcome =
    | Handled(fn: HandlerId, params: map<bytes, bytes>)
    | NotAllowed(custom: Option<HandlerId>, allow: bytes)
    | NotFound(handler: Option<HandlerId>)

  /** What handle() may do with a request, given everything registered. */
  ghost predicate Correct(log: seq<Registration>, verb: Verb, path: bytes, params: map<bytes, bytes>,
                          custom405: Option<HandlerId>, custom404: Option<HandlerId>, o: Outcome)
  {
    var parts := SplitPath(path);
    var fixed := StaticFor(log, verb, path);
    var dynamic := FirstMatch(ParamRoutes(log, verb), parts);
    var catchall := CatchallRoutes(log, verb);
    if fixed.Some? then o == Handled(fixed.value, params)
    else if dynamic.Some? then
      !Misplaced(dynamic.value.segments) && o == Handled(dynamic.value.fn, BindAll(params, dynamic.value.segments, parts))
    else if AnyMatch(catchall, parts) then
      exists r :: r in catchall && Best(catchall, parts, r) && o == Handled(r.fn, BindAll(params, r.segments, parts))
    else if exists v :: Routed(log, v, path) then
      o == NotAllowed(custom405, if custom405.Some? then [] else CommaList(Allowed(log, path, |VERBS|)))
    else o == NotFound(custom404)
  }

  /** A matching catch-all that no matching one is ahead of. */
  ghost predicate Best(routes: seq<Route>, parts: seq<bytes>, r: Route) {
    && !Misplaced(r.segments) && Matches(r.segments, parts)
    && forall q :: q in routes && Matches(q.segments, parts) ==> !Ahead(q, r)
  }

  // ── consequences ───────────────────────────────────────────────────

  lemma {:induction false} AllowedExact(log: seq<Registration>, path: bytes, n: nat, v: Verb)
    requires n <= |VERBS|
    ensures v in Allowed(log, path, n) <==> v in VERBS[..n] && Routed(log, v, path)
  {
    if n > 0 {
      AllowedExact(log, path, n - 1, v);
      assert VERBS[..n] == VERBS[..n - 1] + [VERBS[n - 1]];
    }
  }

  /** The position of a method in the enumeration. */
  function VerbIndex(v: Verb): nat {
    match v case GET => 0 case POST => 1 case PUT => 2 case DELETE => 3 case PATCH => 4 case HEAD => 5 case OPTIONS => 6 case UNKNOWN => 7
  }

  lemma VerbAt(i: nat)
    requires i < |VERBS|
    ensures VerbIndex(VERBS[i]) == i
  {}

  /** In enumeration order, without repetition, among the first n methods. */
  predicate InOrder(vs: seq<Verb>, n: nat) {
    && (forall i :: 0 <= i < |vs| ==> VerbIndex(vs[i]) < n)
    && (forall i, j :: 0 <= i < j < |vs| ==> VerbIndex(vs[i]) < VerbIndex(vs[j]))
  }

  lemma {:induction false} AllowedInOrder(log: seq<Registration>, path: bytes, n: nat)
    requires n <= |VERBS|
    ensures InOrder(Allowed(log, path, n), n)
  {
    if n > 0 {
      hide Routed;
      AllowedInOrder(log, path, n - 1);
      VerbAt(n - 1);
      AppendInOrder(Allowed(log, path, n - 1), VERBS[n - 1], n);
    }
  }

  lemma AppendInOrder(init: seq<Verb>, v: Verb, n: nat)
    requires n > 0 && VerbIndex(v) == n - 1 && InOrder(init, n - 1)
    ensures InOrder(init + [v], n) && InOrder(init + [], n)
  {
    assert init + [] == init;
  }

  lemma VerbInList(v: Verb)
    ensures v in VERBS[..|VERBS|] <==> v != UNKNOWN
  {
    if v != UNKNOWN { assert VERBS[VerbIndex(v)] == v; }
  }

  /** A request reaches a registered handler exactly when a route of its own method matches. */
  lemma HandledIffRouted(log: seq<Registration>, verb: Verb, path: bytes, params: map<bytes, bytes>,
                         c405: Option<HandlerId>, c404: Option<HandlerId>, o: Outcome)
    requires Correct(log, verb, path, params, c405, c404, o)
    ensures o.Handled? <==> Routed(log, verb, path)
    ensures o.NotAllowed? <==> !Routed(log, verb, path) && exists v :: Routed(log, v, path)
  {
    hide Matches, ParamRoutes, CatchallRoutes, StaticFor, SplitPath;
  }

  /**
   Allow is exact: a 405's list holds, in enumeration order and once each,
   exactly the methods for which the same path would be handled; never the
   method asked for; and it is empty exactly when only UNKNOWN has a route.
   */
  lemma AllowIsExact(log: seq<Registration>, verb: Verb, path: bytes, params: map<bytes, bytes>, c404: Option<HandlerId>, o: Outcome)
    requires Correct(log, verb, path, params, None, c404, o) && o.NotAllowed?
    ensures var a := Allowed(log, path, |VERBS|);
            o.allow == CommaList(a)
            && verb !in a
            && (forall v: Verb :: v in a <==> v != UNKNOWN && Routed(log, v, path))
            && InOrder(a, |VERBS|)
            && (a == [] <==> forall v: Verb :: Routed(log, v, path) ==> v == UNKNOWN)
  {
    hide Routed;
    HandledIffRouted(log, verb, path, params, None, c404, o);
    AllowedInOrder(log, path, |VERBS|);
    forall v: Verb
      ensures v in Allowed(log, path, |VERBS|) <==> v != UNKNOWN && Routed(log, v, path)
    {
      AllowedExact(log, path, |VERBS|, v);
      VerbInList(v);
    }
    var a := Allowed(log, path, |VERBS|);
    if a != [] { assert a[0] in a; }
  }

  /** A route registered for the unknown method only. */
  const ODD: seq<Registration> := [Registration(UNKNOWN, "/a", 0)]

  lemma OnlyUnknownIsRouted(v: Verb)
    ensures Routed(ODD, v, "/a") <==> v == UNKNOWN
  {
    hide ParsePattern, SplitPath, Canonical;
    SlashA();
    LogGrows([], ODD[0], v, "/a");
    assert [] + [ODD[0]] == ODD;
    assert StaticFor([], v, "/a") == None && ParamRoutes([], v) == [] && CatchallRoutes([], v) == [];
  }

  lemma SlashA()
    ensures ParsePattern("/a") == [Segment(Literal, "a")] && Canonical(ParsePattern("/a")) == "/a"
  {
    FindByte("/a", '/', 0);
    assert "/a"[..0] == [] && "/a"[1..] == "a";
    CutFirstPart("a", []);
    assert ParsePattern([]) == [];
    var segs := [Segment(Literal, "a")];
    assert ParsePattern("a") == segs + [];
    assert ParsePattern("/a") == [] + ParsePattern("a");
    assert segs[..0] == [];
  }

  /** GET for it can only be answered with a 405 whose Allow list is empty. */
  lemma AllowCanBeEmpty(params: map<bytes, bytes>, c404: Option<HandlerId>, o: Outcome)
    ensures Correct(ODD, GET, "/a", params, None, c404, o) <==> o == NotAllowed(None, [])
  {
    hide Routed, Matches, VerbName;
    forall v: Verb
      ensures Routed(ODD, v, "/a") <==> v == UNKNOWN
    {
      OnlyUnknownIsRouted(v);
    }
    AllowedNothing(ODD, "/a", |VERBS|);
    assert CommaList([]) == [] && Routed(ODD, UNKNOWN, "/a");
    NotRoutedHere(ODD, GET, "/a");
  }

  lemma {:induction false} AllowedNothing(log: seq<Registration>, path: bytes, n: nat)
    requires n <= |VERBS| && forall v: Verb :: v != UNKNOWN ==> !Routed(log, v, path)
    ensures Allowed(log, path, n) == []
  {
    hide Routed;
    if n > 0 { AllowedNothing(log, path, n - 1); }
  }

  lemma NotRoutedHere(log: seq<Registration>, verb: Verb, path: bytes)
    requires !Routed(log, verb, path)
    ensures StaticFor(log, verb, path).None? && FirstMatch(ParamRoutes(log, verb), SplitPath(path)).None?
    ensures !AnyMatch(CatchallRoutes(log, verb), SplitPath(path))
  {
    hide Matches;
  }

  /** The paths static routes answer to are canonical forms of registered all-literal patterns. */
  lemma {:induction false} StaticKeysAreCanonical(log: seq<Registration>, verb: Verb, path: bytes)
    requires StaticFor(log, verb, path).Some?
    ensures exists i :: 0 <= i < |log| && log[i].verb == verb && log[i].fn == StaticFor(log, verb, path).value
                        && AllLiteral(ParsePattern(log[i].pattern)) && Canonical(ParsePattern(log[i].pattern)) == path
  {
    var init, r := log[..|log| - 1], log[|log| - 1];
    var segs := ParsePattern(r.pattern);
    if !(r.verb == verb && AllLiteral(segs) && Canonical(segs) == path) {
      StaticKeysAreCanonical(init, verb, path);
      var i :| 0 <= i < |init| && init[i].verb == verb && init[i].fn == StaticFor(init, verb, path).value
               && AllLiteral(ParsePattern(init[i].pattern)) && Canonical(ParsePattern(init[i].pattern)) == path;
      assert log[i] == init[i];
    }
  }

  /**
   An all-literal registration behind any others: its canonical path goes to
   its handler; and so does its own text if that is canonical, while otherwise
   a request for that text, whatever its method, is answered as if the
   registration had not been made.
   */
  lemma StaticRouteMatchesItself(log: seq<Registration>, r: Registration, verb: Verb, params: map<bytes, bytes>,
                                 c405: Option<HandlerId>, c404: Option<HandlerId>, o: Outcome)
    requires AllLiteral(ParsePattern(r.pattern))
    ensures StaticFor(log + [r], r.verb, Canonical(ParsePattern(r.pattern))) == Some(r.fn)
    ensures if Canonical(ParsePattern(r.pattern)) == r.pattern
            then Correct(log + [r], r.verb, r.pattern, params, c405, c404, o) <==> o == Handled(r.fn, params)
            else Correct(log + [r], verb, r.pattern, params, c405, c404, o) <==> Correct(log, verb, r.pattern, params, c405, c404, o)
  {
    hide ParsePattern, Canonical, SplitPath, Matches, StaticFor, ParamRoutes, CatchallRoutes, VerbName;
    LogGrows(log, r, r.verb, Canonical(ParsePattern(r.pattern)));
    LogGrows(log, r, r.verb, r.pattern);
    if Canonical(ParsePattern(r.pattern)) != r.pattern {
      forall v: Verb
        ensures SameRoutes(log + [r], log, v, r.pattern)
      {
        LiteralAddsNothing(log, r, v, r.pattern);
      }
      CorrectSame(log + [r], log, verb, r.pattern, params, c405, c404, o);
    }
  }

  lemma CorrectSame(a: seq<Registration>, b: seq<Registration>, verb: Verb, path: bytes, params: map<bytes, bytes>,
                    c405: Option<HandlerId>, c404: Option<HandlerId>, o: Outcome)
    requires forall v: Verb :: SameRoutes(a, b, v, path)
    ensures Correct(a, verb, path, params, c405, c404, o) <==> Correct(b, verb, path, params, c405, c404, o)
  {
    hide SplitPath, Matches, StaticFor, ParamRoutes, CatchallRoutes, VerbName, Best;
    AllowedSame(a, b, path, |VERBS|);
    assert SameRoutes(a, b, verb, path);
    forall v: Verb
      ensures Routed(a, v, path) == Routed(b, v, path)
    {
      assert SameRoutes(a, b, v, path);
    }
  }

  /** The two lists route the method and path alike. */
  predicate SameRoutes(a: seq<Registration>, b: seq<Registration>, verb: Verb, path: bytes) {
    && StaticFor(a, verb, path) == StaticFor(b, verb, path)
    && ParamRoutes(a, verb) == ParamRoutes(b, verb) && CatchallRoutes(a, verb) == CatchallRoutes(b, verb)
  }

  lemma LiteralAddsNothing(log: seq<Registration>, r: Registration, verb: Verb, path: bytes)
    requires AllLiteral(ParsePattern(r.pattern)) && Canonical(ParsePattern(r.pattern)) != path
    ensures SameRoutes(log + [r], log, verb, path)
  {
    hide ParsePattern, Canonical;
    LogGrows(log, r, verb, path);
  }

  lemma {:induction false} AllowedSame(a: seq<Registration>, b: seq<Registration>, path: bytes, n: nat)
    requires n <= |VERBS| && forall v: Verb :: SameRoutes(a, b, v, path)
    ensures Allowed(a, path, n) == Allowed(b, path, n)
  {
    hide StaticFor, ParamRoutes, CatchallRoutes, SplitPath, Matches;
    if n > 0 {
      AllowedSame(a, b, path, n - 1);
      assert SameRoutes(a, b, VERBS[n - 1], path);
    }
  }

  /** For instance, "/a/" is not. */
  lemma TrailingSlashIsNotCanonical()
    ensures ParsePattern("/a/") == [Segment(Literal, "a")] && Canonical(ParsePattern("/a/")) == "/a"
  {
    FindByte("/a/", '/', 0);
    assert "/a/"[..0] == [] && "/a/"[1..] == "a/";
    CutFirstPart("a", []);
    assert "a" + "/" + [] == "a/";
    assert ParsePattern([]) == [];
    var segs := [Segment(Literal, "a")];
    assert ParsePattern("a/") == segs + [];
    assert ParsePattern("/a/") == [] + ParsePattern("a/");
    assert segs[..0] == [];
  }

  // ── how the indexes follow the list ────────────────────────────────

  /** Each list of routes holds routes of its own kind only. */
  lemma {:induction false} RoutesAreClassified(log: seq<Registration>, verb: Verb)
    ensures forall r :: r in ParamRoutes(log, verb) ==> IsParamRoute(r.segments)
    ensures forall r :: r in CatchallRoutes(log, verb) ==> IsCatchallRoute(r.segments)
  {
    if log != [] { RoutesAreClassified(log[..|log| - 1], verb); }
  }

  lemma LogGrows(log: seq<Registration>, r: Registration, verb: Verb, path: bytes)
    ensures var segs := ParsePattern(r.pattern);
            && StaticFor(log + [r], verb, path) ==
               (if r.verb == verb && AllLiteral(segs) && Canonical(segs) == path then Some(r.fn) else StaticFor(log, verb, path))
            && ParamRoutes(log + [r], verb) ==
               ParamRoutes(log, verb) + (if r.verb == verb && IsParamRoute(segs) then [Route(segs, r.fn)] else [])
            && CatchallRoutes(log + [r], verb) ==
               CatchallRoutes(log, verb) + (if r.verb == verb && IsCatchallRoute(segs) then [Route(segs, r.fn)] else [])
  {
    assert (log + [r])[..|log|] == log;
  }

  /** The routes with n segments, in order: what the bucket for n holds. */
  function OfLength(routes: seq<Route>, n: nat): seq<Route> {
    if routes == [] then []
    else
      var last := routes[|routes| - 1];
      OfLength(routes[..|routes| - 1], n) + if |last.segments| == n then [last] else []
  }

  lemma OfLengthSnoc(routes: seq<Route>, r: Route, n: nat)
    ensures OfLength(routes + [r], n) == OfLength(routes, n) + if |r.segments| == n then [r] else []
  {
    assert (routes + [r])[..|routes|] == routes;
  }

  lemma {:induction false} OfLengthHolds(routes: seq<Route>, n: nat)
    ensures forall r :: r in OfLength(routes, n) <==> r in routes && |r.segments| == n
  {
    if routes != [] {
      OfLengthHolds(routes[..|routes| - 1], n);
      assert routes == routes[..|routes| - 1] + [routes[|routes| - 1]];
    }
  }

  lemma {:induction false} FirstMatchSnoc(routes: seq<Route>, r: Route, parts: seq<bytes>)
    ensures FirstMatch(routes + [r], parts) ==
            if FirstMatch(routes, parts).Some? then FirstMatch(routes, parts)
            else if Matches(r.segments, parts) then Some(r) else None
    decreases |routes|
  {
    if routes != [] {
      assert (routes + [r])[1..] == routes[1..] + [r];
      FirstMatchSnoc(routes[1..], r, parts);
    }
  }

  /** Searching the bucket for the path's length finds what searching every route finds. */
  lemma {:induction false} BucketSuffices(routes: seq<Route>, parts: seq<bytes>)
    requires forall r :: r in routes ==> IsParamRoute(r.segments)
    ensures FirstMatch(OfLength(routes, |parts|), parts) == FirstMatch(routes, parts)
    decreases |routes|
  {
    if routes != [] {
      var init, last := routes[..|routes| - 1], routes[|routes| - 1];
      assert routes == init + [last];
      BucketSuffices(init, parts);
      FirstMatchSnoc(init, last, parts);
      FirstMatchSnoc(OfLength(init, |parts|), last, parts);
      assert OfLength(init, |parts|) + [] == OfLength(init, |parts|);
    }
  }

  lemma {:induction false} FirstMatchIs(routes: seq<Route>, parts: seq<bytes>, i: nat)
    requires i < |routes| && Matches(routes[i].segments, parts)
    requires forall j :: 0 <= j < i ==> !Matches(routes[j].segments, parts)
    ensures FirstMatch(routes, parts) == Some(routes[i])
    decreases i
  {
    if i > 0 { FirstMatchIs(routes[1..], parts, i - 1); }
  }

  predicate Sorted(routes: seq<Route>) {
    forall i, j :: 0 <= i < j < |routes| ==> !Ahead(routes[j], routes[i])
  }

  /** In a sorted list, the first match is one no match is ahead of. */
  lemma FirstIsBest(routes: seq<Route>, flat: seq<Route>, parts: seq<bytes>, i: nat)
    requires Sorted(routes) && multiset(routes) == multiset(flat)
    requires i < |routes| && Matches(routes[i].segments, parts) && !Misplaced(routes[i].segments)
    requires forall j :: 0 <= j < i ==> !Matches(routes[j].segments, parts)
    ensures routes[i] in flat && Best(flat, parts, routes[i])
  {
    hide Matches, Misplaced;
    assert routes[i] in multiset(flat);
    forall q | q in flat && Matches(q.segments, parts)
      ensures !Ahead(q, routes[i])
    {
      assert q in multiset(routes);
      var j :| 0 <= j < |routes| && routes[j] == q;
    }
  }

  lemma SameElementsMatch(a: seq<Route>, b: seq<Route>, parts: seq<bytes>)
    requires multiset(a) == multiset(b)
    ensures AnyMatch(a, parts) <==> AnyMatch(b, parts)
  {
    hide Matches;
    forall i | 0 <= i < |a| && Matches(a[i].segments, parts)
      ensures AnyMatch(b, parts)
    {
      assert a[i] in multiset(b);
      var j :| 0 <= j < |b| && b[j] == a[i];
    }
    forall i | 0 <= i < |b| && Matches(b[i].segments, parts)
      ensures AnyMatch(a, parts)
    {
      assert b[i] in multiset(a);
      var j :| 0 <= j < |a| && a[j] == b[i];
    }
  }
}
