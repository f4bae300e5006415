/**
 The HttpRouter object of src/http_router.cpp: three indexes, kept in step with
 the list of registrations, and a search of them that finds what Routing's
 search of the list finds.
 */
module RouterObject {
  import opened Text
  import opened Request
  import opened Routing

  class HttpRouter {
    var staticRoutes: map<Verb, map<bytes, HandlerId>>
    var dynamicRoutes: map<Verb, map<nat, seq<Route>>>
    var catchallRoutes: map<Verb, seq<Route>>
    var notFoundHandler: Option<HandlerId>          // None is default_404
    var methodNotAllowedHandler: Option<HandlerId>  // None is the built-in 405
    ghost var log: seq<Registration>

    function StaticRoute(verb: Verb, path: bytes): Option<HandlerId>
      reads this`staticRoutes
    {
      if verb in staticRoutes && path in staticRoutes[verb] then Some(staticRoutes[verb][path]) else None
    }

    function Bucket(verb: Verb, n: nat): seq<Route>
      reads this`dynamicRoutes
    {
      if verb in dynamicRoutes && n in dynamicRoutes[verb] then dynamicRoutes[verb][n] else []
    }

    function Catchalls(verb: Verb): seq<Route>
      reads this`catchallRoutes
    {
      if verb in catchallRoutes then catchallRoutes[verb] else []
    }

    /** Each index holds exactly what l registers for it: the last handler, the routes by length, the routes sorted. */
    ghost predicate StaticHolds(l: seq<Registration>)
      reads this`staticRoutes
    {
      forall v, p :: StaticRoute(v, p) == StaticFor(l, v, p)
    }

    ghost predicate ParamHolds(l: seq<Registration>)
      reads this`dynamicRoutes
    {
      forall v, n: nat :: Bucket(v, n) == OfLength(ParamRoutes(l, v), n)
    }

    ghost predicate CatchallHolds(l: seq<Registration>)
      reads this`catchallRoutes
    {
      forall v :: multiset(Catchalls(v)) == multiset(CatchallRoutes(l, v)) && Sorted(Catchalls(v))
    }

    ghost predicate Valid()
      reads this
    {
      StaticHolds(log) && ParamHolds(log) && CatchallHolds(log)
    }

    constructor ()
      ensures Valid() && log == [] && notFoundHandler == None && methodNotAllowedHandler == None
    {
      staticRoutes, dynamicRoutes, catchallRoutes := map[], map[], map[];
      notFoundHandler, methodNotAllowedHandler := None, None;
      log := [];
    }

    static method ParsePattern(pattern: bytes) returns (segs: seq<Segment>)
      ensures segs == Routing.ParsePattern(pattern)
    {
      hide Routing.ParsePattern, Find;
      segs := [];
      var i := 0;
      if i < |pattern| && pattern[i] == '/' { i := i + 1; LeadingSlash(pattern); }
      assert i == 0 ==> pattern[0..] == pattern;
      while i < |pattern|
        invariant 0 <= i <= |pattern|
        invariant segs + Routing.ParsePattern(pattern[i..]) == Routing.ParsePattern(pattern)
      {
        var slash := Find(pattern, "/", i);
        var end := if slash.None? then |pattern| else slash.value;
        var part := pattern[i..end];
        var next := if slash.None? then |pattern| else slash.value + 1;
        ghost var more := Routing.ParsePattern(pattern[next..]);
        PatternAt(pattern, i, end, next);
        i := next;
        if part == [] { continue; }
        var s: Segment;
        if part[0] == ':' {
          s := Segment(Param, part[1..]);
        } else if part[0] == '*' {
          s := Segment(CatchAll, part[1..]);
        } else {
          s := Segment(Literal, part);
        }
        Assoc(segs, [s], more);
        segs := segs + [s];
      }
      assert pattern[i..] == [] && segs + [] == segs;
      NoParts();
    }

    static method SplitPath(path: bytes) returns (out: seq<bytes>)
      ensures out == Routing.SplitPath(path)
    {
      hide Routing.SplitPath, Find;
      out := [];
      var i := 0;
      if i < |path| && path[i] == '/' { i := i + 1; LeadingSlash(path); }
      assert i == 0 ==> path[0..] == path;
      while i < |path|
        invariant 0 <= i <= |path|
        invariant out + Routing.SplitPath(path[i..]) == Routing.SplitPath(path)
      {
        var slash := Find(path, "/", i);
        var end := if slash.None? then |path| else slash.value;
        var part := path[i..end];
        var next := if slash.None? then |path| else slash.value + 1;
        SplitAt(path, i, end, next);
        Assoc(out, [part], Routing.SplitPath(path[next..]));
        i := next;
        if part != [] { out := out + [part]; }
      }
      assert path[i..] == [] && out + [] == out;
      NoParts();
    }

    static lemma NoParts()
      ensures Routing.ParsePattern([]) == [] && Routing.SplitPath([]) == []
    {}

    static lemma SplitAt(path: bytes, i: nat, end: nat, next: nat)
      requires i < |path|
      requires end == match Find(path, "/", i) { case None => |path| case Some(k) => k }
      requires next == if end == |path| then end else end + 1
      ensures i <= end <= |path| && i < next <= |path|
      ensures Routing.SplitPath(path[i..]) ==
              if path[i..end] == [] then Routing.SplitPath(path[next..])
              else [path[i..end]] + Routing.SplitPath(path[next..])
    {
      hide Before, After, Find;
      CutAt(path, "/", i, end, next);
      var more := Routing.SplitPath(path[next..]);
      assert [] + more == more;
    }

    static lemma PatternAt(pattern: bytes, i: nat, end: nat, next: nat)
      requires i < |pattern|
      requires end == match Find(pattern, "/", i) { case None => |pattern| case Some(k) => k }
      requires next == if end == |pattern| then end else end + 1
      ensures i <= end <= |pattern| && i < next <= |pattern|
      ensures Routing.ParsePattern(pattern[i..]) ==
              if pattern[i..end] == [] then Routing.ParsePattern(pattern[next..])
              else [Classify(pattern[i..end])] + Routing.ParsePattern(pattern[next..])
    {
      hide Before, After, Find, Classify;
      CutAt(pattern, "/", i, end, next);
      var more := Routing.ParsePattern(pattern[next..]);
      assert [] + more == more;
    }

    static lemma LeadingSlash(path: bytes)
      requires path != [] && path[0] == '/'
      ensures Routing.ParsePattern(path) == Routing.ParsePattern(path[1..])
      ensures Routing.SplitPath(path) == Routing.SplitPath(path[1..])
    {
      FindByte(path, '/', 0);
      assert Before(path, "/") == [] && After(path, "/") == path[1..];
      hide Before, After, Classify;
      assert [] + Routing.ParsePattern(path[1..]) == Routing.ParsePattern(path[1..]);
      assert [] + Routing.SplitPath(path[1..]) == Routing.SplitPath(path[1..]);
    }

    /** std::sort with the comparator of add(): some sorted arrangement of the same routes. */
    static method SortRoutes(bucket: seq<Route>) returns (r: seq<Route>)
      ensures Sorted(r) && multiset(r) == multiset(bucket)
    {
      r := [];
      var i := 0;
      while i < |bucket|
        invariant 0 <= i <= |bucket|
        invariant Sorted(r) && multiset(r) == multiset(bucket[..i])
      {
        var x, p := bucket[i], 0;
        while p < |r| && !Ahead(x, r[p])
          invariant p <= |r|
          invariant forall q :: 0 <= q < p ==> !Ahead(x, r[q])
        {
          p := p + 1;
        }
        InsertKeepsSorted(r, x, p);
        assert bucket[..i + 1] == bucket[..i] + [x];
        assert r == r[..p] + r[p..];
        r := r[..p] + [x] + r[p..];
        i := i + 1;
      }
      assert bucket[..i] == bucket;
    }

    static lemma InsertKeepsSorted(r: seq<Route>, x: Route, p: nat)
      requires Sorted(r) && p <= |r| && (p < |r| ==> Ahead(x, r[p]))
      requires forall q :: 0 <= q < p ==> !Ahead(x, r[q])
      ensures Sorted(r[..p] + [x] + r[p..])
    {
      var s := r[..p] + [x] + r[p..];
      forall i, j | 0 <= i < j < |s|
        ensures !Ahead(s[j], s[i])
      {
        assert i > p ==> s[i] == r[i - 1];
        assert j > p ==> s[j] == r[j - 1];
        if i == p && p < |r| { assert j > p && (j - 1 == p || !Ahead(r[j - 1], r[p])); }
      }
    }

    method Add(verb: Verb, pattern: bytes, fn: HandlerId)
      requires Valid()
      modifies this
      ensures Valid() && log == old(log) + [Registration(verb, pattern, fn)]
      ensures Misplaced(Routing.ParsePattern(pattern)) ==>
                staticRoutes == old(staticRoutes) && dynamicRoutes == old(dynamicRoutes) && catchallRoutes == old(catchallRoutes)
      ensures notFoundHandler == old(notFoundHandler) && methodNotAllowedHandler == old(methodNotAllowedHandler)
    {
      hide Routing.ParsePattern, Canonical, StaticHolds, ParamHolds, CatchallHolds;
      var segs := ParsePattern(pattern);
      var reg := Registration(verb, pattern, fn);
      var hasCapture, hasCatchall := false, false;
      var k := 0;
      while k < |segs|
        invariant 0 <= k <= |segs|
        invariant hasCapture <==> exists j :: 0 <= j < k && segs[j].kind != Literal
        invariant hasCatchall <==> exists j :: 0 <= j < k && segs[j].kind == CatchAll
        invariant forall j :: 0 <= j < k && segs[j].kind == CatchAll ==> j + 1 == |segs|
      {
        if segs[k].kind == Param { hasCapture := true; }
        if segs[k].kind == CatchAll {
          hasCatchall := true;
          if k + 1 != |segs| {
            assert Misplaced(segs);
            AddIgnored(reg);
            return;
          }
          hasCapture := true;
        }
        k := k + 1;
      }
      ScanDecides(segs, hasCapture, hasCatchall);
      if !hasCapture {
        var canon := BuildCanonical(segs);
        AddStatic(verb, canon, reg);
      } else if hasCatchall {
        AddCatchall(verb, Route(segs, fn), reg);
      } else {
        AddParam(verb, Route(segs, fn), reg);
      }
    }

    /** What the scan of the segments has established when it ends. */
    static lemma ScanDecides(segs: seq<Segment>, hasCapture: bool, hasCatchall: bool)
      requires hasCapture <==> exists j :: 0 <= j < |segs| && segs[j].kind != Literal
      requires hasCatchall <==> exists j :: 0 <= j < |segs| && segs[j].kind == CatchAll
      requires forall j :: 0 <= j < |segs| && segs[j].kind == CatchAll ==> j + 1 == |segs|
      ensures !Misplaced(segs)
      ensures !hasCapture ==> AllLiteral(segs)
      ensures hasCapture && hasCatchall ==> IsCatchallRoute(segs)
      ensures hasCapture && !hasCatchall ==> IsParamRoute(segs)
    {}

    /** A pattern with a misplaced catch-all is recorded nowhere. */
    ghost method AddIgnored(reg: Registration)
      requires Valid() && Misplaced(Routing.ParsePattern(reg.pattern))
      modifies this`log
      ensures Valid() && log == old(log) + [reg]
    {
      hide StaticHolds, ParamHolds, CatchallHolds, AllLiteral, IsParamRoute, IsCatchallRoute;
      KindsExclude(Routing.ParsePattern(reg.pattern));
      StaticStays(log, reg);
      ParamStays(log, reg);
      CatchallStays(log, reg);
      log := log + [reg];
    }

    lemma StaticStays(before: seq<Registration>, reg: Registration)
      requires StaticHolds(before) && !AllLiteral(Routing.ParsePattern(reg.pattern))
      ensures StaticHolds(before + [reg])
    {
      hide AllLiteral, Canonical;
      forall v, p
        ensures StaticRoute(v, p) == StaticFor(before + [reg], v, p)
      {
        LogGrows(before, reg, v, p);
      }
    }

    lemma ParamStays(before: seq<Registration>, reg: Registration)
      requires ParamHolds(before) && !IsParamRoute(Routing.ParsePattern(reg.pattern))
      ensures ParamHolds(before + [reg])
    {
      hide IsParamRoute, ParamRoutes, OfLength;
      forall v, n: nat
        ensures Bucket(v, n) == OfLength(ParamRoutes(before + [reg], v), n)
      {
        LogGrows(before, reg, v, []);
        assert ParamRoutes(before, v) + [] == ParamRoutes(before, v);
      }
    }

    lemma CatchallStays(before: seq<Registration>, reg: Registration)
      requires CatchallHolds(before) && !IsCatchallRoute(Routing.ParsePattern(reg.pattern))
      ensures CatchallHolds(before + [reg])
    {
      hide IsCatchallRoute, CatchallRoutes, Sorted;
      forall v
        ensures multiset(Catchalls(v)) == multiset(CatchallRoutes(before + [reg], v)) && Sorted(Catchalls(v))
      {
        LogGrows(before, reg, v, []);
        assert CatchallRoutes(before, v) + [] == CatchallRoutes(before, v);
      }
    }

    static method BuildCanonical(segs: seq<Segment>) returns (canon: bytes)
      ensures canon == Canonical(segs)
    {
      canon := [];
      var k := 0;
      while k < |segs|
        invariant 0 <= k <= |segs|
        invariant canon == Slashed(segs[..k])
        invariant k > 0 ==> canon != []
      {
        assert segs[..k + 1][..k] == segs[..k];
        canon := canon + "/" + segs[k].text;
        k := k + 1;
      }
      assert segs[..k] == segs;
      if canon == [] { canon := "/"; }
    }

    static lemma KindsExclude(segs: seq<Segment>)
      ensures AllLiteral(segs) ==> !IsParamRoute(segs) && !IsCatchallRoute(segs)
      ensures !(IsParamRoute(segs) && IsCatchallRoute(segs))
      ensures Misplaced(segs) ==> !AllLiteral(segs) && !IsParamRoute(segs) && !IsCatchallRoute(segs)
    {}

    method AddStatic(verb: Verb, canon: bytes, reg: Registration)
      requires Valid() && verb == reg.verb
      requires AllLiteral(Routing.ParsePattern(reg.pattern)) && canon == Canonical(Routing.ParsePattern(reg.pattern))
      modifies this`staticRoutes, this`log
      ensures Valid() && log == old(log) + [reg]
    {
      hide AllLiteral, IsParamRoute, IsCatchallRoute, Canonical, Routing.ParsePattern, StaticFor;
      hide ParamHolds, CatchallHolds;
      KindsExclude(Routing.ParsePattern(reg.pattern));
      ParamStays(log, reg);
      CatchallStays(log, reg);
      var routes: map<bytes, HandlerId> := if verb in staticRoutes then staticRoutes[verb] else map[];
      staticRoutes := staticRoutes[verb := routes[canon := reg.fn]];
      forall v, p
        ensures StaticRoute(v, p) == StaticFor(log + [reg], v, p)
      {
        LogGrows(log, reg, v, p);
        assert old(StaticRoute(v, p)) == StaticFor(log, v, p);
      }
      log := log + [reg];
    }

    method AddParam(verb: Verb, r: Route, reg: Registration)
      requires Valid() && verb == reg.verb
      requires r == Route(Routing.ParsePattern(reg.pattern), reg.fn) && IsParamRoute(r.segments)
      modifies this`dynamicRoutes, this`log
      ensures Valid() && log == old(log) + [reg]
    {
      hide AllLiteral, IsParamRoute, IsCatchallRoute, Canonical, Routing.ParsePattern, ParamRoutes, OfLength;
      hide StaticHolds, CatchallHolds;
      KindsExclude(r.segments);
      StaticStays(log, reg);
      CatchallStays(log, reg);
      var n := |r.segments|;
      var byCount: map<nat, seq<Route>> := if verb in dynamicRoutes then dynamicRoutes[verb] else map[];
      dynamicRoutes := dynamicRoutes[verb := byCount[n := Bucket(verb, n) + [r]]];
      forall v, m: nat
        ensures Bucket(v, m) == OfLength(ParamRoutes(log + [reg], v), m)
      {
        LogGrows(log, reg, v, []);
        OfLengthSnoc(ParamRoutes(log, v), r, m);
        assert old(Bucket(v, m)) == OfLength(ParamRoutes(log, v), m);
        assert ParamRoutes(log, v) + [] == ParamRoutes(log, v);
        assert old(Bucket(v, m)) + [] == old(Bucket(v, m));
      }
      log := log + [reg];
    }

    method AddCatchall(verb: Verb, r: Route, reg: Registration)
      requires Valid() && verb == reg.verb
      requires r == Route(Routing.ParsePattern(reg.pattern), reg.fn) && IsCatchallRoute(r.segments)
      modifies this`catchallRoutes, this`log
      ensures Valid() && log == old(log) + [reg]
    {
      hide AllLiteral, IsParamRoute, IsCatchallRoute, Canonical, Routing.ParsePattern, CatchallRoutes, Sorted;
      hide StaticHolds, ParamHolds, OfLength, ParamRoutes, StaticFor;
      KindsExclude(r.segments);
      StaticStays(log, reg);
      ParamStays(log, reg);
      var bucket := SortRoutes(Catchalls(verb) + [r]);
      catchallRoutes := catchallRoutes[verb := bucket];
      forall v
        ensures multiset(Catchalls(v)) == multiset(CatchallRoutes(log + [reg], v)) && Sorted(Catchalls(v))
      {
        LogGrows(log, reg, v, []);
        assert CatchallRoutes(log, v) + [] == CatchallRoutes(log, v);
        assert multiset(old(Catchalls(v))) == multiset(CatchallRoutes(log, v)) && Sorted(old(Catchalls(v)));
      }
      log := log + [reg];
    }

    // ── matching ─────────────────────────────────────────────────────

    /** match_dynamic: on success binds the captures, otherwise leaves the parameters alone. */
    static method MatchDynamic(r: Route, parts: seq<bytes>, params: map<bytes, bytes>)
      returns (ok: bool, bound: map<bytes, bytes>)
      requires !Misplaced(r.segments)
      ensures ok <==> Matches(r.segments, parts)
      ensures bound == if ok then BindAll(params, r.segments, parts) else params
    {
      var pat := r.segments;
      bound := params;
      var hasCatchall := |pat| > 0 && pat[|pat| - 1].kind == CatchAll;
      var n := if hasCatchall then |pat| - 1 else |pat|;
      if hasCatchall {
        if |parts| < |pat| - 1 { return false, params; }
      } else {
        if |parts| != |pat| { return false, params; }
      }
      var k := 0;
      while k < n
        invariant 0 <= k <= n
        invariant LiteralsAgree(pat, parts, k)
      {
        if pat[k].kind == Literal && parts[k] != pat[k].text { return false, params; }
        k := k + 1;
      }
      k := 0;
      while k < |pat|
        invariant 0 <= k <= |pat|
        invariant bound == Bind(params, pat, parts, k)
      {
        if pat[k].kind == Param {
          bound := bound[pat[k].text := parts[k]];
        } else if pat[k].kind == CatchAll {
          var joined := JoinFrom(parts, k);
          bound := bound[pat[k].text := joined];
        }
        k := k + 1;
      }
      return true, bound;
    }

    static method JoinFrom(parts: seq<bytes>, k: nat) returns (joined: bytes)
      requires k <= |parts|
      ensures joined == JoinSlash(parts[k..])
    {
      joined := [];
      var j := k;
      while j < |parts|
        invariant k <= j <= |parts|
        invariant joined == JoinSlash(parts[k..j])
      {
        JoinSnoc(parts[k..j], parts[j]);
        assert parts[k..j + 1] == parts[k..j] + [parts[j]];
        if j != k { joined := joined + "/"; }
        joined := joined + parts[j];
        j := j + 1;
      }
      assert parts[k..j] == parts[k..];
    }

    static lemma {:induction false} JoinSnoc(parts: seq<bytes>, last: bytes)
      ensures JoinSlash(parts + [last]) == if parts == [] then last else JoinSlash(parts) + "/" + last
    {
      if |parts| > 1 {
        assert (parts + [last])[1..] == parts[1..] + [last];
        JoinSnoc(parts[1..], last);
        Assoc(parts[0] + "/", JoinSlash(parts[1..]) + "/", last);
        Assoc(parts[0] + "/", JoinSlash(parts[1..]), "/");
      } else if |parts| == 1 {
        assert (parts + [last])[1..] == [last];
      }
    }

    /** The probing loops: whether any of these routes matches. */
    static method Probe(routes: seq<Route>, parts: seq<bytes>) returns (found: bool)
      requires forall r :: r in routes ==> !Misplaced(r.segments)
      ensures found <==> AnyMatch(routes, parts)
    {
      var i := 0;
      while i < |routes|
        invariant 0 <= i <= |routes|
        invariant forall j :: 0 <= j < i ==> !Matches(routes[j].segments, parts)
      {
        var ok, discard := MatchDynamic(routes[i], parts, map[]);
        if ok { return true; }
        i := i + 1;
      }
      return false;
    }

    // ── what the indexes answer ──────────────────────────────────────

    lemma IndexesAnswer(verb: Verb, parts: seq<bytes>)
      requires Valid()
      ensures forall r :: r in Bucket(verb, |parts|) ==> !Misplaced(r.segments)
      ensures forall r :: r in Catchalls(verb) ==> !Misplaced(r.segments)
      ensures FirstMatch(Bucket(verb, |parts|), parts) == FirstMatch(ParamRoutes(log, verb), parts)
      ensures AnyMatch(Bucket(verb, |parts|), parts) <==> AnyMatch(ParamRoutes(log, verb), parts)
      ensures AnyMatch(Catchalls(verb), parts) <==> AnyMatch(CatchallRoutes(log, verb), parts)
    {
      hide Matches, StaticFor;
      RoutesAreClassified(log, verb);
      OfLengthHolds(ParamRoutes(log, verb), |parts|);
      BucketSuffices(ParamRoutes(log, verb), parts);
      SameElementsMatch(Catchalls(verb), CatchallRoutes(log, verb), parts);
      forall r | r in Catchalls(verb)
        ensures !Misplaced(r.segments)
      {
        assert r in multiset(CatchallRoutes(log, verb));
      }
    }

    method PathMatchesAnyMethod(path: bytes) returns (found: bool)
      requires Valid()
      ensures found <==> exists v :: Routed(log, v, path)
    {
      hide Matches, AnyMatch, StaticFor, ParamRoutes, CatchallRoutes, Misplaced;
      ghost var parts := Routing.SplitPath(path);
      var verbs := staticRoutes.Keys;
      while verbs != {}
        invariant forall v :: v in staticRoutes && v !in verbs ==> StaticRoute(v, path).None?
      {
        var v :| v in verbs;
        if path in staticRoutes[v] {
          assert StaticRoute(v, path).Some? && Routed(log, v, path);
          return true;
        }
        verbs := verbs - {v};
      }
      assert forall v :: StaticFor(log, v, path) == None by {
        forall v
          ensures StaticFor(log, v, path) == None
        {
          assert StaticRoute(v, path) == StaticFor(log, v, path);
        }
      }
      var segs := SplitPath(path);
      verbs := dynamicRoutes.Keys;
      while verbs != {}
        invariant forall v :: v in dynamicRoutes && v !in verbs ==> !AnyMatch(Bucket(v, |segs|), segs)
      {
        var v :| v in verbs;
        IndexesAnswer(v, segs);
        if |segs| in dynamicRoutes[v] {
          var hit := Probe(dynamicRoutes[v][|segs|], segs);
          if hit {
            assert Routed(log, v, path);
            return true;
          }
        } else {
          NoRoutesMatch(segs);
        }
        verbs := verbs - {v};
      }
      verbs := catchallRoutes.Keys;
      while verbs != {}
        invariant forall v :: v in catchallRoutes && v !in verbs ==> !AnyMatch(Catchalls(v), segs)
      {
        var v :| v in verbs;
        IndexesAnswer(v, segs);
        var hit := Probe(catchallRoutes[v], segs);
        if hit {
          assert Routed(log, v, path);
          return true;
        }
        verbs := verbs - {v};
      }
      forall v
        ensures !Routed(log, v, path)
      {
        NoRoutesMatch(segs);
        IndexesAnswer(v, segs);
      }
      return false;
    }

    static lemma NoRoutesMatch(parts: seq<bytes>)
      ensures !AnyMatch([], parts)
    {}

    /** Whether some route of the method matches, as allowed_methods_for tests it. */
    method MethodMatches(verb: Verb, path: bytes, segs: seq<bytes>) returns (matches: bool)
      requires Valid() && segs == Routing.SplitPath(path)
      ensures matches <==> Routed(log, verb, path)
    {
      hide Matches, AnyMatch, StaticFor, ParamRoutes, CatchallRoutes, Misplaced;
      IndexesAnswer(verb, segs);
      NoRoutesMatch(segs);
      assert StaticRoute(verb, path) == StaticFor(log, verb, path);
      matches := verb in staticRoutes && path in staticRoutes[verb];
      if !matches { matches := Probe(Bucket(verb, |segs|), segs); }
      if !matches { matches := Probe(Catchalls(verb), segs); }
    }

    method AllowedMethodsFor(path: bytes) returns (out: bytes)
      requires Valid()
      ensures out == CommaList(Allowed(log, path, |VERBS|))
    {
      hide Routed, CommaList, Allowed, VerbName;
      var segs := SplitPath(path);
      AllowedNone(log, path);
      out := [];
      var mi := 0;
      while mi < |VERBS|
        invariant 0 <= mi <= |VERBS|
        invariant out == CommaList(Allowed(log, path, mi))
      {
        var m := VERBS[mi];
        var matches := MethodMatches(m, path, segs);
        AllowedStep(log, path, mi);
        if matches {
          if out != [] { out := out + ", "; }
          out := out + VerbName(m);
        }
        mi := mi + 1;
      }
    }

    method SetNotFoundHandler(fn: HandlerId)
      modifies this`notFoundHandler
      ensures notFoundHandler == Some(fn)
    {
      notFoundHandler := Some(fn);
    }

    method SetMethodNotAllowedHandler(fn: HandlerId)
      modifies this`methodNotAllowedHandler
      ensures methodNotAllowedHandler == Some(fn)
    {
      methodNotAllowedHandler := Some(fn);
    }

    /** The candidate loops of handle(): the first route that matches, with its captures bound. */
    static method FirstMatching(routes: seq<Route>, parts: seq<bytes>, params: map<bytes, bytes>)
      returns (i: nat, bound: map<bytes, bytes>)
      requires forall r :: r in routes ==> !Misplaced(r.segments)
      ensures i <= |routes| && forall j :: 0 <= j < i ==> !Matches(routes[j].segments, parts)
      ensures i < |routes| ==> !Misplaced(routes[i].segments) && Matches(routes[i].segments, parts)
                               && bound == BindAll(params, routes[i].segments, parts)
      ensures i == |routes| ==> bound == params
    {
      hide Matches, Misplaced, BindAll;
      i := 0;
      bound := params;
      while i < |routes|
        invariant 0 <= i <= |routes| && bound == params
        invariant forall j :: 0 <= j < i ==> !Matches(routes[j].segments, parts)
      {
        var ok: bool;
        ok, bound := MatchDynamic(routes[i], parts, bound);
        if ok { return i, bound; }
        i := i + 1;
      }
    }

    static lemma NoneMatches(routes: seq<Route>, parts: seq<bytes>)
      requires forall j :: 0 <= j < |routes| ==> !Matches(routes[j].segments, parts)
      ensures !AnyMatch(routes, parts) && FirstMatch(routes, parts) == None
    {
      hide Matches;
    }

    /** handle(): which handler runs and with which parameters, or the 405 or 404. */
    method Handle(verb: Verb, path: bytes, params: map<bytes, bytes>) returns (o: Outcome)
      requires Valid()
      ensures Correct(log, verb, path, params, methodNotAllowedHandler, notFoundHandler, o)
    {
      hide Matches, AnyMatch, ParamRoutes, CatchallRoutes, Misplaced, FirstMatch, BindAll, Best, Routed, Allowed, CommaList, StaticFor;
      assert StaticRoute(verb, path) == StaticFor(log, verb, path);
      if verb in staticRoutes && path in staticRoutes[verb] {
        return Handled(staticRoutes[verb][path], params);
      }
      o := HandleDynamic(verb, path, params);
    }

    /** The second step of handle(): the bucket of routes as long as the path. */
    method HandleDynamic(verb: Verb, path: bytes, params: map<bytes, bytes>) returns (o: Outcome)
      requires Valid() && StaticFor(log, verb, path) == None
      ensures Correct(log, verb, path, params, methodNotAllowedHandler, notFoundHandler, o)
    {
      hide Matches, AnyMatch, ParamRoutes, CatchallRoutes, Misplaced, FirstMatch, BindAll, Best, Routed, Allowed, CommaList, StaticFor, StaticHolds, ParamHolds, CatchallHolds;
      var segs := SplitPath(path);
      IndexesAnswer(verb, segs);
      var bucket := Bucket(verb, |segs|);
      var i, bound := FirstMatching(bucket, segs, params);
      if i < |bucket| {
        FirstMatchIs(bucket, segs, i);
        return Handled(bucket[i].fn, bound);
      }
      NoneMatches(bucket, segs);
      o := HandleCatchall(verb, path, segs, params);
    }

    /** The third step: the sorted catch-all routes; then the refusals. */
    method HandleCatchall(verb: Verb, path: bytes, segs: seq<bytes>, params: map<bytes, bytes>) returns (o: Outcome)
      requires Valid() && StaticFor(log, verb, path) == None && segs == Routing.SplitPath(path)
      requires FirstMatch(ParamRoutes(log, verb), segs) == None
      ensures Correct(log, verb, path, params, methodNotAllowedHandler, notFoundHandler, o)
    {
      hide Matches, AnyMatch, ParamRoutes, CatchallRoutes, Misplaced, FirstMatch, BindAll, Best, Routed, Allowed, CommaList, StaticFor, StaticHolds, ParamHolds;
      IndexesAnswer(verb, segs);
      var routes := Catchalls(verb);
      var i, bound := FirstMatching(routes, segs, params);
      if i < |routes| {
        FirstIsBest(routes, CatchallRoutes(log, verb), segs, i);
        SomeMatches(routes, segs, i);
        return Handled(routes[i].fn, bound);
      }
      NoneMatches(routes, segs);
      o := Refuse(path);
    }

    static lemma SomeMatches(routes: seq<Route>, parts: seq<bytes>, i: nat)
      requires i < |routes| && Matches(routes[i].segments, parts)
      ensures AnyMatch(routes, parts)
    {}

    /** The 405 and 404 answers. */
    method Refuse(path: bytes) returns (o: Outcome)
      requires Valid()
      ensures (exists v :: Routed(log, v, path)) ==>
                o == NotAllowed(methodNotAllowedHandler,
                                if methodNotAllowedHandler.Some? then [] else CommaList(Allowed(log, path, |VERBS|)))
      ensures !(exists v :: Routed(log, v, path)) ==> o == NotFound(notFoundHandler)
    {
      hide Routed, CommaList, Allowed;
      var other := PathMatchesAnyMethod(path);
      if other {
        if methodNotAllowedHandler.Some? { return NotAllowed(methodNotAllowedHandler, []); }
        var allow := AllowedMethodsFor(path);
        return NotAllowed(None, allow);
      }
      return NotFound(notFoundHandler);
    }
  }
}
