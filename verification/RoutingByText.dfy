/**
 What the router does, said of the texts it was given: patterns and paths cut at
 their slashes, parts told apart by their first character. Every definition
 that Routing builds its search from is tied here to these texts.
 */
module RoutingByText {
  import opened Text
  import opened Request
  import opened Routing

  // ── cutting and joining ────────────────────────────────────────────

  /** A path made of parts; without any, just the slash. */
  function PathText(parts: seq<bytes>): bytes { "/" + JoinSlash(parts) }

  lemma {:induction false} JoinSlashSnoc(parts: seq<bytes>, last: bytes)
    ensures JoinSlash(parts + [last]) == if parts == [] then last else JoinSlash(parts) + "/" + last
  {
    if |parts| > 1 {
      assert (parts + [last])[1..] == parts[1..] + [last];
      JoinSlashSnoc(parts[1..], last);
      Assoc(parts[0] + "/", JoinSlash(parts[1..]) + "/", last);
      Assoc(parts[0] + "/", JoinSlash(parts[1..]), "/");
    } else if |parts| == 1 {
      assert (parts + [last])[1..] == [last];
    }
  }

  lemma LeadingSlash(s: bytes)
    ensures SplitPath("/" + s) == SplitPath(s)
  {
    var t := "/" + s;
    assert t[..0] == [] && t[1..] == s;
    FindByte(t, '/', 0);
    assert Before(t, "/") == [] && After(t, "/") == s;
    hide Before, After, Find;
    assert [] + SplitPath(s) == SplitPath(s);
  }

  /** Splitting a path gives the parts it was made of, in order. */
  lemma PathTextSplits(parts: seq<bytes>)
    requires AllSlashFree(parts)
    ensures SplitPath(PathText(parts)) == parts
  {
    LeadingSlash(JoinSlash(parts));
    SplitInvertsJoin(parts);
  }

  /** All the bytes but the slashes. */
  function WithoutSlashes(s: bytes): bytes {
    if s == [] then [] else (if s[0] == '/' then [] else [s[0]]) + WithoutSlashes(s[1..])
  }

  function Flatten(parts: seq<bytes>): bytes { if parts == [] then [] else parts[0] + Flatten(parts[1..]) }

  lemma {:induction false} WithoutSlashesAppend(a: bytes, b: bytes)
    ensures WithoutSlashes(a + b) == WithoutSlashes(a) + WithoutSlashes(b)
  {
    if a == [] {
      assert a + b == b;
    } else {
      assert (a + b)[1..] == a[1..] + b;
      WithoutSlashesAppend(a[1..], b);
      Assoc(if a[0] == '/' then [] else [a[0]], WithoutSlashes(a[1..]), WithoutSlashes(b));
    }
  }

  lemma {:induction false} NothingToDrop(s: bytes)
    requires '/' !in s
    ensures WithoutSlashes(s) == s
  {
    if s != [] { NothingToDrop(s[1..]); }
  }

  /** No byte of a path but its slashes is lost or moved by splitting. */
  lemma {:induction false} SplitKeepsBytes(path: bytes)
    ensures Flatten(SplitPath(path)) == WithoutSlashes(path)
    decreases |path|
  {
    if path != [] {
      hide Before, After;
      var part, rest := Before(path, "/"), After(path, "/");
      CutAtByte(path, '/');
      SplitKeepsBytes(rest);
      NothingToDrop(part);
      assert ['/'] == "/";
      if '/' in path {
        assert path == part + "/" + rest;
        WithoutSlashesAppend(part + "/", rest);
        WithoutSlashesAppend(part, "/");
        assert WithoutSlashes("/") == [] && part + [] == part;
      } else {
        assert WithoutSlashes(rest) == [] && part + [] == part;
      }
      if part == [] {
        assert [] + SplitPath(rest) == SplitPath(rest);
      } else {
        assert ([part] + SplitPath(rest))[1..] == SplitPath(rest);
      }
    }
  }

  lemma SplitExamples()
    ensures JoinSlash(["a", "bc", "d"]) == "a/bc/d" && SplitPath("/a/bc/d") == ["a", "bc", "d"] && SplitPath("/") == []
  {
    var parts := ["a", "bc", "d"];
    assert parts[1..] == ["bc", "d"] && ["bc", "d"][1..] == ["d"];
    assert JoinSlash(["d"]) == "d" && JoinSlash(["bc", "d"]) == "bc/d";
    assert "/a/bc/d" == PathText(parts) && "/" == PathText([]);
    PathTextSplits(parts);
    PathTextSplits([]);
  }

  // ── the parts of a pattern ─────────────────────────────────────────

  predicate NamesOne(part: bytes) { part != [] && part[0] == ':' }   // ":id" takes one segment
  predicate NamesRest(part: bytes) { part != [] && part[0] == '*' }  // "*rest" takes all that is left
  predicate IsPlain(part: bytes) { !NamesOne(part) && !NamesRest(part) }

  predicate AllPlain(ps: seq<bytes>) { forall i :: 0 <= i < |ps| ==> IsPlain(ps[i]) }

  /** What each part of a pattern is, and its name or text. */
  lemma {:induction false} Classified(ps: seq<bytes>, i: nat)
    requires AllSlashFree(ps)
    ensures |ClassifyAll(ps)| == |ps|
    ensures i < |ps| ==>
              ClassifyAll(ps)[i] == (if ps[i][0] == ':' then Segment(Param, ps[i][1..])
                                     else if ps[i][0] == '*' then Segment(CatchAll, ps[i][1..])
                                     else Segment(Literal, ps[i]))
    decreases |ps|
  {
    if ps != [] { Classified(ps[1..], if i == 0 then 0 else i - 1); }
  }

  lemma AllClassified(ps: seq<bytes>)
    requires AllSlashFree(ps)
    ensures |ClassifyAll(ps)| == |ps|
    ensures forall i :: 0 <= i < |ps| ==>
              && (ClassifyAll(ps)[i].kind == Param <==> NamesOne(ps[i]))
              && (ClassifyAll(ps)[i].kind == CatchAll <==> NamesRest(ps[i]))
              && (ClassifyAll(ps)[i].kind == Literal ==> ClassifyAll(ps)[i].text == ps[i])
              && (ClassifyAll(ps)[i].kind != Literal ==> ClassifyAll(ps)[i].text == ps[i][1..])
  {
    Classified(ps, 0);
    forall i | 0 <= i < |ps|
      ensures && (ClassifyAll(ps)[i].kind == Param <==> NamesOne(ps[i]))
              && (ClassifyAll(ps)[i].kind == CatchAll <==> NamesRest(ps[i]))
              && (ClassifyAll(ps)[i].kind == Literal ==> ClassifyAll(ps)[i].text == ps[i])
              && (ClassifyAll(ps)[i].kind != Literal ==> ClassifyAll(ps)[i].text == ps[i][1..])
    {
      Classified(ps, i);
    }
  }

  /** A part that names the rest is misplaced unless it is the last. */
  predicate RestIsMisplaced(ps: seq<bytes>) { exists k :: 0 <= k < |ps| - 1 && NamesRest(ps[k]) }

  predicate EndsWithRest(ps: seq<bytes>) { ps != [] && NamesRest(ps[|ps| - 1]) }

  lemma KindsByText(ps: seq<bytes>)
    requires AllSlashFree(ps)
    ensures AllLiteral(ClassifyAll(ps)) <==> AllPlain(ps)
    ensures Misplaced(ClassifyAll(ps)) <==> RestIsMisplaced(ps)
    ensures HasCatchAll(ClassifyAll(ps)) <==> EndsWithRest(ps)
  {
    hide ClassifyAll;
    AllClassified(ps);
  }

  /** The key of an all-literal pattern: a slash in front of each part; just the slash for none. */
  lemma KeyByText(ps: seq<bytes>)
    requires AllSlashFree(ps) && AllPlain(ps)
    ensures Canonical(ClassifyAll(ps)) == PathText(ps)
  {
    hide Classify, Slashed, IsPlain;
    SlashedByText(ps);
    if ps == [] { assert "/" + [] == "/"; } else { AllClassified(ps); }
  }

  lemma {:induction false} SlashedByText(ps: seq<bytes>)
    requires AllSlashFree(ps) && AllPlain(ps)
    ensures Slashed(ClassifyAll(ps)) == if ps == [] then [] else PathText(ps)
    decreases |ps|
  {
    if ps != [] {
      hide ClassifyAll, Slashed, PathText, IsPlain;
      var init, last := ps[..|ps| - 1], ps[|ps| - 1];
      assert ps == init + [last];
      SlashedByText(init);
      SlashedSnoc(init, last);
      PathTextSnoc(init, last);
    }
  }

  lemma SlashedSnoc(init: seq<bytes>, last: bytes)
    requires AllSlashFree(init) && SlashFree(last) && IsPlain(last)
    ensures AllSlashFree(init + [last])
    ensures Slashed(ClassifyAll(init + [last])) == Slashed(ClassifyAll(init)) + ("/" + last)
  {
    hide ClassifyAll;
    ClassifiedSnoc(init, last);
    var segs := ClassifyAll(init);
    assert (segs + [Classify(last)])[..|segs|] == segs;
    Assoc(Slashed(segs), "/", last);
  }

  lemma PathTextSnoc(init: seq<bytes>, last: bytes)
    ensures PathText(init + [last]) == (if init == [] then [] else PathText(init)) + ("/" + last)
  {
    hide JoinSlash;
    JoinSlashSnoc(init, last);
    if init == [] {
      assert [] + ("/" + last) == "/" + last;
    } else {
      Assoc(JoinSlash(init), "/", last);
      Assoc("/", JoinSlash(init), "/" + last);
    }
  }

  lemma {:induction false} ClassifiedSnoc(init: seq<bytes>, last: bytes)
    requires AllSlashFree(init) && SlashFree(last)
    ensures AllSlashFree(init + [last])
    ensures ClassifyAll(init + [last]) == ClassifyAll(init) + [Classify(last)]
    decreases |init|
  {
    if init != [] {
      assert (init + [last])[1..] == init[1..] + [last];
      ClassifiedSnoc(init[1..], last);
    }
  }

  // ── matching ───────────────────────────────────────────────────────

  predicate PartFits(p: bytes, q: bytes) { !IsPlain(p) || p == q }

  /** The path parts fit the pattern parts one by one; a last part that names the rest takes any number, none included. */
  predicate Fits(ps: seq<bytes>, qs: seq<bytes>) {
    if EndsWithRest(ps) then |ps| - 1 <= |qs| && forall k :: 0 <= k < |ps| - 1 ==> PartFits(ps[k], qs[k])
    else |ps| == |qs| && forall k :: 0 <= k < |ps| ==> PartFits(ps[k], qs[k])
  }

  lemma MatchesByText(ps: seq<bytes>, qs: seq<bytes>)
    requires AllSlashFree(ps)
    ensures Matches(ClassifyAll(ps), qs) <==> Fits(ps, qs)
  {
    hide ClassifyAll;
    AllClassified(ps);
    KindsByText(ps);
  }

  /** What a part of a pattern takes from the path: its segment, or all that is left, joined by slashes. */
  function Taken(ps: seq<bytes>, qs: seq<bytes>, k: nat): bytes
    requires Fits(ps, qs) && k < |ps|
  {
    if NamesRest(ps[k]) && k == |ps| - 1 then JoinSlash(qs[k..]) else qs[k]
  }

  /** Each named part is bound, under its name, to what it takes; nothing else changes. */
  lemma BindsByText(params: map<bytes, bytes>, ps: seq<bytes>, qs: seq<bytes>)
    requires AllSlashFree(ps) && !RestIsMisplaced(ps) && Fits(ps, qs)
    requires forall i, j :: 0 <= i < j < |ps| && !IsPlain(ps[i]) && !IsPlain(ps[j]) ==> ps[i][1..] != ps[j][1..]
    ensures !Misplaced(ClassifyAll(ps)) && Matches(ClassifyAll(ps), qs)
    ensures var all := BindAll(params, ClassifyAll(ps), qs);
            && (forall k :: 0 <= k < |ps| && !IsPlain(ps[k]) ==> ps[k][1..] in all && all[ps[k][1..]] == Taken(ps, qs, k))
            && (forall n :: (forall k :: 0 <= k < |ps| && !IsPlain(ps[k]) ==> ps[k][1..] != n) ==>
                  (n in all <==> n in params) && (n in all ==> all[n] == params[n]))
  {
    hide ClassifyAll, Matches, Fits, JoinSlash, BindAll, Taken, IsPlain;
    MatchesByText(ps, qs);
    KindsByText(ps);
    forall k | 0 <= k < |ps| && !IsPlain(ps[k])
      ensures ps[k][1..] in BindAll(params, ClassifyAll(ps), qs)
      ensures BindAll(params, ClassifyAll(ps), qs)[ps[k][1..]] == Taken(ps, qs, k)
    {
      BindsOne(params, ps, qs, k);
    }
    forall n | forall k :: 0 <= k < |ps| && !IsPlain(ps[k]) ==> ps[k][1..] != n
      ensures var all := BindAll(params, ClassifyAll(ps), qs);
              (n in all <==> n in params) && (n in all ==> all[n] == params[n])
    {
      BindsNoOther(params, ps, qs, n);
    }
  }

  lemma BindsOne(params: map<bytes, bytes>, ps: seq<bytes>, qs: seq<bytes>, k: nat)
    requires AllSlashFree(ps) && Fits(ps, qs) && !Misplaced(ClassifyAll(ps)) && Matches(ClassifyAll(ps), qs)
    requires forall i, j :: 0 <= i < j < |ps| && !IsPlain(ps[i]) && !IsPlain(ps[j]) ==> ps[i][1..] != ps[j][1..]
    requires k < |ps| && !IsPlain(ps[k])
    ensures ps[k][1..] in BindAll(params, ClassifyAll(ps), qs)
    ensures BindAll(params, ClassifyAll(ps), qs)[ps[k][1..]] == Taken(ps, qs, k)
  {
    hide ClassifyAll, JoinSlash, Bind;
    AllClassified(ps);
    BindHolds(params, ClassifyAll(ps), qs, |ps|, k);
  }

  lemma BindsNoOther(params: map<bytes, bytes>, ps: seq<bytes>, qs: seq<bytes>, n: bytes)
    requires AllSlashFree(ps) && !Misplaced(ClassifyAll(ps)) && Matches(ClassifyAll(ps), qs)
    requires forall k :: 0 <= k < |ps| && !IsPlain(ps[k]) ==> ps[k][1..] != n
    ensures var all := BindAll(params, ClassifyAll(ps), qs);
            (n in all <==> n in params) && (n in all ==> all[n] == params[n])
  {
    hide ClassifyAll, Matches, Bind, Misplaced;
    AllClassified(ps);
    BindKeeps(params, ClassifyAll(ps), qs, |ps|, n);
  }

  lemma {:induction false} BindKeeps(params: map<bytes, bytes>, pat: seq<Segment>, path: seq<bytes>, n: nat, name: bytes)
    requires !Misplaced(pat) && Matches(pat, path) && n <= |pat|
    requires forall k :: 0 <= k < |pat| && pat[k].kind != Literal ==> pat[k].text != name
    ensures var all := Bind(params, pat, path, n);
            (name in all <==> name in params) && (name in all ==> all[name] == params[name])
  {
    if n > 0 { BindKeeps(params, pat, path, n - 1, name); }
  }

  // ── the order of routes that take the rest ─────────────────────────

  /** The number of plain parts a pattern begins with. */
  predicate BeginsPlain(ps: seq<bytes>, k: nat) {
    k <= |ps| && (forall i :: 0 <= i < k ==> IsPlain(ps[i])) && (k < |ps| ==> !IsPlain(ps[k]))
  }

  lemma {:induction false} PrefixByText(ps: seq<bytes>)
    requires AllSlashFree(ps)
    ensures BeginsPlain(ps, LiteralPrefix(ClassifyAll(ps)))
    decreases |ps|
  {
    if ps != [] { PrefixByText(ps[1..]); }
  }

  /** A route comes before another that begins with fewer plain parts, or with as many but is shorter. */
  lemma AheadByText(a: Route, b: Route, pa: seq<bytes>, pb: seq<bytes>, ka: nat, kb: nat)
    requires AllSlashFree(pa) && AllSlashFree(pb) && a.segments == ClassifyAll(pa) && b.segments == ClassifyAll(pb)
    requires BeginsPlain(pa, ka) && BeginsPlain(pb, kb)
    ensures Ahead(a, b) <==> ka > kb || (ka == kb && |pa| > |pb|)
  {
    hide ClassifyAll, LiteralPrefix;
    PrefixByText(pa);
    PrefixByText(pb);
    AllClassified(pa);
    AllClassified(pb);
    OnePrefix(pa, ka, LiteralPrefix(a.segments));
    OnePrefix(pb, kb, LiteralPrefix(b.segments));
  }

  lemma OnePrefix(ps: seq<bytes>, k: nat, j: nat)
    requires BeginsPlain(ps, k) && BeginsPlain(ps, j)
    ensures k == j
  {}

  // ── the search, by the texts registered ────────────────────────────

  function Parts(reg: Registration): seq<bytes> { SplitPath(reg.pattern) }

  predicate StaticFits(reg: Registration, verb: Verb, path: bytes) {
    reg.verb == verb && AllPlain(Parts(reg)) && path == PathText(Parts(reg))
  }

  predicate ParamFits(reg: Registration, verb: Verb, path: bytes) {
    && reg.verb == verb && !AllPlain(Parts(reg)) && !RestIsMisplaced(Parts(reg)) && !EndsWithRest(Parts(reg))
    && Fits(Parts(reg), SplitPath(path))
  }

  predicate RestFits(reg: Registration, verb: Verb, path: bytes) {
    && reg.verb == verb && !RestIsMisplaced(Parts(reg)) && EndsWithRest(Parts(reg))
    && Fits(Parts(reg), SplitPath(path))
  }

  /** What a registration is, by its text. */
  lemma RegistrationByText(reg: Registration, verb: Verb, path: bytes)
    ensures AllSlashFree(Parts(reg)) && ParsePattern(reg.pattern) == ClassifyAll(Parts(reg))
    ensures var segs := ParsePattern(reg.pattern);
            && (StaticFits(reg, verb, path) <==> reg.verb == verb && AllLiteral(segs) && Canonical(segs) == path)
            && (ParamFits(reg, verb, path) <==> reg.verb == verb && IsParamRoute(segs) && Matches(segs, SplitPath(path)))
            && (RestFits(reg, verb, path) <==> reg.verb == verb && IsCatchallRoute(segs) && Matches(segs, SplitPath(path)))
  {
    hide ClassifyAll, ParsePattern, SplitPath, Matches, Fits, AllPlain, RestIsMisplaced, EndsWithRest, Canonical, PathText,
         AllLiteral, Misplaced, HasCatchAll;
    PatternIsClassifiedPath(reg.pattern);
    KindsByText(Parts(reg));
    MatchesByText(Parts(reg), SplitPath(path));
    if AllPlain(Parts(reg)) { KeyByText(Parts(reg)); }
  }

  /** The last registration whose text is the path. */
  predicate LastStatic(log: seq<Registration>, verb: Verb, path: bytes, i: int) {
    0 <= i < |log| && StaticFits(log[i], verb, path) && forall j :: i < j < |log| ==> !StaticFits(log[j], verb, path)
  }

  predicate NoStatic(log: seq<Registration>, verb: Verb, path: bytes) {
    forall i :: 0 <= i < |log| ==> !StaticFits(log[i], verb, path)
  }

  lemma {:induction false} StaticByText(log: seq<Registration>, verb: Verb, path: bytes)
    ensures match StaticFor(log, verb, path)
            case None => NoStatic(log, verb, path)
            case Some(fn) => exists i :: LastStatic(log, verb, path, i) && log[i].fn == fn
    decreases |log|
  {
    hide StaticFits, ParamFits, RestFits, Canonical, AllLiteral, ParsePattern, ClassifyAll, SplitPath, Matches, IsParamRoute, IsCatchallRoute;
    if log != [] {
      var init, reg := log[..|log| - 1], log[|log| - 1];
      RegistrationByText(reg, verb, path);
      StaticByText(init, verb, path);
      assert forall i :: 0 <= i < |init| ==> log[i] == init[i];
      if StaticFits(reg, verb, path) {
        assert LastStatic(log, verb, path, |log| - 1);
      } else if StaticFor(init, verb, path).Some? {
        var i :| LastStatic(init, verb, path, i) && init[i].fn == StaticFor(init, verb, path).value;
        assert LastStatic(log, verb, path, i);
      }
    }
  }

  function RouteOf(reg: Registration): Route { Route(ParsePattern(reg.pattern), reg.fn) }

  /** The first registration with names that fits. */
  predicate FirstParam(log: seq<Registration>, verb: Verb, path: bytes, i: int) {
    0 <= i < |log| && ParamFits(log[i], verb, path) && forall j :: 0 <= j < i ==> !ParamFits(log[j], verb, path)
  }

  predicate NoParam(log: seq<Registration>, verb: Verb, path: bytes) {
    forall i :: 0 <= i < |log| ==> !ParamFits(log[i], verb, path)
  }

  lemma FirstParamSnoc(init: seq<Registration>, reg: Registration, verb: Verb, path: bytes)
    ensures NoParam(init + [reg], verb, path) <==> NoParam(init, verb, path) && !ParamFits(reg, verb, path)
    ensures forall i :: FirstParam(init, verb, path, i) ==> FirstParam(init + [reg], verb, path, i) && (init + [reg])[i] == init[i]
    ensures NoParam(init, verb, path) && ParamFits(reg, verb, path) ==> FirstParam(init + [reg], verb, path, |init|)
  {
    hide ParamFits;
    var log := init + [reg];
    assert log[|init|] == reg && forall i :: 0 <= i < |init| ==> log[i] == init[i];
  }

  lemma {:induction false} ParamByText(log: seq<Registration>, verb: Verb, path: bytes)
    ensures match FirstMatch(ParamRoutes(log, verb), SplitPath(path))
            case None => NoParam(log, verb, path)
            case Some(r) => exists i :: FirstParam(log, verb, path, i) && r == RouteOf(log[i])
    decreases |log|
  {
    hide StaticFits, ParamFits, RestFits, Canonical, AllLiteral, ParsePattern, ClassifyAll, SplitPath, Matches, IsParamRoute, IsCatchallRoute, FirstMatch;
    var parts := SplitPath(path);
    if log == [] {
      assert FirstMatch(ParamRoutes(log, verb), parts) == None by { FirstOfNone(parts); }
    } else {
      hide NoParam, FirstParam;
      var init, reg := log[..|log| - 1], log[|log| - 1];
      var before := FirstMatch(ParamRoutes(init, verb), parts);
      RegistrationByText(reg, verb, path);
      ParamByText(init, verb, path);
      FirstMatchSnoc(ParamRoutes(init, verb), RouteOf(reg), parts);
      assert ParamRoutes(init, verb) + [] == ParamRoutes(init, verb);
      FirstParamSnoc(init, reg, verb, path);
      assert log == init + [reg];
    }
  }

  lemma FirstOfNone(parts: seq<bytes>)
    ensures FirstMatch([], parts) == None
  {}

  /** The routes that take the rest: those registered, and no others. */
  lemma {:induction false} RestByText(log: seq<Registration>, verb: Verb, path: bytes, r: Route)
    ensures r in CatchallRoutes(log, verb) && Matches(r.segments, SplitPath(path)) <==> RestRoute(log, verb, path, r)
    decreases |log|
  {
    hide StaticFits, ParamFits, RestFits, Canonical, AllLiteral, ParsePattern, ClassifyAll, SplitPath, Matches, IsParamRoute, IsCatchallRoute,
         RestRoute;
    if log == [] {
      assert !RestRoute(log, verb, path, r) by { NoRoute(verb, path, r); }
    } else {
      var init, reg := log[..|log| - 1], log[|log| - 1];
      RegistrationByText(reg, verb, path);
      RestByText(init, verb, path, r);
      RouteSnoc(init, reg, verb, path, r);
      assert log == init + [reg];
    }
  }

  /** It is the route of a registration that takes the rest of the path. */
  predicate RestRoute(log: seq<Registration>, verb: Verb, path: bytes, r: Route) {
    exists i :: 0 <= i < |log| && RestFits(log[i], verb, path) && r == RouteOf(log[i])
  }

  lemma NoRoute(verb: Verb, path: bytes, r: Route)
    ensures !RestRoute([], verb, path, r)
  {}

  lemma RouteSnoc(init: seq<Registration>, reg: Registration, verb: Verb, path: bytes, r: Route)
    ensures RestRoute(init + [reg], verb, path, r) <==>
            RestRoute(init, verb, path, r) || (RestFits(reg, verb, path) && r == RouteOf(reg))
  {
    hide RestFits, RouteOf;
    var log := init + [reg];
    assert forall i :: 0 <= i < |init| ==> log[i] == init[i];
    assert log[|init|] == reg;
    if i :| 0 <= i < |init| && RestFits(init[i], verb, path) && r == RouteOf(init[i]) {
      assert RestFits(log[i], verb, path) && r == RouteOf(log[i]);
    }
  }

  predicate AnyFits(log: seq<Registration>, verb: Verb, path: bytes) {
    exists i :: 0 <= i < |log| && (StaticFits(log[i], verb, path) || ParamFits(log[i], verb, path) || RestFits(log[i], verb, path))
  }

  predicate NoRest(log: seq<Registration>, verb: Verb, path: bytes) {
    forall i :: 0 <= i < |log| ==> !RestFits(log[i], verb, path)
  }

  lemma SomeRest(log: seq<Registration>, verb: Verb, path: bytes)
    ensures AnyMatch(CatchallRoutes(log, verb), SplitPath(path)) <==> !NoRest(log, verb, path)
  {
    hide RestFits, SplitPath, Matches, CatchallRoutes;
    var routes, parts := CatchallRoutes(log, verb), SplitPath(path);
    if i :| 0 <= i < |routes| && Matches(routes[i].segments, parts) {
      RestByText(log, verb, path, routes[i]);
    }
    if i :| 0 <= i < |log| && RestFits(log[i], verb, path) {
      RestByText(log, verb, path, RouteOf(log[i]));
      var k :| 0 <= k < |routes| && routes[k] == RouteOf(log[i]);
    }
  }

  lemma RoutedByText(log: seq<Registration>, verb: Verb, path: bytes)
    ensures Routed(log, verb, path) <==> AnyFits(log, verb, path)
  {
    hide StaticFits, ParamFits, RestFits, SplitPath, Matches, StaticFor, ParamRoutes, CatchallRoutes;
    StaticByText(log, verb, path);
    ParamByText(log, verb, path);
    SomeRest(log, verb, path);
  }

  /** One registration that takes the rest is to be tried before another. */
  ghost predicate TriedBefore(a: Registration, b: Registration) {
    exists ka: nat, kb: nat ::
      BeginsPlain(Parts(a), ka) && BeginsPlain(Parts(b), kb) && (ka > kb || (ka == kb && |Parts(a)| > |Parts(b)|))
  }

  lemma TriedByText(a: Registration, b: Registration)
    ensures TriedBefore(a, b) <==> Ahead(RouteOf(a), RouteOf(b))
  {
    hide ClassifyAll, ParsePattern, SplitPath, LiteralPrefix, Ahead, BeginsPlain;
    RegistrationByText(a, a.verb, []);
    RegistrationByText(b, b.verb, []);
    PrefixByText(Parts(a));
    PrefixByText(Parts(b));
    AheadByText(RouteOf(a), RouteOf(b), Parts(a), Parts(b), LiteralPrefix(ClassifyAll(Parts(a))), LiteralPrefix(ClassifyAll(Parts(b))));
    if ka: nat, kb: nat :| BeginsPlain(Parts(a), ka) && BeginsPlain(Parts(b), kb) && (ka > kb || (ka == kb && |Parts(a)| > |Parts(b)|)) {
      AheadByText(RouteOf(a), RouteOf(b), Parts(a), Parts(b), ka, kb);
    }
  }

  /** The request goes to that registration, with what its pattern takes from the path. */
  predicate GoesTo(reg: Registration, path: bytes, params: map<bytes, bytes>, o: Outcome) {
    var segs, qs := ParsePattern(reg.pattern), SplitPath(path);
    !Misplaced(segs) && Matches(segs, qs) && o == Handled(reg.fn, BindAll(params, segs, qs))
  }

  /** Of those that take the rest and fit, one that none is to be tried before. */
  ghost predicate BestRest(log: seq<Registration>, verb: Verb, path: bytes, i: int) {
    && 0 <= i < |log| && RestFits(log[i], verb, path)
    && forall j :: 0 <= j < |log| && RestFits(log[j], verb, path) ==> !TriedBefore(log[j], log[i])
  }

  /** What handle() has to do, in terms of the texts registered. */
  ghost predicate HandledByText(log: seq<Registration>, verb: Verb, path: bytes, params: map<bytes, bytes>,
                                c405: Option<HandlerId>, c404: Option<HandlerId>, o: Outcome)
  {
    && (forall i :: LastStatic(log, verb, path, i) ==> o == Handled(log[i].fn, params))
    && (NoStatic(log, verb, path) ==> forall i :: FirstParam(log, verb, path, i) ==> GoesTo(log[i], path, params, o))
    && (NoStatic(log, verb, path) && NoParam(log, verb, path) && !NoRest(log, verb, path) ==>
          exists i :: BestRest(log, verb, path, i) && GoesTo(log[i], path, params, o))
    && (NoStatic(log, verb, path) && NoParam(log, verb, path) && NoRest(log, verb, path) ==>
          if exists v: Verb :: AnyFits(log, v, path) then o.NotAllowed? && o.custom == c405 else o == NotFound(c404))
  }

  /**
   Whatever was registered: the last static pattern that is the path; else the
   first pattern with parameters that fits it; else, of those that take the
   rest, one that none is to be tried before; else a 405 if another method has
   a route; else a 404.
   */
  lemma HandleByText(log: seq<Registration>, verb: Verb, path: bytes, params: map<bytes, bytes>,
                     c405: Option<HandlerId>, c404: Option<HandlerId>, o: Outcome)
    requires Correct(log, verb, path, params, c405, c404, o)
    ensures HandledByText(log, verb, path, params, c405, c404, o)
  {
    hide StaticFits, ParamFits, RestFits, SplitPath, Matches, StaticFor, ParamRoutes, CatchallRoutes, FirstMatch, ParsePattern,
         TriedBefore, AnyFits, Routed, AnyMatch, Best, Allowed, CommaList, Misplaced, BindAll, NoStatic, NoParam, NoRest,
         LastStatic, FirstParam, BestRest, GoesTo;
    StaticByText(log, verb, path);
    ParamByText(log, verb, path);
    SomeRest(log, verb, path);
    OneOfEach(log, verb, path);
    if StaticFor(log, verb, path).None? {
      if FirstMatch(ParamRoutes(log, verb), SplitPath(path)).Some? {
        FirstMatches(ParamRoutes(log, verb), SplitPath(path));
        Goes(log, verb, path, params, o);
      } else if AnyMatch(CatchallRoutes(log, verb), SplitPath(path)) {
        BestByText(log, verb, path, params, o);
      } else {
        forall v: Verb
          ensures Routed(log, v, path) <==> AnyFits(log, v, path)
        {
          RoutedByText(log, v, path);
        }
      }
    }
  }

  /** There is at most one last and one first, and none when there is none. */
  lemma OneOfEach(log: seq<Registration>, verb: Verb, path: bytes)
    ensures forall i, j :: LastStatic(log, verb, path, i) && LastStatic(log, verb, path, j) ==> i == j
    ensures forall i, j :: FirstParam(log, verb, path, i) && FirstParam(log, verb, path, j) ==> i == j
    ensures forall i :: LastStatic(log, verb, path, i) ==> 0 <= i < |log| && !NoStatic(log, verb, path)
    ensures forall i :: FirstParam(log, verb, path, i) ==> 0 <= i < |log| && !NoParam(log, verb, path)
  {
    hide StaticFits, ParamFits;
  }

  lemma Goes(log: seq<Registration>, verb: Verb, path: bytes, params: map<bytes, bytes>, o: Outcome)
    requires var r := FirstMatch(ParamRoutes(log, verb), SplitPath(path));
             && r.Some? && Matches(r.value.segments, SplitPath(path)) && !Misplaced(r.value.segments)
             && o == Handled(r.value.fn, BindAll(params, r.value.segments, SplitPath(path)))
    ensures forall i :: 0 <= i < |log| && FirstMatch(ParamRoutes(log, verb), SplitPath(path)).value == RouteOf(log[i]) ==>
                          GoesTo(log[i], path, params, o)
  {
    hide SplitPath, Matches, ParamRoutes, FirstMatch, ParsePattern, Misplaced, BindAll;
  }

  lemma FirstMatches(routes: seq<Route>, parts: seq<bytes>)
    requires FirstMatch(routes, parts).Some?
    ensures Matches(FirstMatch(routes, parts).value.segments, parts)
  {}

  lemma BestByText(log: seq<Registration>, verb: Verb, path: bytes, params: map<bytes, bytes>, o: Outcome)
    requires exists r :: r in CatchallRoutes(log, verb) && Best(CatchallRoutes(log, verb), SplitPath(path), r)
                         && o == Handled(r.fn, BindAll(params, r.segments, SplitPath(path)))
    ensures exists i :: BestRest(log, verb, path, i) && GoesTo(log[i], path, params, o)
  {
    hide RestFits, SplitPath, Matches, CatchallRoutes, ParsePattern, TriedBefore, Misplaced, BindAll, Ahead;
    var routes, parts := CatchallRoutes(log, verb), SplitPath(path);
    var r :| r in routes && Best(routes, parts, r) && o == Handled(r.fn, BindAll(params, r.segments, parts));
    RestByText(log, verb, path, r);
    var i :| 0 <= i < |log| && RestFits(log[i], verb, path) && r == RouteOf(log[i]);
    forall j | 0 <= j < |log| && RestFits(log[j], verb, path)
      ensures !TriedBefore(log[j], log[i])
    {
      RestByText(log, verb, path, RouteOf(log[j]));
      TriedByText(log[j], log[i]);
    }
    assert BestRest(log, verb, path, i) && GoesTo(log[i], path, params, o);
  }

  /**
   A literal path registered last is reached by exactly its text, whatever was
   registered before it.
   */
  lemma OwnTextIsReached(log: seq<Registration>, verb: Verb, parts: seq<bytes>, fn: HandlerId, params: map<bytes, bytes>,
                         c405: Option<HandlerId>, c404: Option<HandlerId>, o: Outcome)
    requires AllSlashFree(parts) && AllPlain(parts)
    ensures var text := "/" + JoinSlash(parts);
            Correct(log + [Registration(verb, text, fn)], verb, text, params, c405, c404, o) <==> o == Handled(fn, params)
  {
    hide ParsePattern, Canonical, JoinSlash, SplitPath, ClassifyAll, Correct, AllPlain;
    var text := PathText(parts);
    var reg := Registration(verb, text, fn);
    PathTextSplits(parts);
    RegistrationByText(reg, verb, text);
    StaticRouteMatchesItself(log, reg, verb, params, c405, c404, o);
  }

  // ── the text of Allow ──────────────────────────────────────────────

  lemma VerbTexts()
    ensures VerbName(GET) == "GET" && VerbName(POST) == "POST" && VerbName(PUT) == "PUT" && VerbName(DELETE) == "DELETE"
    ensures VerbName(PATCH) == "PATCH" && VerbName(HEAD) == "HEAD" && VerbName(OPTIONS) == "OPTIONS"
    ensures VERBS == [GET, POST, PUT, DELETE, PATCH, HEAD, OPTIONS]
  {}

  /** The names one behind the other, a comma and a blank between any two. */
  function Listed(vs: seq<Verb>): bytes {
    if vs == [] then ""
    else if |vs| == 1 then VerbName(vs[0])
    else VerbName(vs[0]) + ", " + Listed(vs[1..])
  }

  lemma {:induction false} ListedSnoc(vs: seq<Verb>, v: Verb)
    ensures Listed(vs + [v]) == if vs == [] then VerbName(v) else Listed(vs) + ", " + VerbName(v)
  {
    hide VerbName;
    if |vs| == 1 {
      assert (vs + [v])[1..] == [v];
    } else if vs != [] {
      assert (vs + [v])[1..] == vs[1..] + [v];
      ListedSnoc(vs[1..], v);
      Assoc(VerbName(vs[0]) + ", ", Listed(vs[1..]) + ", ", VerbName(v));
      Assoc(VerbName(vs[0]) + ", ", Listed(vs[1..]), ", ");
    }
  }

  lemma CommaListSnoc(vs: seq<Verb>, v: Verb)
    ensures CommaList(vs + [v]) == (if CommaList(vs) == [] then VerbName(v) else CommaList(vs) + ", " + VerbName(v))
    ensures CommaList(vs + [v]) != []
  {
    hide VerbName;
    NameIsText(v);
    assert (vs + [v])[..|vs|] == vs && [] + VerbName(v) == VerbName(v);
  }

  lemma {:induction false} CommaListByText(vs: seq<Verb>)
    ensures CommaList(vs) == Listed(vs)
    ensures vs != [] ==> CommaList(vs) != []
  {
    if vs != [] {
      hide VerbName, Listed, CommaList;
      var init, last := vs[..|vs| - 1], vs[|vs| - 1];
      CommaListByText(init);
      ListedSnoc(init, last);
      CommaListSnoc(init, last);
      assert vs == init + [last];
      if init == [] { EmptyList(); }
    }
  }

  lemma EmptyList()
    ensures CommaList([]) == []
  {}

  lemma NameIsText(v: Verb)
    ensures VerbName(v) != []
  {}

  /** The Allow text of a 405: the methods that have a route, in order, and none besides. */
  lemma AllowByText(log: seq<Registration>, verb: Verb, path: bytes, params: map<bytes, bytes>, c404: Option<HandlerId>, o: Outcome)
    requires Correct(log, verb, path, params, None, c404, o) && o.NotAllowed?
    ensures exists vs :: o.allow == Listed(vs) && InOrder(vs, |VERBS|) && verb !in vs
                         && forall v: Verb :: v in vs <==> v != UNKNOWN && AnyFits(log, v, path)
  {
    hide Correct, CommaList, Listed, AnyFits, Routed, InOrder;
    AllowIsExact(log, verb, path, params, c404, o);
    var vs := Allowed(log, path, |VERBS|);
    CommaListByText(vs);
    forall v: Verb
      ensures v in vs <==> v != UNKNOWN && AnyFits(log, v, path)
    {
      RoutedByText(log, v, path);
    }
    assert o.allow == Listed(vs);
  }
}
