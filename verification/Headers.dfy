/**
 Header names compare without regard to case. The request keeps its headers in
 a std::map ordered by CiLess; the response keeps a list searched with
 ci_equal. Both are modelled as the sequences of entries they hold, and both
 are shown to hold, for every spelling of a name, the last value written.
 */
module Headers {
  import opened Text

  datatype Entry = Entry(name: bytes, value: bytes)

  const CONTENT_LENGTH: bytes := "Content-Length"
  const CONTENT_TYPE: bytes := "Content-Type"
  const TRANSFER_ENCODING: bytes := "Transfer-Encoding"
  const CONNECTION: bytes := "Connection"

  predicate CiEqual(a: bytes, b: bytes) { Lower(a) == Lower(b) }

  /** Two names are the same exactly when they are the same spelling, letter by letter and by code. */
  lemma CiEqualIsSpelling(a: bytes, b: bytes)
    ensures CiEqual(a, b) <==> SameSpelling(a, b)
  {
    SpellingsFold(a, b);
  }

  /** The comparator of the request's header map. */
  predicate CiLess(a: bytes, b: bytes) {
    if b == [] then false
    else if a == [] then true
    else if ToLower(a[0]) < ToLower(b[0]) then true
    else if ToLower(b[0]) < ToLower(a[0]) then false
    else CiLess(a[1..], b[1..])
  }

  lemma LowerCons(a: bytes)
    requires a != []
    ensures Lower(a) == [ToLower(a[0])] + Lower(a[1..])
  {}

  /** Exactly one of a < b, b < a, a == b (ignoring case): the incomparability of CiLess is ci_equal. */
  lemma {:induction false} CiTrichotomy(a: bytes, b: bytes)
    ensures CiEqual(a, b) <==> !CiLess(a, b) && !CiLess(b, a)
    ensures !(CiLess(a, b) && CiLess(b, a))
  {
    if a == [] || b == [] {
      assert CiEqual(a, b) <==> |Lower(a)| == |Lower(b)| == 0;
    } else {
      LowerCons(a);
      LowerCons(b);
      assert Lower(a)[1..] == Lower(a[1..]) && Lower(b)[1..] == Lower(b[1..]);
      CiTrichotomy(a[1..], b[1..]);
    }
  }

  lemma {:induction false} CiLessTransitive(a: bytes, b: bytes, c: bytes)
    requires CiLess(a, b) && CiLess(b, c)
    ensures CiLess(a, c)
  {
    if a != [] && ToLower(a[0]) == ToLower(b[0]) == ToLower(c[0]) {
      CiLessTransitive(a[1..], b[1..], c[1..]);
    }
  }

  /** CiLess cannot tell two spellings of a name apart. */
  lemma {:induction false} CiLessRespectsCase(a: bytes, b: bytes, c: bytes)
    requires CiEqual(a, b)
    ensures CiLess(a, c) == CiLess(b, c)
    ensures CiLess(c, a) == CiLess(c, b)
  {
    assert |Lower(a)| == |Lower(b)|;
    if a != [] && c != [] {
      LowerCons(a);
      LowerCons(b);
      assert Lower(a)[1..] == Lower(a[1..]) && Lower(b)[1..] == Lower(b[1..]);
      CiLessRespectsCase(a[1..], b[1..], c[1..]);
    }
  }

  // ── the response's list ────────────────────────────────────────────

  predicate NoCaseTwins(es: seq<Entry>) {
    forall i, j :: 0 <= i < j < |es| ==> !CiEqual(es[i].name, es[j].name)
  }

  /** find_ci: the index of the first entry with that name, or the length. */
  function FindCi(es: seq<Entry>, name: bytes): (k: nat)
    ensures k <= |es|
    ensures k < |es| ==> CiEqual(es[k].name, name)
    ensures forall i :: 0 <= i < k ==> !CiEqual(es[i].name, name)
  {
    if es == [] || CiEqual(es[0].name, name) then 0 else 1 + FindCi(es[1..], name)
  }

  predicate Contains(es: seq<Entry>, name: bytes) { FindCi(es, name) < |es| }

  /** Headers::insert: overwrite in place, or append. */
  function Insert(es: seq<Entry>, name: bytes, value: bytes): (r: seq<Entry>)
    ensures NoCaseTwins(es) ==> NoCaseTwins(r)
  {
    var k := FindCi(es, name);
    if k < |es| then es[k := es[k].(value := value)] else es + [Entry(name, value)]
  }

  function Get(es: seq<Entry>, name: bytes): bytes {
    if Contains(es, name) then es[FindCi(es, name)].value else []
  }

  /** What a lookup sees after an insertion: that value for that name, the old answer for any other. */
  lemma GetAfterInsert(es: seq<Entry>, name: bytes, value: bytes, other: bytes)
    ensures Contains(Insert(es, name, value), other) <==> CiEqual(name, other) || Contains(es, other)
    ensures Get(Insert(es, name, value), other) == if CiEqual(name, other) then value else Get(es, other)
  {
    var r, k, j := Insert(es, name, value), FindCi(es, name), FindCi(es, other);
    assert forall i :: 0 <= i < |es| ==> r[i].name == es[i].name;
    FirstIs(r, other, if CiEqual(name, other) then k else if j < |es| then j else |r|);
  }

  /** A name the list holds keeps its place and its spelling; a new one goes to the end. */
  lemma InsertKeepsPlaces(es: seq<Entry>, name: bytes, value: bytes)
    ensures var r := Insert(es, name, value);
            if exists k :: 0 <= k < |es| && SameSpelling(es[k].name, name) then
              |r| == |es| && exists j :: 0 <= j < |es| && SameSpelling(es[j].name, name) && r[j] == Entry(es[j].name, value)
                                         && forall i :: 0 <= i < |es| && i != j ==> r[i] == es[i]
            else r == es + [Entry(name, value)]
  {
    hide CiEqual, SameSpelling;
    forall k | 0 <= k < |es|
      ensures CiEqual(es[k].name, name) <==> SameSpelling(es[k].name, name)
    {
      CiEqualIsSpelling(es[k].name, name);
    }
  }

  /** FindCi is determined by being first. */
  lemma FirstIs(es: seq<Entry>, name: bytes, k: nat)
    requires k <= |es|
    requires k < |es| ==> CiEqual(es[k].name, name)
    requires forall i :: 0 <= i < k ==> !CiEqual(es[i].name, name)
    ensures FindCi(es, name) == k
  {}

  // ── the request's ordered map ──────────────────────────────────────

  predicate Ordered(m: seq<Entry>) {
    forall i, j :: 0 <= i < j < |m| ==> CiLess(m[i].name, m[j].name)
  }

  /** m[name] = value on the ordered map; an equivalent key keeps its first spelling. */
  function Assign(m: seq<Entry>, name: bytes, value: bytes): (r: seq<Entry>)
    ensures r != []
    ensures r[0].name == name || (m != [] && r[0].name == m[0].name)
  {
    if m == [] || CiLess(name, m[0].name) then [Entry(name, value)] + m
    else if CiLess(m[0].name, name) then [m[0]] + Assign(m[1..], name, value)
    else [m[0].(value := value)] + m[1..]
  }

  /** find on the ordered map, which looks only where the order says the key can be. */
  function Lookup(m: seq<Entry>, name: bytes): Option<bytes> {
    if m == [] || CiLess(name, m[0].name) then None
    else if CiLess(m[0].name, name) then Lookup(m[1..], name)
    else Some(m[0].value)
  }

  lemma {:induction false} AssignKeepsOrder(m: seq<Entry>, name: bytes, value: bytes)
    requires Ordered(m)
    ensures Ordered(Assign(m, name, value))
    ensures forall e :: e in Assign(m, name, value) ==>
                          e.name == name || exists d :: d in m && d.name == e.name
  {
    if m == [] {
    } else if CiLess(name, m[0].name) {
      forall j | 0 < j < |m|
        ensures CiLess(name, m[j].name)
      {
        CiLessTransitive(name, m[0].name, m[j].name);
      }
    } else if CiLess(m[0].name, name) {
      AssignKeepsOrder(m[1..], name, value);
      var t := Assign(m[1..], name, value);
      forall j | 0 <= j < |t|
        ensures CiLess(m[0].name, t[j].name)
      {
        assert t[j] in t;
      }
    }
  }

  lemma {:induction false} LookupAfterAssign(m: seq<Entry>, name: bytes, value: bytes, other: bytes)
    requires Ordered(m)
    ensures Lookup(Assign(m, name, value), other) ==
            if CiEqual(name, other) then Some(value) else Lookup(m, other)
  {
    CiTrichotomy(name, other);
    if m == [] {
    } else {
      var r := Assign(m, name, value);
      CiTrichotomy(name, m[0].name);
      CiTrichotomy(m[0].name, other);
      if CiEqual(name, other) { CiLessRespectsCase(name, other, m[0].name); }
      if CiLess(name, m[0].name) {
        assert r[0] == Entry(name, value) && r[1..] == m;
        if CiLess(other, name) { CiLessTransitive(other, name, m[0].name); }
      } else if CiLess(m[0].name, name) {
        assert r[0] == m[0] && r[1..] == Assign(m[1..], name, value);
        LookupAfterAssign(m[1..], name, value, other);
        if CiLess(other, m[0].name) { CiLessTransitive(other, m[0].name, name); }
      } else {
        assert r[0].value == value && r[1..] == m[1..];
        CiLessRespectsCase(name, m[0].name, other);
      }
    }
  }

  // ── agreement ──────────────────────────────────────────────────────

  /** The list and the map after the same insertions. */
  function InsertAll(log: seq<Entry>): seq<Entry> {
    if log == [] then []
    else Insert(InsertAll(log[..|log| - 1]), log[|log| - 1].name, log[|log| - 1].value)
  }

  function AssignAll(log: seq<Entry>): seq<Entry> {
    if log == [] then []
    else Assign(AssignAll(log[..|log| - 1]), log[|log| - 1].name, log[|log| - 1].value)
  }

  /** The last value written under any spelling of name. */
  function LastWritten(log: seq<Entry>, name: bytes): Option<bytes> {
    if log == [] then None
    else if CiEqual(log[|log| - 1].name, name) then Some(log[|log| - 1].value)
    else LastWritten(log[..|log| - 1], name)
  }

  /**
   After any sequence of insertions, the ordered map and the list answer every
   spelling of every name with the last value written, and the list never
   holds two names that differ only in case.
   */
  lemma {:induction false} HeaderMapsAgree(log: seq<Entry>, name: bytes)
    ensures NoCaseTwins(InsertAll(log)) && Ordered(AssignAll(log))
    ensures Lookup(AssignAll(log), name) == LastWritten(log, name)
    ensures Contains(InsertAll(log), name) <==> LastWritten(log, name).Some?
    ensures Contains(InsertAll(log), name) ==> Get(InsertAll(log), name) == LastWritten(log, name).value
  {
    if log != [] {
      var init, last := log[..|log| - 1], log[|log| - 1];
      HeaderMapsAgree(init, name);
      AssignKeepsOrder(AssignAll(init), last.name, last.value);
      LookupAfterAssign(AssignAll(init), last.name, last.value, name);
      GetAfterInsert(InsertAll(init), last.name, last.value, name);
    }
  }
}
