/**
 Byte strings and the library primitives the sources build on: substring
 search, the C locale's character classes, and trimming. A byte b is the
 character of code b; only the percent codec depends on codes below 256.
 */
module Text {
  datatype Option<+T> = None | Some(value: T)

  type bytes = string

  const CRLF: bytes := "\r\n"
  const CRLFCRLF: bytes := "\r\n\r\n"

  predicate OccursAt(s: bytes, d: bytes, i: int) {
    0 <= i && i + |d| <= |s| && forall k :: 0 <= k < |d| ==> d[k] == s[i + k]
  }

  /** That is: the slice of s at i is d. */
  lemma OccursIsSlice(s: bytes, d: bytes, i: int)
    ensures OccursAt(s, d, i) <==> 0 <= i && i + |d| <= |s| && s[i..i + |d|] == d
  {
    if 0 <= i && i + |d| <= |s| {
      var t := s[i..i + |d|];
      assert forall k :: 0 <= k < |d| ==> t[k] == s[i + k];
    }
  }

  /** The first occurrence of d in s at or after from. */
  function Find(s: bytes, d: bytes, from: nat): (r: Option<nat>)
    requires from <= |s|
    ensures r.Some? ==> from <= r.value <= r.value + |d| <= |s|
    decreases |s| - from
  {
    if OccursAt(s, d, from) then Some(from)
    else if from == |s| then None
    else Find(s, d, from + 1)
  }

  /** What Find answers is an occurrence with none before it, or there is none. */
  lemma {:induction false} FindFirst(s: bytes, d: bytes, from: nat)
    requires from <= |s|
    ensures match Find(s, d, from)
            case Some(i) => OccursAt(s, d, i) && forall j :: from <= j < i ==> !OccursAt(s, d, j)
            case None => forall j :: from <= j ==> !OccursAt(s, d, j)
    decreases |s| - from
  {
    if from < |s| { FindFirst(s, d, from + 1); }
  }

  /** And the first occurrence is what Find answers. */
  lemma FindIs(s: bytes, d: bytes, i: nat)
    requires OccursAt(s, d, i) && forall j :: 0 <= j < i ==> !OccursAt(s, d, j)
    ensures Find(s, d, 0) == Some(i)
  {
    hide Find;
    FindFirst(s, d, 0);
  }

  /** An occurrence in a suffix is one in the whole, further on. */
  lemma OccursShift(a: bytes, t: bytes, d: bytes, j: nat)
    ensures OccursAt(a + t, d, |a| + j) == OccursAt(t, d, j)
  {
    if OccursAt(a + t, d, |a| + j) {
      forall k | 0 <= k < |d|
        ensures d[k] == t[j + k]
      {
        assert d[k] == (a + t)[|a| + j + k];
      }
    }
    if OccursAt(t, d, j) {
      forall k | 0 <= k < |d|
        ensures d[k] == (a + t)[|a| + j + k]
      {
        assert d[k] == t[j + k];
      }
    }
  }

  /** An occurrence already found is not moved by bytes that arrive later. */
  lemma FindExtends(s: bytes, t: bytes, d: bytes)
    requires Find(s, d, 0).Some?
    ensures Find(s + t, d, 0) == Find(s, d, 0)
  {
    hide Find;
    var i := Find(s, d, 0).value;
    FindFirst(s, d, 0);
    assert forall j :: 0 <= j <= i ==> OccursAt(s + t, d, j) == OccursAt(s, d, j);
    FindIs(s + t, d, i);
  }

  /** Searching from a position is searching the suffix. */
  lemma FindShift(s: bytes, d: bytes, from: nat)
    requires from <= |s|
    ensures Find(s, d, from) ==
            match Find(s[from..], d, 0) { case None => None case Some(i) => Some(from + i) }
  {
    FindShiftAt(s, d, from, 0);
  }

  lemma {:induction false} FindShiftAt(s: bytes, d: bytes, from: nat, k: nat)
    requires from + k <= |s|
    ensures Find(s, d, from + k) ==
            match Find(s[from..], d, k) { case None => None case Some(i) => Some(from + i) }
    decreases |s| - k
  {
    assert OccursAt(s[from..], d, k) == OccursAt(s, d, from + k);
    if from + k < |s| { FindShiftAt(s, d, from, k + 1); }
  }

  /** What precedes the first d in s, or all of s. */
  function Before(s: bytes, d: bytes): bytes {
    match Find(s, d, 0) case None => s case Some(i) => s[..i]
  }

  /** What follows the first d in s, or nothing. */
  function After(s: bytes, d: bytes): (r: bytes)
    ensures s != [] && d != [] ==> |r| < |s|
  {
    match Find(s, d, 0) case None => [] case Some(i) => s[i + |d|..]
  }

  /** The scanning idiom of the parsers: find from pos, take up to there, step over the separator. */
  lemma CutAt(s: bytes, d: bytes, pos: nat, end: nat, next: nat)
    requires d != [] && pos < |s|
    requires end == match Find(s, d, pos) { case None => |s| case Some(i) => i }
    requires next == if end == |s| then end else end + |d|
    ensures pos <= end <= |s| && pos < next <= |s|
    ensures Before(s[pos..], d) == s[pos..end]
    ensures After(s[pos..], d) == s[next..]
  {
    hide Find, OccursAt;
    FindShift(s, d, pos);
    match Find(s[pos..], d, 0)
    case None =>
      SliceOfSuffix(s, pos, |s| - pos);
    case Some(i) =>
      SliceOfSuffix(s, pos, i);
      SliceOfSuffix(s, pos, i + |d|);
  }

  lemma SliceOfSuffix<T>(s: seq<T>, a: nat, k: nat)
    requires a + k <= |s|
    ensures s[a..][..k] == s[a..a + k]
    ensures s[a..][k..] == s[a + k..]
    ensures k == |s| - a ==> s[a..] == s[a..a + k] && s[a + k..] == []
  {}

  /** The first occurrence of a single byte. */
  lemma FindByte(s: bytes, c: char, i: nat)
    requires i < |s| && s[i] == c && c !in s[..i]
    ensures Find(s, [c], 0) == Some(i)
  {
    assert OccursAt(s, [c], i);
    forall j | 0 <= j < i
      ensures !OccursAt(s, [c], j)
    {
      assert [c][0] == c != s[j] by { assert s[..i][j] == s[j]; }
    }
    FindIs(s, [c], i);
  }

  lemma FindNoByte(s: bytes, c: char)
    requires c !in s
    ensures Find(s, [c], 0) == None
  {
    FindFirst(s, [c], 0);
    forall j | 0 <= j && j + 1 <= |s|
      ensures !OccursAt(s, [c], j)
    {
      assert [c][0] == c != s[j];
    }
  }

  lemma ByteFound(s: bytes, c: char)
    ensures match Find(s, [c], 0)
            case Some(i) => s[i] == c && c !in s[..i]
            case None => c !in s
  {
    hide Find;
    FindFirst(s, [c], 0);
    assert forall k :: 0 <= k < |s| ==> (OccursAt(s, [c], k) <==> s[k] == [c][0]);
  }

  /** Cutting at a byte: the part before holds none, and the parts make up the whole. */
  lemma CutAtByte(s: bytes, c: char)
    ensures c !in Before(s, [c])
    ensures s == if c in s then Before(s, [c]) + [c] + After(s, [c]) else Before(s, [c])
    ensures c !in s ==> After(s, [c]) == []
  {
    hide Find;
    ByteFound(s, c);
    match Find(s, [c], 0)
    case None =>
    case Some(i) => assert s == s[..i] + [c] + s[i + 1..];
  }

  predicate IsSpace(c: char) {
    c == ' ' || c == '\t' || c == '\n' || c == '\U{000b}' || c == '\U{000c}' || c == '\r'
  }

  function ToLower(c: char): char {
    if 'A' <= c <= 'Z' then (c as int + 32) as char else c
  }

  function ToUpper(c: char): char {
    if 'a' <= c <= 'z' then (c as int - 32) as char else c
  }

  function Lower(s: bytes): (r: bytes)
    ensures |r| == |s| && forall i :: 0 <= i < |s| ==> r[i] == ToLower(s[i])
  {
    seq(|s|, i requires 0 <= i < |s| => ToLower(s[i]))
  }

  function Upper(s: bytes): (r: bytes)
    ensures |r| == |s| && forall i :: 0 <= i < |s| ==> r[i] == ToUpper(s[i])
  {
    seq(|s|, i requires 0 <= i < |s| => ToUpper(s[i]))
  }

  /** The blanks of the C locale, by their codes. */
  lemma SpaceCodes(c: char)
    ensures IsSpace(c) <==> c as int == 32 || 9 <= c as int <= 13
  {}

  /** Equal, or one of them a capital letter and the other the small one, 32 above it. */
  predicate SameLetter(x: char, y: char) {
    || x == y
    || (65 <= x as int <= 90 && y as int == x as int + 32)
    || (65 <= y as int <= 90 && x as int == y as int + 32)
  }

  predicate SameSpelling(a: bytes, b: bytes) { |a| == |b| && forall i :: 0 <= i < |a| ==> SameLetter(a[i], b[i]) }

  /** Folding case, either way, is what makes two characters the same letter; and it changes letters only. */
  lemma CaseCodes(x: char, y: char)
    ensures ToLower(x) == ToLower(y) <==> SameLetter(x, y)
    ensures ToUpper(x) == ToUpper(y) <==> SameLetter(x, y)
    ensures SameLetter(x, ToLower(x)) && !(65 <= ToLower(x) as int <= 90)
    ensures SameLetter(x, ToUpper(x)) && !(97 <= ToUpper(x) as int <= 122)
  {}

  lemma SpellingsFold(a: bytes, b: bytes)
    ensures Lower(a) == Lower(b) <==> SameSpelling(a, b)
    ensures Upper(a) == Upper(b) <==> SameSpelling(a, b)
  {
    if |a| == |b| {
      forall i | 0 <= i < |a|
        ensures Lower(a)[i] == Lower(b)[i] <==> SameLetter(a[i], b[i])
        ensures Upper(a)[i] == Upper(b)[i] <==> SameLetter(a[i], b[i])
      {
        CaseCodes(a[i], b[i]);
      }
    }
  }

  predicate Clean(s: bytes) { '\r' !in s && '\n' !in s }

  predicate Trimmed(s: bytes) {
    s == [] || (!IsSpace(s[0]) && !IsSpace(s[|s| - 1]))
  }

  function TrimLeft(s: bytes): (r: bytes)
    ensures |r| <= |s|
    ensures r != [] ==> !IsSpace(r[0])
  {
    if s != [] && IsSpace(s[0]) then TrimLeft(s[1..]) else s
  }

  function TrimRight(s: bytes): (r: bytes)
    ensures r <= s
    ensures r != [] ==> !IsSpace(r[|r| - 1])
  {
    if s != [] && IsSpace(s[|s| - 1]) then TrimRight(s[..|s| - 1]) else s
  }

  function Trim(s: bytes): (r: bytes)
    ensures Trimmed(r)
    ensures Trimmed(s) ==> r == s
  {
    TrimRight(TrimLeft(s))
  }

  lemma Assoc<T>(a: seq<T>, b: seq<T>, c: seq<T>)
    ensures a + b + c == a + (b + c)
  {}

  lemma MoveHead<T>(a: seq<T>, b: seq<T>)
    requires b != []
    ensures a + [b[0]] + b[1..] == a + b
    ensures |b| == 1 ==> a + [b[0]] == a + b
  {}

  lemma TakeSnoc<T>(s: seq<T>, k: nat)
    requires k < |s|
    ensures s[..k + 1] == s[..k] + [s[k]]
  {}

  /** Trim cuts the longest run of spaces at each end and nothing else. */
  lemma {:induction false} TrimCutsSpaces(s: bytes)
    ensures exists i, j :: 0 <= i <= j <= |s| && Trim(s) == s[i..j] && AllSpaces(s[..i]) && AllSpaces(s[j..])
  {
    var i := TrimLeftAt(s);
    var t := s[i..];
    var j := TrimRightAt(t);
    assert t[..j] == s[i..i + j] && t[j..] == s[i + j..];
  }

  predicate AllSpaces(s: bytes) { forall k :: 0 <= k < |s| ==> IsSpace(s[k]) }

  lemma {:induction false} TrimLeftAt(s: bytes) returns (i: nat)
    ensures i <= |s| && TrimLeft(s) == s[i..] && AllSpaces(s[..i])
  {
    i := 0;
    if s != [] && IsSpace(s[0]) {
      var k := TrimLeftAt(s[1..]);
      i := k + 1;
      assert s[1..][k..] == s[i..] && s[..i] == [s[0]] + s[1..][..k];
    }
  }

  lemma {:induction false} TrimRightAt(s: bytes) returns (j: nat)
    ensures j <= |s| && TrimRight(s) == s[..j] && AllSpaces(s[j..])
  {
    j := |s|;
    if s != [] && IsSpace(s[|s| - 1]) {
      var t := s[..|s| - 1];
      j := TrimRightAt(t);
      assert t[..j] == s[..j] && s[j..] == t[j..] + [s[|s| - 1]];
    }
  }
}
