/**
 src/http_util.cpp: percent decoding and form bodies. The decoder in
 src/http_request.cpp is the same function, so both use this one.
 */
module Form {
  import opened Text
  import opened Numbers

  /** from_chars of two characters into an int, base 16: both digits, or a minus sign and a digit. */
  function HexPair(a: char, b: char): Option<char> {
    if DigitValue(b, 16).None? then None
    else if DigitValue(a, 16).Some? then Some((16 * DigitValue(a, 16).value + DigitValue(b, 16).value) as char)
    else if a == '-' then Some(((256 - DigitValue(b, 16).value) % 256) as char)
    else None
  }

  /** An escape stands for the byte whose code its digits spell, in either case. */
  lemma EscapeCode(a: char, b: char, h: nat, l: nat)
    requires h < 16 && (a == "0123456789abcdef"[h] || a == "0123456789ABCDEF"[h])
    requires l < 16 && (b == "0123456789abcdef"[l] || b == "0123456789ABCDEF"[l])
    ensures HexPair(a, b).Some? && HexPair(a, b).value as int == 16 * h + l
  {
    DigitTable(a, h);
    DigitTable(b, l);
  }

  /** A minus sign and one digit are read as a negative number, whose low byte counts. */
  lemma SignedEscape(b: char, l: nat)
    requires l < 16 && (b == "0123456789abcdef"[l] || b == "0123456789ABCDEF"[l])
    ensures HexPair('-', b).Some? && HexPair('-', b).value as int == if l == 0 then 0 else 256 - l
  {
    DigitTable(b, l);
  }

  /** The next decoded byte and how many input bytes it takes. */
  function Unit(s: bytes): (r: (char, nat))
    requires s != []
    ensures 1 <= r.1 <= |s|
  {
    if s[0] == '%' && 2 < |s| && HexPair(s[1], s[2]).Some? then (HexPair(s[1], s[2]).value, 3)
    else (if s[0] == '+' then ' ' else s[0], 1)
  }

  function UrlDecode(s: bytes): bytes {
    if s == [] then [] else [Unit(s).0] + UrlDecode(s[Unit(s).1..])
  }

  lemma UnitAt(s: bytes, k: nat)
    requires k < |s|
    ensures k + Unit(s[k..]).1 <= |s|
    ensures UrlDecode(s[k..]) == [Unit(s[k..]).0] + UrlDecode(s[k + Unit(s[k..]).1..])
  {
    assert s[k..][Unit(s[k..]).1..] == s[k + Unit(s[k..]).1..];
  }

  method DecodeUrl(s: bytes) returns (out: bytes)
    ensures out == UrlDecode(s)
  {
    out := [];
    var i := 0;
    while i < |s|
      invariant 0 <= i <= |s|
      invariant UrlDecode(s) == out + UrlDecode(s[i..])
    {
      ghost var rest, before, k := s[i..], out, i;
      var c := s[i];
      if c == '%' && i + 2 < |s| {
        var value := HexPair(s[i + 1], s[i + 2]);
        if value.Some? {
          out := out + [value.value];
          i := i + 2;
        } else {
          out := out + ['%'];
        }
      } else if c == '+' {
        out := out + [' '];
      } else {
        out := out + [c];
      }
      i := i + 1;
      assert (out, i) == (before + [Unit(rest).0], k + Unit(rest).1);
      UnitAt(s, k);
      Assoc(before, [Unit(rest).0], UrlDecode(s[i..]));
    }
    assert s[i..] == [];
  }

  /** Decoding, from the front: any byte but a percent sign stands for itself, a plus for a blank. */
  lemma PlainDecodes(c: char, rest: bytes)
    requires c != '%'
    ensures UrlDecode([]) == []
    ensures UrlDecode([c] + rest) == [if c == '+' then ' ' else c] + UrlDecode(rest)
  {
    assert ([c] + rest)[1..] == rest;
  }

  /** A percent sign and two digits stand for the byte with that code. */
  lemma EscapeDecodes(a: char, b: char, rest: bytes, h: nat, l: nat)
    requires h < 16 && (a == "0123456789abcdef"[h] || a == "0123456789ABCDEF"[h])
    requires l < 16 && (b == "0123456789abcdef"[l] || b == "0123456789ABCDEF"[l])
    ensures UrlDecode(['%', a, b] + rest) == [(16 * h + l) as char] + UrlDecode(rest)
  {
    hide HexPair;
    EscapeCode(a, b, h, l);
    assert (['%', a, b] + rest)[3..] == rest;
  }

  /** A percent sign that begins no escape stands for itself. */
  lemma BarePercentDecodes(rest: bytes)
    requires |rest| < 2 || DigitValue(rest[1], 16).None? || (DigitValue(rest[0], 16).None? && rest[0] != '-')
    ensures UrlDecode("%" + rest) == "%" + UrlDecode(rest)
  {
    var s := "%" + rest;
    assert s[1..] == rest && (|rest| >= 2 ==> s[1] == rest[0] && s[2] == rest[1]);
  }

  lemma UnitOfPrefix(a: bytes, b: bytes)
    requires a != [] && a[|a| - 1] != '%' && (|a| >= 2 ==> a[|a| - 2] != '%')
    ensures Unit(a + b) == Unit(a)
  {}

  /** Decoding splits wherever no escape can straddle the cut. */
  lemma {:induction false} DecodeConcat(a: bytes, b: bytes)
    requires |a| >= 1 ==> a[|a| - 1] != '%'
    requires |a| >= 2 ==> a[|a| - 2] != '%'
    ensures UrlDecode(a + b) == UrlDecode(a) + UrlDecode(b)
    decreases |a|
  {
    if a == [] {
      assert a + b == b;
    } else {
      hide Unit;
      var u := Unit(a);
      UnitOfPrefix(a, b);
      assert (a + b)[u.1..] == a[u.1..] + b;
      DecodeConcat(a[u.1..], b);
      Assoc([u.0], UrlDecode(a[u.1..]), UrlDecode(b));
    }
  }

  // ── every percent-encoding of a byte string ────────────────────────

  /** The bytes an encoder may not send as themselves. */
  predicate Reserved(c: char) { c == '%' || c == '+' || c == '&' || c == '=' }

  /** e encodes s: each byte goes out as itself, as '+' for a space, or as '%' and two hexadecimal digits. */
  predicate Encodes(e: bytes, s: bytes) {
    if s == [] then e == []
    else
      || (e != [] && e[0] == s[0] && !Reserved(s[0]) && Encodes(e[1..], s[1..]))
      || (e != [] && e[0] == '+' && s[0] == ' ' && Encodes(e[1..], s[1..]))
      || (|e| >= 3 && e[0] == '%' && DigitValue(e[1], 16).Some? && HexPair(e[1], e[2]) == Some(s[0])
          && Encodes(e[3..], s[1..]))
  }

  /** The encoder that escapes every byte: each byte string has an encoding. */
  function Escape(s: bytes): (e: bytes)
    requires forall c :: c in s ==> c as int < 256
    ensures Encodes(e, s)
  {
    if s == [] then []
    else
      assert s[0] in s && forall c :: c in s[1..] ==> c in s;
      var c := s[0] as nat;
      var e := ['%', DigitChar(c / 16), DigitChar(c % 16)];
      var rest := Escape(s[1..]);
      assert (e + rest)[3..] == rest;
      e + rest
  }

  lemma {:induction false} DecodeInvertsEncoding(e: bytes, s: bytes)
    requires Encodes(e, s)
    ensures UrlDecode(e) == s
    ensures '&' !in e && '=' !in e
    decreases |s|
  {
    if s != [] {
      if e[0] == '%' && !(e[0] == s[0] && !Reserved(s[0])) {
        DecodeInvertsEncoding(e[3..], s[1..]);
        assert e == [e[0], e[1], e[2]] + e[3..];
      } else {
        DecodeInvertsEncoding(e[1..], s[1..]);
        assert e == [e[0]] + e[1..];
      }
    }
  }

  // ── application/x-www-form-urlencoded ──────────────────────────────

  function AddToken(token: bytes, out: map<bytes, bytes>): map<bytes, bytes> {
    match Find(token, "=", 0)
    case None => if token == [] then out else out[UrlDecode(token) := ""]
    case Some(eq) => out[UrlDecode(token[..eq]) := UrlDecode(token[eq + 1..])]
  }

  function ParseForm(body: bytes, out: map<bytes, bytes>): map<bytes, bytes>
    decreases |body|
  {
    if body == [] then out
    else ParseForm(After(body, "&"), AddToken(Before(body, "&"), out))
  }

  method ParseFormUrlencoded(body: bytes) returns (out: map<bytes, bytes>)
    ensures out == ParseForm(body, map[])
  {
    out := map[];
    var pos := 0;
    assert body[0..] == body;
    while pos < |body|
      invariant 0 <= pos <= |body|
      invariant ParseForm(body[pos..], out) == ParseForm(body, map[])
    {
      var found := Find(body, "&", pos);
      var amp := if found.None? then |body| else found.value;
      var token := body[pos..amp];
      var next := if amp == |body| then amp else amp + 1;
      CutAt(body, "&", pos, amp, next);
      pos := next;
      out := PutToken(token, out);
    }
    assert body[pos..] == [];
  }

  method PutToken(token: bytes, before: map<bytes, bytes>) returns (out: map<bytes, bytes>)
    ensures out == AddToken(token, before)
  {
    out := before;
    var eq := Find(token, "=", 0);
    if eq.None? {
      if token != [] {
        var key := DecodeUrl(token);
        out := out[key := ""];
      }
      return;
    }
    var key := DecodeUrl(token[..eq.value]);
    var value := DecodeUrl(token[eq.value + 1..]);
    out := out[key := value];
  }

  datatype Field = Field(key: bytes, value: bytes)

  /** The body a client sends for already encoded fields. */
  function JoinFields(fields: seq<Field>): bytes {
    if fields == [] then []
    else
      var f := fields[0].key + "=" + fields[0].value;
      if |fields| == 1 then f else f + "&" + JoinFields(fields[1..])
  }

  function FieldMap(fields: seq<Field>, out: map<bytes, bytes>): map<bytes, bytes> {
    if fields == [] then out else FieldMap(fields[1..], out[fields[0].key := fields[0].value])
  }

  predicate FieldsEncode(es: seq<Field>, fs: seq<Field>) {
    |es| == |fs| && forall i :: 0 <= i < |fs| ==> Encodes(es[i].key, fs[i].key) && Encodes(es[i].value, fs[i].value)
  }

  lemma AddEncodedField(e: Field, f: Field, out: map<bytes, bytes>)
    requires Encodes(e.key, f.key) && Encodes(e.value, f.value)
    ensures AddToken(e.key + "=" + e.value, out) == out[f.key := f.value]
    ensures '&' !in e.key + "=" + e.value
  {
    DecodeInvertsEncoding(e.key, f.key);
    DecodeInvertsEncoding(e.value, f.value);
    var t := e.key + "=" + e.value;
    assert t[..|e.key|] == e.key && t[|e.key| + 1..] == e.value;
    FindByte(t, '=', |e.key|);
  }

  /** A token without '=' is a key without a value in a form; an empty one is nothing. */
  lemma BareToken(token: bytes, out: map<bytes, bytes>)
    requires '=' !in token
    ensures AddToken(token, out) == if token == [] then out else out[UrlDecode(token) := []]
  {
    FindNoByte(token, '=');
  }

  /** Parsing any encoding of a list of fields adds exactly those fields, the last one winning. */
  lemma {:induction false} FormRoundTrip(es: seq<Field>, fs: seq<Field>, out: map<bytes, bytes>)
    requires FieldsEncode(es, fs)
    ensures ParseForm(JoinFields(es), out) == FieldMap(fs, out)
    decreases |es|
  {
    if es != [] {
      var t, body := es[0].key + "=" + es[0].value, JoinFields(es);
      AddEncodedField(es[0], fs[0], out);
      if |es| == 1 {
        FindNoByte(body, '&');
        assert fs[1..] == [];
      } else {
        FormRoundTrip(es[1..], fs[1..], out[fs[0].key := fs[0].value]);
        assert body[..|t|] == t && body[|t| + 1..] == JoinFields(es[1..]);
        FindByte(body, '&', |t|);
      }
    }
  }

  /** Fields with distinct keys come back as exactly the map that holds them. */
  lemma {:induction false} FieldMapExact(fs: seq<Field>, out: map<bytes, bytes>)
    requires forall i, j :: 0 <= i < j < |fs| ==> fs[i].key != fs[j].key
    requires forall i :: 0 <= i < |fs| ==> fs[i].key !in out
    ensures FieldMap(fs, out).Keys == out.Keys + set i | 0 <= i < |fs| :: fs[i].key
    ensures forall i :: 0 <= i < |fs| ==> FieldMap(fs, out)[fs[i].key] == fs[i].value
    ensures forall k :: k in out ==> FieldMap(fs, out)[k] == out[k]
    decreases |fs|
  {
    if fs != [] {
      var out' := out[fs[0].key := fs[0].value];
      FieldMapExact(fs[1..], out');
      var m := FieldMap(fs[1..], out');
      forall i | 0 <= i < |fs|
        ensures fs[i].key in m && m[fs[i].key] == fs[i].value
      {
        if i == 0 { assert fs[0].key in out'; } else { assert fs[i] == fs[1..][i - 1]; }
      }
      assert forall k :: k in m <==> k in out || exists i :: 0 <= i < |fs| && fs[i].key == k;
    }
  }
}
