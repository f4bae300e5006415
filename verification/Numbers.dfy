/**
 The numerals the server prints and reads: std::to_string and
 std::from_chars in base ten, snprintf("%zx") and std::stoul in base
 sixteen, all over 64-bit unsigned integers.
 */
module Numbers {
  import opened Text

  const SIZE_RANGE: nat := 0x1_0000_0000_0000_0000

  type Base = b: nat | b == 10 || b == 16 witness 10

  /** The value of one digit, either letter case. */
  function DigitValue(c: char, base: Base): (r: Option<nat>)
    ensures r.Some? ==> r.value < base
  {
    if '0' <= c <= '9' then Some(c as nat - '0' as nat)
    else if base == 16 && 'a' <= c <= 'f' then Some(c as nat - 'a' as nat + 10)
    else if base == 16 && 'A' <= c <= 'F' then Some(c as nat - 'A' as nat + 10)
    else None
  }

  /** The digits of either base, in either case, by position. */
  lemma DigitTable(c: char, v: nat)
    ensures DigitValue(c, 10) == Some(v) <==> v < 10 && c == "0123456789"[v]
    ensures DigitValue(c, 16) == Some(v) <==> v < 16 && (c == "0123456789abcdef"[v] || c == "0123456789ABCDEF"[v])
  {}

  function DigitChar(d: nat): (c: char)
    requires d < 16
    ensures DigitValue(c, 16) == Some(d)
    ensures d < 10 ==> DigitValue(c, 10) == Some(d)
    ensures !IsSpace(c) && c != ';' && c != '+' && c != '-' && c != 'x' && c != 'X'
  {
    if d < 10 then ('0' as nat + d) as char else ('a' as nat + d - 10) as char
  }

  predicate AllDigits(s: bytes, base: Base) {
    forall i :: 0 <= i < |s| ==> DigitValue(s[i], base).Some?
  }

  /** The numeral of n without leading zeros. */
  function Numeral(n: nat, base: Base): (s: bytes)
    ensures s != [] && AllDigits(s, base)
    ensures forall c :: c in s ==> !IsSpace(c) && c != ';' && c != '+' && c != '-' && c != 'x' && c != 'X'
    ensures Clean(s)
    decreases n
  {
    if n < base then [DigitChar(n)]
    else Numeral(n / base, base) + [DigitChar(n % base)]
  }

  /** The value of a digit string, most significant digit first. */
  function Value(s: bytes, base: Base): nat
    requires AllDigits(s, base)
  {
    if s == [] then 0
    else Value(s[..|s| - 1], base) * base + DigitValue(s[|s| - 1], base).value
  }

  lemma {:induction false} NumeralValue(n: nat, base: Base)
    ensures Value(Numeral(n, base), base) == n
    decreases n
  {
    if n < base {
      var s := Numeral(n, base);
      assert s[..0] == [];
      assert Value([], base) == 0;
    } else {
      NumeralValue(n / base, base);
      var s := Numeral(n, base);
      assert s[..|s| - 1] == Numeral(n / base, base);
    }
  }

  function Pow(b: nat, k: nat): nat { if k == 0 then 1 else b * Pow(b, k - 1) }

  /** The value of a numeral, most significant digit first: every digit counts by its place. */
  lemma {:induction false} DigitCounts(s: bytes, base: Base)
    requires s != [] && AllDigits(s, base)
    ensures Value(s, base) == DigitValue(s[0], base).value * Pow(base, |s| - 1) + Value(s[1..], base)
    decreases |s|
  {
    var d, b := DigitValue(s[|s| - 1], base).value, base as nat;
    if |s| == 1 {
      assert s[..0] == [] && Value([], base) == 0;
    } else {
      var init, v := s[..|s| - 1], DigitValue(s[0], base).value;
      DigitCounts(init, base);
      assert s[1..][..|s| - 2] == init[1..];
      var p := Pow(base, |s| - 2);
      assert Value(s, base) == (v * p + Value(init[1..], base)) * b + d;
      Distribute(v, p, Value(init[1..], base), b);
    }
  }

  lemma Distribute(v: nat, p: nat, w: nat, b: nat)
    ensures (v * p + w) * b == v * (b * p) + w * b
  {
    assert v * p * b == v * (b * p) by { assert v * p * b == v * (p * b); }
  }

  /** No leading zero. */
  lemma {:induction false} NumeralIsShort(n: nat, base: Base)
    ensures n > 0 ==> DigitValue(Numeral(n, base)[0], base) != Some(0)
    ensures n == 0 ==> |Numeral(n, base)| == 1
    decreases n
  {
    if n >= base { NumeralIsShort(n / base, base); }
  }

  /** A 64-bit size prints as at most sixteen hexadecimal digits, so "%zx\r\n" fits size_line[32]. */
  lemma {:induction false} HexNumeralLength(n: nat, digits: nat)
    requires digits > 0 && n < Pow16(digits)
    ensures |Numeral(n, 16)| <= digits
    decreases digits
  {
    if n >= 16 {
      assert Pow16(1) == 16 * Pow16(0);
      assert digits > 1;
      assert n / 16 < Pow16(digits - 1);
      HexNumeralLength(n / 16, digits - 1);
    }
  }

  function Pow16(k: nat): nat { if k == 0 then 1 else 16 * Pow16(k - 1) }

  /** The longest prefix made of digits. */
  function DigitRun(s: bytes, base: Base): (r: bytes)
    ensures r <= s && AllDigits(r, base)
    ensures |r| < |s| ==> DigitValue(s[|r|], base).None?
  {
    if s == [] || DigitValue(s[0], base).None? then []
    else [s[0]] + DigitRun(s[1..], base)
  }

  lemma DigitRunAll(s: bytes, base: Base)
    requires AllDigits(s, base)
    ensures DigitRun(s, base) == s
  {
    assert |DigitRun(s, base)| == |s|;
  }

  /** std::from_chars into a size_t, base ten: None is a non-zero error code. Trailing bytes are ignored. */
  function FromChars(s: bytes): (r: Option<nat>)
    ensures r.Some? ==> r.value < SIZE_RANGE
  {
    var d := DigitRun(s, 10);
    if d == [] || Value(d, 10) >= SIZE_RANGE then None else Some(Value(d, 10))
  }

  /** std::stoul(s, nullptr, 16): None is an exception (nothing to convert, or out of range). */
  function Stoul16(s: bytes): (r: Option<nat>)
    ensures r.Some? ==> r.value < SIZE_RANGE
  {
    var t := TrimLeft(s);
    var signed := t != [] && (t[0] == '+' || t[0] == '-');
    var u := if signed then t[1..] else t;
    var prefixed := |u| >= 3 && u[0] == '0' && (u[1] == 'x' || u[1] == 'X') && DigitValue(u[2], 16).Some?;
    var d := DigitRun(if prefixed then u[2..] else u, 16);
    if d == [] || Value(d, 16) >= SIZE_RANGE then None
    else if signed && t[0] == '-' then Some((SIZE_RANGE - Value(d, 16)) % SIZE_RANGE)
    else Some(Value(d, 16))
  }

  lemma {:induction false} DigitRunEnds(digits: bytes, tail: bytes, base: Base)
    requires AllDigits(digits, base) && (tail == [] || DigitValue(tail[0], base).None?)
    ensures DigitRun(digits + tail, base) == digits
    decreases |digits|
  {
    if digits == [] {
      assert digits + tail == tail;
    } else {
      assert (digits + tail)[1..] == digits[1..] + tail;
      DigitRunEnds(digits[1..], tail, base);
    }
  }

  /** from_chars reads the digits in front, whatever follows; without any, or past 2^64, it fails. */
  lemma FromCharsReads(digits: bytes, tail: bytes)
    requires AllDigits(digits, 10) && (tail == [] || DigitValue(tail[0], 10).None?)
    ensures FromChars(digits + tail) == if digits == [] || Value(digits, 10) >= SIZE_RANGE then None else Some(Value(digits, 10))
  {
    DigitRunEnds(digits, tail, 10);
  }

  /** So does stoul, behind any blanks; a sign and "0x" may come before the digits, and a minus counts down from 2^64. */
  lemma StoulReads(blanks: bytes, sign: bytes, prefix: bytes, digits: bytes, tail: bytes)
    requires AllSpaces(blanks) && (sign == "" || sign == "+" || sign == "-") && (prefix == "" || prefix == "0x" || prefix == "0X")
    requires digits != [] && AllDigits(digits, 16) && (tail == [] || DigitValue(tail[0], 16).None?)
    requires !(digits == "0" && tail != [] && (tail[0] == 'x' || tail[0] == 'X'))
    ensures Stoul16(blanks + (sign + (prefix + (digits + tail)))) ==
            if Value(digits, 16) >= SIZE_RANGE then None
            else Some(if sign == "-" then (SIZE_RANGE - Value(digits, 16)) % SIZE_RANGE else Value(digits, 16))
  {
    hide Value, AllDigits, DigitRun, TrimLeft;
    var u := prefix + (digits + tail);
    var t := sign + u;
    PrefixShows(prefix, digits, tail);
    TrimsBlanks(blanks, t);
    assert if sign == "" then t == u else t[1..] == u;
  }

  /** Whether there is a prefix, and the digits behind it. */
  lemma PrefixShows(prefix: bytes, digits: bytes, tail: bytes)
    requires prefix == "" || prefix == "0x" || prefix == "0X"
    requires digits != [] && AllDigits(digits, 16) && (tail == [] || DigitValue(tail[0], 16).None?)
    requires !(digits == "0" && tail != [] && (tail[0] == 'x' || tail[0] == 'X'))
    ensures var u := prefix + (digits + tail);
            && u != [] && !IsSpace(u[0]) && u[0] != '+' && u[0] != '-'
            && var p := |u| >= 3 && u[0] == '0' && (u[1] == 'x' || u[1] == 'X') && DigitValue(u[2], 16).Some?;
               (p <==> prefix != "") && DigitRun(if p then u[2..] else u, 16) == digits
  {
    hide DigitRun;
    var u := prefix + (digits + tail);
    DigitRunEnds(digits, tail, 16);
    if prefix == "" {
      assert u == digits + tail && u[0] == digits[0] && DigitValue(digits[0], 16).Some?;
      if |digits| > 1 { assert u[1] == digits[1] && DigitValue(digits[1], 16).Some?; }
    } else {
      assert u[2..] == digits + tail && u[2] == digits[0];
    }
  }

  /** Nothing to convert. */
  lemma StoulRejects(blanks: bytes, tail: bytes)
    requires AllSpaces(blanks)
    requires tail == [] || (DigitValue(tail[0], 16).None? && !IsSpace(tail[0]) && tail[0] != '+' && tail[0] != '-')
    ensures Stoul16(blanks + tail) == None
  {
    TrimsBlanks(blanks, tail);
  }

  lemma {:induction false} TrimsBlanks(blanks: bytes, t: bytes)
    requires AllSpaces(blanks) && (t == [] || !IsSpace(t[0]))
    ensures TrimLeft(blanks + t) == t
    decreases |blanks|
  {
    if blanks == [] {
      assert blanks + t == t;
    } else {
      assert (blanks + t)[1..] == blanks[1..] + t;
      TrimsBlanks(blanks[1..], t);
    }
  }

  /** from_chars reads back what to_string prints, for every n below 2^64. */
  lemma DecimalRoundTrip(n: nat)
    requires n < SIZE_RANGE
    ensures FromChars(Numeral(n, 10)) == Some(n)
  {
    DigitRunAll(Numeral(n, 10), 10);
    NumeralValue(n, 10);
  }

  /** stoul reads back what "%zx" prints, for every n below 2^64. */
  lemma HexRoundTrip(n: nat)
    requires n < SIZE_RANGE
    ensures Stoul16(Numeral(n, 16)) == Some(n)
  {
    var s := Numeral(n, 16);
    NumeralValue(n, 16);
    PlainStoul(s);
  }

  /** On plain digits, without sign or prefix, stoul is the positional value. */
  lemma PlainStoul(s: bytes)
    requires s != [] && AllDigits(s, 16) && Value(s, 16) < SIZE_RANGE
    ensures Stoul16(s) == Some(Value(s, 16))
  {
    hide Value, DigitRun;
    assert DigitValue(s[0], 16).Some?;
    assert !IsSpace(s[0]) && s[0] != '+' && s[0] != '-';
    assert |s| > 1 ==> DigitValue(s[1], 16).Some?;
    assert |s| > 1 ==> s[1] != 'x' && s[1] != 'X';
    assert TrimLeft(s) == s;
    assert DigitRun(s, 16) == s by { DigitRunAll(s, 16); }
  }

  /** std::to_string(int). */
  function ToString(n: int): (s: bytes)
    ensures Clean(s)
  {
    if n < 0 then "-" + Numeral(-n, 10) else Numeral(n, 10)
  }
}
