/**
 * The JavaScript string primitives the library relies on: decimal digits,
 * `${n}` for integers, `String.prototype.trim`, `startsWith` and
 * `Number.parseInt(s, 10)`.  A Dafny `char` is a Unicode scalar value, where
 * a JavaScript string is a sequence of UTF-16 code units; the two agree on
 * characters of the Basic Multilingual Plane outside the surrogate range.
 */
module JsString {
  import opened Wrappers

  predicate IsDigit(c: char) { '0' <= c <= '9' }

  predicate IsUpper(c: char) { 'A' <= c <= 'Z' }

  predicate AllDigits(s: string) { forall i :: 0 <= i < |s| ==> IsDigit(s[i]) }

  predicate AllUpper(s: string) { forall i :: 0 <= i < |s| ==> IsUpper(s[i]) }

  predicate StartsWith(s: string, prefix: string) { |prefix| <= |s| && s[..|prefix|] == prefix }

  function DigitChar(d: nat): (c: char)
    requires d < 10
    ensures IsDigit(c) && c as int - '0' as int == d
  {
    ('0' as int + d) as char
  }

  /** The value of a string of decimal digits, leftmost most significant, as `Number("0042")` is 42. */
  function DecimalValue(s: string): nat
    requires AllDigits(s)
  {
    if s == [] then 0 else DecimalValue(s[..|s| - 1]) * 10 + (s[|s| - 1] as int - '0' as int)
  }

  /** The shortest decimal numeral of n, as `${n}` writes a non-negative integer. */
  function NatToDecimal(n: nat): string
  {
    if n < 10 then [DigitChar(n)] else NatToDecimal(n / 10) + [DigitChar(n % 10)]
  }

  /** `${i}` for any integer. */
  function IntToDecimal(i: int): string
  {
    if i < 0 then "-" + NatToDecimal(-i) else NatToDecimal(i)
  }

  /** A non-empty digit string without a leading zero (other than "0" itself). */
  predicate IsCanonicalDecimal(s: string)
  {
    AllDigits(s) && s != [] && (s[0] == '0' ==> |s| == 1)
  }

  lemma {:induction false} NatToDecimalIsCanonical(n: nat)
    ensures IsCanonicalDecimal(NatToDecimal(n))
    ensures DecimalValue(NatToDecimal(n)) == n
  {
    if n >= 10 {
      NatToDecimalIsCanonical(n / 10);
      var p := NatToDecimal(n / 10);
      var s := p + [DigitChar(n % 10)];
      assert s[..|s| - 1] == p;
      assert s[0] == p[0];
    }
  }

  lemma {:induction false} ZeroValueMeansZeros(s: string)
    requires AllDigits(s) && DecimalValue(s) == 0
    ensures forall i :: 0 <= i < |s| ==> s[i] == '0'
  {
    if s != [] {
      ZeroValueMeansZeros(s[..|s| - 1]);
      assert forall i :: 0 <= i < |s| - 1 ==> s[..|s| - 1][i] == s[i];
    }
  }

  /** Reading a canonical numeral and writing the number back gives the numeral. */
  lemma {:induction false} DecimalRoundTrip(s: string)
    requires IsCanonicalDecimal(s)
    ensures NatToDecimal(DecimalValue(s)) == s
  {
    if |s| == 1 {
      assert s[..0] == [];
      assert s == [DigitChar(DecimalValue(s))];
    } else {
      var p := s[..|s| - 1];
      assert p[0] == s[0];
      if DecimalValue(p) == 0 {
        ZeroValueMeansZeros(p);
        assert false;
      }
      DecimalRoundTrip(p);
      var v := DecimalValue(s);
      assert v / 10 == DecimalValue(p) && v % 10 == s[|s| - 1] as int - '0' as int;
      assert s == p + [s[|s| - 1]];
    }
  }

  /**
   * WhiteSpace and LineTerminator code points of ECMA-262 (the Zs category
   * included): what `String.prototype.trim` strips and what
   * `Number.parseInt` skips.
   */
  predicate IsJsWhitespace(c: char)
  {
    || c == '\t' || c == '\n' || c == '\U{B}' || c == '\U{C}' || c == '\r' || c == ' '
    || c == '\U{A0}' || c == '\U{1680}' || ('\U{2000}' <= c <= '\U{200A}')
    || c == '\U{2028}' || c == '\U{2029}' || c == '\U{202F}' || c == '\U{205F}'
    || c == '\U{3000}' || c == '\U{FEFF}'
  }

  predicate AllWhitespace(s: string) { forall i :: 0 <= i < |s| ==> IsJsWhitespace(s[i]) }

  /** Neither end of s is whitespace. */
  predicate IsTrimmed(s: string)
  {
    s == [] || (!IsJsWhitespace(s[0]) && !IsJsWhitespace(s[|s| - 1]))
  }

  /** s with its leading whitespace removed (`trimStart`). */
  function TrimStart(s: string): string
  {
    if s != [] && IsJsWhitespace(s[0]) then TrimStart(s[1..]) else s
  }

  /** s with its trailing whitespace removed (`trimEnd`). */
  function TrimEnd(s: string): string
  {
    if s != [] && IsJsWhitespace(s[|s| - 1]) then TrimEnd(s[..|s| - 1]) else s
  }

  /** trimStart removes a whitespace prefix and leaves a suffix that does not start with whitespace. */
  lemma {:induction false} TrimStartIsSuffix(s: string)
    ensures var r := TrimStart(s);
      |r| <= |s| && r == s[|s| - |r|..] && AllWhitespace(s[..|s| - |r|])
      && (r == [] || !IsJsWhitespace(r[0]))
  {
    if s != [] && IsJsWhitespace(s[0]) {
      TrimStartIsSuffix(s[1..]);
      var r := TrimStart(s);
      assert s[1..][..|s| - 1 - |r|] == s[1..|s| - |r|];
      assert s[..|s| - |r|] == [s[0]] + s[1..|s| - |r|];
    }
  }

  /** trimEnd removes a whitespace suffix and leaves a prefix that does not end with whitespace. */
  lemma {:induction false} TrimEndIsPrefix(s: string)
    ensures var r := TrimEnd(s);
      |r| <= |s| && r == s[..|r|] && AllWhitespace(s[|r|..])
      && (r == [] || !IsJsWhitespace(r[|r| - 1]))
  {
    if s != [] && IsJsWhitespace(s[|s| - 1]) {
      TrimEndIsPrefix(s[..|s| - 1]);
      var r := TrimEnd(s);
      assert s[..|s| - 1][|r|..] == s[|r|..|s| - 1];
      assert s[|r|..] == s[|r|..|s| - 1] + [s[|s| - 1]];
    }
  }

  /** `s.trim()`. */
  function Trim(s: string): string
  {
    TrimEnd(TrimStart(s))
  }

  /** trim removes exactly a whitespace prefix and a whitespace suffix and leaves neither end blank. */
  lemma TrimIsSlice(s: string)
    ensures var r := Trim(s);
      exists a :: 0 <= a <= |s| - |r| && r == s[a..a + |r|]
        && AllWhitespace(s[..a]) && AllWhitespace(s[a + |r|..])
    ensures IsTrimmed(Trim(s))
  {
    var t := TrimStart(s);
    var r := TrimEnd(t);
    TrimStartIsSuffix(s);
    TrimEndIsPrefix(t);
    var a := |s| - |t|;
    assert r == s[a..a + |r|];
    assert s[a + |r|..] == t[|r|..];
    if r != [] {
      assert r[0] == t[0];
    }
  }

  /** trim() is "" exactly when the whole string is whitespace (the blank test of the CSV parser). */
  lemma TrimEmptyIff(s: string)
    ensures Trim(s) == [] <==> AllWhitespace(s)
  {
    var t := TrimStart(s);
    TrimStartIsSuffix(s);
    TrimEndIsPrefix(t);
    if Trim(s) == [] {
      assert s == s[..|s| - |t|] + t;
      assert t[..0] == [];
      assert t == t[0..];
    }
  }

  /** A trimmed string is its own trim. */
  lemma TrimOfTrimmed(s: string)
    requires IsTrimmed(s)
    ensures Trim(s) == s
  {
  }

  /** trim() is idempotent. */
  lemma TrimIdempotent(s: string)
    ensures Trim(Trim(s)) == Trim(s)
  {
    TrimIsSlice(s);
    TrimOfTrimmed(Trim(s));
  }

  /** How many leading characters of s are decimal digits. */
  function DigitRunLength(s: string): (n: nat)
    ensures n <= |s| && AllDigits(s[..n])
    ensures n < |s| ==> !IsDigit(s[n])
  {
    if s != [] && IsDigit(s[0]) then
      var m := DigitRunLength(s[1..]);
      assert s[..m + 1] == [s[0]] + s[1..][..m];
      m + 1
    else 0
  }

  /**
   * `Number.parseInt(s, 10)`: skip leading whitespace, read an optional sign
   * and the longest run of decimal digits; None stands for NaN (no digits).
   */
  function ParseInt(s: string): Option<int>
  {
    var t := TrimStart(s);
    var negative := t != [] && t[0] == '-';
    var u := if t != [] && (t[0] == '-' || t[0] == '+') then t[1..] else t;
    var n := DigitRunLength(u);
    var magnitude: int := if n == 0 then 0 else DecimalValue(u[..n]);
    if n == 0 then None else Some(if negative then -magnitude else magnitude)
  }

  /** parseInt reads back every numeral `${n}` writes, even with surrounding whitespace and a trailing tail. */
  lemma {:induction false} ParseIntOfDecimal(pad: string, n: nat, tail: string)
    requires AllWhitespace(pad)
    requires tail == [] || !IsDigit(tail[0])
    ensures ParseInt(pad + NatToDecimal(n) + tail) == Some(n)
  {
    var d := NatToDecimal(n);
    NatToDecimalIsCanonical(n);
    var t := d + tail;
    assert pad + d + tail == pad + t;
    assert t[0] == d[0];
    TrimStartOfPadded(pad, t);
    DigitRunOfPrefix(d, tail);
    assert t[..|d|] == d;
    ParseIntUnsigned(pad + t);
  }

  lemma ParseIntUnsigned(s: string)
    requires var t := TrimStart(s); t != [] && IsDigit(t[0])
    ensures var t := TrimStart(s); ParseInt(s) == Some(DecimalValue(t[..DigitRunLength(t)]))
  {
  }

  lemma {:induction false} TrimStartOfPadded(pad: string, s: string)
    requires AllWhitespace(pad)
    requires s == [] || !IsJsWhitespace(s[0])
    ensures TrimStart(pad + s) == s
  {
    if pad != [] {
      assert (pad + s)[1..] == pad[1..] + s;
      TrimStartOfPadded(pad[1..], s);
    }
  }

  lemma {:induction false} DigitRunOfPrefix(d: string, tail: string)
    requires AllDigits(d)
    requires tail == [] || !IsDigit(tail[0])
    ensures DigitRunLength(d + tail) == |d|
  {
    if d != [] {
      assert (d + tail)[1..] == d[1..] + tail;
      DigitRunOfPrefix(d[1..], tail);
    }
  }
}
