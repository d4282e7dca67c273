/**
  `parseInt(string)` with the radix omitted, after ECMA-262 section 19.2.5
  ("parseInt ( string, radix )"): skip leading StrWhiteSpaceChar, take one
  optional sign, switch to radix 16 after a "0x"/"0X" prefix (radix 10
  otherwise), then read the longest prefix of radix digits; no digit at all
  gives NaN, modelled as None. The result is a mathematical integer: the
  rounding to a double of values beyond 2^53 is not modelled.

  Also the decimal rendering of an integer, as Number::toString gives it for
  integer values of magnitude up to 2^53. Above that, toString writes the
  shortest digits that round-trip the double, which this exact expansion does
  not model; from 10^21 on it switches to exponent notation.
*/
module NumberParsing {
  import opened Wrappers

  /** WhiteSpace and LineTerminator code points (ECMA-262 sections 12.2 and 12.3). */
  predicate IsStrWhiteSpaceChar(c: char) {
    || c == '\t' || c == '\U{B}' || c == '\U{C}' || c == ' ' || c == '\U{A0}' || c == '\U{FEFF}'
    || c == '\U{1680}' || ('\U{2000}' <= c <= '\U{200A}') || c == '\U{202F}' || c == '\U{205F}' || c == '\U{3000}'
    || c == '\n' || c == '\r' || c == '\U{2028}' || c == '\U{2029}'
  }

  predicate AllWhiteSpace(s: string) {
    forall i :: 0 <= i < |s| ==> IsStrWhiteSpaceChar(s[i])
  }

  /** TrimString(S, start): drop the leading white space. */
  function TrimStart(s: string): (r: string)
    ensures |r| <= |s|
    decreases |s|
  {
    if s != [] && IsStrWhiteSpaceChar(s[0]) then TrimStart(s[1..]) else s
  }

  /**
    What TrimStart removes is white space, and what it keeps is the rest of
    the text, starting at its first code point that is not white space.
  */
  lemma {:induction false} TrimStartSpec(s: string)
    ensures TrimStart(s) == s[|s| - |TrimStart(s)|..]
    ensures AllWhiteSpace(s[..|s| - |TrimStart(s)|])
    ensures TrimStart(s) == [] || !IsStrWhiteSpaceChar(TrimStart(s)[0])
    decreases |s|
  {
    if s != [] && IsStrWhiteSpaceChar(s[0]) {
      TrimStartSpec(s[1..]);
      var n := |s| - |TrimStart(s)|;
      assert s[..n] == [s[0]] + s[1..][..n - 1];
    }
  }

  predicate IsDecimalDigit(c: char) {
    '0' <= c <= '9'
  }

  /** The value of `c` as a digit of radix up to 36: 0-9, then a-z or A-Z for 10-35. */
  function DigitValue(c: char): (r: Option<nat>)
    ensures r.Some? ==> r.value < 36
    ensures IsDecimalDigit(c) <==> r.Some? && r.value < 10
  {
    if '0' <= c <= '9' then Some(c as int - '0' as int)
    else if 'a' <= c <= 'z' then Some(c as int - 'a' as int + 10)
    else if 'A' <= c <= 'Z' then Some(c as int - 'A' as int + 10)
    else None
  }

  predicate IsRadixDigit(c: char, radix: nat) {
    DigitValue(c).Some? && DigitValue(c).value < radix
  }

  predicate AllRadixDigits(s: string, radix: nat) {
    forall i :: 0 <= i < |s| ==> IsRadixDigit(s[i], radix)
  }

  /** The index of the first code point that is not a radix digit, or |s|. */
  function DigitPrefixLength(s: string, radix: nat): (n: nat)
    ensures n <= |s|
    decreases |s|
  {
    if s != [] && IsRadixDigit(s[0], radix) then 1 + DigitPrefixLength(s[1..], radix) else 0
  }

  /** The prefix is all radix digits, and it is the longest such prefix. */
  lemma {:induction false} DigitPrefixSpec(s: string, radix: nat)
    ensures AllRadixDigits(s[..DigitPrefixLength(s, radix)], radix)
    ensures DigitPrefixLength(s, radix) < |s| ==> !IsRadixDigit(s[DigitPrefixLength(s, radix)], radix)
    decreases |s|
  {
    if s != [] && IsRadixDigit(s[0], radix) {
      DigitPrefixSpec(s[1..], radix);
      var n := DigitPrefixLength(s, radix);
      assert s[..n] == [s[0]] + s[1..][..n - 1];
    }
  }

  /**
    The integer that a string of radix digits denotes, most significant digit
    first. It is applied to radix digits only; any other code point would
    count as 0.
  */
  function DigitsValue(digits: string, radix: nat): nat
    decreases |digits|
  {
    if digits == [] then 0
    else
      var last := match DigitValue(digits[|digits| - 1]) case Some(v) => v case None => 0;
      DigitsValue(digits[..|digits| - 1], radix) * radix + last
  }

  /** One optional sign: -1 after "-", otherwise 1; the rest of the text. */
  function SplitSign(t: string): (r: (int, string))
    ensures r.0 == -1 <==> t != [] && t[0] == '-'
    ensures r.0 == 1 || r.0 == -1
    ensures r.1 == if t != [] && (t[0] == '+' || t[0] == '-') then t[1..] else t
  {
    if t != [] && t[0] == '-' then (-1, t[1..])
    else if t != [] && t[0] == '+' then (1, t[1..])
    else (1, t)
  }

  predicate HasHexPrefix(u: string) {
    |u| >= 2 && u[0] == '0' && (u[1] == 'x' || u[1] == 'X')
  }

  /** The unsigned part: radix 16 after "0x"/"0X", radix 10 otherwise; None without a digit. */
  function Magnitude(u: string): (r: Option<nat>)
  {
    var radix := if HasHexPrefix(u) then 16 else 10;
    var v := if HasHexPrefix(u) then u[2..] else u;
    var n := DigitPrefixLength(v, radix);
    if n == 0 then None else Some(DigitsValue(v[..n], radix))
  }

  function ParseInt(s: string): Option<int> {
    var (sign, u) := SplitSign(TrimStart(s));
    match Magnitude(u)
    case None => None
    case Some(m) => Some(sign * m)
  }

  /** Number::toString switches to exponent notation from this magnitude on. */
  const ToStringDecimalLimit: int := 1_000_000_000_000_000_000_000

  function DigitChar(d: nat): (c: char)
    requires d < 10
    ensures IsDecimalDigit(c) && DigitValue(c) == Some(d)
  {
    ('0' as int + d) as char
  }

  /** The shortest decimal numeral of `n`: digits only, no leading zero unless `n` is 0. */
  function DecimalString(n: nat): (r: string)
    ensures r != [] && AllRadixDigits(r, 10)
    ensures r[0] == '0' ==> n == 0
    decreases n
  {
    if n < 10 then [DigitChar(n)] else DecimalString(n / 10) + [DigitChar(n % 10)]
  }

  function NumberToString(i: int): string
    requires -ToStringDecimalLimit < i < ToStringDecimalLimit
  {
    if i < 0 then "-" + DecimalString(-i) else DecimalString(i)
  }

  /** Reading back a decimal numeral gives the number it was written from. */
  lemma {:induction false} DigitsValueOfDecimalString(n: nat)
    ensures DigitsValue(DecimalString(n), 10) == n
    decreases n
  {
    var r := DecimalString(n);
    if n >= 10 {
      assert r[..|r| - 1] == DecimalString(n / 10);
      DigitsValueOfDecimalString(n / 10);
    }
  }

  /** The digit prefix of digits followed by a non-digit is exactly those digits. */
  lemma {:induction false} DigitPrefixOfDigits(digits: string, rest: string, radix: nat)
    requires AllRadixDigits(digits, radix)
    requires rest == [] || !IsRadixDigit(rest[0], radix)
    ensures DigitPrefixLength(digits + rest, radix) == |digits|
    decreases |digits|
  {
    if digits == [] {
      assert digits + rest == rest;
    } else {
      assert (digits + rest)[0] == digits[0];
      assert (digits + rest)[1..] == digits[1..] + rest;
      DigitPrefixOfDigits(digits[1..], rest, radix);
    }
  }

  /** A decimal numeral that does not look like a "0x" prefix reads as its value. */
  lemma MagnitudeOfDecimal(d: string, rest: string)
    requires d != [] && AllRadixDigits(d, 10)
    requires rest == [] || !IsDecimalDigit(rest[0])
    requires !HasHexPrefix(d + rest)
    ensures Magnitude(d + rest) == Some(DigitsValue(d, 10))
  {
    assert rest == [] || !IsRadixDigit(rest[0], 10);
    DigitPrefixOfDigits(d, rest, 10);
    assert (d + rest)[..|d|] == d;
  }

  /** A numeral written by DecimalString starts a "0x" prefix only as "0" followed by "x". */
  lemma DecimalNotHexPrefix(m: nat, rest: string)
    requires m == 0 ==> rest == [] || (rest[0] != 'x' && rest[0] != 'X')
    ensures !HasHexPrefix(DecimalString(m) + rest)
  {
    var d := DecimalString(m);
    if d[0] == '0' {
      assert d == [DigitChar(0)];
      assert (d + rest)[1..] == rest;
    }
  }

  /** The magnitude of a decimal numeral followed by text that cannot continue it. */
  lemma ReadDecimal(m: nat, rest: string)
    requires rest == [] || !IsDecimalDigit(rest[0])
    requires m == 0 ==> rest == [] || (rest[0] != 'x' && rest[0] != 'X')
    ensures IsDecimalDigit((DecimalString(m) + rest)[0])
    ensures Magnitude(DecimalString(m) + rest) == Some(m)
  {
    var d := DecimalString(m);
    DigitsValueOfDecimalString(m);
    DecimalNotHexPrefix(m, rest);
    MagnitudeOfDecimal(d, rest);
    assert (d + rest)[0] == d[0];
  }

  /** One of the three ways a numeral may begin: no sign, "+" or "-". */
  predicate IsSign(sign: string) {
    sign == "" || sign == "+" || sign == "-"
  }

  /** Text made of an optional sign and a digit is read from its first code point on. */
  lemma ParseIntAtSignOrDigit(s: string, sign: string, u: string, m: nat)
    requires IsSign(sign)
    requires u != [] && IsDecimalDigit(u[0]) && Magnitude(u) == Some(m)
    requires s == sign + u
    ensures ParseInt(s) == Some(if sign == "-" then -(m as int) else m as int)
  {
    assert s[0] == '-' || s[0] == '+' || s[0] == u[0];
    assert TrimStart(s) == s;
    if sign != "" {
      assert s[1..] == u;
    } else {
      assert s == u;
    }
  }

  /**
    parseInt reads back what toString wrote, and stops at the first code point
    that cannot continue the numeral: "12ab" gives 12. After "0" an "x" would
    start a hexadecimal numeral instead, so that case is excluded.
  */
  lemma ParseIntOfNumberToString(i: int, rest: string)
    requires -ToStringDecimalLimit < i < ToStringDecimalLimit
    requires rest == [] || !IsDecimalDigit(rest[0])
    requires i == 0 ==> rest == [] || (rest[0] != 'x' && rest[0] != 'X')
    ensures ParseInt(NumberToString(i) + rest) == Some(i)
  {
    var m: nat := if i < 0 then -i else i;
    var d := DecimalString(m);
    var sign := if i < 0 then "-" else "";
    var s := NumberToString(i) + rest;
    assert s == sign + (d + rest);
    ReadDecimal(m, rest);
    ParseIntAtSignOrDigit(s, sign, d + rest, m);
  }

  lemma {:induction false} TrimStartSkips(w: string, s: string)
    requires AllWhiteSpace(w)
    ensures TrimStart(w + s) == TrimStart(s)
    decreases |w|
  {
    if w == [] {
      assert w + s == s;
    } else {
      assert (w + s)[0] == w[0];
      assert (w + s)[1..] == w[1..] + s;
      TrimStartSkips(w[1..], s);
    }
  }

  /** Leading white space never changes the result. */
  lemma ParseIntSkipsWhiteSpace(w: string, s: string)
    requires AllWhiteSpace(w)
    ensures ParseInt(w + s) == ParseInt(s)
  {
    TrimStartSkips(w, s);
  }

  lemma ConcatAssociative(a: string, b: string, c: string, d: string)
    ensures a + b + c + d == a + (b + (c + d))
  {
  }

  /**
    The general decimal case: white space, an optional sign, a run of decimal
    digits (leading zeros allowed) and text that cannot continue the run read
    as the signed value of the digits. Only "0x"/"0X" at the start of the
    digits would switch to radix 16 instead.
  */
  lemma ParseIntOfDecimal(w: string, sign: string, digits: string, rest: string)
    requires AllWhiteSpace(w) && IsSign(sign)
    requires digits != [] && AllRadixDigits(digits, 10)
    requires rest == [] || !IsDecimalDigit(rest[0])
    requires !HasHexPrefix(digits + rest)
    ensures ParseInt(w + sign + digits + rest) ==
      Some(if sign == "-" then -(DigitsValue(digits, 10) as int) else DigitsValue(digits, 10) as int)
  {
    ConcatAssociative(w, sign, digits, rest);
    ParseIntOfSignedDecimal(sign, digits, rest);
    ParseIntSkipsWhiteSpace(w, sign + (digits + rest));
  }

  /** The same without leading white space. */
  lemma ParseIntOfSignedDecimal(sign: string, digits: string, rest: string)
    requires IsSign(sign)
    requires digits != [] && AllRadixDigits(digits, 10)
    requires rest == [] || !IsDecimalDigit(rest[0])
    requires !HasHexPrefix(digits + rest)
    ensures ParseInt(sign + (digits + rest)) ==
      Some(if sign == "-" then -(DigitsValue(digits, 10) as int) else DigitsValue(digits, 10) as int)
  {
    MagnitudeOfDecimal(digits, rest);
    assert (digits + rest)[0] == digits[0];
    ParseIntAtSignOrDigit(sign + (digits + rest), sign, digits + rest, DigitsValue(digits, 10));
  }

  /** Text without any decimal digit is NaN: there is no "0" to start a "0x" prefix either. */
  lemma ParseIntWithoutDigits(s: string)
    requires forall i :: 0 <= i < |s| ==> !IsDecimalDigit(s[i])
    ensures ParseInt(s) == None
  {
    var t := TrimStart(s);
    TrimStartSpec(s);
    assert forall k :: 0 <= k < |t| ==> t[k] == s[|s| - |t| + k];
    var u := SplitSign(t).1;
    assert u != [] ==> !IsRadixDigit(u[0], 10);
    assert !HasHexPrefix(u);
  }

  /**
    Text whose first code point after the white space and the optional sign is
    no decimal digit is NaN: "abc5", "--5", "+ 5" and " -x" all give NaN.
  */
  lemma ParseIntNoLeadingDigit(w: string, sign: string, rest: string)
    requires AllWhiteSpace(w) && IsSign(sign)
    requires rest == [] || !IsDecimalDigit(rest[0])
    requires sign == "" ==> rest == [] || (!IsStrWhiteSpaceChar(rest[0]) && rest[0] != '+' && rest[0] != '-')
    ensures ParseInt(w + sign + rest) == None
  {
    var s := sign + rest;
    assert w + sign + rest == w + s;
    ParseIntSkipsWhiteSpace(w, s);
    assert TrimStart(s) == s by {
      if sign != "" {
        assert s[0] == sign[0];
      } else {
        assert s == rest;
      }
    }
    assert SplitSign(s).1 == rest by {
      if sign != "" {
        assert s[1..] == rest;
      } else {
        assert s == rest;
      }
    }
    assert !HasHexPrefix(rest);
    assert DigitPrefixLength(rest, 10) == 0;
  }

  /** "0x" followed by no hexadecimal digit is NaN, although it starts with the digit 0. */
  lemma ParseIntBareHexPrefix(rest: string)
    requires rest == [] || !IsRadixDigit(rest[0], 16)
    ensures ParseInt("0x" + rest) == None
  {
    var s := "0x" + rest;
    assert TrimStart(s) == s by { assert s[0] == '0'; }
    assert SplitSign(s) == (1, s);
    assert HasHexPrefix(s) && s[2..] == rest;
  }
}
