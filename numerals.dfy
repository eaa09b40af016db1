/**
 * Decimal rendering of non-negative integers (what JavaScript's `number + string`
 * produces for them) and `Number.parseInt` without a radix.
 */
module Numerals {
  import opened Util

  predicate IsDigit(c: char) {
    '0' <= c <= '9'
  }

  function DigitChar(d: nat): (c: char)
    requires d < 10
    ensures IsDigit(c)
  {
    "0123456789"[d]
  }

  function DigitValue(c: char): (d: nat)
    requires IsDigit(c)
    ensures d < 10
  {
    (c as int - '0' as int) as nat
  }

  /** The shortest decimal spelling of `n`. */
  function NatToString(n: nat): (s: string)
    ensures |s| > 0
    ensures forall i :: 0 <= i < |s| ==> IsDigit(s[i])
    ensures |s| > 1 ==> s[0] != '0'
  {
    if n < 10 then [DigitChar(n)] else NatToString(n / 10) + [DigitChar(n % 10)]
  }

  /** Value of a non-empty run of decimal digits. */
  function DecimalValue(s: string): (n: nat)
    requires forall i :: 0 <= i < |s| ==> IsDigit(s[i])
  {
    if |s| == 0 then 0 else DecimalValue(s[..|s| - 1]) * 10 + DigitValue(s[|s| - 1])
  }

  predicate IsHexDigit(c: char) {
    IsDigit(c) || 'a' <= c <= 'f' || 'A' <= c <= 'F'
  }

  function HexValue(c: char): (d: nat)
    requires IsHexDigit(c)
    ensures d < 16
  {
    if IsDigit(c) then DigitValue(c)
    else if 'a' <= c <= 'f' then (c as int - 'a' as int + 10) as nat
    else (c as int - 'A' as int + 10) as nat
  }

  function HexNumber(s: string): (n: nat)
    requires forall i :: 0 <= i < |s| ==> IsHexDigit(s[i])
  {
    if |s| == 0 then 0 else HexNumber(s[..|s| - 1]) * 16 + HexValue(s[|s| - 1])
  }

  /** Length of the longest prefix of `s` whose characters all satisfy `p`. */
  function PrefixLength(s: string, p: char -> bool): (k: nat)
    ensures k <= |s|
    ensures forall i :: 0 <= i < k ==> p(s[i])
    ensures k < |s| ==> !p(s[k])
  {
    if |s| == 0 || !p(s[0]) then 0 else 1 + PrefixLength(s[1..], p)
  }

  /**
   * The white space `parseInt` skips before the number: the ECMAScript WhiteSpace
   * characters (tab, vertical tab, form feed, the byte order mark and every space
   * separator of Unicode category Zs) and the LineTerminator characters.
   */
  predicate IsJsSpace(c: char) {
    || c == '\t' || c == '\U{0B}' || c == '\U{0C}' || c == '\U{FEFF}'
    || c == ' ' || c == '\U{A0}' || c == '\U{1680}' || '\U{2000}' <= c <= '\U{200A}'
    || c == '\U{202F}' || c == '\U{205F}' || c == '\U{3000}'
    || c == '\n' || c == '\r' || c == '\U{2028}' || c == '\U{2029}'
  }

  /** `s` without its leading white space. */
  function TrimStart(s: string): (t: string)
    ensures |t| <= |s| && t == s[|s| - |t|..]
    ensures forall i :: 0 <= i < |s| - |t| ==> IsJsSpace(s[i])
    ensures |t| > 0 ==> !IsJsSpace(t[0])
  {
    s[PrefixLength(s, IsJsSpace)..]
  }

  /** The text after an optional leading `+` or `-`. */
  function Unsigned(t: string): (u: string)
    ensures |t| > 0 && (t[0] == '+' || t[0] == '-') ==> u == t[1..]
    ensures !(|t| > 0 && (t[0] == '+' || t[0] == '-')) ==> u == t
  {
    if |t| > 0 && (t[0] == '-' || t[0] == '+') then t[1..] else t
  }

  /** The magnitude, negated when the text starts with `-`. */
  function Signed(t: string, magnitude: nat): int {
    if |t| > 0 && t[0] == '-' then -(magnitude as int) else magnitude
  }

  /** The text starts with `0x` or `0X`. */
  predicate HexPrefixed(u: string) {
    |u| >= 2 && u[0] == '0' && (u[1] == 'x' || u[1] == 'X')
  }

  /**
   * `Number.parseInt(s)` with no radix: skip leading white space, read an optional
   * sign, then a `0x`/`0X` prefix selects base 16; the longest run of digits is
   * read and anything after it ignored. No digit at all gives NaN, here `None`.
   */
  function ParseInt(s: string): (r: Option<int>)
    ensures var t := TrimStart(s); var u := Unsigned(t);
      && (r.Some? <==> |u| > 0 && IsDigit(u[0]) && !(HexPrefixed(u) && (|u| == 2 || !IsHexDigit(u[2]))))
      && (r.Some? && !HexPrefixed(u) ==>
            var digits := u[..PrefixLength(u, IsDigit)];
            r.value == Signed(t, DecimalValue(digits)))
      && (r.Some? && HexPrefixed(u) ==>
            var digits := u[2..][..PrefixLength(u[2..], IsHexDigit)];
            r.value == Signed(t, HexNumber(digits)))
  {
    var t := TrimStart(s);
    var u := Unsigned(t);
    var hex := HexPrefixed(u);
    var body := if hex then u[2..] else u;
    var k := if hex then PrefixLength(body, IsHexDigit) else PrefixLength(body, IsDigit);
    if k == 0 then None
    else
      var magnitude := if hex then HexNumber(body[..k]) else DecimalValue(body[..k]);
      Some(Signed(t, magnitude))
  }

  /**
   * Text whose trimmed, unsigned part starts with a decimal digit and no `0x` reads
   * as the value of its leading run of digits, negated after `-`.
   */
  lemma ParseIntDecimalRun(s: string)
    requires var u := Unsigned(TrimStart(s)); |u| > 0 && IsDigit(u[0]) && !HexPrefixed(u)
    ensures var t := TrimStart(s); var u := Unsigned(t);
      ParseInt(s) == Some(Signed(t, DecimalValue(u[..PrefixLength(u, IsDigit)])))
  {
  }

  /**
   * White space, an optional sign, a run of decimal digits and a tail that does not
   * continue the run (nor turn a lone `0` into a `0x` prefix) read as the run's value,
   * negated after `-`.
   */
  lemma ParseIntOfDecimal(spaces: string, sign: string, digits: string, rest: string)
    requires forall i :: 0 <= i < |spaces| ==> IsJsSpace(spaces[i])
    requires |sign| <= 1 && (|sign| == 1 ==> sign[0] == '+' || sign[0] == '-')
    requires |digits| > 0 && forall i :: 0 <= i < |digits| ==> IsDigit(digits[i])
    requires |rest| > 0 ==> !IsDigit(rest[0])
    requires |digits| == 1 && digits[0] == '0' && |rest| > 0 ==> rest[0] != 'x' && rest[0] != 'X'
    ensures ParseInt(spaces + (sign + (digits + rest))) == Some(Signed(sign, DecimalValue(digits)))
  {
    var u := digits + rest;
    var t := sign + u;
    assert TrimStart(spaces + t) == t && Unsigned(t) == u && (t[0] == '-' <==> |sign| > 0 && sign[0] == '-') by {
      SignedRunParts(sign, digits, rest);
      TrimStartAfter(spaces, t);
    }
    assert |u| > 0 && IsDigit(u[0]) && !HexPrefixed(u) && u[..PrefixLength(u, IsDigit)] == digits by {
      DecimalRunNotHex(digits, rest);
      PrefixLengthAfter(digits, rest, IsDigit);
      assert u[..|digits|] == digits;
    }
    ParseIntOfParts(spaces + t, t, u, sign, digits);
  }

  lemma ParseIntOfParts(s: string, t: string, u: string, sign: string, digits: string)
    requires TrimStart(s) == t && Unsigned(t) == u && (|t| > 0 && t[0] == '-' <==> |sign| > 0 && sign[0] == '-')
    requires |u| > 0 && IsDigit(u[0]) && !HexPrefixed(u)
    requires forall i :: 0 <= i < |digits| ==> IsDigit(digits[i])
    requires u[..PrefixLength(u, IsDigit)] == digits
    ensures ParseInt(s) == Some(Signed(sign, DecimalValue(digits)))
  {
    ParseIntDecimalRun(s);
  }

  lemma SignedRunParts(sign: string, digits: string, rest: string)
    requires |sign| <= 1 && (|sign| == 1 ==> sign[0] == '+' || sign[0] == '-')
    requires |digits| > 0 && IsDigit(digits[0])
    ensures var t := sign + (digits + rest);
      && !IsJsSpace(t[0])
      && Unsigned(t) == digits + rest
      && (t[0] == '-' <==> |sign| > 0 && sign[0] == '-')
  {
    var t := sign + (digits + rest);
    if |sign| == 1 {
      assert t[0] == sign[0];
      assert t[1..] == digits + rest;
    } else {
      assert t == digits + rest;
    }
  }

  lemma TrimStartAfter(spaces: string, t: string)
    requires forall i :: 0 <= i < |spaces| ==> IsJsSpace(spaces[i])
    requires |t| > 0 ==> !IsJsSpace(t[0])
    ensures TrimStart(spaces + t) == t
  {
    PrefixLengthAfter(spaces, t, IsJsSpace);
    assert (spaces + t)[|spaces|..] == t;
  }

  lemma DecimalRunNotHex(digits: string, rest: string)
    requires |digits| > 0 && forall i :: 0 <= i < |digits| ==> IsDigit(digits[i])
    requires |digits| == 1 && digits[0] == '0' && |rest| > 0 ==> rest[0] != 'x' && rest[0] != 'X'
    ensures !HexPrefixed(digits + rest)
  {
    var u := digits + rest;
    if |digits| >= 2 {
      assert u[1] == digits[1];
    } else if |rest| > 0 && digits[0] == '0' {
      assert u[1] == rest[0];
    }
  }

  /** A prefix all of whose characters satisfy `p`, followed by one that does not start with such a character. */
  lemma {:induction false} PrefixLengthAfter(a: string, b: string, p: char -> bool)
    requires forall i :: 0 <= i < |a| ==> p(a[i])
    requires |b| > 0 ==> !p(b[0])
    ensures PrefixLength(a + b, p) == |a|
  {
    if |a| > 0 {
      assert (a + b)[1..] == a[1..] + b;
      PrefixLengthAfter(a[1..], b, p);
    }
  }

  lemma {:induction false} DecimalValueOfNatToString(n: nat)
    ensures DecimalValue(NatToString(n)) == n
  {
    var s := NatToString(n);
    if n >= 10 {
      DecimalValueOfNatToString(n / 10);
      assert s[..|s| - 1] == NatToString(n / 10);
    }
  }

  /** Reading back a rendered non-negative integer gives the integer. */
  lemma ParseIntOfNatToString(n: nat)
    ensures ParseInt(NatToString(n)) == Some(n)
  {
    ParseIntOfDigits(NatToString(n));
    DecimalValueOfNatToString(n);
  }

  /** A bare run of decimal digits without a leading `0x` reads as its value. */
  lemma ParseIntOfDigits(s: string)
    requires |s| > 0 && forall i :: 0 <= i < |s| ==> IsDigit(s[i])
    requires |s| > 1 ==> s[0] != '0'
    ensures ParseInt(s) == Some(DecimalValue(s))
  {
    UnchangedByTrimAndSign(s);
    PrefixOfAll(s, IsDigit);
    assert s[..|s|] == s;
    ParseIntDecimalRun(s);
  }

  /** Text starting with a digit has no white space or sign to drop. */
  lemma UnchangedByTrimAndSign(s: string)
    requires |s| > 0 && IsDigit(s[0])
    ensures TrimStart(s) == s
    ensures Unsigned(s) == s
  {
    assert !IsJsSpace(s[0]);
    assert PrefixLength(s, IsJsSpace) == 0;
    assert s[0..] == s;
  }

  lemma {:induction false} PrefixOfAll(s: string, p: char -> bool)
    requires forall i :: 0 <= i < |s| ==> p(s[i])
    ensures PrefixLength(s, p) == |s|
  {
    if |s| > 0 {
      PrefixOfAll(s[1..], p);
    }
  }
}
