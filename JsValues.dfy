/**
 * The pieces of JavaScript value semantics the handlers depend on:
 * `parseInt` without a radix, `Number(string)`, `String(n)` for integers,
 * ASCII `toLowerCase`, and `Math.min` / `Math.max` applied to a number that
 * may be NaN.
 */
module JsValues {

  datatype Option<+T> = None | Some(value: T)

  /** A JavaScript number as the handlers see it: NaN or an integer. */
  datatype JsNum = NaN | Int(value: int)

  /** JavaScript truthiness of a number: NaN and 0 are falsy. */
  predicate Truthy(n: JsNum) {
    n.Int? && n.value != 0
  }

  // ---------------------------------------------------------------------------
  // White space

  /** WhiteSpace or LineTerminator code points of ECMAScript (sections 12.2 and 12.3 of ECMA-262). */
  predicate IsJsSpace(c: char) {
    var k := c as int;
    k == 0x09 || k == 0x0A || k == 0x0B || k == 0x0C || k == 0x0D || k == 0x20 || k == 0xA0
    || k == 0x1680 || (0x2000 <= k <= 0x200A) || k == 0x2028 || k == 0x2029 || k == 0x202F
    || k == 0x205F || k == 0x3000 || k == 0xFEFF
  }

  /** Drops leading white space, as `parseInt` does before it reads a sign. */
  function TrimStart(s: string): (r: string)
    ensures |r| <= |s| && r == s[|s| - |r|..]
    ensures r != [] ==> !IsJsSpace(r[0])
    ensures forall i :: 0 <= i < |s| - |r| ==> IsJsSpace(s[i])
  {
    if s != [] && IsJsSpace(s[0]) then TrimStart(s[1..]) else s
  }

  lemma TrimStartNoSpace(s: string)
    requires s != [] && !IsJsSpace(s[0])
    ensures TrimStart(s) == s
  {
  }

  /** Drops trailing white space. */
  function TrimEnd(s: string): (r: string)
    ensures |r| <= |s| && r == s[..|r|]
    ensures r != [] ==> !IsJsSpace(r[|r| - 1])
    ensures forall i :: |r| <= i < |s| ==> IsJsSpace(s[i])
  {
    if s != [] && IsJsSpace(s[|s| - 1]) then TrimEnd(s[..|s| - 1]) else s
  }

  // ---------------------------------------------------------------------------
  // Digits

  /** The value of `c` as a digit of radix up to 36: '0'..'9', then 'a'..'z' or 'A'..'Z'. */
  function DigitValue(c: char): (d: Option<nat>)
    ensures d.Some? ==> d.value < 36
    ensures d.Some? && d.value < 10 <==> '0' <= c <= '9'
  {
    if '0' <= c <= '9' then Some(c as int - '0' as int)
    else if 'a' <= c <= 'z' then Some(c as int - 'a' as int + 10)
    else if 'A' <= c <= 'Z' then Some(c as int - 'A' as int + 10)
    else None
  }

  predicate IsDigit(c: char, radix: nat) {
    DigitValue(c).Some? && DigitValue(c).value < radix
  }

  predicate AllDigits(z: string, radix: nat) {
    forall i :: 0 <= i < |z| ==> IsDigit(z[i], radix)
  }

  /** The longest prefix of `s` made of digits of the given radix. */
  function DigitPrefix(s: string, radix: nat): (z: string)
    ensures z <= s
    ensures AllDigits(z, radix)
    ensures |z| < |s| ==> !IsDigit(s[|z|], radix)
  {
    if s != [] && IsDigit(s[0], radix) then [s[0]] + DigitPrefix(s[1..], radix) else []
  }

  /** The value of a digit string, most significant digit first. */
  function DigitsValue(z: string, radix: nat): nat
    requires AllDigits(z, radix)
  {
    if z == [] then 0 else DigitsValue(z[..|z| - 1], radix) * radix + DigitValue(z[|z| - 1]).value
  }

  // ---------------------------------------------------------------------------
  // parseInt

  /**
   * `parseInt(s)` with no radix argument: leading white space is skipped, one
   * sign is read, a `0x`/`0X` prefix selects radix 16, and the longest run of
   * digits that follows is the value; no digits gives NaN. The precision loss
   * of very long digit runs is not modelled (integers are exact).
   */
  function ParseInt(s: string): (r: JsNum)
    ensures TrimStart(s) == [] ==> r.NaN?
    ensures r.Int? && r.value < 0 ==> TrimStart(s) != [] && TrimStart(s)[0] == '-'
  {
    var t := TrimStart(s);
    if t != [] && t[0] == '-' then NegateInt(UnsignedParseInt(t[1..]))
    else if t != [] && t[0] == '+' then UnsignedParseInt(t[1..])
    else UnsignedParseInt(t)
  }

  /** `parseInt` after the sign: an optional `0x`/`0X` prefix, then the longest run of digits. */
  function UnsignedParseInt(u: string): JsNum {
    var hex := |u| >= 2 && u[0] == '0' && (u[1] == 'x' || u[1] == 'X');
    var radix := if hex then 16 else 10;
    var z := DigitPrefix(if hex then u[2..] else u, radix);
    if z == [] then NaN else Int(DigitsValue(z, radix))
  }

  /** The value of a leading minus sign; NaN stays NaN. */
  function NegateInt(n: JsNum): JsNum {
    match n
    case NaN => NaN
    case Int(v) => Int(0 - v)
  }

  // ---------------------------------------------------------------------------
  // Integer to string

  function DigitChar(d: nat): (c: char)
    requires d < 10
    ensures IsDigit(c, 10) && DigitValue(c) == Some(d)
  {
    ('0' as int + d) as char
  }

  /** Decimal digits of `n` with no leading zero, as `String(n)` writes a safe integer. */
  function NatToString(n: nat): (s: string)
    ensures s != [] && AllDigits(s, 10)
  {
    if n < 10 then [DigitChar(n)] else NatToString(n / 10) + [DigitChar(n % 10)]
  }

  /** `String(n)` for an integer `n`. */
  function IntToString(n: int): string {
    if n < 0 then "-" + NatToString(-n) else NatToString(n)
  }

  lemma IntToStringNonEmpty(n: int)
    ensures IntToString(n) != []
  {
    if n >= 0 {
      assert IntToString(n) == NatToString(n);
    }
  }

  lemma {:induction false} DigitsValueOfNatToString(n: nat)
    ensures DigitsValue(NatToString(n), 10) == n
  {
    if n >= 10 {
      var s := NatToString(n);
      assert s[..|s| - 1] == NatToString(n / 10);
      DigitsValueOfNatToString(n / 10);
    }
  }

  lemma {:induction false} DigitPrefixOfDigits(z: string, rest: string, radix: nat)
    requires AllDigits(z, radix)
    requires rest == [] || !IsDigit(rest[0], radix)
    ensures DigitPrefix(z + rest, radix) == z
  {
    if z != [] {
      assert (z + rest)[1..] == z[1..] + rest;
      DigitPrefixOfDigits(z[1..], rest, radix);
    }
  }

  /** Unsigned `parseInt` of decimal digits followed by a character that is not a digit. */
  lemma UnsignedParseIntOfDigits(digits: string, rest: string)
    requires digits != [] && AllDigits(digits, 10)
    requires rest == [] || DigitValue(rest[0]).None?
    ensures UnsignedParseInt(digits + rest) == Int(DigitsValue(digits, 10))
  {
    var u := digits + rest;
    assert !(|u| >= 2 && (u[1] == 'x' || u[1] == 'X')) by {
      if |u| >= 2 {
        if |digits| >= 2 {
          assert u[1] == digits[1];
        } else {
          assert rest != [] && u[1] == rest[0];
        }
      }
    }
    DigitPrefixOfDigits(digits, rest, 10);
  }

  /** `parseInt` of a string that starts with decimal digits and has no sign. */
  lemma ParseIntOfDigits(digits: string, rest: string)
    requires digits != [] && AllDigits(digits, 10)
    requires rest == [] || DigitValue(rest[0]).None?
    ensures ParseInt(digits + rest) == Int(DigitsValue(digits, 10))
  {
    var u := digits + rest;
    assert u[0] == digits[0];
    assert IsDigit(digits[0], 10);
    assert u[0] != '-' && u[0] != '+';
    TrimStartNoSpace(u);
    UnsignedParseIntOfDigits(digits, rest);
  }

  /** `parseInt` of a minus sign followed by decimal digits. */
  lemma ParseIntOfNegativeDigits(t: string, digits: string, rest: string)
    requires digits != [] && AllDigits(digits, 10)
    requires rest == [] || DigitValue(rest[0]).None?
    requires t != [] && t[0] == '-' && t[1..] == digits + rest
    ensures ParseInt(t) == Int(0 - DigitsValue(digits, 10))
  {
    TrimStartNoSpace(t);
    UnsignedParseIntOfDigits(digits, rest);
  }

  /**
   * `parseInt` reads back what `String` writes, and it stops at the first
   * character that is not a letter or digit: `parseInt(String(n) + rest) == n`.
   * This covers the query value "80,90" that a repeated key produces.
   */
  lemma ParseIntOfIntToString(n: int, rest: string)
    requires rest == [] || DigitValue(rest[0]).None?
    ensures ParseInt(IntToString(n) + rest) == Int(n)
  {
    if n < 0 {
      ParseIntOfNegative(n, rest);
    } else {
      ParseIntOfNat(n, rest);
    }
  }

  lemma ParseIntOfNat(n: nat, rest: string)
    requires rest == [] || DigitValue(rest[0]).None?
    ensures ParseInt(IntToString(n) + rest) == Int(n)
  {
    assert IntToString(n) == NatToString(n);
    DigitsValueOfNatToString(n);
    ParseIntOfDigits(NatToString(n), rest);
  }

  lemma ParseIntOfNegative(n: int, rest: string)
    requires n < 0
    requires rest == [] || DigitValue(rest[0]).None?
    ensures ParseInt(IntToString(n) + rest) == Int(n)
  {
    var m: nat := -n;
    NegativeText(n, rest);
    DigitsValueOfNatToString(m);
    ParseIntOfNegativeDigits(IntToString(n) + rest, NatToString(m), rest);
  }

  /** `String(n) + rest` for a negative `n` is a minus sign, the digits of `-n`, then `rest`. */
  lemma NegativeText(n: int, rest: string)
    requires n < 0
    ensures var t := IntToString(n) + rest; t != [] && t[0] == '-' && t[1..] == NatToString(-n) + rest
  {
    var t := IntToString(n) + rest;
    assert t == ['-'] + (NatToString(-n) + rest);
  }

  // ---------------------------------------------------------------------------
  // Number(string)

  /**
   * The result of `Number(s)` for a string: NaN, an infinity, or the exact
   * decimal value mantissa * 10^exponent (rounding to the nearest double is
   * not modelled).
   */
  datatype NumberValue = NotANumber | Infinite | Decimal(mantissa: int, exponent: int)

  function Pow10(k: nat): (p: nat)
    ensures p >= 1
  {
    if k == 0 then 1 else 10 * Pow10(k - 1)
  }

  /** Whether a number value is exactly the integer `k` (as `===` would find it). */
  predicate NumberIs(v: NumberValue, k: int) {
    v.Decimal? &&
    if v.exponent >= 0 then v.mantissa * Pow10(v.exponent) == k
    else v.mantissa == k * Pow10(-v.exponent)
  }

  /** The radix a `0x`, `0o` or `0b` prefix selects, or 0 for any other character. */
  function NonDecimalRadix(c: char): nat {
    if c == 'x' || c == 'X' then 16
    else if c == 'o' || c == 'O' then 8
    else if c == 'b' || c == 'B' then 2
    else 0
  }

  /** The exponent part of a decimal literal: empty, or e|E, an optional sign and digits. */
  function ExponentPart(s: string): Option<int> {
    if s == [] then Some(0)
    else if s[0] != 'e' && s[0] != 'E' then None
    else
      var r := s[1..];
      var negative := r != [] && r[0] == '-';
      var d := if r != [] && (r[0] == '+' || r[0] == '-') then r[1..] else r;
      if d != [] && AllDigits(d, 10) then
        var value: int := DigitsValue(d, 10);
        Some(if negative then -value else value)
      else None
  }

  lemma AllDigitsAppend(a: string, b: string, radix: nat)
    requires AllDigits(a, radix) && AllDigits(b, radix)
    ensures AllDigits(a + b, radix)
  {
    forall i | 0 <= i < |a + b| ensures IsDigit((a + b)[i], radix) {
      if i >= |a| { assert (a + b)[i] == b[i - |a|]; }
    }
  }

  /** An unsigned StrDecimalLiteral: Infinity, or digits with an optional point, fraction and exponent. */
  function UnsignedDecimal(u: string): (v: NumberValue)
    ensures v.Decimal? ==> v.mantissa >= 0
  {
    if u == "Infinity" then Infinite
    else
      var whole := DigitPrefix(u, 10);
      var afterWhole := u[|whole|..];
      var hasPoint := afterWhole != [] && afterWhole[0] == '.';
      var fraction := if hasPoint then DigitPrefix(afterWhole[1..], 10) else [];
      var afterFraction := if hasPoint then afterWhole[1 + |fraction|..] else afterWhole;
      if whole == [] && fraction == [] then NotANumber
      else
        match ExponentPart(afterFraction)
        case None => NotANumber
        case Some(e) =>
          AllDigitsAppend(whole, fraction, 10);
          Decimal(DigitsValue(whole + fraction, 10), e - |fraction|)
  }

  /** The value of a leading minus sign. */
  function Negate(v: NumberValue): NumberValue {
    match v
    case Decimal(m, e) => Decimal(0 - m, e)
    case _ => v
  }

  /** A StrDecimalLiteral: an optional sign, then an unsigned literal. */
  function DecimalLiteral(t: string): NumberValue {
    if t != [] && t[0] == '-' then Negate(UnsignedDecimal(t[1..]))
    else if t != [] && t[0] == '+' then UnsignedDecimal(t[1..])
    else UnsignedDecimal(t)
  }

  /**
   * `Number(s)`: white space is trimmed at both ends, the empty string is 0, a
   * `0x`, `0o` or `0b` prefix (no sign) reads an integer in that radix, and
   * anything else must be a whole decimal literal; otherwise NaN.
   */
  function StringToNumber(s: string): (v: NumberValue)
    ensures TrimEnd(TrimStart(s)) == [] ==> v == Decimal(0, 0)
    ensures v.Decimal? && v.mantissa < 0 ==> TrimEnd(TrimStart(s)) != [] && TrimEnd(TrimStart(s))[0] == '-'
  {
    var t := TrimEnd(TrimStart(s));
    if t == [] then Decimal(0, 0)
    else if |t| >= 2 && t[0] == '0' && NonDecimalRadix(t[1]) > 0 then
      var z := t[2..];
      if z != [] && AllDigits(z, NonDecimalRadix(t[1])) then Decimal(DigitsValue(z, NonDecimalRadix(t[1])), 0)
      else NotANumber
    else DecimalLiteral(t)
  }

  /** Text with no white space at either end is its own trimmed form. */
  lemma TrimmedAlready(t: string)
    requires t != [] && !IsJsSpace(t[0]) && !IsJsSpace(t[|t| - 1])
    ensures TrimEnd(TrimStart(t)) == t
  {
  }

  /** Without surrounding white space or a radix prefix, `Number` reads a decimal literal. */
  lemma NumberOfDecimalLiteral(t: string)
    requires t != [] && !IsJsSpace(t[0]) && !IsJsSpace(t[|t| - 1])
    requires !(|t| >= 2 && t[0] == '0' && NonDecimalRadix(t[1]) > 0)
    ensures StringToNumber(t) == DecimalLiteral(t)
  {
    TrimmedAlready(t);
  }

  lemma UnsignedDecimalOfDigits(digits: string)
    requires digits != [] && AllDigits(digits, 10)
    ensures UnsignedDecimal(digits) == Decimal(DigitsValue(digits, 10), 0)
  {
    assert digits != "Infinity" by { assert IsDigit(digits[0], 10); }
    DigitPrefixOfDigits(digits, [], 10);
    assert digits + [] == digits;
  }

  /** `Number` reads back what `String` writes for an integer: `Number(String(n)) === n`. */
  lemma StringToNumberOfIntToString(n: int)
    ensures StringToNumber(IntToString(n)) == Decimal(n, 0)
  {
    if n < 0 {
      NumberOfNegative(n);
    } else {
      NumberOfNat(n);
    }
  }

  lemma NumberOfNat(n: nat)
    ensures StringToNumber(NatToString(n)) == Decimal(n, 0)
  {
    NumberOfDigits(NatToString(n));
    DigitsValueOfNatToString(n);
  }

  /** `Number` of decimal digits alone is their value. */
  lemma NumberOfDigits(t: string)
    requires t != [] && AllDigits(t, 10)
    ensures StringToNumber(t) == Decimal(DigitsValue(t, 10), 0)
  {
    assert IsDigit(t[0], 10) && IsDigit(t[|t| - 1], 10);
    assert t[0] != '-' && t[0] != '+';
    assert !(|t| >= 2 && t[0] == '0' && NonDecimalRadix(t[1]) > 0) by {
      if |t| >= 2 { assert IsDigit(t[1], 10); }
    }
    NumberOfDecimalLiteral(t);
    UnsignedDecimalOfDigits(t);
  }

  lemma NumberOfNegative(n: int)
    requires n < 0
    ensures StringToNumber(IntToString(n)) == Decimal(n, 0)
  {
    var m: nat := -n;
    var digits := NatToString(m);
    var t := IntToString(n);
    assert t == ['-'] + digits;
    assert t[1..] == digits;
    assert t[|t| - 1] == digits[|digits| - 1];
    assert IsDigit(digits[|digits| - 1], 10);
    NumberOfDecimalLiteral(t);
    DigitsValueOfNatToString(m);
    UnsignedDecimalOfDigits(digits);
  }

  // ---------------------------------------------------------------------------
  // Math.min / Math.max with NaN, and ASCII lower-casing

  /** `Math.max(n, k)`: NaN stays NaN. */
  function MathMax(n: JsNum, k: int): (r: JsNum)
    ensures r.NaN? <==> n.NaN?
    ensures r.Int? ==> r.value >= k && r.value >= n.value
    ensures r.Int? ==> r.value == k || r.value == n.value
  {
    match n
    case NaN => NaN
    case Int(v) => Int(if v < k then k else v)
  }

  /** `Math.min(n, k)`: NaN stays NaN. */
  function MathMin(n: JsNum, k: int): (r: JsNum)
    ensures r.NaN? <==> n.NaN?
    ensures r.Int? ==> r.value <= k && r.value <= n.value
    ensures r.Int? ==> r.value == k || r.value == n.value
  {
    match n
    case NaN => NaN
    case Int(v) => Int(if v > k then k else v)
  }

  /** `Math.min(Math.max(n, lo), hi)`: an integer lands in [lo, hi]; NaN survives. */
  function Clamp(n: JsNum, lo: int, hi: int): (r: JsNum)
    requires lo <= hi
    ensures r.NaN? <==> n.NaN?
    ensures r.Int? ==> lo <= r.value <= hi
    ensures n.Int? && lo <= n.value <= hi ==> r == n
    ensures n.Int? && n.value < lo ==> r == Int(lo)
    ensures n.Int? && n.value > hi ==> r == Int(hi)
  {
    MathMin(MathMax(n, lo), hi)
  }

  function LowerChar(c: char): char {
    if 'A' <= c <= 'Z' then (c as int + 32) as char else c
  }

  /** `s.toLowerCase()` restricted to ASCII letters; other characters are unchanged. */
  function ToLowerAscii(s: string): (r: string)
    ensures |r| == |s|
    ensures forall i :: 0 <= i < |r| ==> !('A' <= r[i] <= 'Z')
    ensures forall i :: 0 <= i < |s| && !('A' <= s[i] <= 'Z') ==> r[i] == s[i]
    ensures forall i :: 0 <= i < |s| && 'A' <= s[i] <= 'Z' ==> r[i] as int == s[i] as int + 32
  {
    seq(|s|, i requires 0 <= i < |s| => LowerChar(s[i]))
  }
}
