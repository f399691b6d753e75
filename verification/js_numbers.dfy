/**
 The pieces of JavaScript number semantics the resolution code relies on:
 the global `parseInt` with no radix (section 19.2.5 of ECMA-262), division of
 two numbers whose divisor may be zero, and the decimal rendering of an
 integer in a template literal. Numbers are modelled over `real`/`int`; only
 the non-finite results of a division are kept from IEEE 754.
 */
module JsNumbers {
  import opened Optional

  /** A JavaScript number as produced by `/`: a finite value or one of the non-finite ones. */
  datatype Number = Finite(value: real) | PositiveInfinity | NegativeInfinity | NotANumber

  /** `a / b` as JavaScript evaluates it when `b` may be zero (a zero divisor is `+0`). */
  function Divide(a: real, b: real): (r: Number)
    ensures b != 0.0 ==> r.Finite? && r.value * b == a && r.value == a / b
    ensures b == 0.0 && a > 0.0 ==> r == PositiveInfinity
    ensures b == 0.0 && a < 0.0 ==> r == NegativeInfinity
    ensures b == 0.0 && a == 0.0 ==> r == NotANumber
  {
    if b != 0.0 then Finite(a / b)
    else if a > 0.0 then PositiveInfinity
    else if a < 0.0 then NegativeInfinity
    else NotANumber
  }

  /** The code points `parseInt` skips before the number: WhiteSpace and LineTerminator. */
  predicate IsJsWhitespace(c: char)
  {
    || c == '\t' || c == '\n' || c == '\U{000B}' || c == '\U{000C}' || c == '\r'
    || c == ' ' || c == '\U{00A0}' || c == '\U{1680}' || ('\U{2000}' <= c <= '\U{200A}')
    || c == '\U{2028}' || c == '\U{2029}' || c == '\U{202F}' || c == '\U{205F}'
    || c == '\U{3000}' || c == '\U{FEFF}'
  }

  predicate IsDecimalDigit(c: char)
  {
    '0' <= c <= '9'
  }

  predicate IsHexDigit(c: char)
  {
    IsDecimalDigit(c) || 'a' <= c <= 'f' || 'A' <= c <= 'F'
  }

  /** A digit of radix 16 when `hex`, of radix 10 otherwise. */
  predicate IsRadixDigit(c: char, hex: bool)
  {
    if hex then IsHexDigit(c) else IsDecimalDigit(c)
  }

  function Radix(hex: bool): nat
  {
    if hex then 16 else 10
  }

  function DigitValue(c: char, hex: bool): (d: nat)
    requires IsRadixDigit(c, hex)
    ensures d < Radix(hex)
  {
    if IsDecimalDigit(c) then c as int - '0' as int
    else if 'a' <= c <= 'f' then c as int - 'a' as int + 10
    else c as int - 'A' as int + 10
  }

  /** `s` without its leading whitespace. */
  function TrimStart(s: string): (r: string)
    ensures |r| <= |s| && r == s[|s| - |r|..]
    ensures forall i :: 0 <= i < |s| - |r| ==> IsJsWhitespace(s[i])
    ensures |r| == 0 || !IsJsWhitespace(r[0])
    decreases |s|
  {
    if |s| > 0 && IsJsWhitespace(s[0]) then TrimStart(s[1..]) else s
  }

  /** The longest prefix of `s` made of radix digits. */
  function DigitPrefix(s: string, hex: bool): (z: string)
    ensures z <= s
    ensures forall i :: 0 <= i < |z| ==> IsRadixDigit(z[i], hex)
    ensures |z| == |s| || !IsRadixDigit(s[|z|], hex)
    decreases |s|
  {
    if |s| > 0 && IsRadixDigit(s[0], hex) then [s[0]] + DigitPrefix(s[1..], hex) else []
  }

  /** The value of a digit string, most significant digit first. */
  function DigitsValue(z: string, hex: bool): nat
    requires forall i :: 0 <= i < |z| ==> IsRadixDigit(z[i], hex)
    decreases |z|
  {
    if |z| == 0 then 0
    else DigitsValue(z[..|z| - 1], hex) * Radix(hex) + DigitValue(z[|z| - 1], hex)
  }

  /**
   The unsigned part of `parseInt`: a hexadecimal number after `0x`/`0X`, a
   decimal one otherwise, up to the first character that is not a digit.
   `None` when no digit is read.
   */
  function ParseUnsigned(u: string): Option<nat>
  {
    var hex := |u| >= 2 && u[0] == '0' && (u[1] == 'x' || u[1] == 'X');
    var v := if hex then u[2..] else u;
    var z := DigitPrefix(v, hex);
    if |z| == 0 then None else Some(DigitsValue(z, hex))
  }

  /**
   The global `parseInt(s)` with no radix: skip whitespace, take an optional
   sign, then read the unsigned number. `None` is `NaN`, the result when no
   digit is read; `-0` is the integer 0.
   */
  function ParseInt(s: string): Option<int>
  {
    ParseSigned(TrimStart(s))
  }

  /** `parseInt` after the whitespace: an optional sign, then the unsigned number. */
  function ParseSigned(t: string): Option<int>
  {
    if |t| > 0 && (t[0] == '-' || t[0] == '+') then
      match ParseUnsigned(t[1..])
      case None => None
      case Some(n) => Some(if t[0] == '-' then -(n as int) else n as int)
    else
      match ParseUnsigned(t)
      case None => None
      case Some(n) => Some(n)
  }

  /** `parseInt` skips leading whitespace. */
  lemma ParseIntSkipsWhitespace(s: string)
    requires |s| > 0 && IsJsWhitespace(s[0])
    ensures ParseInt(s) == ParseInt(s[1..])
  {
    assert TrimStart(s) == TrimStart(s[1..]);
  }

  /** The unsigned reader reads nothing from a string that does not start with a digit. */
  lemma ParseUnsignedOfNonDigit(u: string)
    requires |u| == 0 || !IsDecimalDigit(u[0])
    ensures ParseUnsigned(u).None?
  {
    if |u| > 0 {
      assert !IsRadixDigit(u[0], false);
      assert DigitPrefix(u, false) == [];
    }
  }

  /** The unsigned reader reads a number from a string that starts with a nonzero digit. */
  lemma ParseUnsignedOfNonzeroDigit(u: string)
    requires |u| > 0 && '1' <= u[0] <= '9'
    ensures ParseUnsigned(u).Some?
  {
    assert IsRadixDigit(u[0], false);
    assert |DigitPrefix(u, false)| > 0;
  }

  /**
   A blank string, or one that starts with anything but whitespace, a sign or
   a digit, is `NaN`.
   */
  lemma ParseIntRejectsNonNumeric(s: string)
    requires |TrimStart(s)| == 0 || (!IsJsWhitespace(s[0]) && !IsDecimalDigit(s[0]) && s[0] != '-' && s[0] != '+')
    ensures ParseInt(s).None?
  {
    var t := TrimStart(s);
    if |t| != 0 {
      assert t == s;
    }
    ParseUnsignedOfNonDigit(t);
  }

  /** A nonzero leading digit always gives a number, and not a negative one. */
  lemma ParseIntOfNonzeroDigit(s: string)
    requires |s| > 0 && '1' <= s[0] <= '9'
    ensures ParseInt(s).Some? && ParseInt(s).value >= 0
  {
    ParseUnsignedOfNonzeroDigit(s);
    ParseIntOfDigitStart(s);
  }

  /** A leading minus never gives a positive number. */
  lemma ParseIntOfMinus(s: string)
    requires |s| > 0 && s[0] == '-'
    ensures ParseInt(s).Some? ==> ParseInt(s).value <= 0
  {
    assert TrimStart(s) == s;
  }

  function DecimalChar(d: nat): (c: char)
    requires d < 10
    ensures IsDecimalDigit(c) && DigitValue(c, false) == d
  {
    ('0' as int + d) as char
  }

  /**
   The decimal rendering of `n`, as `${n}` produces it for a safe integer
   (below 2^53). Larger numbers are not exact in JavaScript, and from 10^21
   on it writes them in exponent form.
   */
  function NatToString(n: nat): (r: string)
    ensures |r| >= 1
    ensures forall i :: 0 <= i < |r| ==> IsDecimalDigit(r[i])
    ensures r[0] == '0' <==> n == 0
    ensures n == 0 ==> r == "0"
    decreases n
  {
    if n < 10 then [DecimalChar(n)] else NatToString(n / 10) + [DecimalChar(n % 10)]
  }

  /** The decimal rendering of `i`, with a minus sign when negative; as for `NatToString`, for safe integers. */
  function IntToString(i: int): string
  {
    if i < 0 then "-" + NatToString(-i) else NatToString(i)
  }

  /** Reading back a rendered natural number gives the number. */
  lemma {:induction false} NatToStringValue(n: nat)
    ensures DigitsValue(NatToString(n), false) == n
    decreases n
  {
    var r := NatToString(n);
    if n >= 10 {
      NatToStringValue(n / 10);
      assert r[..|r| - 1] == NatToString(n / 10);
    }
  }

  /** A whole digit string followed by a non-digit is the longest digit prefix. */
  lemma {:induction false} DigitPrefixOfDigits(z: string, rest: string, hex: bool)
    requires forall i :: 0 <= i < |z| ==> IsRadixDigit(z[i], hex)
    requires |rest| == 0 || !IsRadixDigit(rest[0], hex)
    ensures DigitPrefix(z + rest, hex) == z
    decreases |z|
  {
    if |z| > 0 {
      assert (z + rest)[1..] == z[1..] + rest;
      DigitPrefixOfDigits(z[1..], rest, hex);
    } else {
      assert z + rest == rest;
    }
  }

  /** The unsigned reader reads back the decimal rendering of `n`, whatever non-digit follows. */
  lemma ParseUnsignedOfNatToString(n: nat, rest: string)
    requires |rest| == 0 || (!IsDecimalDigit(rest[0]) && rest[0] != 'x' && rest[0] != 'X')
    ensures ParseUnsigned(NatToString(n) + rest) == Some(n)
  {
    var r := NatToString(n);
    var s := r + rest;
    assert s[0] == r[0];
    if n == 0 {
      assert |s| >= 2 ==> s[1] == rest[0];
    }
    DigitPrefixOfDigits(r, rest, false);
    NatToStringValue(n);
  }

  /** A string that starts with a digit is read by the unsigned reader alone. */
  lemma ParseIntOfDigitStart(s: string)
    requires |s| > 0 && IsDecimalDigit(s[0])
    ensures ParseUnsigned(s).None? ==> ParseInt(s).None?
    ensures ParseUnsigned(s).Some? ==> ParseInt(s) == Some(ParseUnsigned(s).value as int)
  {
    assert !IsJsWhitespace(s[0]);
    assert TrimStart(s) == s;
    assert s[0] != '-' && s[0] != '+';
  }

  /**
   `parseInt` reads back the decimal rendering of `n`, whatever follows it, as
   long as what follows does not continue the number.
   */
  lemma ParseIntOfNatToString(n: nat, rest: string)
    requires |rest| == 0 || (!IsDecimalDigit(rest[0]) && rest[0] != 'x' && rest[0] != 'X')
    ensures ParseInt(NatToString(n) + rest) == Some(n)
  {
    var s := NatToString(n) + rest;
    assert s[0] == NatToString(n)[0];
    ParseUnsignedOfNatToString(n, rest);
    ParseIntOfDigitStart(s);
  }

  /** `parseInt` inverts the decimal rendering of a natural number. */
  lemma ParseIntOfDecimal(n: nat)
    ensures ParseInt(NatToString(n)) == Some(n)
  {
    assert NatToString(n) + "" == NatToString(n);
    ParseIntOfNatToString(n, "");
  }

  /** `parseInt` inverts the rendering of any integer. */
  lemma ParseIntOfIntToString(i: int)
    ensures ParseInt(IntToString(i)) == Some(i)
  {
    if i >= 0 {
      assert NatToString(i) + "" == NatToString(i);
      ParseIntOfNatToString(i, "");
    } else {
      var s := "-" + NatToString(-i);
      assert TrimStart(s) == s;
      assert s[1..] == NatToString(-i) + "";
      ParseUnsignedOfNatToString(-i, "");
      assert ParseSigned(s) == Some(i);
    }
  }
}
