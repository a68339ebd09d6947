/**
 * Integers to and from text as the pages convert them: `n.toString()`,
 * `n.toFixed(1)` of a score held in tenths, and `Number.parseInt(s)` with the
 * `|| fallback` the input handlers put after it.
 */
module Decimal {
  import opened Wrappers
  import Text

  function DigitChar(d: nat): (c: char)
    requires d < 10
    ensures '0' <= c <= '9'
  {
    ('0' as int + d) as char
  }

  predicate IsDecimalDigit(c: char) {
    '0' <= c <= '9'
  }

  /** The decimal digits of `n`, most significant first, without leading zeros. */
  function NatToString(n: nat): (s: string)
    ensures s != []
    ensures forall i :: 0 <= i < |s| ==> IsDecimalDigit(s[i])
    ensures s[0] == '0' ==> n == 0 && |s| == 1
  {
    if n < 10 then [DigitChar(n)] else NatToString(n / 10) + [DigitChar(n % 10)]
  }

  /** `n.toString()` for an integer: a minus sign before the digits of a negative number. */
  function IntToString(n: int): (s: string)
    ensures s != []
    ensures forall i :: 0 <= i < |s| ==> IsDecimalDigit(s[i]) || s[i] == '-'
  {
    if n < 0 then "-" + NatToString(-n) else NatToString(n)
  }

  /** `(t / 10).toFixed(1)` for a score held as an integer number `t` of tenths. */
  function TenthsToString(t: int): (s: string)
    ensures s != []
    ensures forall i :: 0 <= i < |s| ==> IsDecimalDigit(s[i]) || s[i] == '-' || s[i] == '.'
    ensures |s| >= 3 && s[|s| - 2] == '.' && IsDecimalDigit(s[|s| - 1])
  {
    var m: nat := if t < 0 then -t else t;
    var unsigned := NatToString(m / 10) + "." + [DigitChar(m % 10)];
    if t < 0 then "-" + unsigned else unsigned
  }

  /**
   * The text of `TenthsToString(t)` denotes `t / 10`: it starts with a minus
   * sign exactly when `t` is negative; the digits before the point are the
   * whole part of `|t| / 10`, and the last digit is its tenths.
   */
  lemma TenthsToStringValue(t: int)
    ensures var s := TenthsToString(t);
      var m: nat := if t < 0 then -t else t;
      var start := if t < 0 then 1 else 0;
      (s[0] == '-' <==> t < 0) &&
      start <= |s| - 2 &&
      s[start..|s| - 2] == NatToString(m / 10) &&
      DigitsValue(s[start..|s| - 2], 10) == m / 10 &&
      s[|s| - 1] == DigitChar(m % 10)
  {
    var s := TenthsToString(t);
    var m: nat := if t < 0 then -t else t;
    var d := NatToString(m / 10);
    var u := d + "." + [DigitChar(m % 10)];
    if t < 0 {
      assert s == "-" + u;
      assert s[1..|s| - 2] == d;
    } else {
      assert s == u;
      assert s[0] == d[0];
      assert s[..|s| - 2] == d;
    }
    NatToStringValue(m / 10);
  }

  /** The value of a digit character in `radix` (10 or 16), if it is one. */
  function DigitValue(c: char, radix: nat): (r: Option<nat>)
    ensures r.Some? ==> r.value < radix
    ensures radix == 10 ==> (r.Some? <==> IsDecimalDigit(c))
  {
    var v :=
      if '0' <= c <= '9' then c as int - '0' as int
      else if 'a' <= c <= 'z' then c as int - 'a' as int + 10
      else if 'A' <= c <= 'Z' then c as int - 'A' as int + 10
      else 36;
    if v < radix then Some(v) else None
  }

  /** The length of the longest prefix of `s` made of `radix` digits. */
  function DigitRun(s: string, radix: nat): (k: nat)
    ensures k <= |s|
    ensures forall i :: 0 <= i < k ==> DigitValue(s[i], radix).Some?
    ensures k < |s| ==> DigitValue(s[k], radix).None?
  {
    if s != [] && DigitValue(s[0], radix).Some? then 1 + DigitRun(s[1..], radix) else 0
  }

  /** The number written by a string of `radix` digits, most significant first. */
  function DigitsValue(s: string, radix: nat): nat
    requires forall i :: 0 <= i < |s| ==> DigitValue(s[i], radix).Some?
  {
    if s == [] then 0
    else
      var init := s[..|s| - 1];
      assert forall i :: 0 <= i < |init| ==> init[i] == s[i];
      var high := DigitsValue(init, radix);
      NatProduct(high, radix);
      high * radix + DigitValue(s[|s| - 1], radix).value
  }

  lemma NatProduct(a: nat, b: nat)
    ensures a * b >= 0
  {
  }

  /**
   * The unsigned part of `parseInt`: a `0x`/`0X` prefix switches to
   * hexadecimal; the longest run of digits that follows is the value, and
   * `None` (`NaN`) is the result when that run is empty.  Everything after the
   * run is ignored.
   */
  function ParseUnsigned(u: string): (r: Option<nat>)
    ensures r.None? <==>
      (var hex := |u| >= 2 && u[0] == '0' && (u[1] == 'x' || u[1] == 'X');
       DigitRun(if hex then u[2..] else u, if hex then 16 else 10) == 0)
  {
    var hex := |u| >= 2 && u[0] == '0' && (u[1] == 'x' || u[1] == 'X');
    var radix := if hex then 16 else 10;
    var digits := if hex then u[2..] else u;
    var k := DigitRun(digits, radix);
    if k == 0 then None else Some(DigitsValue(digits[..k], radix))
  }

  /** The length of the optional sign at the front of `t`. */
  function SignLength(t: string): (n: nat)
    ensures n <= |t|
  {
    if t != [] && (t[0] == '-' || t[0] == '+') then 1 else 0
  }

  /**
   * `Number.parseInt(s)` with no radix: leading white space is skipped, then an
   * optional sign is read before the unsigned part; `None` stands for `NaN`.
   * The result is `NaN` exactly when the unsigned part has no digits; its
   * magnitude is the unsigned value, and after a minus sign it is that value
   * negated; nothing else makes it negative.
   */
  function ParseInt(s: string): (r: Option<int>)
    ensures var t := Text.TrimStart(s);
      r.None? <==> ParseUnsigned(t[SignLength(t)..]).None?
    ensures var t := Text.TrimStart(s);
      r.Some? ==> (if r.value < 0 then -r.value else r.value) == ParseUnsigned(t[SignLength(t)..]).value
    ensures var t := Text.TrimStart(s);
      r.Some? && r.value < 0 ==> t[0] == '-'
    ensures var t := Text.TrimStart(s);
      r.Some? && t != [] && t[0] == '-' ==> r.value == -(ParseUnsigned(t[1..]).value as int)
  {
    var t := Text.TrimStart(s);
    if t != [] && t[0] == '-' then
      match ParseUnsigned(t[1..])
      case None => None
      case Some(m) => Some(-(m as int))
    else if t != [] && t[0] == '+' then
      match ParseUnsigned(t[1..])
      case None => None
      case Some(m) => Some(m)
    else
      match ParseUnsigned(t)
      case None => None
      case Some(m) => Some(m)
  }

  /** The unsigned part reads back the digits `NatToString` writes, up to the first non-digit. */
  lemma UnsignedToString(m: nat, rest: string)
    requires rest == [] || !IsDecimalDigit(rest[0])
    requires m == 0 ==> rest == [] || (rest[0] != 'x' && rest[0] != 'X')
    ensures ParseUnsigned(NatToString(m) + rest) == Some(m)
  {
    var d := NatToString(m);
    var u := d + rest;
    assert !(|u| >= 2 && u[0] == '0' && (u[1] == 'x' || u[1] == 'X')) by {
      if |u| >= 2 && u[0] == '0' {
        assert d[0] == '0';
        assert |d| == 1 && m == 0;
        assert u[1] == rest[0];
      }
    }
    DigitRunStops(d, rest, 10);
    assert u[..|d|] == d;
    NatToStringValue(m);
  }

  /** `Number.parseInt(s) || fallback`: `NaN` and `0` are falsy and give the fallback. */
  function ParseIntOr(s: string, fallback: int): (r: int)
    ensures fallback != 0 ==> r != 0
    ensures r == fallback || ParseInt(s) == Some(r)
    ensures ParseInt(s).Some? && ParseInt(s).value != 0 ==> r == ParseInt(s).value
  {
    match ParseInt(s)
    case None => fallback
    case Some(v) => if v == 0 then fallback else v
  }

  /** The digits `NatToString` writes are worth `n`. */
  lemma {:induction false} NatToStringValue(n: nat)
    ensures DigitsValue(NatToString(n), 10) == n
  {
    if n >= 10 {
      var s := NatToString(n);
      assert s[..|s| - 1] == NatToString(n / 10);
      NatToStringValue(n / 10);
    }
  }

  /** A run of digits followed by a non-digit (or nothing) is read up to that point. */
  lemma {:induction false} DigitRunStops(a: string, b: string, radix: nat)
    requires forall i :: 0 <= i < |a| ==> DigitValue(a[i], radix).Some?
    requires b == [] || DigitValue(b[0], radix).None?
    ensures DigitRun(a + b, radix) == |a|
  {
    if a != [] {
      assert (a + b)[1..] == a[1..] + b;
      DigitRunStops(a[1..], b, radix);
    }
  }

  /**
   * `parseInt` reads back what `toString` writes, also when text that does not
   * start with a digit follows (as in "2.5" or "1e3"); only "0" followed by an
   * `x` would be read as a hexadecimal prefix instead.
   */
  lemma ParseIntToString(n: int, rest: string)
    requires rest == [] || !IsDecimalDigit(rest[0])
    requires n == 0 ==> rest == [] || (rest[0] != 'x' && rest[0] != 'X')
    ensures ParseInt(IntToString(n) + rest) == Some(n)
  {
    if n < 0 {
      NegativeReadsBack(n, rest);
    } else {
      ParseDigits(n, rest, IntToString(n) + rest);
    }
  }

  /** The negative half of `ParseIntToString`: the minus sign is read, then the digits. */
  lemma NegativeReadsBack(n: int, rest: string)
    requires n < 0 && (rest == [] || !IsDecimalDigit(rest[0]))
    ensures ParseInt(IntToString(n) + rest) == Some(n)
  {
    MinusThenDigits(n, rest);
    ParseDigits(-n, rest, NatToString(-n) + rest);
  }

  /** A negative number's text is a minus sign before the digits of its magnitude. */
  lemma MinusThenDigits(n: int, rest: string)
    requires n < 0
    ensures IntToString(n) + rest == "-" + (NatToString(-n) + rest)
  {
    var d := NatToString(-n);
    assert IntToString(n) == "-" + d;
    assert ("-" + d) + rest == "-" + (d + rest);
  }

  /** The digits of `m`, followed by `rest`, are read as `m`, and as `-m` after a minus sign. */
  lemma ParseDigits(m: nat, rest: string, u: string)
    requires rest == [] || !IsDecimalDigit(rest[0])
    requires m == 0 ==> rest == [] || (rest[0] != 'x' && rest[0] != 'X')
    requires u == NatToString(m) + rest
    ensures ParseInt(u) == Some(m) && ParseInt("-" + u) == Some(-(m as int))
  {
    UnsignedToString(m, rest);
    assert u[0] == NatToString(m)[0];
    NotWhitespace(u);
    var s := "-" + u;
    assert s[1..] == u && s[0] == '-';
    NotWhitespace(s);
  }

  /** `parseInt` skips no leading character of a string that starts with a sign or a digit. */
  lemma NotWhitespace(s: string)
    requires s != [] && (s[0] == '-' || IsDecimalDigit(s[0]))
    ensures Text.TrimStart(s) == s
  {
    assert !Text.IsWhitespace(s[0]);
  }

  /** The number inputs' handlers keep a typed non-zero integer and fall back on `0`. */
  lemma ParseIntOrToString(n: int, fallback: int)
    ensures ParseIntOr(IntToString(n), fallback) == if n == 0 then fallback else n
  {
    ParseIntToString(n, "");
    assert IntToString(n) + "" == IntToString(n);
  }
}
