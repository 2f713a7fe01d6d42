/**
 * The few JavaScript value conversions the restaurant app relies on:
 * `String(n)` for integers, `Number(s)` as used by loose equality `==`,
 * `parseInt(s)`, and the string predicates `startsWith`/`endsWith`.
 */
module JsValues {
  import opened Wrappers

  predicate IsDigit(c: char) {
    '0' <= c <= '9'
  }

  predicate AllDigits(s: string) {
    forall i :: 0 <= i < |s| ==> IsDigit(s[i])
  }

  /** `s.startsWith(prefix)` */
  predicate StartsWith(s: string, prefix: string) {
    |prefix| <= |s| && s[..|prefix|] == prefix
  }

  /** `s.endsWith(suffix)` */
  predicate EndsWith(s: string, suffix: string) {
    |suffix| <= |s| && s[|s| - |suffix|..] == suffix
  }

  function DigitChar(d: nat): (c: char)
    requires d < 10
    ensures IsDigit(c)
  {
    ('0' as int + d) as char
  }

  function DigitValue(c: char): (d: nat)
    requires IsDigit(c)
    ensures d < 10 && DigitChar(d) == c
  {
    c as int - '0' as int
  }

  /** The decimal digits of a natural number, most significant first, without leading zeros. */
  function NatToDecimal(n: nat): (s: string)
    ensures 1 <= |s| && AllDigits(s)
    ensures |s| > 1 ==> s[0] != '0'
  {
    if n < 10 then [DigitChar(n)] else NatToDecimal(n / 10) + [DigitChar(n % 10)]
  }

  /** `String(n)` (and template interpolation `${n}`) for an integer-valued number. */
  function IntToDecimal(n: int): (s: string)
    ensures 1 <= |s|
    ensures forall i :: 0 <= i < |s| ==> IsDigit(s[i]) || (i == 0 && s[i] == '-')
    ensures (s[0] == '-') <==> n < 0
    ensures s[0] == '-' ==> 2 <= |s|
  {
    if n < 0 then "-" + NatToDecimal(-n) else NatToDecimal(n)
  }

  /** The value of a string of decimal digits (leading zeros allowed). */
  function DigitsValue(s: string): nat
    requires AllDigits(s)
  {
    if s == [] then 0 else DigitsValue(s[..|s| - 1]) * 10 + DigitValue(s[|s| - 1])
  }

  /** Reading back the digits that `NatToDecimal` writes gives the number again. */
  lemma {:induction false} DigitsValueOfDecimal(n: nat)
    ensures DigitsValue(NatToDecimal(n)) == n
  {
    if n >= 10 {
      var s := NatToDecimal(n);
      assert s[..|s| - 1] == NatToDecimal(n / 10);
      DigitsValueOfDecimal(n / 10);
    }
  }

  /**
   * `Number(s)` for the string forms the app produces: the empty string is 0,
   * an optional sign followed by one or more decimal digits is that integer,
   * anything else is NaN (None). NaN is equal to nothing under `==`.
   */
  function StringToNumber(s: string): (r: Option<int>)
    ensures s == [] ==> r == Some(0)
    ensures r.Some? && s != [] ==> exists i :: 0 <= i < |s| && IsDigit(s[i])
  {
    if s == [] then Some(0)
    else if s[0] == '-' || s[0] == '+' then
      var digits := s[1..];
      if |digits| > 0 && AllDigits(digits) then
        assert IsDigit(s[1]) by { assert digits[0] == s[1]; }
        Some(if s[0] == '-' then -(DigitsValue(digits) as int) else DigitsValue(digits))
      else None
    else if AllDigits(s) then Some(DigitsValue(s))
    else None
  }

  predicate IsHexDigit(c: char) {
    IsDigit(c) || 'a' <= c <= 'f' || 'A' <= c <= 'F'
  }

  function HexValue(c: char): (v: nat)
    requires IsHexDigit(c)
    ensures v < 16
    ensures IsDigit(c) ==> v == DigitValue(c)
  {
    if IsDigit(c) then DigitValue(c)
    else if 'a' <= c <= 'f' then c as int - 'a' as int + 10
    else c as int - 'A' as int + 10
  }

  /** A digit of base `radix`, which `parseInt` only ever takes to be 10 or 16. */
  predicate IsRadixDigit(c: char, radix: nat) {
    if radix == 16 then IsHexDigit(c) else IsDigit(c)
  }

  predicate AllRadixDigits(s: string, radix: nat) {
    forall i :: 0 <= i < |s| ==> IsRadixDigit(s[i], radix)
  }

  /** The value of a string of digits of base `radix`, most significant first. */
  function RadixValue(s: string, radix: nat): nat
    requires AllRadixDigits(s, radix)
  {
    if s == [] then 0 else RadixValue(s[..|s| - 1], radix) * radix + HexValue(s[|s| - 1])
  }

  /** In base 10 the digits read as `DigitsValue` reads them. */
  lemma {:induction false} RadixTenIsDecimal(s: string)
    requires AllDigits(s)
    ensures AllRadixDigits(s, 10) && RadixValue(s, 10) == DigitsValue(s)
  {
    if s != [] {
      RadixTenIsDecimal(s[..|s| - 1]);
    }
  }

  /** The length of the longest prefix of `s` made of digits of base `radix`. */
  function LeadingRadixDigitCount(s: string, radix: nat): (k: nat)
    ensures k <= |s| && AllRadixDigits(s[..k], radix)
    ensures k < |s| ==> !IsRadixDigit(s[k], radix)
  {
    if s == [] || !IsRadixDigit(s[0], radix) then 0
    else
      var k := 1 + LeadingRadixDigitCount(s[1..], radix);
      assert s[..k] == [s[0]] + s[1..][..k - 1];
      k
  }

  /**
   * The characters `parseInt` skips before the number: the white space and line
   * terminators of the ECMAScript grammar (tab, vertical tab, form feed, the
   * space separators, the byte order mark, line feed, carriage return, and the
   * line and paragraph separators).
   */
  predicate IsJsWhiteSpace(c: char) {
    var u := c as int;
    u == 0x09 || u == 0x0A || u == 0x0B || u == 0x0C || u == 0x0D || u == 0x20
    || u == 0xA0 || u == 0x1680 || 0x2000 <= u <= 0x200A || u == 0x2028 || u == 0x2029
    || u == 0x202F || u == 0x205F || u == 0x3000 || u == 0xFEFF
  }

  /** The length of the white space `parseInt` skips at the start of `s`. */
  function LeadingWhiteSpaceCount(s: string): (k: nat)
    ensures k <= |s|
    ensures forall i :: 0 <= i < k ==> IsJsWhiteSpace(s[i])
    ensures k < |s| ==> !IsJsWhiteSpace(s[k])
  {
    if s == [] || !IsJsWhiteSpace(s[0]) then 0 else 1 + LeadingWhiteSpaceCount(s[1..])
  }

  /**
   * `parseInt(s)` with no radix argument: leading white space is skipped, then an
   * optional sign is read, then a `0x` or `0X` prefix selects base 16 (base 10
   * otherwise), then the longest run of digits of that base is the number;
   * whatever follows is ignored. NaN (None) when that run is empty. A negative
   * zero is the key 0 here, as it is for IndexedDB.
   */
  function ParseInt(s: string): (r: Option<int>)
    ensures r.Some? ==> exists i :: 0 <= i < |s| && IsDigit(s[i])
  {
    var ws := LeadingWhiteSpaceCount(s);
    var r := ParseSigned(s[ws..]);
    assert r.Some? ==> exists i :: 0 <= i < |s| && IsDigit(s[i]) by {
      if r.Some? {
        var i :| 0 <= i < |s[ws..]| && IsDigit(s[ws..][i]);
        assert s[ws + i] == s[ws..][i];
      }
    }
    r
  }

  /** `parseInt` after the white space: an optional sign, then the unsigned number. */
  function ParseSigned(t: string): (r: Option<int>)
    ensures r.Some? ==> exists i :: 0 <= i < |t| && IsDigit(t[i])
    ensures r.Some? && |t| > 0 && (t[0] == '-' || t[0] == '+') ==> |t| > 1 && IsDigit(t[1])
  {
    if |t| > 0 && (t[0] == '-' || t[0] == '+') then
      match ParseUnsigned(t[1..])
      case None => None
      case Some(v) =>
        assert IsDigit(t[1]) by { assert t[1..][0] == t[1]; }
        Some(if t[0] == '-' then -(v as int) else v)
    else
      match ParseUnsigned(t)
      case None => None
      case Some(v) => Some(v)
  }

  /** `parseInt` after the sign: a `0x`/`0X` prefix selects base 16, otherwise base 10. */
  function ParseUnsigned(u: string): (r: Option<nat>)
    ensures r.Some? ==> |u| > 0 && IsDigit(u[0])
  {
    if 2 <= |u| && u[0] == '0' && (u[1] == 'x' || u[1] == 'X') then ReadDigits(u[2..], 16)
    else ReadDigits(u, 10)
  }

  /** The longest run of digits of base `radix` at the start of `body`; NaN (None) if empty. */
  function ReadDigits(body: string, radix: nat): (r: Option<nat>)
    ensures r.Some? ==> |body| > 0 && IsRadixDigit(body[0], radix)
  {
    var k := LeadingRadixDigitCount(body, radix);
    if k == 0 then None
    else
      assert body[..k][0] == body[0];
      Some(RadixValue(body[..k], radix))
  }

  /** `Number(String(n)) == n`: the decimal text of an integer reads back as that integer. */
  lemma {:induction false} StringToNumberOfDecimal(n: int)
    ensures StringToNumber(IntToDecimal(n)) == Some(n)
  {
    var s := IntToDecimal(n);
    if n < 0 {
      var digits := NatToDecimal(-n);
      assert s[0] == '-' && s[1..] == digits;
      DigitsValueOfDecimal(-n);
    } else {
      assert s == NatToDecimal(n) && s[0] != '-' && s[0] != '+';
      DigitsValueOfDecimal(n);
    }
  }

  lemma {:induction false} LeadingRunOfDigits(s: string, radix: nat)
    requires AllRadixDigits(s, radix)
    ensures LeadingRadixDigitCount(s, radix) == |s|
  {
    if s != [] {
      LeadingRunOfDigits(s[1..], radix);
    }
  }

  /** A run of digits stops at the first character that is not one. */
  lemma {:induction false} LeadingRunStops(s: string, rest: string, radix: nat)
    requires AllRadixDigits(s, radix)
    requires rest == [] || !IsRadixDigit(rest[0], radix)
    ensures LeadingRadixDigitCount(s + rest, radix) == |s|
  {
    if s != [] {
      assert (s + rest)[1..] == s[1..] + rest;
      LeadingRunStops(s[1..], rest, radix);
    } else {
      assert s + rest == rest;
    }
  }

  /** A run of digits followed by a character outside the base reads as that run. */
  lemma ReadDigitsStops(digits: string, rest: string, radix: nat)
    requires |digits| > 0 && AllRadixDigits(digits, radix)
    requires rest == [] || !IsRadixDigit(rest[0], radix)
    ensures ReadDigits(digits + rest, radix) == Some(RadixValue(digits, radix))
  {
    LeadingRunStops(digits, rest, radix);
    assert (digits + rest)[..|digits|] == digits;
  }

  /** A string that starts with a digit is read by `parseInt` as an unsigned number. */
  lemma ParseIntUnsigned(s: string)
    requires |s| > 0 && IsDigit(s[0])
    ensures ParseInt(s) == match ParseUnsigned(s) case None => None case Some(v) => Some(v as int)
  {
    assert !IsJsWhiteSpace(s[0]);
    assert s[0..] == s;
  }

  /** With no white space, sign or prefix in front, `parseInt` reads decimal digits. */
  lemma ParseIntPlain(s: string)
    requires |s| > 0 && IsDigit(s[0])
    requires 2 <= |s| && s[0] == '0' ==> s[1] != 'x' && s[1] != 'X'
    ensures ParseInt(s) == ReadDigits(s, 10)
  {
    ParseIntUnsigned(s);
  }

  /** `parseInt(String(n)) == n`. */
  lemma {:induction false} ParseIntOfDecimal(n: int)
    ensures ParseInt(IntToDecimal(n)) == Some(n)
  {
    var s := IntToDecimal(n);
    var d: nat := if n < 0 then -n else n;
    var digits := NatToDecimal(d);
    assert LeadingWhiteSpaceCount(s) == 0 by { assert !IsJsWhiteSpace(s[0]); }
    assert s[0..] == s;
    assert AllRadixDigits(digits, 10);
    ReadDigitsStops(digits, [], 10);
    assert digits + [] == digits;
    RadixTenIsDecimal(digits);
    DigitsValueOfDecimal(d);
    if n < 0 {
      assert s[1..] == digits;
    } else {
      assert s == digits;
    }
  }

  /** Leading white space does not change what `parseInt` reads. */
  lemma ParseIntSkipsWhiteSpace(c: char, s: string)
    requires IsJsWhiteSpace(c)
    ensures ParseInt([c] + s) == ParseInt(s)
  {
    var cs := [c] + s;
    assert cs[1..] == s;
    var k := LeadingWhiteSpaceCount(s);
    assert LeadingWhiteSpaceCount(cs) == 1 + k;
    assert cs[1 + k..] == s[k..];
  }

  /** After `0x` or `0X` the hexadecimal digits are read in base 16. */
  lemma ParseIntHexPrefix(x: char, digits: string, rest: string)
    requires x == 'x' || x == 'X'
    requires |digits| > 0 && AllRadixDigits(digits, 16)
    requires rest == [] || !IsHexDigit(rest[0])
    ensures ParseInt(['0', x] + (digits + rest)) == Some(RadixValue(digits, 16))
  {
    var s := ['0', x] + (digits + rest);
    assert s[0] == '0' && s[1] == x;
    ParseIntUnsigned(s);
    assert s[2..] == digits + rest;
    ReadDigitsStops(digits, rest, 16);
  }

  /**
   * Decimal digits are read up to the first character that is not a digit, when
   * they do not start a `0x` prefix.
   */
  lemma ParseIntIgnoresTail(digits: string, rest: string)
    requires |digits| > 0 && AllDigits(digits)
    requires rest == [] || !IsDigit(rest[0])
    requires digits == "0" && rest != [] ==> rest[0] != 'x' && rest[0] != 'X'
    ensures ParseInt(digits + rest) == Some(DigitsValue(digits))
  {
    var s := digits + rest;
    assert s[0] == digits[0];
    assert 2 <= |s| && s[0] == '0' ==> s[1] != 'x' && s[1] != 'X' by {
      if 2 <= |s| && |digits| == 1 { assert s[1] == rest[0]; }
      if 2 <= |s| && |digits| >= 2 { assert s[1] == digits[1]; }
    }
    ParseIntPlain(s);
    assert AllRadixDigits(digits, 10);
    ReadDigitsStops(digits, rest, 10);
    RadixTenIsDecimal(digits);
  }

  /** Where `Number(s)` reads a non-empty string as an integer, `parseInt(s)` reads the same one. */
  lemma NumberAgreesWithParseInt(s: string)
    requires s != [] && StringToNumber(s).Some?
    ensures ParseInt(s) == StringToNumber(s)
  {
    if s[0] == '-' || s[0] == '+' {
      var digits := s[1..];
      assert !IsJsWhiteSpace(s[0]);
      assert s[0..] == s;
      assert AllRadixDigits(digits, 10);
      assert digits + [] == digits;
      ReadDigitsStops(digits, [], 10);
      RadixTenIsDecimal(digits);
    } else {
      assert s + [] == s;
      ParseIntIgnoresTail(s, []);
    }
  }

  /** `parseInt("0x10")` is 16, not 0. */
  lemma ParseIntHexExample()
    ensures ParseInt("0x10") == Some(16)
  {
    assert "0x10" == ['0', 'x'] + ("10" + []);
    ParseIntHexPrefix('x', "10", []);
    assert RadixValue("10", 16) == 16 by { assert "10"[..1] == "1" && "1"[..0] == []; }
  }

  /** `parseInt(" 7")` is 7: the white space is skipped. */
  lemma ParseIntWhiteSpaceExample()
    ensures ParseInt(" 7") == Some(7)
  {
    assert " 7" == [' '] + "7";
    ParseIntSkipsWhiteSpace(' ', "7");
    assert "7" == "7" + [];
    ParseIntIgnoresTail("7", []);
  }

  /**
   * `n == k` where `n` is a number and `k` is a number, a string or `null`/`undefined`:
   * a string is converted with `Number` first; `null` and `undefined` equal no number.
   */
  datatype JsKey = Num(n: int) | Str(s: string) | Nullish

  predicate LooselyEquals(n: int, k: JsKey)
    ensures k == Str(IntToDecimal(n)) ==> LooselyEquals(n, k)
    ensures k == Str("") ==> (LooselyEquals(n, k) <==> n == 0)
  {
    StringToNumberOfDecimal(n);
    match k
    case Num(m) => n == m
    case Str(s) => StringToNumber(s) == Some(n)
    case Nullish => false
  }
}
