/** The numbers the widget moves through strings: embed sizes and document ids.
    `Number.prototype.toString` and the global `parseInt` are modelled for the
    values that occur, integers and NaN. `toString` writes an integer of
    magnitude 10^21 or more in exponent form (Number::toString, section 6.1.6.1.20
    of ECMA-262), which `parseInt` does not read back. */
module JsNumber {
  import opened JsText

  /** A JavaScript number as far as the widget uses it. */
  datatype Num = Int(value: int) | NaN

  /** JavaScript truthiness of a number: 0 and NaN are falsy. */
  predicate Truthy(x: Num) {
    x.Int? && x.value != 0
  }

  predicate IsDecimalDigit(c: char) {
    '0' <= c <= '9'
  }

  function DigitChar(d: nat): (c: char)
    requires d < 10
    ensures IsDecimalDigit(c)
  {
    ('0' as int + d) as char
  }

  /** The value of `c` as a digit in base `radix`, if it is one (`parseInt`
      accepts letters of either case as the digits 10 to 35). */
  function RadixDigit(c: char, radix: nat): (d: nat)
    ensures IsDecimalDigit(c) ==> d == c as int - '0' as int
  {
    if IsDecimalDigit(c) then c as int - '0' as int
    else if 'a' <= c <= 'z' then c as int - 'a' as int + 10
    else if 'A' <= c <= 'Z' then c as int - 'A' as int + 10
    else 36
  }

  predicate IsRadixDigit(c: char, radix: nat) {
    RadixDigit(c, radix) < radix
  }

  /** The decimal digits of `n`, most significant first, without leading zeros. */
  function NatToString(n: nat): (s: string)
    ensures 1 <= |s|
    ensures forall i :: 0 <= i < |s| ==> IsDecimalDigit(s[i])
  {
    if n < 10 then [DigitChar(n)] else NatToString(n / 10) + [DigitChar(n % 10)]
  }

  /** The magnitude from which `toString` switches to exponent form. */
  const ExponentThreshold: int := 1_000_000_000_000_000_000_000

  /** `d` without its trailing '0' characters. */
  function DropTrailingZeros(d: string): (r: string)
    ensures |r| <= |d| && r == d[..|r|]
    decreases |d|
  {
    if d != [] && d[|d| - 1] == '0' then DropTrailingZeros(d[..|d| - 1]) else d
  }

  /** Exponent form of the decimal digits `d`: the first digit, the other
      significant digits after a '.', then "e+" and the exponent. */
  function Scientific(d: string): (s: string)
    requires d != []
    ensures |s| >= 2 && s[0] == d[0] && (s[1] == '.' || s[1] == 'e')
  {
    var rest := DropTrailingZeros(d[1..]);
    [d[0]] + (if rest != [] then "." + rest else "") + "e+" + NatToString(|d| - 1)
  }

  /** The text `toString` writes for a non-negative integer. */
  function Magnitude(n: nat): (s: string)
    ensures n < ExponentThreshold ==> s == NatToString(n)
    ensures n >= ExponentThreshold ==> |s| >= 2 && s[0] == NatToString(n)[0] && (s[1] == '.' || s[1] == 'e')
  {
    if n < ExponentThreshold then NatToString(n) else Scientific(NatToString(n))
  }

  /** The magnitude of an integer. */
  function Abs(i: int): (m: nat)
    ensures i >= 0 ==> m == i
    ensures i < 0 ==> m == -i
  {
    if i < 0 then -i else i
  }

  /** `x.toString()`: "NaN", or the magnitude with a leading '-' when negative.
      Below 10^21 in magnitude that is the decimal digits; from there on the
      leading digit is followed by '.' or 'e'. */
  function ToString(x: Num): (s: string)
    ensures s != []
    ensures x.NaN? ==> s == "NaN"
    ensures x.Int? && 0 <= x.value < ExponentThreshold ==> s == NatToString(x.value)
    ensures x.Int? && -ExponentThreshold < x.value < 0 ==> s == "-" + NatToString(Abs(x.value))
    ensures x.Int? && ExponentThreshold <= x.value ==>
      |s| >= 2 && s[0] == NatToString(x.value)[0] && (s[1] == '.' || s[1] == 'e')
    ensures x.Int? && x.value <= -ExponentThreshold ==>
      |s| >= 3 && s[0] == '-' && s[1] == NatToString(Abs(x.value))[0] && (s[2] == '.' || s[2] == 'e')
  {
    match x
    case NaN => "NaN"
    case Int(i) => if i < 0 then "-" + Magnitude(Abs(i)) else Magnitude(i)
  }

  /** `toString` writes `x` in plain decimal notation. */
  predicate PlainNotation(x: Num) {
    x.NaN? || -ExponentThreshold < x.value < ExponentThreshold
  }

  /** The value of a string of digits in base `radix`. */
  function RadixValue(z: string, radix: nat): nat
    requires forall i :: 0 <= i < |z| ==> IsRadixDigit(z[i], radix)
    decreases |z|
  {
    if z == [] then 0
    else
      var high := RadixValue(z[..|z| - 1], radix);
      ProductIsNat(high, radix);
      high * radix + RadixDigit(z[|z| - 1], radix)
  }

  lemma ProductIsNat(a: nat, b: nat)
    ensures a * b >= 0
  {
  }

  /** The longest prefix of `s` made of digits in base `radix`. */
  function DigitPrefix(s: string, radix: nat): (z: string)
    ensures |z| <= |s| && z == s[..|z|]
    ensures forall i :: 0 <= i < |z| ==> IsRadixDigit(z[i], radix)
    ensures |z| < |s| ==> !IsRadixDigit(s[|z|], radix)
    decreases |s|
  {
    if s != [] && IsRadixDigit(s[0], radix) then [s[0]] + DigitPrefix(s[1..], radix) else []
  }

  /** `parseInt(s)` with no radix: leading white space is skipped, one sign is
      read, and the rest is read by ParseMagnitude. Negative zero is 0. */
  function ParseInt(s: string): Num {
    var t := TrimStart(s);
    if t != [] && t[0] == '-' then Negate(ParseMagnitude(t[1..]))
    else if t != [] && t[0] == '+' then ParseMagnitude(t[1..])
    else ParseMagnitude(t)
  }

  /** The unsigned part of `parseInt`: a "0x" or "0X" prefix selects base 16,
      and the longest run of digits that follows is the value; no digits gives NaN. */
  function ParseMagnitude(u: string): (r: Num)
    ensures r.Int? ==> r.value >= 0
  {
    var hex := |u| >= 2 && u[0] == '0' && (u[1] == 'x' || u[1] == 'X');
    var radix := if hex then 16 else 10;
    var z := DigitPrefix(if hex then u[2..] else u, radix);
    if z == [] then NaN else Int(RadixValue(z, radix))
  }

  function Negate(x: Num): Num {
    match x
    case NaN => NaN
    case Int(v) => Int(-v)
  }

  lemma {:induction false} RadixValueOfNatToString(n: nat)
    ensures RadixValue(NatToString(n), 10) == n
    decreases n
  {
    var s := NatToString(n);
    if n >= 10 {
      RadixValueOfNatToString(n / 10);
      assert s[..|s| - 1] == NatToString(n / 10);
    }
  }

  lemma {:induction false} DigitPrefixOfDigits(s: string)
    requires forall i :: 0 <= i < |s| ==> IsDecimalDigit(s[i])
    ensures DigitPrefix(s, 10) == s
    decreases |s|
  {
    if s != [] {
      DigitPrefixOfDigits(s[1..]);
      assert [s[0]] + s[1..] == s;
    }
  }

  lemma ParseMagnitudeOfDecimal(digits: string)
    requires digits != [] && forall i :: 0 <= i < |digits| ==> IsDecimalDigit(digits[i])
    ensures ParseMagnitude(digits) == Int(RadixValue(digits, 10))
  {
    assert !(|digits| >= 2 && digits[0] == '0' && (digits[1] == 'x' || digits[1] == 'X')) by {
      if |digits| >= 2 {
        assert IsDecimalDigit(digits[1]);
      }
    }
    DigitPrefixOfDigits(digits);
  }

  lemma ParseIntOfNaN()
    ensures ParseInt("NaN") == NaN
  {
    var s := "NaN";
    assert !IsWhitespace(s[0]) && s[0] != '-' && s[0] != '+';
    assert TrimStart(s) == s;
    assert !IsRadixDigit(s[0], 10);
    assert DigitPrefix(s, 10) == [];
  }

  lemma ParseIntOfInt(i: int)
    requires -ExponentThreshold < i < ExponentThreshold
    ensures ParseInt(ToString(Int(i))) == Int(i)
  {
    if i < 0 {
      ParseIntOfNegative(i);
    } else {
      ParseIntOfNatural(i);
    }
  }

  lemma ParseIntOfNatural(n: nat)
    requires n < ExponentThreshold
    ensures ParseInt(ToString(Int(n))) == Int(n)
  {
    var digits := NatToString(n);
    RadixValueOfNatToString(n);
    ParseMagnitudeOfDecimal(digits);
    ParseIntOfDigitFirst(digits);
  }

  lemma ParseIntOfNegative(i: int)
    requires -ExponentThreshold < i < 0
    ensures ParseInt(ToString(Int(i))) == Int(i)
  {
    var digits := NatToString(Abs(i));
    RadixValueOfNatToString(Abs(i));
    ParseMagnitudeOfDecimal(digits);
    ParseIntOfMinus(digits);
  }

  /** `parseInt` stops at a '.' or 'e' after the first digit, so it reads that
      digit alone. */
  lemma ParseMagnitudeOfLeadingDigit(u: string)
    requires |u| >= 2 && IsDecimalDigit(u[0]) && (u[1] == '.' || u[1] == 'e')
    ensures ParseMagnitude(u) == Int(RadixDigit(u[0], 10))
  {
    assert !IsRadixDigit(u[1], 10);
    assert DigitPrefix(u[1..], 10) == [];
    assert DigitPrefix(u, 10) == [u[0]];
    assert RadixValue([u[0]], 10) == RadixDigit(u[0], 10) by {
      assert [u[0]][..0] == [];
    }
  }

  /** A non-negative integer of 10^21 or more reads back as its leading digit. */
  lemma ParseIntOfLargeNatural(n: nat)
    requires ExponentThreshold <= n
    ensures ParseInt(ToString(Int(n))) == Int(RadixDigit(NatToString(n)[0], 10))
  {
    var t := ToString(Int(n));
    ParseMagnitudeOfLeadingDigit(t);
    ParseIntOfDigitFirst(t);
  }

  /** A negative integer of magnitude 10^21 or more reads back as its leading
      digit, negated. */
  lemma ParseIntOfLargeNegative(i: int)
    requires i <= -ExponentThreshold
    ensures ParseInt(ToString(Int(i))) == Int(-(RadixDigit(NatToString(Abs(i))[0], 10) as int))
  {
    ParseIntOfMinusLeadingDigit(ToString(Int(i)), NatToString(Abs(i))[0]);
  }

  /** '-', the digit `c`, then '.' or 'e' reads as `c` negated. */
  lemma ParseIntOfMinusLeadingDigit(t: string, c: char)
    requires IsDecimalDigit(c)
    requires |t| >= 3 && t[0] == '-' && t[1] == c && (t[2] == '.' || t[2] == 'e')
    ensures ParseInt(t) == Int(-(RadixDigit(c, 10) as int))
  {
    assert TrimStart(t) == t;
    ParseMagnitudeOfLeadingDigit(t[1..]);
  }

  /** Text starting with a digit is read as it is, without a sign. */
  lemma ParseIntOfDigitFirst(s: string)
    requires s != [] && IsDecimalDigit(s[0])
    ensures ParseInt(s) == ParseMagnitude(s)
  {
    assert TrimStart(s) == s;
  }

  /** '-' followed by `u` is the negated magnitude of `u`. */
  lemma ParseIntOfMinus(u: string)
    ensures ParseInt("-" + u) == Negate(ParseMagnitude(u))
  {
    var s := "-" + u;
    assert s[1..] == u;
    assert TrimStart(s) == s;
  }

  /** Reading back what `toString` wrote gives the same number, NaN included,
      exactly when it was written in plain decimal notation. */
  lemma ParseIntToString(x: Num)
    ensures ParseInt(ToString(x)) == x <==> PlainNotation(x)
  {
    match x
    case NaN => ParseIntOfNaN();
    case Int(i) =>
      if PlainNotation(x) {
        ParseIntOfInt(i);
      } else if i < 0 {
        ParseIntOfLargeNegative(i);
      } else {
        ParseIntOfLargeNatural(i);
      }
  }
}
