/**
 The numeric conversions the CSV parser applies to trimmed cell text:
 `parseInt(value)` with no radix argument and `parseFloat(value)`. Both read the
 longest numeric prefix and yield NaN (None here) when there is none.
 */
module Numbers {
  import opened Wrappers

  /** A digit of base `radix`, which is 10 or 16. */
  predicate IsDigit(c: char, radix: nat)
  {
    ('0' <= c <= '9') || (radix == 16 && (('a' <= c <= 'f') || ('A' <= c <= 'F')))
  }

  predicate AllDigits(s: string, radix: nat)
  {
    forall i :: 0 <= i < |s| ==> IsDigit(s[i], radix)
  }

  function DigitValue(c: char): (v: nat)
    requires IsDigit(c, 16)
    ensures v < 16
    ensures IsDigit(c, 10) ==> v < 10
  {
    if '0' <= c <= '9' then c as int - '0' as int
    else if 'a' <= c <= 'f' then c as int - 'a' as int + 10
    else c as int - 'A' as int + 10
  }

  /** The length of the longest prefix of `s` made of base-`radix` digits. */
  function DigitPrefixLength(s: string, radix: nat): (n: nat)
    ensures n <= |s|
    ensures AllDigits(s[..n], radix)
    ensures n == |s| || !IsDigit(s[n], radix)
  {
    if |s| > 0 && IsDigit(s[0], radix) then
      var n := 1 + DigitPrefixLength(s[1..], radix);
      assert forall i :: 1 <= i < n ==> s[..n][i] == s[1..][..n - 1][i - 1];
      n
    else 0
  }

  /** The number a digit string denotes in base `radix`, most significant digit first. */
  function ValueOf(s: string, radix: nat): nat
    requires radix == 10 || radix == 16
    requires AllDigits(s, radix)
  {
    if |s| == 0 then 0
    else ValueOf(s[..|s| - 1], radix) * radix + DigitValue(s[|s| - 1])
  }

  function Pow10(k: nat): (p: nat)
    ensures p >= 1
  {
    if k == 0 then 1 else 10 * Pow10(k - 1)
  }

  /** Both parsers accept an optional leading '+' or '-'. */
  predicate HasSign(s: string)
  {
    |s| > 0 && (s[0] == '-' || s[0] == '+')
  }

  /** -1 for a leading '-', otherwise 1. */
  function SignOf(s: string): int
  {
    if |s| > 0 && s[0] == '-' then -1 else 1
  }

  /** The text after the optional sign. */
  function Unsigned(s: string): string
  {
    if HasSign(s) then s[1..] else s
  }

  predicate HasHexPrefix(s: string)
  {
    |s| >= 2 && s[0] == '0' && (s[1] == 'x' || s[1] == 'X')
  }

  /**
   `parseInt(s)` without a radix on text that is already trimmed: a sign, then a
   "0x"/"0X" prefix selects base 16, then the longest digit prefix; no digit is NaN.
   */
  function ParseInt(s: string): (r: Option<int>)
    ensures |s| == 0 ==> r == None
  {
    var sign := SignOf(s);
    var body := Unsigned(s);
    var radix := if HasHexPrefix(body) then 16 else 10;
    var digits := if radix == 16 then body[2..] else body;
    var n := DigitPrefixLength(digits, radix);
    if n == 0 then None else Some(sign * ValueOf(digits[..n], radix))
  }

  /**
   `parseFloat(s)` on trimmed text: a sign, an integer part and an optional
   fraction after '.', at least one digit in all; anything after that is ignored.
   */
  function ParseFloat(s: string): (r: Option<real>)
    ensures |s| == 0 ==> r == None
  {
    var sign := SignOf(s);
    var body := Unsigned(s);
    var i := DigitPrefixLength(body, 10);
    var frac := FractionDigits(body[i..]);
    if i == 0 && |frac| == 0 then None
    else Some(sign as real * DecimalValue(body[..i], frac))
  }

  /** The digits after a leading '.', or none when `s` does not start with '.'. */
  function FractionDigits(s: string): (f: string)
    ensures AllDigits(f, 10)
  {
    if |s| > 0 && s[0] == '.' then s[1..][..DigitPrefixLength(s[1..], 10)] else ""
  }

  /** The value of the decimal numeral `whole.frac`. */
  function DecimalValue(whole: string, frac: string): real
    requires AllDigits(whole, 10) && AllDigits(frac, 10)
  {
    ValueOf(whole, 10) as real + ValueOf(frac, 10) as real / Pow10(|frac|) as real
  }

  /** The decimal rendering of a natural number, without leading zeros. */
  function ToDecimal(n: nat): (s: string)
    ensures |s| >= 1 && AllDigits(s, 10)
    ensures |s| > 1 ==> s[0] != '0'
  {
    if n < 10 then [('0' as int + n) as char]
    else ToDecimal(n / 10) + [('0' as int + n % 10) as char]
  }

  /** Reading back a decimal rendering gives the number. */
  lemma {:induction false} ValueOfToDecimal(n: nat)
    ensures ValueOf(ToDecimal(n), 10) == n
  {
    if n >= 10 {
      var s := ToDecimal(n);
      assert s[..|s| - 1] == ToDecimal(n / 10);
      ValueOfToDecimal(n / 10);
    }
  }

  /** The digit prefix of a digit string followed by a non-digit is that digit string. */
  lemma {:induction false} DigitPrefixOfDigits(d: string, t: string, radix: nat)
    requires AllDigits(d, radix)
    requires |t| > 0 ==> !IsDigit(t[0], radix)
    ensures DigitPrefixLength(d + t, radix) == |d|
  {
    if |d| > 0 {
      assert (d + t)[1..] == d[1..] + t;
      DigitPrefixOfDigits(d[1..], t, radix);
    } else {
      assert d + t == t;
    }
  }

  /**
   `parseInt` stops at the first character that is not a digit, so "12abc" reads
   as 12; the one exception is a leading "0x", which switches to base 16.
   */
  lemma ParseIntStopsAtNonDigit(d: string, t: string)
    requires |d| > 0 && AllDigits(d, 10)
    requires |t| > 0 ==> !IsDigit(t[0], 10) && t[0] != 'x' && t[0] != 'X'
    ensures ParseInt(d + t) == Some(ValueOf(d, 10))
  {
    var s := d + t;
    assert s[0] == d[0];
    assert SignOf(s) == 1 && Unsigned(s) == s;
    assert !HasHexPrefix(s) by {
      if |d| == 1 && |t| > 0 { assert s[1] == t[0]; }
      if |d| > 1 { assert s[1] == d[1]; }
    }
    DigitPrefixOfDigits(d, t, 10);
    assert s[..|d|] == d;
  }

  /**
   After "0x", `parseInt` reads hexadecimal digits up to the first character that
   is not one; "0x" without a hexadecimal digit is NaN.
   */
  lemma ParseIntHex(d: string, t: string)
    requires AllDigits(d, 16)
    requires |t| > 0 ==> !IsDigit(t[0], 16)
    ensures ParseInt("0x" + d + t) == if |d| == 0 then None else Some(ValueOf(d, 16))
  {
    var digits := d + t;
    assert "0x" + d + t == "0x" + digits;
    HexShape(digits);
    DigitPrefixOfDigits(d, t, 16);
    assert digits[..|d|] == d;
  }

  /** How `parseInt` takes apart a text that starts with "0x". */
  lemma HexShape(digits: string)
    ensures var s := "0x" + digits;
            SignOf(s) == 1 && Unsigned(s) == s && HasHexPrefix(s) && s[2..] == digits
  {
    var s := "0x" + digits;
    assert s[0] == '0' && s[1] == 'x';
  }

  /** A digit string is read by `parseInt` as the number it denotes. */
  lemma ParseIntDigits(d: string)
    requires |d| > 0 && AllDigits(d, 10)
    ensures ParseInt(d) == Some(ValueOf(d, 10))
  {
    ParseIntStopsAtNonDigit(d, "");
    assert d + "" == d;
  }

  /** `parseInt` inverts the decimal rendering, with or without a minus sign. */
  lemma ParseIntToDecimal(n: nat)
    ensures ParseInt(ToDecimal(n)) == Some(n)
    ensures ParseInt("-" + ToDecimal(n)) == Some(-(n as int))
  {
    var d := ToDecimal(n);
    ValueOfToDecimal(n);
    ParseIntDigits(d);
    var s := "-" + d;
    assert SignOf(s) == -1 && Unsigned(s) == d;
    assert !HasHexPrefix(d) by {
      if |d| >= 2 { assert IsDigit(d[1], 10); }
    }
    DigitPrefixOfDigits(d, "", 10);
    assert d + "" == d;
    assert d[..|d|] == d;
  }

  /** `parseFloat` reads "whole.fraction" as whole plus fraction over a power of ten. */
  lemma ParseFloatFraction(d: string, frac: string)
    requires |d| > 0 && AllDigits(d, 10)
    requires AllDigits(frac, 10)
    ensures ParseFloat(d + "." + frac) == Some(DecimalValue(d, frac))
  {
    var s := d + "." + frac;
    assert s[0] == d[0];
    assert SignOf(s) == 1 && Unsigned(s) == s;
    assert s == d + ("." + frac);
    DigitPrefixOfDigits(d, "." + frac, 10);
    assert s[..|d|] == d;
    assert s[|d|..] == "." + frac;
    assert ("." + frac)[1..] == frac;
    DigitPrefixOfDigits(frac, "", 10);
    assert frac + "" == frac;
    assert frac[..|frac|] == frac;
    assert FractionDigits(s[|d|..]) == frac;
  }

  /** A digit string is read by `parseFloat` as the whole number it denotes. */
  lemma ParseFloatDigits(d: string)
    requires |d| > 0 && AllDigits(d, 10)
    ensures ParseFloat(d) == Some(ValueOf(d, 10) as real)
  {
    assert ParseFloat(d) == Some(DecimalValue(d, "")) by {
      ParseFloatStopsAtNonDigit(d, "");
      assert d + "" == d;
    }
    DecimalWhole(d);
  }

  lemma DecimalWhole(d: string)
    requires AllDigits(d, 10)
    ensures DecimalValue(d, "") == ValueOf(d, 10) as real
  {
  }

  /** `parseFloat` stops at the first character that can continue neither the digits nor a fraction. */
  lemma ParseFloatStopsAtNonDigit(d: string, t: string)
    requires |d| > 0 && AllDigits(d, 10)
    requires |t| > 0 ==> !IsDigit(t[0], 10) && t[0] != '.'
    ensures ParseFloat(d + t) == Some(DecimalValue(d, ""))
  {
    var s := d + t;
    assert s[0] == d[0];
    assert SignOf(s) == 1 && Unsigned(s) == s;
    DigitPrefixOfDigits(d, t, 10);
    assert s[..|d|] == d;
    assert s[|d|..] == t;
    assert FractionDigits(t) == "";
  }

  /** `parseFloat` inverts the decimal rendering of a whole amount. */
  lemma ParseFloatToDecimal(n: nat)
    ensures ParseFloat(ToDecimal(n)) == Some(n as real)
  {
    ValueOfToDecimal(n);
    ParseFloatDigits(ToDecimal(n));
  }
}
