/**
 * Numerals shared by the screenshot decoder and the display header:
 * decimal numerals as printed by `%u`/`itoa` and read back by a `\d+`
 * match followed by `int()`, and upper-case hexadecimal numerals as
 * printed by `%X` / `%03X`.
 */
module Text {

  // ---------------------------------------------------------------- decimal

  predicate IsDigit(c: char) {
    '0' <= c <= '9'
  }

  predicate AllDigits(s: string) {
    forall i :: 0 <= i < |s| ==> IsDigit(s[i])
  }

  function DigitValue(c: char): nat
    requires IsDigit(c)
  {
    c as int - '0' as int
  }

  function DigitChar(d: nat): (c: char)
    requires d < 10
    ensures IsDigit(c) && DigitValue(c) == d
  {
    ('0' as int + d) as char
  }

  /** The value of a decimal numeral (leading zeros allowed). */
  function DigitsValue(s: string): nat
    requires AllDigits(s)
    decreases |s|
  {
    if s == [] then 0 else DigitsValue(s[..|s| - 1]) * 10 + DigitValue(s[|s| - 1])
  }

  /** The shortest decimal numeral of `n`: non-empty, digits only, no leading zero. */
  function Decimal(n: nat): (s: string)
    ensures |s| >= 1 && AllDigits(s)
    ensures |s| > 1 ==> s[0] != '0'
    ensures n < 10 <==> |s| == 1
  {
    if n < 10 then [DigitChar(n)] else Decimal(n / 10) + [DigitChar(n % 10)]
  }

  /** Reading back the numeral `Decimal` prints gives the number printed. */
  lemma {:induction false} DecimalRoundTrip(n: nat)
    ensures DigitsValue(Decimal(n)) == n
  {
    if n >= 10 {
      var s := Decimal(n);
      assert s[..|s| - 1] == Decimal(n / 10);
      DecimalRoundTrip(n / 10);
    }
  }

  /** `itoa(i, buf, 10)`: a minus sign for negative values, then the decimal numeral of |i|. */
  function SignedDecimal(i: int): (s: string)
    ensures |s| >= 1
    ensures (s[0] == '-') <==> i < 0
    ensures i < 0 ==> AllDigits(s[1..]) && DigitsValue(s[1..]) == -i
    ensures i >= 0 ==> AllDigits(s) && DigitsValue(s) == i
    ensures i >= 0 ==> |s| == 1 || s[0] != '0'
    ensures i < 0 ==> |s| == 2 || s[1] != '0'
  {
    if i < 0 then
      DecimalRoundTrip(-i);
      assert ("-" + Decimal(-i))[1..] == Decimal(-i);
      "-" + Decimal(-i)
    else
      DecimalRoundTrip(i);
      Decimal(i)
  }

  // ------------------------------------------------------------ hexadecimal

  predicate IsUpperHex(c: char) {
    '0' <= c <= '9' || 'A' <= c <= 'F'
  }

  predicate AllUpperHex(s: string) {
    forall i :: 0 <= i < |s| ==> IsUpperHex(s[i])
  }

  function HexDigitValue(c: char): nat
    requires IsUpperHex(c)
  {
    if c <= '9' then c as int - '0' as int else c as int - 'A' as int + 10
  }

  function HexDigitChar(d: nat): (c: char)
    requires d < 16
    ensures IsUpperHex(c) && HexDigitValue(c) == d
  {
    if d < 10 then ('0' as int + d) as char else ('A' as int + d - 10) as char
  }

  /** The value of a hexadecimal numeral (leading zeros allowed). */
  function HexValue(s: string): nat
    requires AllUpperHex(s)
    decreases |s|
  {
    if s == [] then 0 else HexValue(s[..|s| - 1]) * 16 + HexDigitValue(s[|s| - 1])
  }

  /** `%X`: the shortest upper-case hexadecimal numeral of `n`. */
  function UpperHex(n: nat): (s: string)
    ensures |s| >= 1 && AllUpperHex(s)
  {
    if n < 16 then [HexDigitChar(n)] else UpperHex(n / 16) + [HexDigitChar(n % 16)]
  }

  /** `%0<width>X`: `UpperHex(n)` left-padded with zeros to at least `width` characters. */
  function ZeroPaddedHex(n: nat, width: nat): (s: string)
    ensures AllUpperHex(s)
    ensures |s| == if |UpperHex(n)| >= width then |UpperHex(n)| else width
    decreases width
  {
    if |UpperHex(n)| >= width then UpperHex(n) else "0" + ZeroPaddedHex(n, width - 1)
  }

  /** `%X` reads back to the number printed. */
  lemma {:induction false} UpperHexRoundTrip(n: nat)
    ensures HexValue(UpperHex(n)) == n
  {
    if n >= 16 {
      var s := UpperHex(n);
      assert s[..|s| - 1] == UpperHex(n / 16);
      UpperHexRoundTrip(n / 16);
    }
  }

  /** A leading zero does not change the value of a hexadecimal numeral. */
  lemma {:induction false} LeadingZeroHex(s: string)
    requires AllUpperHex(s)
    ensures AllUpperHex("0" + s) && HexValue("0" + s) == HexValue(s)
  {
    if s != [] {
      var t := "0" + s;
      assert t[..|t| - 1] == "0" + s[..|s| - 1];
      LeadingZeroHex(s[..|s| - 1]);
    }
  }

  /** Padding with zeros keeps the value: `%0<width>X` also reads back to `n`. */
  lemma {:induction false} ZeroPaddedHexRoundTrip(n: nat, width: nat)
    ensures HexValue(ZeroPaddedHex(n, width)) == n
    decreases width
  {
    if |UpperHex(n)| >= width {
      UpperHexRoundTrip(n);
    } else {
      ZeroPaddedHexRoundTrip(n, width - 1);
      LeadingZeroHex(ZeroPaddedHex(n, width - 1));
    }
  }

  /** `%X` needs at most three digits exactly when the value is below 16^3. */
  lemma UpperHexAtMostThree(n: nat)
    ensures |UpperHex(n)| <= 3 <==> n < 4096
  {
    var a, b, c := n / 16, n / 16 / 16, n / 16 / 16 / 16;
    if n < 16 {
    } else if a < 16 {
      assert |UpperHex(n)| == 2;
    } else if b < 16 {
      assert |UpperHex(a)| == 2;
      assert |UpperHex(n)| == 3;
    } else {
      assert |UpperHex(c)| >= 1;
      assert |UpperHex(b)| >= 2;
      assert |UpperHex(a)| >= 3;
      assert n >= 4096;
    }
  }
}
