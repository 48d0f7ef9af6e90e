/** Decimal digit strings: Python's `int()` on ASCII digits, `str()` of a
    natural number, and zero-padded fixed-width fields. */
module Digits {
  import opened Chars

  function DigitValue(c: char): (d: nat)
    requires IsDigit(c)
    ensures d < 10
  {
    c as int - '0' as int
  }

  function DigitChar(d: nat): (c: char)
    requires d < 10
    ensures IsDigit(c) && DigitValue(c) == d
  {
    ('0' as int + d) as char
  }

  /** `int(s)` for a string of ASCII digits. */
  function Number(s: string): nat
    requires AllIn(s, Digit)
  {
    if s == [] then 0
    else Number(s[..|s| - 1]) * 10 + DigitValue(s[|s| - 1])
  }

  function Pow10(n: nat): (p: nat)
    ensures p >= 1
  {
    if n == 0 then 1 else 10 * Pow10(n - 1)
  }

  /** A value below `Pow10(width)` written with exactly `width` digits. */
  function Pad(n: nat, width: nat): (s: string)
    requires n < Pow10(width)
    ensures |s| == width && AllIn(s, Digit)
  {
    if width == 0 then []
    else
      DivBound(n, Pow10(width - 1));
      Pad(n / 10, width - 1) + [DigitChar(n % 10)]
  }

  lemma DivBound(n: nat, p: nat)
    requires n < 10 * p
    ensures n / 10 < p
  {
  }

  /** `str(n)`: the shortest decimal writing of `n`. */
  function Decimal(n: nat): (s: string)
    ensures |s| > 0 && AllIn(s, Digit)
    ensures |s| > 1 ==> s[0] != '0'
  {
    if n < 10 then [DigitChar(n)]
    else
      var s := Decimal(n / 10) + [DigitChar(n % 10)];
      assert s[0] == Decimal(n / 10)[0];
      s
  }

  lemma NumberSnoc(s: string, c: char)
    requires AllIn(s, Digit) && IsDigit(c)
    ensures AllIn(s + [c], Digit) && Number(s + [c]) == Number(s) * 10 + DigitValue(c)
  {
    assert (s + [c])[..|s|] == s;
  }

  /** Reading a padded field back gives the value written. */
  lemma {:induction false} NumberPad(n: nat, width: nat)
    requires n < Pow10(width)
    ensures Number(Pad(n, width)) == n
  {
    if width > 0 {
      DivBound(n, Pow10(width - 1));
      var c := DigitChar(n % 10);
      var p := Pad(n / 10, width - 1);
      assert Pad(n, width) == p + [c];
      NumberPad(n / 10, width - 1);
      NumberSnoc(p, c);
      assert DigitValue(c) == n % 10;
    }
  }

  /** `int(str(n)) == n`. */
  lemma {:induction false} NumberDecimal(n: nat)
    ensures Number(Decimal(n)) == n
  {
    if n >= 10 {
      NumberDecimal(n / 10);
      NumberSnoc(Decimal(n / 10), DigitChar(n % 10));
    }
  }
}
