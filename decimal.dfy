/** Decimal digit strings: the `int(...)` Python applies to a run of ASCII digits,
    zero-padded fields as `isoformat` writes them, and `str(n)` for integers. */
module Decimal {

  predicate IsDigit(c: char) { '0' <= c <= '9' }

  predicate AllDigits(s: string) { forall i :: 0 <= i < |s| ==> IsDigit(s[i]) }

  function Pow10(n: nat): (p: nat)
    ensures p >= 1
  {
    if n == 0 then 1 else 10 * Pow10(n - 1)
  }

  function DigitValue(c: char): (d: nat)
    requires IsDigit(c)
    ensures d < 10
  {
    c as int - '0' as int
  }

  function DigitChar(d: nat): (c: char)
    requires d < 10
    ensures IsDigit(c) && DigitValue(c) == d
  {
    ('0' as int + d) as char
  }

  /** The number a run of digits denotes, most significant digit first. */
  function Value(s: string): (n: nat)
    requires AllDigits(s)
    ensures n < Pow10(|s|)
    decreases |s|
  {
    if s == [] then 0 else Value(s[..|s| - 1]) * 10 + DigitValue(s[|s| - 1])
  }

  /** The lowest `width` decimal digits of `n`, with leading zeros. */
  function Pad(n: nat, width: nat): (s: string)
    ensures |s| == width && AllDigits(s)
  {
    if width == 0 then "" else Pad(n / 10, width - 1) + [DigitChar(n % 10)]
  }

  /** A number that fits in `width` digits is read back from its padded form. */
  lemma {:induction false} PadValue(n: nat, width: nat)
    requires n < Pow10(width)
    ensures Value(Pad(n, width)) == n
  {
    if width > 0 {
      var s := Pad(n, width);
      var init, last := Pad(n / 10, width - 1), DigitChar(n % 10);
      assert s == init + [last];
      assert s[..|s| - 1] == init;
      SplitLastDigit(n, Pow10(width - 1));
      PadValue(n / 10, width - 1);
      assert Value(s) == Value(init) * 10 + DigitValue(last);
    }
  }

  lemma SplitLastDigit(n: nat, m: nat)
    requires n < 10 * m
    ensures n / 10 < m && n == n / 10 * 10 + n % 10
  {
  }

  lemma LastDigit(x: nat, d: nat)
    requires d < 10
    ensures (x * 10 + d) / 10 == x && (x * 10 + d) % 10 == d
  {
  }

  /** A run of digits is written back unchanged from the number it denotes. */
  lemma {:induction false} ValuePad(s: string)
    requires AllDigits(s)
    ensures Pad(Value(s), |s|) == s
  {
    if s != [] {
      var init, last := s[..|s| - 1], s[|s| - 1];
      var v := Value(s);
      assert v == Value(init) * 10 + DigitValue(last);
      LastDigit(Value(init), DigitValue(last));
      ValuePad(init);
      assert Pad(v, |s|) == Pad(Value(init), |init|) + [DigitChar(DigitValue(last))];
      assert s == init + [last];
    }
  }

  /** `str(n)` for a non-negative integer: shortest decimal form, no leading zeros. */
  function NatToString(n: nat): (s: string)
    ensures |s| >= 1 && AllDigits(s)
    ensures Value(s) == n
    ensures s[0] == '0' ==> s == "0"
  {
    if n < 10 then [DigitChar(n)]
    else
      var init := NatToString(n / 10);
      var s := init + [DigitChar(n % 10)];
      assert s[..|s| - 1] == init;
      s
  }

  /** `str(i)` for any integer: a minus sign before the digits of a negative value. */
  function IntToString(i: int): (s: string)
    ensures |s| >= 1
    ensures s[0] == '-' <==> i < 0
    ensures i < 0 ==> |s| >= 2 && AllDigits(s[1..]) && Value(s[1..]) == -i
    ensures i >= 0 ==> AllDigits(s) && Value(s) == i
  {
    if i < 0 then
      var s := "-" + NatToString(-i);
      assert s[1..] == NatToString(-i);
      s
    else NatToString(i)
  }

  /** Different integers are written differently. */
  lemma IntToStringInjective(i: int, j: int)
    requires IntToString(i) == IntToString(j)
    ensures i == j
  {
  }
}
