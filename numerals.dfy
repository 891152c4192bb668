/** The three pieces of JavaScript number handling the codec relies on:
    `parseInt` of an offset field, `String(n)` of a rounded offset, and
    `Math.round`.  Numbers are unbounded integers and exact reals here. */
module Numerals {

  predicate IsDigit(c: char) {
    '0' <= c <= '9'
  }

  predicate AllDigits(s: string) {
    forall i :: 0 <= i < |s| ==> IsDigit(s[i])
  }

  /** The offset-field grammar `0|[1-9][0-9]*`: a non-negative decimal
      integer with no sign and no leading zero. */
  predicate IsCanonical(s: string) {
    s == "0" || (|s| > 0 && '1' <= s[0] <= '9' && AllDigits(s))
  }

  function Pow10(k: nat): (p: nat)
    ensures p >= 1
  {
    if k == 0 then 1 else 10 * Pow10(k - 1)
  }

  function DigitValue(c: char): (d: nat)
    requires IsDigit(c)
    ensures d < 10
  {
    (c as int) - ('0' as int)
  }

  function DigitChar(d: nat): (c: char)
    requires d < 10
    ensures IsDigit(c) && DigitValue(c) == d
  {
    (('0' as int) + d) as char
  }

  /** `parseInt` applied to a string of decimal digits (the only strings the
      decoder hands it).  The value has no more digits than the string, and
      exactly as many when the string does not start with `0`. */
  function ParseDigits(s: string): (n: nat)
    requires AllDigits(s)
    ensures n < Pow10(|s|)
    ensures |s| > 0 && s[0] != '0' ==> Pow10(|s| - 1) <= n
  {
    if s == [] then 0 else ParseDigits(s[..|s| - 1]) * 10 + DigitValue(s[|s| - 1])
  }

  /** `String(n)` for a non-negative integer: its shortest decimal form. */
  function FormatNat(n: nat): (s: string)
    ensures IsCanonical(s)
    ensures s[0] == '0' ==> n == 0
  {
    if n < 10 then [DigitChar(n)] else FormatNat(n / 10) + [DigitChar(n % 10)]
  }

  /** `String(i)` for any integer: a `-` sign in front of negative values,
      then the digits of the magnitude, which read back as that magnitude. */
  function FormatInt(i: int): (s: string)
    ensures |s| > 0 && (s[0] == '-' <==> i < 0)
    ensures i >= 0 ==> IsCanonical(s) && AllDigits(s) && ParseDigits(s) == i
    ensures i < 0 ==> IsCanonical(s[1..]) && AllDigits(s[1..]) && ParseDigits(s[1..]) == -i
  {
    if i < 0 then
      ParseFormat(-i);
      assert ("-" + FormatNat(-i))[1..] == FormatNat(-i);
      "-" + FormatNat(-i)
    else
      ParseFormat(i);
      FormatNat(i)
  }

  /** `Math.round`: the nearest integer, a tie going towards +infinity
      (so -0.5 rounds to 0, not to -1). */
  function Round(x: real): (k: int)
    ensures k as real - 0.5 <= x < k as real + 0.5
  {
    (x + 0.5).Floor
  }

  /** `parseInt(String(n)) == n` for every non-negative integer. */
  lemma {:induction false} ParseFormat(n: nat)
    ensures ParseDigits(FormatNat(n)) == n
  {
    if n >= 10 {
      var s := FormatNat(n);
      assert s[..|s| - 1] == FormatNat(n / 10);
      ParseFormat(n / 10);
    }
  }

  /** Every field the grammar accepts is the `String` of the number it
      denotes: the canonical form is unique. */
  lemma {:induction false} FormatParse(s: string)
    requires IsCanonical(s)
    ensures FormatNat(ParseDigits(s)) == s
  {
    if |s| >= 2 {
      var p := s[..|s| - 1];
      var d := DigitValue(s[|s| - 1]);
      assert IsCanonical(p);
      var m := ParseDigits(p);
      assert m >= 1;
      var n := ParseDigits(s);
      assert n == m * 10 + d;
      assert n / 10 == m && n % 10 == d;
      FormatParse(p);
      assert s == p + [s[|s| - 1]];
    }
  }

  /** The `String` of an integer passes the field grammar exactly when the
      integer is not negative; a negative one carries a `-`. */
  lemma FormatIntCanonical(i: int)
    ensures IsCanonical(FormatInt(i)) <==> i >= 0
    ensures '-' in FormatInt(i) <==> i < 0
  {
    if i >= 0 {
      var s := FormatNat(i);
      assert AllDigits(s);
    } else {
      assert FormatInt(i)[0] == '-';
    }
  }

  /** `Math.round` returns the integer within half a unit below and strictly
      less than half a unit above; in particular it fixes integers. */
  lemma RoundUnique(x: real, k: int)
    requires k as real - 0.5 <= x < k as real + 0.5
    ensures Round(x) == k
  {
  }

  /** Ties go up, not away from zero. */
  lemma RoundTies()
    ensures Round(-0.5) == 0 && Round(0.5) == 1
    ensures Round(-1.5) == -1 && Round(2.5) == 3
  {
  }
}
