/** Decimal text for non-negative integers: the three string operations the
    timer relies on, namely `Number.prototype.toString` on a non-negative
    integer, `String.prototype.padStart` with the fill character '0', and
    `parseInt` on a string made only of decimal digits. */
module Decimal {

  /** A single decimal digit character. */
  type Digit = c: char | '0' <= c <= '9' witness '0'

  /** True if every character of `s` is a decimal digit. */
  predicate IsDigits(s: string) {
    forall i :: 0 <= i < |s| ==> '0' <= s[i] <= '9'
  }

  /** The numeric value of a digit character. */
  function Value(c: Digit): (v: nat)
    ensures v < 10
  {
    c as int - '0' as int
  }

  /** The digit character of a value below ten; inverse of `Value`. */
  function Char(v: nat): (c: Digit)
    requires v < 10
    ensures Value(c) == v
  {
    (v + '0' as int) as char
  }

  /** Base-10 text of `n` without leading zeros, as `n.toString()` gives it. */
  function ToDecimal(n: nat): (r: string)
    ensures 1 <= |r| && IsDigits(r)
    ensures |r| == 1 <==> n < 10
    ensures |r| <= 2 <==> n < 100
    ensures 10 <= n ==> r[0] != '0'
    decreases n
  {
    if n < 10 then [Char(n)] else ToDecimal(n / 10) + [Char(n % 10)]
  }

  /** The value of a digit string, as `parseInt` reads it (leading zeros
      are ignored; the empty string is left at 0 and never parsed here). */
  function Parse(s: string): (r: nat)
    requires IsDigits(s)
    ensures r < Pow10(|s|)
    decreases |s|
  {
    if |s| == 0 then 0 else Parse(s[..|s| - 1]) * 10 + Value(s[|s| - 1])
  }

  /** Ten to the power `k`: one more than the largest `k`-digit value. */
  function Pow10(k: nat): (p: nat)
    ensures p >= 1
  {
    if k == 0 then 1 else 10 * Pow10(k - 1)
  }

  /** `k` copies of the fill character '0'. */
  function Zeros(k: nat): (z: string)
    ensures |z| == k
    ensures forall i :: 0 <= i < k ==> z[i] == '0'
  {
    seq(k, _ => '0')
  }

  /** `s.padStart(width, '0')`: pads on the left up to `width` characters and
      never truncates a longer string. */
  function PadStart(s: string, width: nat): (r: string)
    ensures |r| == if |s| >= width then |s| else width
    ensures r[|r| - |s|..] == s
    ensures forall i :: 0 <= i < |r| - |s| ==> r[i] == '0'
  {
    if |s| >= width then s else Zeros(width - |s|) + s
  }

  /** Reading back the text of `n` gives `n`. */
  lemma {:induction false} ParseToDecimal(n: nat)
    ensures Parse(ToDecimal(n)) == n
    decreases n
  {
    if n < 10 {
      var r := ToDecimal(n);
      assert r[..|r| - 1] == [];
    } else {
      var p := ToDecimal(n / 10);
      var r := p + [Char(n % 10)];
      assert r[..|r| - 1] == p;
      ParseToDecimal(n / 10);
    }
  }

  /** A string of zeros reads as 0. */
  lemma {:induction false} ParseZeros(k: nat)
    ensures IsDigits(Zeros(k)) && Parse(Zeros(k)) == 0
    decreases k
  {
    if k > 0 {
      assert Zeros(k)[..k - 1] == Zeros(k - 1);
      ParseZeros(k - 1);
    }
  }

  /** Leading zeros do not change the value read back. */
  lemma {:induction false} ParseLeadingZeros(k: nat, s: string)
    requires IsDigits(s)
    ensures IsDigits(Zeros(k) + s) && Parse(Zeros(k) + s) == Parse(s)
    decreases |s|
  {
    var t := Zeros(k) + s;
    if |s| == 0 {
      assert t == Zeros(k);
      ParseZeros(k);
    } else {
      assert t[..|t| - 1] == Zeros(k) + s[..|s| - 1];
      ParseLeadingZeros(k, s[..|s| - 1]);
    }
  }

  /** Padding a digit string keeps it a digit string with the same value. */
  lemma PadStartKeepsValue(s: string, width: nat)
    requires IsDigits(s)
    ensures IsDigits(PadStart(s, width))
    ensures Parse(PadStart(s, width)) == Parse(s)
  {
    if |s| < width {
      ParseLeadingZeros(width - |s|, s);
    }
  }

  /** A two-character digit string reads as tens and units. */
  lemma ParseTwo(s: string)
    requires |s| == 2 && IsDigits(s)
    ensures Parse(s) == Value(s[0]) * 10 + Value(s[1])
    ensures Parse(s) <= 99
  {
    var p := s[..1];
    assert p == [s[0]] && s[..|s| - 1] == p;
    assert p[..|p| - 1] == [];
    assert Parse(p) == Value(s[0]);
  }
}
