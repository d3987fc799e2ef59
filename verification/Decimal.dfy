/** Decimal text, as `strconv.FormatUint` and the `%d` and `%0Nd` verbs print it. */
module Decimal {
  import opened Bytes

  predicate IsDigit(c: char) {
    '0' <= c <= '9'
  }

  predicate AllDigits(s: string) {
    forall i :: 0 <= i < |s| ==> IsDigit(s[i])
  }

  function DigitChar(d: nat): (c: char)
    requires d < 10
    ensures IsDigit(c) && DigitValue(c) == d
  {
    '0' + d as char
  }

  function DigitValue(c: char): (d: nat)
    requires IsDigit(c)
    ensures d < 10
  {
    (c - '0') as int
  }

  /** The shortest decimal text of `n`. */
  function Format(n: nat): (s: string)
    ensures s != [] && AllDigits(s)
  {
    if n < 10 then [DigitChar(n)] else Format(n / 10) + [DigitChar(n % 10)]
  }

  /** `n` in at least `width` digits, zero-padded on the left. */
  function Pad(n: nat, width: nat): (s: string)
    ensures AllDigits(s)
    decreases n, width
  {
    if n == 0 then seq(width, _ => '0')
    else Pad(n / 10, if width == 0 then 0 else width - 1) + [DigitChar(n % 10)]
  }

  /** The number a digit string denotes. */
  function Parse(s: string): nat
    requires AllDigits(s)
  {
    if s == [] then 0 else 10 * Parse(s[..|s| - 1]) + DigitValue(s[|s| - 1])
  }

  lemma {:induction false} ParseFormat(n: nat)
    ensures Parse(Format(n)) == n
  {
    var s := Format(n);
    if n >= 10 {
      ParseFormat(n / 10);
      assert s[..|s| - 1] == Format(n / 10);
    } else {
      assert s[..|s| - 1] == [];
    }
  }

  lemma FormatInjective(m: nat, n: nat)
    requires Format(m) == Format(n)
    ensures m == n
  {
    ParseFormat(m);
    ParseFormat(n);
  }

  function Pow10(n: nat): (p: int)
    ensures p > 0
  {
    if n == 0 then 1 else 10 * Pow10(n - 1)
  }

  /** A number of at most `width` digits is printed in exactly `width`, and read back. */
  lemma {:induction false} ParsePad(n: nat, width: nat)
    requires n < Pow10(width)
    ensures |Pad(n, width)| == width && Parse(Pad(n, width)) == n
    decreases width
  {
    var s := Pad(n, width);
    if n == 0 {
      ParseZeros(width);
    } else {
      ParsePad(n / 10, width - 1);
      assert s[..|s| - 1] == Pad(n / 10, width - 1);
    }
  }

  lemma {:induction false} ParseZeros(width: nat)
    ensures Parse(seq(width, _ => '0')) == 0
  {
    if width > 0 {
      var s := seq(width, _ => '0');
      assert s[..|s| - 1] == seq(width - 1, _ => '0');
      ParseZeros(width - 1);
    }
  }

  lemma PadStep(n: nat, width: nat, high: nat, d: nat)
    requires n == 10 * high + d && d < 10 && n > 0 && width > 0
    ensures Pad(n, width) == Pad(high, width - 1) + [DigitChar(d)]
  {
    assert n / 10 == high && n % 10 == d;
  }

  lemma DigitChars(d: nat)
    requires d < 10
    ensures DigitChar(d) == "0123456789"[d]
  {
  }

  lemma NoDigits()
    ensures Pad(0, 0) == []
  {
  }
}
