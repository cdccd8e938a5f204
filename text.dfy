/**
 * The few pieces of JavaScript string formatting the core relies on:
 * `Number.prototype.toString()` on integers and `String.prototype.padStart`.
 */
module Text {

  predicate IsDecimalDigit(c: char) {
    '0' <= c <= '9'
  }

  predicate IsDecimal(s: string) {
    forall i :: 0 <= i < |s| ==> IsDecimalDigit(s[i])
  }

  function DigitChar(d: nat): (c: char)
    requires d < 10
    ensures IsDecimalDigit(c) && DigitValue(c) == d
  {
    ('0' as int + d) as char
  }

  function DigitValue(c: char): nat
    requires IsDecimalDigit(c)
  {
    c as int - '0' as int
  }

  /** A digit character is the character of its value. */
  lemma DigitCharOfValue(c: char)
    requires IsDecimalDigit(c)
    ensures DigitChar(DigitValue(c)) == c
  {
  }

  /** A non-empty string is its prefix followed by its last character. */
  lemma SplitLast(s: string)
    requires s != []
    ensures s == s[..|s| - 1] + [s[|s| - 1]]
  {
  }

  /** The number a string of decimal digits denotes, most significant digit first. */
  function DecimalValue(s: string): nat
    requires IsDecimal(s)
  {
    if s == [] then 0 else DecimalValue(s[..|s| - 1]) * 10 + DigitValue(s[|s| - 1])
  }

  /** `n.toString()` for a non-negative integer: shortest decimal numeral, "0" for zero. */
  function NatToString(n: nat): (r: string)
    ensures 1 <= |r|
    ensures |r| == 1 <==> n < 10
  {
    if n < 10 then [DigitChar(n)] else NatToString(n / 10) + [DigitChar(n % 10)]
  }

  /** The numeral is decimal, has no leading zero, and denotes `n`. */
  lemma {:induction false} NatToStringValue(n: nat)
    ensures IsDecimal(NatToString(n))
    ensures n > 0 ==> NatToString(n)[0] != '0'
    ensures DecimalValue(NatToString(n)) == n
  {
    if n >= 10 {
      var p, r := NatToString(n / 10), NatToString(n);
      NatToStringValue(n / 10);
      assert r[..|r| - 1] == p;
    }
  }

  /**
   * `i.toString()` for any integer: the decimal numeral of its magnitude, without leading
   * zeros, behind a '-' exactly when it is negative.
   */
  function IntToString(i: int): (r: string)
    ensures 1 <= |r|
    ensures i == 0 ==> r == "0"
    ensures i >= 0 ==> IsDecimal(r) && DecimalValue(r) == i && (i > 0 ==> r[0] != '0')
    ensures i < 0 ==>
              2 <= |r| && r[0] == '-' && IsDecimal(r[1..]) && DecimalValue(r[1..]) == -i && r[1] != '0'
  {
    if i < 0 then
      NatToStringValue(-i);
      var r := "-" + NatToString(-i);
      assert r[1..] == NatToString(-i);
      r
    else
      NatToStringValue(i);
      NatToString(i)
  }

  /** `s.padStart(width, fill)`: fills on the left up to `width`; a longer `s` is kept whole. */
  function PadStart(s: string, width: nat, fill: char): (r: string)
    ensures |r| == if |s| >= width then |s| else width
    ensures r[|r| - |s|..] == s
    ensures forall i :: 0 <= i < |r| - |s| ==> r[i] == fill
  {
    if |s| >= width then s else seq(width - |s|, _ => fill) + s
  }

  /** Padding commutes with appending a character on the right. */
  lemma PadStartAppend(s: string, c: char, width: nat, fill: char)
    requires 1 <= width && |s| <= width - 1
    ensures PadStart(s + [c], width, fill) == PadStart(s, width - 1, fill) + [c]
  {
    if |s| < width - 1 {
      assert seq(width - |s + [c]|, _ => fill) == seq(width - 1 - |s|, _ => fill);
    }
  }

  /** A two-digit number pads to exactly its two decimal digits. */
  lemma PadTwoDigits(n: nat)
    requires n < 100
    ensures PadStart(NatToString(n), 2, '0') == [DigitChar(n / 10), DigitChar(n % 10)]
  {
    if n >= 10 {
      assert NatToString(n) == NatToString(n / 10) + [DigitChar(n % 10)];
    }
  }
}
