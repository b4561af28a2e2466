/** The printf conversions %x and %0<width>x, and reading them back. */
module Hex {
  predicate IsDigit(c: char) { '0' <= c <= '9' || 'a' <= c <= 'f' }

  predicate AllDigits(s: string) { forall i :: 0 <= i < |s| ==> IsDigit(s[i]) }

  function Digit(d: nat): (c: char)
    requires d < 16
    ensures IsDigit(c) && DigitValue(c) == d
  {
    if d < 10 then ('0' as int + d) as char else ('a' as int + d - 10) as char
  }

  function DigitValue(c: char): (d: nat)
    requires IsDigit(c)
    ensures d < 16
  {
    if c <= '9' then c as int - '0' as int else c as int - 'a' as int + 10
  }

  /** %x */
  function Print(n: nat): string {
    if n < 16 then [Digit(n)] else Print(n / 16) + [Digit(n % 16)]
  }

  function Zeros(k: nat): string { if k == 0 then "" else Zeros(k - 1) + "0" }

  /** %0<width>x */
  function Pad(n: nat, width: nat): string {
    var digits := Print(n);
    if |digits| < width then Zeros(width - |digits|) + digits else digits
  }

  function Value(s: string): nat
    requires AllDigits(s)
  {
    if s == [] then 0 else 16 * Value(s[..|s| - 1]) + DigitValue(s[|s| - 1])
  }

  function Pow16(k: nat): nat { if k == 0 then 1 else 16 * Pow16(k - 1) }

  lemma {:induction false} ValueOfPrint(n: nat)
    ensures AllDigits(Print(n)) && |Print(n)| > 0
    ensures Value(Print(n)) == n
  {
    if n < 16 {
      assert Print(n)[..0] == [];
    } else {
      ValueOfPrint(n / 16);
      var s := Print(n);
      assert s[..|s| - 1] == Print(n / 16);
    }
  }

  lemma {:induction false} ValueOfZeros(k: nat, s: string)
    requires AllDigits(s)
    ensures |Zeros(k)| == k && AllDigits(Zeros(k) + s)
    ensures Value(Zeros(k) + s) == Value(s)
    decreases k + |s|
  {
    if s != [] {
      var t := s[..|s| - 1];
      ValueOfZeros(k, t);
      assert (Zeros(k) + s)[..|Zeros(k) + s| - 1] == Zeros(k) + t;
    } else if k > 0 {
      ValueOfZeros(k - 1, s);
      assert Zeros(k) + s == Zeros(k - 1) + "0";
      assert Zeros(k - 1) + s == Zeros(k - 1);
      assert (Zeros(k) + s)[..k - 1] == Zeros(k - 1);
    }
  }

  lemma {:induction false} ValueOfPad(n: nat, width: nat)
    ensures AllDigits(Pad(n, width)) && |Pad(n, width)| > 0
    ensures Value(Pad(n, width)) == n
  {
    ValueOfPrint(n);
    if |Print(n)| < width {
      ValueOfZeros(width - |Print(n)|, Print(n));
    }
  }

  lemma {:induction false} PadInjective(m: nat, n: nat, width: nat)
    requires Pad(m, width) == Pad(n, width)
    ensures m == n
  {
    ValueOfPad(m, width);
    ValueOfPad(n, width);
  }

  lemma {:induction false} ValueBound(s: string)
    requires AllDigits(s)
    ensures Value(s) < Pow16(|s|)
  {
    if s != [] {
      ValueBound(s[..|s| - 1]);
    }
  }

  /** Two numerals of the same width with the same value are the same text. */
  lemma {:induction false} SameWidthInjective(s: string, t: string)
    requires AllDigits(s) && AllDigits(t) && |s| == |t| && Value(s) == Value(t)
    ensures s == t
  {
    if s != [] {
      var n := |s| - 1;
      assert DigitValue(s[n]) == DigitValue(t[n]);
      SameWidthInjective(s[..n], t[..n]);
      assert s == s[..n] + [s[n]] && t == t[..n] + [t[n]];
    }
  }

  lemma {:induction false} PrintLength(n: nat, width: nat)
    requires width > 0 && n < Pow16(width)
    ensures |Print(n)| <= width
  {
    if n >= 16 {
      assert width > 1;
      PrintLength(n / 16, width - 1);
    }
  }

  /** %0<width>x of a number that fits is exactly width characters. */
  lemma {:induction false} PadLength(n: nat, width: nat)
    requires width > 0 && n < Pow16(width)
    ensures |Pad(n, width)| == width
  {
    PrintLength(n, width);
    ValueOfPrint(n);
    if |Print(n)| < width {
      ValueOfZeros(width - |Print(n)|, Print(n));
    }
  }

  /** Printing the value of a fixed-width numeral gives the numeral back. */
  lemma {:induction false} PadOfValue(s: string)
    requires AllDigits(s) && |s| > 0
    ensures Pad(Value(s), |s|) == s
  {
    ValueBound(s);
    PadLength(Value(s), |s|);
    ValueOfPad(Value(s), |s|);
    SameWidthInjective(Pad(Value(s), |s|), s);
  }

  /** The digits in order. */
  lemma {:induction false} DigitOrder(d: nat)
    requires d < 16
    ensures Digit(d) == "0123456789abcdef"[d]
  {
  }
}
