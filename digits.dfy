/** Decimal rendering of natural numbers, as Python's `str(n)` and the
    `{n:0Wd}` format specifier produce it, and the inverse reading that the
    subtitle and caption parsers rely on. */
module Digits {

  function Min(a: int, b: int): int { if a <= b then a else b }
  function Max(a: int, b: int): int { if a >= b then a else b }

  predicate IsDigit(c: char) {
    '0' <= c <= '9'
  }

  predicate AllDigits(s: string) {
    forall i :: 0 <= i < |s| ==> IsDigit(s[i])
  }

  function DigitChar(d: nat): (c: char)
    requires d < 10
    ensures IsDigit(c)
  {
    ('0' as int + d) as char
  }

  function DigitValue(c: char): (d: nat)
    requires IsDigit(c)
    ensures d < 10 && DigitChar(d) == c
  {
    c as int - '0' as int
  }

  /** `str(n)` for a non-negative int: no sign, no leading zero. */
  function NatStr(n: nat): (s: string)
    ensures |s| >= 1 && AllDigits(s)
    ensures n >= 10 <==> s[0] != '0' && |s| > 1
    decreases n
  {
    if n < 10 then [DigitChar(n)] else NatStr(n / 10) + [DigitChar(n % 10)]
  }

  /** The number a string of decimal digits denotes (leading zeros allowed). */
  function DigitsValue(s: string): nat
    requires AllDigits(s)
    decreases |s|
  {
    if s == [] then 0 else DigitsValue(s[..|s| - 1]) * 10 + DigitValue(s[|s| - 1])
  }

  function Zeros(k: nat): (z: string)
    ensures |z| == k && AllDigits(z)
    ensures forall i :: 0 <= i < k ==> z[i] == '0'
  {
    seq(k, _ => '0')
  }

  /** `f"{n:0{w}d}"`: at least `w` characters, zero-filled on the left. */
  function Pad(n: nat, w: nat): (s: string)
    ensures AllDigits(s)
    ensures |s| == if |NatStr(n)| < w then w else |NatStr(n)|
  {
    if |NatStr(n)| < w then Zeros(w - |NatStr(n)|) + NatStr(n) else NatStr(n)
  }

  function Pow10(k: nat): (p: nat)
    ensures p >= 1
  {
    if k == 0 then 1 else 10 * Pow10(k - 1)
  }

  /** Reading back what `NatStr` writes gives the number. */
  lemma {:induction false} NatStrRoundTrip(n: nat)
    ensures DigitsValue(NatStr(n)) == n
    decreases n
  {
    if n >= 10 {
      NatStrRoundTrip(n / 10);
      var s := NatStr(n);
      assert s[..|s| - 1] == NatStr(n / 10);
    }
  }

  lemma NatStrInjective(m: nat, n: nat)
    requires NatStr(m) == NatStr(n)
    ensures m == n
  {
    NatStrRoundTrip(m);
    NatStrRoundTrip(n);
  }

  lemma {:induction false} LeadingZeroIgnored(s: string)
    requires AllDigits(s)
    ensures DigitsValue(['0'] + s) == DigitsValue(s)
    decreases |s|
  {
    if s != [] {
      var t := ['0'] + s;
      assert t[..|t| - 1] == ['0'] + s[..|s| - 1];
      LeadingZeroIgnored(s[..|s| - 1]);
    }
  }

  lemma {:induction false} LeadingZerosIgnored(k: nat, s: string)
    requires AllDigits(s)
    ensures DigitsValue(Zeros(k) + s) == DigitsValue(s)
    decreases k
  {
    if k > 0 {
      assert Zeros(k) + s == ['0'] + (Zeros(k - 1) + s);
      LeadingZeroIgnored(Zeros(k - 1) + s);
      LeadingZerosIgnored(k - 1, s);
    } else {
      assert Zeros(k) + s == s;
    }
  }

  /** Zero padding does not change the number a field denotes. */
  lemma PadRoundTrip(n: nat, w: nat)
    ensures DigitsValue(Pad(n, w)) == n
  {
    NatStrRoundTrip(n);
    if |NatStr(n)| < w {
      LeadingZerosIgnored(w - |NatStr(n)|, NatStr(n));
    }
  }

  /** A number below 10^w needs at most w digits. */
  lemma {:induction false} NatStrLength(n: nat, w: nat)
    requires 1 <= w && n < Pow10(w)
    ensures |NatStr(n)| <= w
    decreases n
  {
    if n >= 10 {
      NatStrLength(n / 10, w - 1);
    }
  }

  /** So padding a number below 10^w to width w gives exactly w characters. */
  lemma PadExact(n: nat, w: nat)
    requires 1 <= w && n < Pow10(w)
    ensures |Pad(n, w)| == w
  {
    NatStrLength(n, w);
  }
}
