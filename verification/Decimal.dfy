/** Decimal numerals as fmt prints them with %d and %010d, and how a reader takes
    them apart again. */
module Decimal {
  import opened Common

  predicate IsDigit(c: char) {
    '0' <= c <= '9'
  }

  ghost predicate AllDigits(s: string) {
    forall c :: c in s ==> IsDigit(c)
  }

  function Digit(d: nat): char
    requires d < 10
  {
    (48 + d) as char
  }

  /** fmt's %d for a non-negative number. */
  function Digits(n: nat): string {
    if n < 10 then [Digit(n)] else Digits(n / 10) + [Digit(n % 10)]
  }

  function Zeros(k: nat): string {
    seq(k, _ => '0')
  }

  /** fmt's %0<width>d: zeros in front up to the width, never cut when longer. */
  function Padded(n: nat, width: nat): string {
    var d := Digits(n);
    if |d| < width then Zeros(width - |d|) + d else d
  }

  /** The number a run of digits stands for; other bytes count as zero. */
  function Value(s: string): nat {
    if s == [] then 0
    else 10 * Value(s[..|s| - 1]) + (if IsDigit(s[|s| - 1]) then s[|s| - 1] as int - 48 else 0)
  }

  /** How many digits a byte string starts with. */
  function DigitRun(s: string): (k: nat)
    ensures k <= |s|
    ensures AllDigits(s[..k])
    ensures k < |s| ==> !IsDigit(s[k])
  {
    if s != [] && IsDigit(s[0]) then
      assert forall k :: 0 <= k < |s| ==> s[..k + 1] == [s[0]] + s[1..][..k];
      1 + DigitRun(s[1..])
    else 0
  }

  /** Reads the longest numeral at the front: its value and what follows it. */
  function ReadNat(s: string): Option<(nat, string)> {
    var k := DigitRun(s);
    if k == 0 then None else Some((Value(s[..k]), s[k..]))
  }

  function Power10(k: nat): nat {
    if k == 0 then 1 else 10 * Power10(k - 1)
  }

  lemma {:induction false} PrintedDigits(n: nat)
    ensures AllDigits(Digits(n)) && |Digits(n)| >= 1
    ensures Value(Digits(n)) == n
  {
    if n < 10 {
      assert Digits(n)[..0] == "";
    } else {
      PrintedDigits(n / 10);
      assert Digits(n)[..|Digits(n)| - 1] == Digits(n / 10);
    }
  }

  /** A numeral has at most k digits exactly when the number is below ten to the k. */
  lemma {:induction false} DigitCount(n: nat, k: nat)
    requires k >= 1
    ensures |Digits(n)| <= k <==> n < Power10(k)
  {
    if k == 1 {
      PrintedDigits(n);
      if n >= 10 { PrintedDigits(n / 10); }
      assert Power10(1) == 10 * Power10(0);
    } else if n >= 10 {
      DigitCount(n / 10, k - 1);
      assert Power10(k) == 10 * Power10(k - 1);
    } else {
      PowerAtLeastTen(k);
    }
  }

  lemma {:induction false} PowerAtLeastTen(k: nat)
    requires k >= 1
    ensures Power10(k) >= 10
  {
    if k == 1 {
      assert Power10(1) == 10 * Power10(0);
    } else {
      PowerAtLeastTen(k - 1);
    }
  }

  lemma {:induction false} LeadingZeros(k: nat, s: string)
    ensures Value(Zeros(k) + s) == Value(s)
  {
    var z := Zeros(k) + s;
    if s != [] {
      assert z[..|z| - 1] == Zeros(k) + s[..|s| - 1];
      LeadingZeros(k, s[..|s| - 1]);
    } else if k > 0 {
      assert z[..|z| - 1] == Zeros(k - 1) + s;
      LeadingZeros(k - 1, s);
    } else {
      assert z == "";
    }
  }

  lemma RunStops(digits: string, rest: string)
    requires AllDigits(digits)
    requires rest == "" || !IsDigit(rest[0])
    ensures DigitRun(digits + rest) == |digits|
  {
    var s := digits + rest;
    var k := DigitRun(s);
    assert forall i :: 0 <= i < |digits| ==> s[i] == digits[i] && digits[i] in digits;
    assert forall i :: 0 <= i < k ==> s[..k][i] == s[i] && s[i] in s[..k];
    assert rest != "" ==> s[|digits|] == rest[0];
  }

  /** Printing a number and reading it back gives the number and leaves the rest. */
  lemma ReadPrinted(n: nat, rest: string)
    requires rest == "" || !IsDigit(rest[0])
    ensures ReadNat(Digits(n) + rest) == Some((n, rest))
  {
    PrintedDigits(n);
    RunStops(Digits(n), rest);
    var s := Digits(n) + rest;
    assert s[..|Digits(n)|] == Digits(n) && s[|Digits(n)|..] == rest;
  }

  /** A number below 10^width is printed in exactly width digits and has that value. */
  lemma PaddedFits(n: nat, width: nat)
    requires width >= 1
    ensures n < Power10(width) ==> |Padded(n, width)| == width
    ensures n >= Power10(width) ==> |Padded(n, width)| > width
    ensures AllDigits(Padded(n, width))
    ensures Value(Padded(n, width)) == n
  {
    PrintedDigits(n);
    DigitCount(n, width);
    if |Digits(n)| < width {
      LeadingZeros(width - |Digits(n)|, Digits(n));
    }
  }
}
