/** Decimal formatting of numbers in generated names, and that it never makes two names equal. */
module Decimal {

  function DigitChar(d: nat): char
    requires d < 10
  {
    '0' + d as char
  }

  /** `%d` */
  function Digits(n: nat): (s: string)
    ensures s != []
  {
    if n < 10 then [DigitChar(n)] else Digits(n / 10) + [DigitChar(n % 10)]
  }

  /** Padding with zeros on the left, up to `width` characters. */
  function Padded(s: string, width: nat): string
    decreases width - |s|
  {
    if |s| >= width then s else Padded("0" + s, width)
  }

  /** `srv%03d` */
  function SrvName(n: nat): string
  {
    "srv" + Padded(Digits(n), 3)
  }

  /** Reads a string of digits back. */
  function ValueOf(s: string): int
  {
    if s == [] then 0 else 10 * ValueOf(s[..|s| - 1]) + (s[|s| - 1] as int - '0' as int)
  }

  lemma {:induction false} DigitsRoundTrip(n: nat)
    ensures ValueOf(Digits(n)) == n
  {
    if n < 10 {
      assert Digits(n)[..0] == [];
    } else {
      DigitsRoundTrip(n / 10);
      assert Digits(n)[..|Digits(n)| - 1] == Digits(n / 10);
    }
  }

  lemma {:induction false} LeadingZero(s: string)
    ensures ValueOf("0" + s) == ValueOf(s)
  {
    if s == [] {
      assert ("0" + s)[..0] == [];
      assert ValueOf("0" + s) == 10 * ValueOf([]) + 0;
    } else {
      LeadingZero(s[..|s| - 1]);
      assert ("0" + s)[..|s|] == "0" + s[..|s| - 1];
    }
  }

  lemma {:induction false} PaddingKeepsValue(s: string, width: nat)
    ensures ValueOf(Padded(s, width)) == ValueOf(s)
    decreases width - |s|
  {
    if |s| < width {
      PaddingKeepsValue("0" + s, width);
      LeadingZero(s);
    }
  }

  lemma DigitsInjective(m: nat, n: nat)
    requires Digits(m) == Digits(n)
    ensures m == n
  {
    DigitsRoundTrip(m);
    DigitsRoundTrip(n);
  }

  lemma SrvNameInjective(m: nat, n: nat)
    requires SrvName(m) == SrvName(n)
    ensures m == n
  {
    assert Padded(Digits(m), 3) == SrvName(m)[3..] && Padded(Digits(n), 3) == SrvName(n)[3..];
    PaddingKeepsValue(Digits(m), 3);
    PaddingKeepsValue(Digits(n), 3);
    DigitsRoundTrip(m);
    DigitsRoundTrip(n);
  }

  predicate AllDigits(s: string)
  {
    forall i :: 0 <= i < |s| ==> '0' <= s[i] <= '9'
  }

  /** Digits only, and no leading zero but in the number zero. */
  lemma {:induction false} DigitsAreDecimal(n: nat)
    ensures AllDigits(Digits(n)) && (Digits(n)[0] == '0' ==> n == 0)
  {
    if n >= 10 {
      DigitsAreDecimal(n / 10);
    }
  }

  lemma {:induction false} PaddedIs(s: string, width: nat)
    ensures var r := Padded(s, width);
            && |r| == (if |s| >= width then |s| else width)
            && r[|r| - |s|..] == s && forall i :: 0 <= i < |r| - |s| ==> r[i] == '0'
    decreases width - |s|
  {
    if |s| < width {
      PaddedIs("0" + s, width);
      var r := Padded(s, width);
      assert r[|r| - |s|..] == r[|r| - |s| - 1..][1..];
      assert r[|r| - |s| - 1] == r[|r| - |s| - 1..][0];
    }
  }

  /** The name of a server: the number in at least three digits, with leading zeros only up to these. */
  lemma SrvNameIs(n: nat)
    ensures var s := SrvName(n);
            && |s| >= 6 && s[..3] == "srv" && AllDigits(s[3..]) && ValueOf(s[3..]) == n
            && (|s| > 6 ==> s[3] != '0')
  {
    var d := Digits(n);
    DigitsAreDecimal(n);
    DigitsRoundTrip(n);
    PaddingKeepsValue(d, 3);
    PaddedIs(d, 3);
    var r := Padded(d, 3);
    assert SrvName(n)[3..] == r;
    forall i | 0 <= i < |r| ensures '0' <= r[i] <= '9' {
      assert i >= |r| - |d| ==> r[i] == r[|r| - |d|..][i - (|r| - |d|)];
    }
    assert |r| > 3 ==> r[0] == r[|r| - |d|..][0];
  }
}
