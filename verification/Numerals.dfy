/** Decimal numerals as text: String(n), padStart and the digit tests of regular expressions. */
module Numerals {
  predicate IsDigit(c: char) {
    '0' <= c <= '9'
  }

  /** One or more digits: /^\d+$/. */
  predicate IsNumeral(s: string) {
    s != "" && forall i :: 0 <= i < |s| ==> IsDigit(s[i])
  }

  predicate IsCanonical(s: string) {
    IsNumeral(s) && (s[0] == '0' ==> |s| == 1)
  }

  function DigitValue(c: char): nat
    requires IsDigit(c)
  {
    c as int - '0' as int
  }

  function Digit(n: nat): (c: char)
    requires n < 10
    ensures IsDigit(c) && DigitValue(c) == n
  {
    ('0' as int + n) as char
  }

  predicate AllDigits(s: string) {
    forall i :: 0 <= i < |s| ==> IsDigit(s[i])
  }

  /** Number(s) or BigInt(s) on digits. */
  function Value(s: string): nat
    requires AllDigits(s)
  {
    if s == "" then 0 else Value(s[..|s| - 1]) * 10 + DigitValue(s[|s| - 1])
  }

  /** String(n) of a non-negative integer. */
  function Decimal(n: nat): (s: string)
    ensures IsCanonical(s)
  {
    if n < 10 then [Digit(n)] else Decimal(n / 10) + [Digit(n % 10)]
  }

  lemma {:induction false} DecimalValue(n: nat)
    ensures Value(Decimal(n)) == n
  {
    if n >= 10 {
      DecimalValue(n / 10);
      assert Decimal(n)[..|Decimal(n)| - 1] == Decimal(n / 10);
    } else {
      assert Decimal(n)[..0] == "";
    }
  }

  lemma {:induction false} CanonicalDecimal(s: string)
    requires IsCanonical(s)
    ensures Decimal(Value(s)) == s
    decreases |s|
  {
    var init := s[..|s| - 1];
    if init != "" {
      assert IsCanonical(init) by {
        assert init[0] == s[0];
      }
      CanonicalDecimal(init);
      CanonicalIsPositive(init);
    } else {
      assert s == [s[0]];
    }
  }

  lemma {:induction false} CanonicalIsPositive(s: string)
    requires IsNumeral(s) && s[0] != '0'
    ensures Value(s) > 0
    decreases |s|
  {
    if |s| == 1 {
    } else {
      assert s[..|s| - 1][0] == s[0];
      CanonicalIsPositive(s[..|s| - 1]);
    }
  }

  /** Without leading zeros, different numerals are different numbers. */
  lemma CanonicalIsInjective(s: string, t: string)
    requires IsCanonical(s) && IsCanonical(t) && Value(s) == Value(t)
    ensures s == t
  {
    CanonicalDecimal(s);
    CanonicalDecimal(t);
  }

  function Zeros(n: nat): (s: string)
    ensures |s| == n && AllDigits(s)
  {
    if n == 0 then "" else "0" + Zeros(n - 1)
  }

  /** String.prototype.padStart(width, "0"). */
  function PadStart(s: string, width: nat): (r: string)
    ensures |r| == if |s| < width then width else |s|
    ensures AllDigits(s) ==> AllDigits(r)
  {
    if |s| < width then Zeros(width - |s|) + s else s
  }

  lemma {:induction false} ZerosAddNothing(n: nat, s: string)
    requires AllDigits(s)
    ensures Value(Zeros(n) + s) == Value(s)
    decreases |s|
  {
    if s == "" {
      assert Zeros(n) + s == Zeros(n);
      ZerosAreZero(n);
    } else {
      assert (Zeros(n) + s)[..n + |s| - 1] == Zeros(n) + s[..|s| - 1];
      ZerosAddNothing(n, s[..|s| - 1]);
    }
  }

  lemma {:induction false} ZerosAreZero(n: nat)
    ensures Value(Zeros(n)) == 0
  {
    if n == 0 {
    } else {
      ZerosAreZero(n - 1);
      assert Zeros(n)[..n - 1] == Zeros(n - 1) by {
        ZerosAreEqual(n);
        ZerosAreEqual(n - 1);
      }
      ZerosAreEqual(n);
    }
  }

  lemma {:induction false} ZerosAreEqual(n: nat)
    ensures forall i :: 0 <= i < n ==> Zeros(n)[i] == '0'
  {
    if n == 0 {
    } else {
      ZerosAreEqual(n - 1);
    }
  }

  lemma PaddedValue(s: string, width: nat)
    requires AllDigits(s)
    ensures Value(PadStart(s, width)) == Value(s)
  {
    if |s| < width {
      ZerosAddNothing(width - |s|, s);
    }
  }
}
