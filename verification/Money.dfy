/**
 Amounts as text: `amount` (src/documents.ts) prints cents, `decimalToCents` (src/orders.ts)
 reads them. Numbers are exact integers.
 */
module Money {
  import opened Options
  import opened Numerals
  import opened Text

  const POSTGRES_INTEGER_MAX := 2_147_483_647

  /** String(n) of any integer. */
  function Signed(n: int): string {
    if n < 0 then "-" + Decimal(-n) else Decimal(n)
  }

  /** The remainder operator of JavaScript keeps the sign of the dividend. */
  function Remainder(n: int, d: nat): int
    requires d > 0
  {
    if n < 0 then -((-n) % d) else n % d
  }

  function Amount(cents: int): string {
    Signed(cents / 100) + "." + PadStart(Signed(Remainder(cents, 100)), 2)
  }

  /** The part of the pattern after the dot: one or two digits and then only zeros. */
  predicate IsFraction(s: string) {
    IsNumeral(s) && forall i :: 2 <= i < |s| ==> s[i] == '0'
  }

  /** padEnd(2, "0") of a text of at most two characters. */
  function PadEnd(s: string): string {
    if s == "" then "00" else if |s| == 1 then s + "0" else s
  }

  function FirstTwo(s: string): string {
    if |s| > 2 then s[..2] else s
  }

  function Bounded(cents: int): Option<int> {
    if -POSTGRES_INTEGER_MAX <= cents <= POSTGRES_INTEGER_MAX then Some(cents) else None
  }

  function WithSign(negative: bool, cents: nat): int {
    if negative then -(cents as int) else cents
  }

  /** Digits with an optional fraction; the sign is applied to the whole. */
  function Unsigned(body: string, negative: bool): Option<int> {
    var dot := IndexOf(body, ".", 0);
    if dot < 0 then
      if IsNumeral(body) then Bounded(WithSign(negative, Value(body) * 100)) else None
    else if IsNumeral(body[..dot]) && IsFraction(body[dot + 1..]) then
      Bounded(WithSign(negative, Value(body[..dot]) * 100 + Value(PadEnd(FirstTwo(body[dot + 1..])))))
    else None
  }

  function DecimalToCents(value: string): Option<int> {
    if value != "" && value[0] == '-' then Unsigned(value[1..], true) else Unsigned(value, false)
  }

  // ---------- The texts it accepts ----------

  /** sign, digits, and perhaps a dot with one or two digits and any number of zeros */
  datatype Shape = Shape(negative: bool, whole: string, fraction: string, zeros: nat)

  predicate WellShaped(d: Shape) {
    IsNumeral(d.whole) && AllDigits(d.fraction) && |d.fraction| <= 2 && (d.zeros > 0 ==> d.fraction != "")
  }

  function Bare(d: Shape): string {
    if d.fraction == "" then d.whole else d.whole + "." + (d.fraction + Zeros(d.zeros))
  }

  function Printed(d: Shape): string {
    if d.negative then "-" + Bare(d) else Bare(d)
  }

  /** Hundreds of cents, and tens and ones for the digits of the fraction. */
  function Cents(d: Shape): int
    requires WellShaped(d)
  {
    var hundredths :=
      if d.fraction == "" then 0 else if |d.fraction| == 1 then 10 * Value(d.fraction) else Value(d.fraction);
    var amount := 100 * Value(d.whole) + hundredths;
    if d.negative then -amount else amount
  }

  lemma TwoDigitsCount(negative: bool, whole: string, fraction: string)
    requires IsNumeral(whole) && AllDigits(fraction) && |fraction| == 2
    ensures Cents(Shape(negative, whole, fraction, 0)) == WithSign(negative, Value(whole) * 100 + Value(fraction))
  {
    hide Value;
  }

  lemma PaddingCounts(d: Shape)
    requires WellShaped(d)
    ensures AllDigits(PadEnd(d.fraction))
    ensures WithSign(d.negative, Value(d.whole) * 100 + Value(PadEnd(d.fraction))) == Cents(d)
  {
    NoFractionIsZero();
    if |d.fraction| == 1 {
      assert (d.fraction + "0")[..1] == d.fraction;
    }
  }

  /** Digits contain no dot. */
  lemma DotIsFound(whole: string, rest: string)
    requires AllDigits(whole)
    ensures IndexOf(whole + "." + rest, ".", 0) == |whole|
    ensures (whole + "." + rest)[..|whole|] == whole && (whole + "." + rest)[|whole| + 1..] == rest
  {
    var s := whole + "." + rest;
    forall i | 0 <= i < |whole|
      ensures !At(s, i, ".")
    {
      assert s[i] == whole[i] && "."[0] == '.';
    }
    assert At(s, |whole|, ".");
    IndexIs(s, ".", 0, |whole|);
  }

  lemma NoDotIsFound(whole: string)
    requires AllDigits(whole)
    ensures IndexOf(whole, ".", 0) == -1
  {
    forall i | 0 <= i <= |whole|
      ensures !At(whole, i, ".")
    {
      assert "."[0] == '.';
    }
  }

  lemma FractionIsFirstTwo(fraction: string, zeros: nat)
    requires AllDigits(fraction) && 1 <= |fraction| <= 2
    ensures IsFraction(fraction + Zeros(zeros))
    ensures var f := FirstTwo(fraction + Zeros(zeros)); AllDigits(PadEnd(f)) && PadEnd(f) == PadEnd(fraction)
  {
    ZerosAreEqual(zeros);
  }

  lemma NoFractionIsZero()
    ensures AllDigits("00") && Value("00") == 0
  {
    assert "0"[..0] == "" && "00"[..1] == "0";
  }

  lemma WholeIsRead(whole: string, negative: bool)
    requires IsNumeral(whole)
    ensures Unsigned(whole, negative) == Bounded(WithSign(negative, Value(whole) * 100))
  {
    hide IndexOf, Value, Bounded, WithSign;
    NoDotIsFound(whole);
  }

  lemma FractionIsRead(whole: string, rest: string, negative: bool)
    requires IsNumeral(whole) && IsFraction(rest) && AllDigits(PadEnd(FirstTwo(rest)))
    ensures Unsigned(whole + "." + rest, negative) ==
            Bounded(WithSign(negative, Value(whole) * 100 + Value(PadEnd(FirstTwo(rest)))))
  {
    hide IndexOf, Value, Bounded, WithSign, FirstTwo, PadEnd, IsFraction;
    DotIsFound(whole, rest);
  }

  lemma BareIsRead(d: Shape)
    requires WellShaped(d)
    ensures Unsigned(Bare(d), d.negative) == Bounded(Cents(d))
  {
    hide Unsigned, Zeros, Value, FirstTwo, Bounded, WithSign, Cents, IsFraction;
    PaddingCounts(d);
    if d.fraction == "" {
      NoFractionIsZero();
      WholeIsRead(d.whole, d.negative);
    } else {
      FractionIsFirstTwo(d.fraction, d.zeros);
      FractionIsRead(d.whole, d.fraction + Zeros(d.zeros), d.negative);
    }
  }

  lemma ShapeIsRead(d: Shape)
    requires WellShaped(d)
    ensures DecimalToCents(Printed(d)) == Bounded(Cents(d))
  {
    hide IndexOf, At, Zeros, Value, FirstTwo, Bounded, WithSign, Cents, Unsigned;
    BareIsRead(d);
    if d.negative {
      assert Printed(d)[1..] == Bare(d);
    } else {
      assert Printed(d)[0] == d.whole[0];
    }
  }

  lemma AllZeros(s: string)
    requires forall i :: 0 <= i < |s| ==> s[i] == '0'
    ensures s == Zeros(|s|)
  {
    ZerosAreEqual(|s|);
  }

  lemma FractionSplits(rest: string) returns (zeros: nat)
    requires IsFraction(rest)
    ensures var f := FirstTwo(rest); AllDigits(f) && 1 <= |f| <= 2 && rest == f + Zeros(zeros)
  {
    var f := FirstTwo(rest);
    AllZeros(rest[|f|..]);
    zeros := |rest| - |f|;
    assert rest == f + rest[|f|..];
  }

  lemma BareHasShape(body: string, negative: bool) returns (d: Shape)
    requires Unsigned(body, negative).Some?
    ensures WellShaped(d) && d.negative == negative && Bare(d) == body
  {
    hide IndexOf, Zeros, Value, Bounded, WithSign, PadEnd, FirstTwo, IsFraction;
    var dot := IndexOf(body, ".", 0);
    if dot < 0 {
      d := Shape(negative, body, "", 0);
    } else {
      var rest := body[dot + 1..];
      var zeros := FractionSplits(rest);
      d := Shape(negative, body[..dot], FirstTwo(rest), zeros);
      AtChar(body, dot, ".", 0);
      assert body == body[..dot] + "." + rest;
    }
  }

  /** Exactly the texts of that shape within 32 bits are read, each as the number of cents it
      denotes. */
  lemma DecimalIsRead(value: string, cents: int)
    ensures DecimalToCents(value) == Some(cents) <==>
            -2_147_483_647 <= cents <= 2_147_483_647 &&
            exists d :: WellShaped(d) && Printed(d) == value && Cents(d) == cents
  {
    hide IndexOf, At, Zeros, Value, WithSign, Cents, Unsigned, Bare;
    if exists d :: WellShaped(d) && Printed(d) == value && Cents(d) == cents {
      var d :| WellShaped(d) && Printed(d) == value && Cents(d) == cents;
      ShapeIsRead(d);
    }
    if DecimalToCents(value) == Some(cents) {
      var negative := value != "" && value[0] == '-';
      var d := BareHasShape(if negative then value[1..] else value, negative);
      assert Printed(d) == value;
      ShapeIsRead(d);
    }
  }

  // ---------- Printing and reading ----------

  lemma TwoDigits(n: nat)
    requires n < 100
    ensures var s := PadStart(Decimal(n), 2); AllDigits(s) && |s| == 2 && Value(s) == n
  {
    DecimalValue(n);
    PaddedValue(Decimal(n), 2);
  }

  lemma UnitsAndCentsAreRead(negative: bool, units: nat, cents: nat)
    requires cents < 100
    ensures var bare := Decimal(units) + "." + PadStart(Decimal(cents), 2);
            DecimalToCents(if negative then "-" + bare else bare) == Bounded(WithSign(negative, units * 100 + cents))
  {
    hide DecimalToCents, PadStart, Decimal, Bounded, WithSign, Value, AllDigits, Cents;
    TwoDigits(cents);
    DecimalValue(units);
    var fraction := PadStart(Decimal(cents), 2);
    var d := Shape(negative, Decimal(units), fraction, 0);
    assert fraction + Zeros(0) == fraction;
    ShapeIsRead(d);
    TwoDigitsCount(negative, Decimal(units), fraction);
  }

  lemma AmountIsRead(cents: int)
    requires 0 <= cents <= 2_147_483_647
    ensures DecimalToCents(Amount(cents)) == Some(cents)
  {
    hide DecimalToCents, PadStart, Decimal, Value, AllDigits;
    UnitsAndCentsAreRead(false, cents / 100, cents % 100);
  }

  lemma OddRemainder(cents: int)
    requires cents < 0 && cents % 100 != 0
    ensures Remainder(cents, 100) < 0 && cents / 100 < 0
  {
  }

  lemma MinusStands(n: int)
    requires n < 0
    ensures PadStart(Signed(n), 2) == Signed(n) && Signed(n)[0] == '-'
  {
    hide Decimal;
  }

  /** A negative amount with odd cents is printed with a second sign, as in "-1.-1". */
  lemma OddNegativeIsUnreadable(cents: int)
    requires cents < 0 && cents % 100 != 0
    ensures DecimalToCents(Amount(cents)) == None
  {
    hide Decimal, PadStart, Remainder, Unsigned;
    OddRemainder(cents);
    MinusStands(Remainder(cents, 100));
    var units := -(cents / 100);
    var rest := Signed(Remainder(cents, 100));
    assert Amount(cents) == "-" + (Decimal(units) + "." + rest);
    SecondSignIsRefused(units, rest);
  }

  lemma SecondSignIsRefused(units: nat, rest: string)
    requires rest != "" && rest[0] == '-'
    ensures Unsigned(Decimal(units) + "." + rest, true) == None
  {
    hide Decimal, IndexOf, Value, PadEnd, FirstTwo;
    DecimalValue(units);
    DotIsFound(Decimal(units), rest);
  }

  /** What is printed reads back exactly for amounts within range that are not negative or are
      whole units; every caller prints non-negative ones. */
  lemma AmountRoundTripsIff(cents: int)
    ensures DecimalToCents(Amount(cents)) == Some(cents) <==>
            -2_147_483_647 <= cents <= 2_147_483_647 && (cents >= 0 || cents % 100 == 0)
  {
    hide DecimalToCents, PadStart, Decimal, Value, AllDigits;
    if cents >= 0 {
      UnitsAndCentsAreRead(false, cents / 100, cents % 100);
    } else if cents % 100 == 0 {
      UnitsAndCentsAreRead(true, -(cents / 100), 0);
      WholeAmount(cents);
    } else {
      OddNegativeIsUnreadable(cents);
    }
  }

  lemma EvenRemainder(cents: int)
    requires cents < 0 && cents % 100 == 0
    ensures Remainder(cents, 100) == 0 && cents / 100 < 0
  {
  }

  lemma WholeAmount(cents: int)
    requires cents < 0 && cents % 100 == 0
    ensures Amount(cents) == "-" + (Decimal(-(cents / 100)) + "." + PadStart(Decimal(0), 2))
  {
    hide PadStart, Decimal, Remainder;
    EvenRemainder(cents);
  }
}
