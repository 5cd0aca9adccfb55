/** What the FatturaPA generator takes, and which document numbers are usable, said by the calendar
    and in numbers (src/documents.ts). */
module FiscalInputs {
  import opened Options
  import opened Numerals
  import opened Whitespace
  import opened FiscalNumbers
  import opened FiscalDocuments

  // ---------- Dates ----------

  const MONTH_LENGTHS: seq<nat> := [31, 28, 31, 30, 31, 30, 31, 31, 30, 31, 30, 31]

  /** The Gregorian rule: a century is a leap year if it is a multiple of 400. */
  predicate IsLeap(year: nat) {
    if year % 100 == 0 then year % 400 == 0 else year % 4 == 0
  }

  datatype Day = Day(year: nat, month: nat, day: nat)

  predicate IsDay(d: Day) {
    1 <= d.year <= 9999 && 1 <= d.month <= 12 &&
    1 <= d.day <= MONTH_LENGTHS[d.month - 1] + (if d.month == 2 && IsLeap(d.year) then 1 else 0)
  }

  function DateText(d: Day): string {
    PadStart(Decimal(d.year), 4) + "-" + PadStart(Decimal(d.month), 2) + "-" + PadStart(Decimal(d.day), 2)
  }

  lemma DaysAreListed(year: nat, month: nat)
    requires 1 <= month <= 12
    ensures DaysIn(year, month) == MONTH_LENGTHS[month - 1] + (if month == 2 && IsLeap(year) then 1 else 0)
  {
    assert year % 400 == 0 ==> year % 100 == 0 by { Centuries(year); }
    assert year % 100 == 0 ==> year % 4 == 0 by { Fours(year); }
  }

  lemma Centuries(year: nat)
    ensures year % 400 == 0 ==> year % 100 == 0
  {
    assert year == 400 * (year / 400) + year % 400;
    if year % 400 == 0 { assert year == 100 * (4 * (year / 400)); }
  }

  lemma Fours(year: nat)
    ensures year % 100 == 0 ==> year % 4 == 0
  {
    assert year == 100 * (year / 100) + year % 100;
    if year % 100 == 0 { assert year == 4 * (25 * (year / 100)); }
  }

  /** Digits of one length and value are one text. */
  lemma {:induction false} DigitsAreUnique(s: string, t: string)
    requires AllDigits(s) && AllDigits(t) && |s| == |t| && Value(s) == Value(t)
    ensures s == t
    decreases |s|
  {
    if s == "" {
    } else {
      var n := |s| - 1;
      DigitsAreUnique(s[..n], t[..n]);
      assert s == s[..n] + [s[n]] && t == t[..n] + [t[n]];
    }
  }

  function Pow10(n: nat): nat {
    if n == 0 then 1 else 10 * Pow10(n - 1)
  }

  lemma {:induction false} ValueIsBounded(s: string)
    requires AllDigits(s)
    ensures Value(s) < Pow10(|s|)
    decreases |s|
  {
    if s == "" {
    } else {
      ValueIsBounded(s[..|s| - 1]);
    }
  }

  lemma {:induction false} ShortDecimal(n: nat, width: nat)
    requires n < Pow10(width) && width > 0
    ensures |Decimal(n)| <= width
  {
    if n < 10 {
    } else {
      assert width > 1 by { assert Pow10(0) == 1; }
      ShortDecimal(n / 10, width - 1);
    }
  }

  lemma Powers()
    ensures Pow10(0) == 1 && Pow10(1) == 10 && Pow10(2) == 100 && Pow10(3) == 1000 && Pow10(4) == 10000
  {
    assert Pow10(1) == 10 && Pow10(3) == 1000;
  }

  /** Digits of a fixed length are their value, padded. */
  lemma PaddedAgain(s: string)
    requires AllDigits(s) && |s| in {2, 4}
    ensures s == PadStart(Decimal(Value(s)), |s|)
  {
    hide Value, Decimal, PadStart;
    ValueIsBounded(s);
    ShortDecimal(Value(s), |s|);
    PaddedCounts(Value(s), |s|);
    DigitsAreUnique(s, PadStart(Decimal(Value(s)), |s|));
  }

  lemma DateSplits(s: string)
    requires |s| == 10 && s[4] == '-' && s[7] == '-'
    ensures s == s[..4] + "-" + s[5..7] + "-" + s[8..]
  {
  }

  lemma DateParts(a: string, b: string, c: string)
    requires |a| == 4 && |b| == 2 && |c| == 2
    ensures var s := a + "-" + b + "-" + c;
            |s| == 10 && s[..4] == a && s[4] == '-' && s[5..7] == b && s[7] == '-' && s[8..] == c
  {
  }

  lemma DayIsPrinted(d: Day)
    requires IsDay(d)
    ensures var a, b, c := PadStart(Decimal(d.year), 4), PadStart(Decimal(d.month), 2), PadStart(Decimal(d.day), 2);
            |a| == 4 && |b| == 2 && |c| == 2 && AllDigits(a) && AllDigits(b) && AllDigits(c) &&
            Value(a) == d.year && Value(b) == d.month && Value(c) == d.day && a != "0000"
  {
    hide Value, Decimal, PadStart;
    Powers();
    assert d.day < 100 by { assert MONTH_LENGTHS[d.month - 1] <= 31; }
    ShortDecimal(d.year, 4);
    ShortDecimal(d.month, 2);
    ShortDecimal(d.day, 2);
    PaddedCounts(d.year, 4);
    PaddedCounts(d.month, 2);
    PaddedCounts(d.day, 2);
    NoughtsAreNought();
  }

  lemma NoughtsAreNought()
    ensures Value("0000") == 0 && AllDigits("0000")
  {
    assert "0000"[..3] == "000" && "000"[..2] == "00" && "00"[..1] == "0" && "0"[..0] == "";
  }

  /** The dates taken are those of the calendar from the year 1 to 9999, printed with two digits
      for month and day and four for the year, which is the year numbered by. */
  lemma DateIsDay(s: string)
    ensures IsDate(s) <==> exists d :: IsDay(d) && DateText(d) == s
    ensures forall d :: IsDay(d) && DateText(d) == s ==> YearOf(s) == Some(d.year)
  {
    hide Value, Decimal, PadStart, DaysIn;
    if IsDate(s) {
      var d := Day(Value(s[..4]), Value(s[5..7]), Value(s[8..]));
      PaddedAgain(s[..4]);
      PaddedAgain(s[5..7]);
      PaddedAgain(s[8..]);
      DaysAreListed(d.year, d.month);
      DateSplits(s);
      YearIsPositive(s[..4]);
      assert IsDay(d) && DateText(d) == s;
    }
    forall d | IsDay(d) && DateText(d) == s
      ensures IsDate(s) && YearOf(s) == Some(d.year)
    {
      DayIsPrinted(d);
      DateParts(PadStart(Decimal(d.year), 4), PadStart(Decimal(d.month), 2), PadStart(Decimal(d.day), 2));
      DaysAreListed(d.year, d.month);
    }
  }

  lemma YearIsPositive(s: string)
    requires AllDigits(s) && |s| == 4
    ensures Value(s) < 10000 && (Value(s) == 0 <==> s == "0000")
  {
    Powers();
    ValueIsBounded(s);
    NoughtsAreNought();
    if Value(s) == 0 { DigitsAreUnique(s, "0000"); }
  }

  // ---------- Inputs ----------

  predicate IsLine(line: Line) {
    0 < line.quantity <= 2_147_483_647 && 0 <= line.unitAmount <= 2_147_483_647
  }

  /** Trimmed and not blank. */
  predicate IsTrimmed(s: string) {
    s != "" && TrimEnd(s) == s && !IsSpace(s[0])
  }

  /** One to 999 lines of at least one piece, amounts and total within 32 bits, a day of the
      calendar, one of three methods of payment, and a number of that day's year. */
  ghost predicate Takes(profile: Profile, input: Input, numbering: Numbering) {
    IsTrimmed(profile.transmitterCountry) && IsTrimmed(profile.transmitterCode) &&
    IsTrimmed(profile.vatCountry) && IsTrimmed(profile.vatCode) &&
    0 < |input.lines| < 1000 && (forall i :: 0 <= i < |input.lines| ==> IsLine(input.lines[i])) &&
    Total(input.lines) <= 2_147_483_647 && input.paymentMethod in ["MP01", "MP05", "MP08"] && numbering.number >= 0 &&
    exists d :: IsDay(d) && DateText(d) == input.documentDate && d.year == numbering.year
  }

  lemma TrimmedIsText(s: string)
    ensures IsTrimmed(s) <==> IsText(s)
  {
  }

  /** The generator takes exactly these inputs. */
  lemma AcceptableIff(profile: Profile, input: Input, numbering: Numbering)
    ensures Acceptable(profile, input, numbering) <==> Takes(profile, input, numbering)
  {
    hide IsText, IsTrimmed, IsDate, IsDay, DateText, Total, YearOf;
    TrimmedIsText(profile.transmitterCountry);
    TrimmedIsText(profile.transmitterCode);
    TrimmedIsText(profile.vatCountry);
    TrimmedIsText(profile.vatCode);
    DateIsDay(input.documentDate);
    LinesAreLines(input.lines);
  }

  lemma LinesAreLines(lines: seq<Line>)
    ensures (forall line <- lines :: ValidLine(line)) <==> forall i :: 0 <= i < |lines| ==> IsLine(lines[i])
  {
    if forall line <- lines :: ValidLine(line) {
      forall i | 0 <= i < |lines|
        ensures IsLine(lines[i])
      {
        assert lines[i] in lines;
      }
    }
  }

  // ---------- Document numbers ----------

  /** Two digits end a year from 10 on, and four are it. */
  predicate EndsWithYear(text: string, year: nat)
    requires AllDigits(text)
  {
    if |text| == 2 then 10 <= year && Value(text) == year % 100 else 1000 <= year && Value(text) == year
  }

  lemma NamesYearIff(text: string, year: nat)
    requires AllDigits(text) && |text| in {2, 4}
    ensures NamesYear(text, year) <==> EndsWithYear(text, year)
  {
    hide Value, Decimal, LastTwo, AllDigits;
    Powers();
    DecimalValue(year);
    ValueIsBounded(text);
    ValueIsBounded(Decimal(year));
    if |text| == 2 {
      YearEndsIn(year, text);
      if text == Decimal(year) { LongDecimal(year, 2); }
    } else {
      LastTwoIsShort(Decimal(year));
      if text == Decimal(year) { LongDecimal(year, 4); }
      if 1000 <= year && Value(text) == year {
        ShortDecimal(year, 4);
        if |Decimal(year)| < 4 { ShortPower(|Decimal(year)|); }
        DigitsAreUnique(text, Decimal(year));
      }
    }
  }

  lemma LongDecimal(year: nat, width: nat)
    requires width in {2, 4} && |Decimal(year)| == width
    ensures year >= if width == 2 then 10 else 1000
  {
    hide Decimal;
    Powers();
    if year < 10 { ShortDecimal(year, 1); }
    if width == 4 && year < 1000 { ShortDecimal(year, 3); }
  }

  lemma LastTwoIsShort(s: string)
    ensures |LastTwo(s)| <= 2
  {
  }

  lemma ShortPower(n: nat)
    requires n < 4
    ensures Pow10(n) <= 1000
  {
    Powers();
  }

  /** The envelope reader takes exactly the numbers of the pattern that are positive, safe
      integers, and end with the document's year. */
  lemma ValidNumberIff(numero: string, year: nat, p: Parts)
    ensures ValidNumber(numero, year) == Some(p) <==>
            exists gap :: IsEnvelopeText(numero, p, gap) && 0 < Value(p.number) <= 9_007_199_254_740_991 &&
                          EndsWithYear(p.year, year)
  {
    hide MatchEnvelope, Value, NamesYear, EndsWithYear;
    EnvelopeMatchIsExact(numero, p);
    if MatchEnvelope(numero) == Some(p) { NamesYearIff(p.year, year); }
  }
}
