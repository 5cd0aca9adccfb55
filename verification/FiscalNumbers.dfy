/**
 The printed number of a fiscal document (src/fiscal-number.ts) and the two patterns that read
 it back (src/documents.ts).
 */
module FiscalNumbers {
  import opened Options
  import opened Numerals
  import opened Whitespace

  /** slice(-2) */
  function LastTwo(s: string): string {
    if |s| <= 2 then s else s[|s| - 2..]
  }

  function FiscalNumberLabel(series: string, year: nat, number: nat): string {
    series + " " + PadStart(Decimal(number), 4) + "/" + LastTwo(Decimal(year))
  }

  /** A number in digits, padded with zeros to a width and not beyond it. */
  predicate CountsTo(digits: string, number: nat, width: nat) {
    IsNumeral(digits) && Value(digits) == number && |digits| >= width && (|digits| > width ==> IsCanonical(digits))
  }

  lemma PaddedCounts(number: nat, width: nat)
    ensures CountsTo(PadStart(Decimal(number), width), number, width)
  {
    DecimalValue(number);
    PaddedValue(Decimal(number), width);
  }

  /** A label is the series, a blank, the number in four digits or more, a slash, and the end of
      the year. */
  lemma LabelIs(series: string, year: nat, number: nat) returns (digits: string)
    ensures FiscalNumberLabel(series, year, number) == series + " " + digits + "/" + LastTwo(Decimal(year))
    ensures CountsTo(digits, number, 4)
  {
    digits := PadStart(Decimal(number), 4);
    PaddedCounts(number, 4);
  }

  datatype Parts = Parts(series: string, number: string, year: string)

  /** /^FPR (\d+)\/(\d{2})$/ */
  function MatchAccepted(s: string): Option<Parts> {
    if |s| >= 8 && s[..4] == "FPR " && s[|s| - 3] == '/' && IsNumeral(s[4..|s| - 3]) && IsNumeral(s[|s| - 2..]) then
      Some(Parts("FPR", s[4..|s| - 3], s[|s| - 2..]))
    else None
  }

  /** The first position from `from` on whose character is not of the class. */
  function Skip(s: string, from: nat, inClass: char -> bool): (r: nat)
    requires from <= |s|
    ensures from <= r <= |s| && (forall i :: from <= i < r ==> inClass(s[i])) && (r < |s| ==> !inClass(s[r]))
    decreases |s| - from
  {
    if from < |s| && inClass(s[from]) then Skip(s, from + 1, inClass) else from
  }

  predicate NotSpace(c: char) {
    !IsSpace(c)
  }

  /** /^(\S+)\s+(\d+)\/(\d{2}|\d{4})$/: the classes of neighbouring groups are disjoint, so each
      group takes all it can. */
  function MatchEnvelope(s: string): Option<Parts> {
    var i := Skip(s, 0, NotSpace);
    var j := Skip(s, i, IsSpace);
    var k := Skip(s, j, IsDigit);
    if 0 < i < j < k < |s| && s[k] == '/' && IsNumeral(s[k + 1..]) && |s[k + 1..]| in {2, 4} then
      Some(Parts(s[..i], s[j..k], s[k + 1..]))
    else None
  }

  lemma SkipIs(s: string, from: nat, inClass: char -> bool, r: nat)
    requires from <= r <= |s| && (forall i :: from <= i < r ==> inClass(s[i])) && (r < |s| ==> !inClass(s[r]))
    ensures Skip(s, from, inClass) == r
  {
  }

  /** The groups of a text of the envelope pattern. */
  ghost predicate IsEnvelopeText(s: string, p: Parts, gap: string) {
    s == p.series + gap + p.number + "/" + p.year &&
    p.series != "" && (forall i :: 0 <= i < |p.series| ==> !IsSpace(p.series[i])) &&
    gap != "" && (forall i :: 0 <= i < |gap| ==> IsSpace(gap[i])) &&
    IsNumeral(p.number) && IsNumeral(p.year) && |p.year| in {2, 4}
  }

  lemma SkipPiece(s: string, from: nat, piece: string, inClass: char -> bool)
    requires from + |piece| < |s| && s[from..from + |piece|] == piece
    requires (forall i :: 0 <= i < |piece| ==> inClass(piece[i])) && !inClass(s[from + |piece|])
    ensures Skip(s, from, inClass) == from + |piece|
  {
    forall n | from <= n < from + |piece|
      ensures inClass(s[n])
    {
      assert s[n] == piece[n - from];
    }
    SkipIs(s, from, inClass, from + |piece|);
  }

  lemma PiecesStand(s: string, p: Parts, gap: string)
    requires s == p.series + gap + p.number + "/" + p.year && gap != "" && p.number != ""
    ensures var i, j := |p.series|, |p.series| + |gap|;
            var k := j + |p.number|;
            k < |s| && s[..i] == p.series && s[i..j] == gap && s[j..k] == p.number && s[k + 1..] == p.year &&
            s[i] == gap[0] && s[j] == p.number[0] && s[k] == '/'
  {
  }

  lemma EnvelopeTextMatches(s: string, p: Parts, gap: string)
    requires IsEnvelopeText(s, p, gap)
    ensures MatchEnvelope(s) == Some(p)
  {
    hide *;
    PiecesFit(s, p, gap);
    PiecesStand(s, p, gap);
    SkipPiece(s, 0, p.series, NotSpace);
    SkipPiece(s, |p.series|, gap, IsSpace);
    SkipPiece(s, |p.series| + |gap|, p.number, IsDigit);
    PiecesAreMatched(s, p, gap);
  }

  lemma PiecesFit(s: string, p: Parts, gap: string)
    requires IsEnvelopeText(s, p, gap)
    ensures s == p.series + gap + p.number + "/" + p.year && p.series != "" && gap != "" && p.number != ""
    ensures (forall i :: 0 <= i < |p.series| ==> NotSpace(p.series[i])) && !NotSpace(gap[0])
    ensures (forall i :: 0 <= i < |gap| ==> IsSpace(gap[i])) && !IsSpace(p.number[0])
    ensures (forall i :: 0 <= i < |p.number| ==> IsDigit(p.number[i])) && !IsDigit('/')
  {
    hide IsSpace, IsDigit;
    ClassesDiffer(p.number[0]);
  }

  lemma PiecesAreMatched(s: string, p: Parts, gap: string)
    requires IsEnvelopeText(s, p, gap)
    requires Skip(s, 0, NotSpace) == |p.series| && Skip(s, |p.series|, IsSpace) == |p.series| + |gap|
    requires Skip(s, |p.series| + |gap|, IsDigit) == |p.series| + |gap| + |p.number|
    ensures MatchEnvelope(s) == Some(p)
  {
    hide *;
    PiecesFit(s, p, gap);
    PiecesStand(s, p, gap);
    YearFits(s, p, gap);
    MatchedAt(s, |p.series|, |p.series| + |gap|, |p.series| + |gap| + |p.number|);
  }

  lemma YearFits(s: string, p: Parts, gap: string)
    requires IsEnvelopeText(s, p, gap)
    ensures IsNumeral(p.year) && |p.year| in {2, 4}
  {
    hide IsNumeral;
  }

  lemma MatchedAt(s: string, i: nat, j: nat, k: nat)
    requires 0 < i < j < k < |s| && s[k] == '/' && IsNumeral(s[k + 1..]) && |s[k + 1..]| in {2, 4}
    requires Skip(s, 0, NotSpace) == i && Skip(s, i, IsSpace) == j && Skip(s, j, IsDigit) == k
    ensures MatchEnvelope(s) == Some(Parts(s[..i], s[j..k], s[k + 1..]))
  {
    hide IsSpace, IsDigit, Skip, IsNumeral;
  }

  lemma ClassesDiffer(c: char)
    ensures !(IsDigit(c) && IsSpace(c)) && !IsDigit('/')
  {
  }

  lemma GapOf(s: string, p: Parts) returns (gap: string)
    requires MatchEnvelope(s) == Some(p)
    ensures IsEnvelopeText(s, p, gap)
  {
    hide IsSpace, IsDigit, Skip, Value;
    var i := Skip(s, 0, NotSpace);
    var j := Skip(s, i, IsSpace);
    var k := Skip(s, j, IsDigit);
    gap := s[i..j];
    CutsJoin(s, i, j, k);
    Stretch(s, 0, i, NotSpace);
    Stretch(s, i, j, IsSpace);
    Stretch(s, j, k, IsDigit);
  }

  lemma CutsJoin(s: string, i: nat, j: nat, k: nat)
    requires i <= j <= k < |s| && s[k] == '/'
    ensures s == s[..i] + s[i..j] + s[j..k] + "/" + s[k + 1..] && s[..i] == s[0..i]
  {
  }

  lemma Stretch(s: string, from: nat, until: nat, inClass: char -> bool)
    requires from <= until <= |s| && forall n :: from <= n < until ==> inClass(s[n])
    ensures forall n :: 0 <= n < until - from ==> inClass(s[from..until][n])
  {
  }

  /** The pattern's groups are unique, and it matches exactly the texts built from them. */
  lemma EnvelopeMatchIsExact(s: string, p: Parts)
    ensures MatchEnvelope(s) == Some(p) <==> exists gap :: IsEnvelopeText(s, p, gap)
  {
    if MatchEnvelope(s) == Some(p) {
      var gap := GapOf(s, p);
    }
    if exists gap :: IsEnvelopeText(s, p, gap) {
      var gap :| IsEnvelopeText(s, p, gap);
      EnvelopeTextMatches(s, p, gap);
    }
  }

  /** Whatever the stricter pattern accepts, the other one splits the same way. */
  lemma AcceptedIsEnvelope(s: string)
    requires MatchAccepted(s).Some?
    ensures MatchEnvelope(s) == MatchAccepted(s)
  {
    var p := MatchAccepted(s).value;
    assert s == "FPR" + " " + p.number + "/" + p.year by {
      assert s[..4] == "FPR" + " ";
      assert s == s[..4] + s[4..|s| - 3] + [s[|s| - 3]] + s[|s| - 2..];
    }
    assert IsEnvelopeText(s, p, " ");
    EnvelopeTextMatches(s, p, " ");
  }

  // ---------- The year at the end ----------

  /** The only text of two digits with a given value. */
  lemma TwoDigitText(s: string)
    requires |s| == 2 && AllDigits(s)
    ensures Value(s) < 100 && s == [Digit(Value(s) / 10), Digit(Value(s) % 10)]
  {
    assert s[..1] == [s[0]] && s[..1][..0] == "";
    assert Value(s[..1]) == DigitValue(s[0]);
  }

  /** A printed number ends in its last digit. */
  lemma DecimalEnds(n: nat) returns (before: string)
    ensures Decimal(n) == before + [Digit(n % 10)] && (n >= 10 ==> before == Decimal(n / 10))
  {
    before := if n < 10 then "" else Decimal(n / 10);
  }

  lemma LastTwoIs(before: string, c: char, d: char)
    requires IsDigit(c) && IsDigit(d)
    ensures LastTwo(before + [c] + [d]) == [c, d]
    ensures AllDigits([c, d]) && Value([c, d]) == DigitValue(c) * 10 + DigitValue(d)
  {
    assert [c, d][..1] == [c] && [c][..0] == "";
    assert Value([c]) == DigitValue(c);
  }

  lemma LastTwoOfYear(year: nat)
    requires year >= 10
    ensures var s := LastTwo(Decimal(year)); |s| == 2 && AllDigits(s) && Value(s) == year % 100
  {
    hide Decimal, Digit, LastTwo, Value, AllDigits;
    var tens := DecimalEnds(year);
    var hundreds := DecimalEnds(year / 10);
    LastTwoIs(hundreds, Digit(year / 10 % 10), Digit(year % 10));
    LowDigits(year);
  }

  lemma LowDigits(year: nat)
    ensures year % 100 == year / 10 % 10 * 10 + year % 10
  {
    var hundreds, tens, ones := year / 100, year / 10 % 10, year % 10;
    assert year / 10 == 10 * hundreds + tens;
    assert year == 100 * hundreds + (10 * tens + ones);
  }

  lemma ShortYear(year: nat)
    requires year < 10
    ensures |LastTwo(Decimal(year))| == 1 && IsDigit(LastTwo(Decimal(year))[0])
  {
  }

  /** A year ends in the two digits of its value modulo 100 exactly from the year 10 on: an
      earlier one prints a single digit. */
  lemma YearEndsIn(year: nat, s: string)
    requires |s| == 2 && AllDigits(s)
    ensures LastTwo(Decimal(year)) == s <==> year >= 10 && Value(s) == year % 100
  {
    hide Value, Decimal, LastTwo, AllDigits, Digit;
    TwoDigitText(s);
    if year >= 10 {
      LastTwoOfYear(year);
      TwoDigitText(LastTwo(Decimal(year)));
    } else {
      ShortYear(year);
    }
  }

  lemma FprIsAccepted(digits: string, end: string)
    requires IsNumeral(digits) && IsNumeral(end) && |end| == 2
    ensures MatchAccepted("FPR " + digits + "/" + end) == Some(Parts("FPR", digits, end))
  {
    var s := "FPR " + digits + "/" + end;
    assert s[..4] == "FPR ";
    assert s[|s| - 2..] == end && s[|s| - 3] == '/';
    assert s[4..|s| - 3] == digits;
  }

  lemma PaddedNumber(number: nat)
    ensures IsNumeral(PadStart(Decimal(number), 4)) && Value(PadStart(Decimal(number), 4)) == number
  {
    PaddedValue(Decimal(number), 4);
    DecimalValue(number);
  }

  /** The label of the FPR series is read by the stricter pattern from the year 10 on, with the
      number and the last digits of the year it was printed from; before, by neither. */
  lemma LabelIsAccepted(year: nat, number: nat)
    requires year >= 10
    ensures MatchAccepted(FiscalNumberLabel("FPR", year, number)) ==
            Some(Parts("FPR", PadStart(Decimal(number), 4), LastTwo(Decimal(year))))
  {
    hide MatchAccepted, PadStart, Decimal, LastTwo, Value, Digit;
    var digits := PadStart(Decimal(number), 4);
    PaddedNumber(number);
    LastTwoOfYear(year);
    FprIsAccepted(digits, LastTwo(Decimal(year)));
    assert FiscalNumberLabel("FPR", year, number) == "FPR " + digits + "/" + LastTwo(Decimal(year));
  }

  lemma EarlyLabelIsRefused(year: nat, number: nat)
    requires year < 10
    ensures MatchAccepted(FiscalNumberLabel("FPR", year, number)).None?
    ensures MatchEnvelope(FiscalNumberLabel("FPR", year, number)).None?
  {
    hide MatchAccepted, MatchEnvelope, PadStart, Decimal, LastTwo, Value, Digit;
    var digits, end := PadStart(Decimal(number), 4), LastTwo(Decimal(year));
    PaddedNumber(number);
    ShortYear(year);
    assert FiscalNumberLabel("FPR", year, number) == "FPR " + digits + "/" + end;
    ShortYearIsRefused("FPR " + digits + "/" + end, digits, end);
  }

  lemma ShortYearIsRefused(s: string, digits: string, end: string)
    requires IsNumeral(digits) && s == "FPR " + digits + "/" + end && |end| == 1
    ensures MatchAccepted(s).None? && MatchEnvelope(s).None?
  {
    hide MatchEnvelope;
    assert s[|s| - 3] == digits[|digits| - 1];
    ShortYearIsNoEnvelope(s, digits, end);
  }

  lemma ShortYearIsNoEnvelope(s: string, digits: string, end: string)
    requires IsNumeral(digits) && s == "FPR" + " " + digits + "/" + end && |end| == 1
    ensures MatchEnvelope(s).None?
  {
    hide Skip, IsSpace, IsDigit, Value;
    PiecesStand(s, Parts("FPR", digits, end), " ");
    ClassesDiffer(digits[0]);
    SpaceIsSpace();
    SkipPiece(s, 0, "FPR", NotSpace);
    SkipPiece(s, 3, " ", IsSpace);
    SkipPiece(s, 4, digits, IsDigit);
  }

  lemma SpaceIsSpace()
    ensures IsSpace(' ') && !IsSpace('F') && !IsSpace('P') && !IsSpace('R')
  {
  }
}
