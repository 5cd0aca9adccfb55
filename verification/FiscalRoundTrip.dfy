/**
 Generated files read back: both readers of src/documents.ts find the type, date, number and
 amounts that the generator was given.
 */
module FiscalRoundTrip {
  import opened Options
  import opened Numerals
  import opened Whitespace
  import opened Money
  import opened FiscalNumbers
  import opened FiscalXml
  import opened FiscalDocuments

  // ---------- Texts survive trimming ----------

  lemma TextIsRead(text: string)
    requires IsText(text)
    ensures XmlText(Some(Text(text))) == text && XmlValue(Some(Text(text))) == Some(text)
  {
  }

  lemma DigitIsNoSpace(c: char)
    requires IsDigit(c)
    ensures !IsSpace(c)
  {
  }

  lemma AmountIsText(cents: nat)
    ensures IsText(Amount(cents))
  {
    hide IsSpace, Decimal;
    var cents2 := PadStart(Decimal(cents % 100), 2);
    assert Amount(cents) == Decimal(cents / 100) + "." + cents2;
    assert AllDigits(cents2) && cents2 != "";
    DigitIsNoSpace(Decimal(cents / 100)[0]);
    DigitIsNoSpace(cents2[|cents2| - 1]);
  }

  /** An amount within range is read as itself from the element it is printed in. */
  lemma CentsAreRead(cents: int)
    requires 0 <= cents <= POSTGRES_INTEGER_MAX
    ensures FieldCents(Some(Text(Amount(cents)))) == Some(cents)
    ensures XmlText(Some(Text(Amount(cents)))) == Amount(cents) != ""
  {
    hide Amount, DecimalToCents;
    AmountIsText(cents);
    TextIsRead(Amount(cents));
    AmountIsRead(cents);
  }

  lemma LabelIsText(year: nat, number: nat)
    ensures IsText(FiscalNumberLabel("FPR", year, number))
  {
    hide Decimal, PadStart, IsDigit;
    var end := LastTwo(Decimal(year));
    DigitIsNoSpace(end[|end| - 1]);
  }

  lemma DateIsText(date: string)
    requires IsDate(date)
    ensures IsText(date) && YearOf(date) == Some(Value(date[..4]))
  {
    hide Value, IsSpace;
    assert date[..4][0] == date[0] && date[8..][1] == date[9];
    DigitIsNoSpace(date[0]);
    DigitIsNoSpace(date[9]);
  }

  // ---------- Totals ----------

  lemma Product(a: nat, b: nat)
    ensures a * b >= 0
  {
  }

  lemma {:induction false} LinesAreBounded(lines: seq<Line>)
    requires forall line <- lines :: ValidLine(line)
    ensures 0 <= Total(lines)
    ensures forall line <- lines :: 0 <= LineTotal(line) <= Total(lines)
  {
    if lines == [] {
    } else {
      var last := |lines| - 1;
      LinesAreBounded(lines[..last]);
      assert lines == lines[..last] + [lines[last]];
      assert ValidLine(lines[last]);
      Product(lines[last].quantity, lines[last].unitAmount);
    }
  }

  // ---------- The fields of the generated tree ----------

  function Object(children: seq<Child>): Parsed {
    ToObject(Branch(children))
  }

  /** A text child with a name of its own is read as that text. */
  lemma ItemIsRead(children: seq<Child>, i: nat, name: Name, text: string)
    requires Sole(children, i) && children[i] == Item(name, text)
    ensures Field(Object(children), name) == Some(Text(text))
  {
    hide Field;
    SoleField(children, i);
  }

  /** And a child with children as their record. */
  lemma ElementIsRead(children: seq<Child>, i: nat, name: Name, inner: seq<Child>)
    requires Sole(children, i) && children[i] == Element(name, inner)
    ensures XmlRecord(Field(Object(children), name)) == Some(Object(inner))
    ensures XmlArray(Field(Object(children), name)) == Some([Object(inner)])
  {
    hide Field;
    SoleField(children, i);
    assert AllRecords([Object(inner)]);
  }

  lemma GeneralFields(input: Input, numbering: Numbering)
    requires numbering.year >= 0 && numbering.number >= 0
    ensures var g := Object(General(input, numbering));
            Field(g, TipoDocumento) == Some(Text(DocumentType(input.kind))) &&
            Field(g, Divisa) == Some(Text("EUR")) &&
            Field(g, Data) == Some(Text(input.documentDate)) &&
            Field(g, Numero) == Some(Text(FiscalNumberLabel("FPR", numbering.year, numbering.number))) &&
            Field(g, ImportoTotaleDocumento) == Some(Text(Amount(Total(input.lines))))
  {
    hide Field, ToObject, Amount, Total, FiscalNumberLabel, DocumentType;
    var children := General(input, numbering);
    ItemIsRead(children, 0, TipoDocumento, DocumentType(input.kind));
    ItemIsRead(children, 1, Divisa, "EUR");
    ItemIsRead(children, 2, Data, input.documentDate);
    ItemIsRead(children, 3, Numero, FiscalNumberLabel("FPR", numbering.year, numbering.number));
    ItemIsRead(children, 4, ImportoTotaleDocumento, Amount(Total(input.lines)));
  }

  lemma BodyFields(input: Input, numbering: Numbering, panelAligned: bool)
    requires numbering.year >= 0 && numbering.number >= 0
    ensures var b := Object(Body(input, numbering, panelAligned));
            GeneralOf(b) == Some(Object(General(input, numbering))) &&
            XmlRecord(Field(b, DatiBeniServizi)) == Some(Object(Goods(input, panelAligned))) &&
            XmlRecord(Field(b, DatiPagamento)) == Some(Object(Payment(input.paymentMethod, Total(input.lines))))
  {
    hide Field, ToObject, General, Goods, Payment, Total, XmlRecord, XmlArray;
    var children := Body(input, numbering, panelAligned);
    var general := General(input, numbering);
    ElementIsRead(children, 0, DatiGenerali, [Element(DatiGeneraliDocumento, general)]);
    ElementIsRead([Element(DatiGeneraliDocumento, general)], 0, DatiGeneraliDocumento, general);
    ElementIsRead(children, 1, DatiBeniServizi, Goods(input, panelAligned));
    ElementIsRead(children, 2, DatiPagamento, Payment(input.paymentMethod, Total(input.lines)));
  }

  lemma PartyIsRead(country: string, code: string)
    requires IsText(country) && IsText(code)
    ensures Party(Object(PartyId(country, code))) == Some(country + ":" + code)
  {
    hide Field, ToObject, XmlText, IsSpace;
    var children := PartyId(country, code);
    ItemIsRead(children, 0, IdPaese, country);
    ItemIsRead(children, 1, IdCodice, code);
    TextIsRead(country);
    TextIsRead(code);
  }

  function TransmitterOf(p: Profile): seq<Child> {
    PartyId(p.transmitterCountry, p.transmitterCode)
  }

  function VatOf(p: Profile): seq<Child> {
    PartyId(p.vatCountry, p.vatCode)
  }

  lemma HeaderFields(p: Profile, numbering: Numbering, panelAligned: bool)
      returns (transmission: Parsed, supplier: Parsed, data: Parsed)
    requires numbering.year >= 0 && numbering.number >= 0
    ensures var h := Object(Header(p, numbering, panelAligned));
            XmlRecord(Field(h, DatiTrasmissione)) == Some(transmission) &&
            XmlRecord(Field(transmission, IdTrasmittente)) == Some(Object(TransmitterOf(p))) &&
            XmlRecord(Field(h, CedentePrestatore)) == Some(supplier) &&
            XmlRecord(Field(supplier, DatiAnagrafici)) == Some(data) &&
            XmlRecord(Field(data, IdFiscaleIVA)) == Some(Object(VatOf(p)))
  {
    hide Field, ToObject, PartyId, XmlRecord, XmlArray, Progressive;
    var children := Header(p, numbering, panelAligned);
    var first, second := Transmission(p, Progressive(numbering, panelAligned)), Supplier(p);
    var third := [Element(IdFiscaleIVA, VatOf(p))];
    ElementIsRead(children, 0, DatiTrasmissione, first);
    ElementIsRead(first, 0, IdTrasmittente, TransmitterOf(p));
    ElementIsRead(children, 1, CedentePrestatore, second);
    ElementIsRead(second, 0, DatiAnagrafici, third);
    ElementIsRead(third, 0, IdFiscaleIVA, VatOf(p));
    transmission, supplier, data := Object(first), Object(second), Object(third);
  }

  // ---------- What the readers find in a generated document ----------

  /** What the generator was given, as the reader of accepted files reports it. */
  function AsAccepted(profile: Profile, input: Input, numbering: Numbering): Accepted
    requires Acceptable(profile, input, numbering)
  {
    Accepted(if input.kind == INVOICE then "TD01" else "TD04", input.documentDate,
             FiscalNumberLabel("FPR", YearOf(input.documentDate).value, numbering.number),
             Some(Total(input.lines)), YearOf(input.documentDate).value, numbering.number,
             profile.transmitterCountry + ":" + profile.transmitterCode, profile.vatCountry + ":" + profile.vatCode)
  }

  /** The fields of the document, read one by one. */
  lemma FieldsAreRead(profile: Profile, input: Input, numbering: Numbering, g: Parsed)
    requires Acceptable(profile, input, numbering) && g == Object(General(input, numbering))
    ensures XmlValue(Field(g, TipoDocumento)) == Some(if input.kind == INVOICE then "TD01" else "TD04")
    ensures XmlValue(Field(g, Divisa)) == Some("EUR")
    ensures XmlValue(Field(g, Data)) == Some(input.documentDate)
    ensures XmlValue(Field(g, Numero)) == Some(FiscalNumberLabel("FPR", numbering.year, numbering.number))
    ensures XmlText(Field(g, ImportoTotaleDocumento)) != ""
    ensures FieldCents(Field(g, ImportoTotaleDocumento)) == Some(Total(input.lines))
    ensures Truthy(Field(g, ImportoTotaleDocumento))
  {
    hide Field, ToObject, XmlText, XmlValue, FiscalNumberLabel, Amount, Total, FieldCents, IsDate, General,
        ValidProfile;
    GeneralFields(input, numbering);
    DateIsText(input.documentDate);
    LabelIsText(numbering.year, numbering.number);
    LinesAreBounded(input.lines);
    CentsAreRead(Total(input.lines));
    TextIsRead(DocumentType(input.kind));
    TextIsRead("EUR");
    TextIsRead(input.documentDate);
    TextIsRead(FiscalNumberLabel("FPR", numbering.year, numbering.number));
    EmptyIsBlank();
  }

  lemma EmptyIsBlank()
    ensures XmlText(Some(Text(""))) == ""
  {
  }

  /** The accepted-files reader reads back everything, from the year 10 on. */
  lemma BodyIsAccepted(profile: Profile, input: Input, numbering: Numbering, panelAligned: bool)
    requires Acceptable(profile, input, numbering)
    ensures AcceptedBody(Object(TransmitterOf(profile)), Object(VatOf(profile)),
            Object(Body(input, numbering, panelAligned)))
         == if numbering.year >= 10 then Some(AsAccepted(profile, input, numbering)) else None
  {
    hide Field, ToObject, XmlText, XmlValue, FiscalNumberLabel, Total, FieldCents, General, Body, GeneralOf, Party,
      MatchAccepted, Value, PadStart, Decimal, LastTwo, IsDate, ValidInput, IsText, YearOf;
    BodyFields(input, numbering, panelAligned);
    FieldsAreRead(profile, input, numbering, Object(General(input, numbering)));
    PartyIsRead(profile.transmitterCountry, profile.transmitterCode);
    PartyIsRead(profile.vatCountry, profile.vatCode);
    PaddedNumber(numbering.number);
    if numbering.year >= 10 {
      LabelIsAccepted(numbering.year, numbering.number);
      LastTwoOfYear(numbering.year);
    } else {
      EarlyLabelIsRefused(numbering.year, numbering.number);
    }
  }

  // ---------- The two readers agree on every file ----------

  /** A number of the stricter pattern is usable for the other reader exactly from the year 10
      on, and if it is positive and safe. */
  lemma NumbersAgree(numero: string, year: nat)
    requires MatchAccepted(numero).Some? && Value(MatchAccepted(numero).value.year) == year % 100
    ensures ValidNumber(numero, year) ==
            if year >= 10 && 0 < Value(MatchAccepted(numero).value.number) <= 9_007_199_254_740_991
            then MatchAccepted(numero) else None
  {
    hide Value, Decimal, LastTwo, MatchEnvelope;
    var parts := MatchAccepted(numero).value;
    AcceptedIsEnvelope(numero);
    YearEndsIn(year, parts.year);
    if year < 10 {
      ShortYear(year);
      FullYearIsShort(year);
    } else if parts.year == Decimal(year) {
      TwoDigitYear(year);
    }
  }

  lemma FullYearIsShort(year: nat)
    requires year < 10
    ensures |Decimal(year)| == 1
  {
  }

  lemma TwoDigitYear(year: nat)
    requires |Decimal(year)| == 2
    ensures LastTwo(Decimal(year)) == Decimal(year)
  {
  }

  /** The total the other reader reports: the stated one; without one the sum of the lines, if
      the element is absent or empty; it refuses a blank one, which counts as unstated. */
  function TotalElsewhere(a: Accepted, body: Parsed): Option<int> {
    if a.totalAmount.Some? then a.totalAmount
    else
      var general :- GeneralOf(body);
      var stated := Field(general, ImportoTotaleDocumento);
      if stated in {None, Some(Text(""))} then AcceptedLineTotal(body) else None
  }

  /** What becomes of an accepted body in the other reader: an impossible date is refused; where
      the number is usable the same type, year, number and date are reported, and otherwise an
      unknown number, if that is allowed. */
  function Elsewhere(a: Accepted, body: Parsed, allowUnknownNumber: bool): Option<seq<Envelope>> {
    var usable := a.year >= 10 && 0 < a.number <= 9_007_199_254_740_991;
    if !IsDate(a.documentDate) || !(usable || allowUnknownNumber) then None
    else
      var total :- TotalElsewhere(a, body);
      Some([if usable then Envelope(a.kind, a.year, Some("FPR"), Some(Decimal(a.number)), a.documentDate, total)
            else Envelope(a.kind, a.year, None, None, a.documentDate, total)])
  }

  /** So it is for every body that the accepted-files reader takes. */
  lemma ReadersAgree(transmitter: Parsed, supplierVat: Parsed, body: Parsed, allowUnknownNumber: bool)
    requires AcceptedBody(transmitter, supplierVat, body).Some?
    ensures EnvelopeBody(body, allowUnknownNumber) ==
            Elsewhere(AcceptedBody(transmitter, supplierVat, body).value, body, allowUnknownNumber)
  {
    hide Field, XmlText, XmlValue, FieldCents, GeneralOf, Party, MatchAccepted, ValidNumber, Value, Decimal, IsDate,
        YearOf, EnvelopeTotal, TotalElsewhere, StatedTotal;
    var a := AcceptedBody(transmitter, supplierVat, body).value;
    var general := GeneralOf(body).value;
    var numero := XmlValue(Field(general, Numero)).value;
    NumbersAgree(numero, YearOf(XmlValue(Field(general, Data)).value).value);
    SeriesIsFpr(numero);
    TotalsAgree(a, general, body);
  }

  function AllElsewhere(all: seq<Accepted>, bodies: seq<Parsed>, allowUnknownNumber: bool): Option<seq<Envelope>>
    requires |all| == |bodies|
  {
    if all == [] then Some([])
    else
      var first :- Elsewhere(all[0], bodies[0], allowUnknownNumber);
      var rest :- AllElsewhere(all[1..], bodies[1..], allowUnknownNumber);
      Some(first + rest)
  }

  lemma {:induction false} BodiesAgree(transmitter: Parsed, supplierVat: Parsed, bodies: seq<Parsed>,
      allowUnknownNumber: bool)
    requires AcceptedBodies(transmitter, supplierVat, bodies).Some?
    ensures var all := AcceptedBodies(transmitter, supplierVat, bodies).value;
            |all| == |bodies| &&
            EnvelopeBodies(bodies, allowUnknownNumber) == AllElsewhere(all, bodies, allowUnknownNumber)
  {
    if bodies == [] {
    } else {
      hide AcceptedBody, EnvelopeBody, Elsewhere;
      ReadersAgree(transmitter, supplierVat, bodies[0], allowUnknownNumber);
      BodiesAgree(transmitter, supplierVat, bodies[1..], allowUnknownNumber);
    }
  }

  /** And for every file that it takes, body by body. */
  lemma FilesAgree(parsed: Parsed, allowUnknownNumber: bool) returns (bodies: seq<Parsed>)
    requires AcceptedFiscalDocuments(parsed).Some?
    ensures XmlRecord(Field(parsed, FatturaElettronica)).Some?
    ensures XmlArray(Field(XmlRecord(Field(parsed, FatturaElettronica)).value, FatturaElettronicaBody)) == Some(bodies)
    ensures |AcceptedFiscalDocuments(parsed).value| == |bodies|
    ensures FiscalDocumentEnvelopes(parsed, allowUnknownNumber) ==
            AllElsewhere(AcceptedFiscalDocuments(parsed).value, bodies, allowUnknownNumber)
  {
    hide Field, XmlText, XmlRecord, XmlArray, AcceptedBodies, EnvelopeBodies, AllElsewhere;
    var root := XmlRecord(Field(parsed, FatturaElettronica)).value;
    var header := XmlRecord(Field(root, FatturaElettronicaHeader)).value;
    var transmission := XmlRecord(Field(header, DatiTrasmissione)).value;
    var supplier := XmlRecord(Field(header, CedentePrestatore)).value;
    var supplierData := XmlRecord(Field(supplier, DatiAnagrafici)).value;
    bodies := XmlArray(Field(root, FatturaElettronicaBody)).value;
    BodiesAgree(XmlRecord(Field(transmission, IdTrasmittente)).value,
                XmlRecord(Field(supplierData, IdFiscaleIVA)).value, bodies, allowUnknownNumber);
  }

  lemma SeriesIsFpr(numero: string)
    requires MatchAccepted(numero).Some?
    ensures MatchAccepted(numero).value.series == "FPR"
  {
  }

  lemma TotalsAgree(a: Accepted, general: Parsed, body: Parsed)
    requires GeneralOf(body) == Some(general) && StatedTotal(general) == Some(a.totalAmount)
    ensures EnvelopeTotal(general, body) == TotalElsewhere(a, body)
  {
    hide AcceptedLineTotal, DecimalToCents;
    EmptyIsBlank();
  }

  /** What the other reader reports; a number that it cannot use is unknown. */
  function AsEnvelope(input: Input, numbering: Numbering, known: bool): Envelope
    requires ValidInput(input) && YearOf(input.documentDate).Some? && numbering.number >= 0
  {
    Envelope(if input.kind == INVOICE then "TD01" else "TD04", YearOf(input.documentDate).value,
             if known then Some("FPR") else None, if known then Some(Decimal(numbering.number)) else None,
             input.documentDate, Total(input.lines))
  }

  predicate Usable(numbering: Numbering) {
    numbering.year >= 10 && 1 <= numbering.number <= 9_007_199_254_740_991
  }

  lemma BodyIsEnveloped(profile: Profile, input: Input, numbering: Numbering, panelAligned: bool,
      allowUnknownNumber: bool)
    requires Acceptable(profile, input, numbering)
    ensures EnvelopeBody(Object(Body(input, numbering, panelAligned)), allowUnknownNumber)
         == if Usable(numbering) || allowUnknownNumber then Some([AsEnvelope(input, numbering, Usable(numbering))])
         else None
  {
    hide Field, ToObject, XmlText, XmlValue, FiscalNumberLabel, Total, FieldCents, General, Body, GeneralOf, Party,
      MatchAccepted, Value, PadStart, Decimal, LastTwo, IsDate, YearOf, AcceptedBody, IsText, MatchEnvelope;
    BodyIsAccepted(profile, input, numbering, panelAligned);
    if numbering.year >= 10 {
      ReadersAgree(Object(TransmitterOf(profile)), Object(VatOf(profile)), Object(Body(input, numbering, panelAligned)),
                   allowUnknownNumber);
    } else {
      BodyFields(input, numbering, panelAligned);
      FieldsAreRead(profile, input, numbering, Object(General(input, numbering)));
      EarlyLabelIsRefused(numbering.year, numbering.number);
    }
  }

  // ---------- Every amount in the file is the total ----------

  lemma DetailTotal(line: Line, number: nat, panelAligned: bool)
    requires 0 <= LineTotal(line) <= POSTGRES_INTEGER_MAX
    ensures FieldCents(Field(Object(DetailFields(line, number, panelAligned)), PrezzoTotale)) == Some(LineTotal(line))
  {
    hide Field, ToObject, Amount, Decimal, Signed, LineTotal, FieldCents;
    var children := DetailFields(line, number, panelAligned);
    ItemIsRead(children, if panelAligned then 4 else 3, PrezzoTotale, Amount(LineTotal(line)));
    CentsAreRead(LineTotal(line));
  }

  lemma {:induction false} ValuesJoin(a: seq<Child>, b: seq<Child>)
    ensures Values(a + b) == Values(a) + Values(b)
  {
    if a == [] {
      assert a + b == b;
    } else {
      assert (a + b)[1..] == a[1..] + b;
      ValuesJoin(a[1..], b);
    }
  }

  lemma LineTotalsGrow(details: seq<Parsed>, last: Parsed, before: int, cents: int)
    requires LineTotals(details) == Some(before) && FieldCents(Field(last, PrezzoTotale)) == Some(cents)
    ensures LineTotals(details + [last]) == Some(before + cents)
  {
    hide Field, FieldCents;
    assert (details + [last])[..|details|] == details;
  }

  lemma ValuesGrow(before: seq<Child>, name: Name, inner: seq<Child>)
    ensures Values(before + [Element(name, inner)]) == Values(before) + [Object(inner)]
  {
    hide ToObject;
    var last := Element(name, inner);
    ValuesJoin(before, [last]);
    assert [last][1..] == [] && Values([]) == [];
  }

  lemma {:induction false} DetailsAddUp(lines: seq<Line>, panelAligned: bool)
    requires forall line <- lines :: 0 <= LineTotal(line) <= POSTGRES_INTEGER_MAX
    ensures LineTotals(Values(Details(lines, panelAligned))) == Some(Total(lines))
  {
    hide Detail, DetailFields, LineTotal, Field, ToObject, FieldCents, Values, LineTotals;
    if lines == [] {
      NoDetails(panelAligned);
    } else {
      var last := |lines| - 1;
      DetailsAddUp(lines[..last], panelAligned);
      DetailIsElement(lines[last], |lines|, panelAligned);
      ValuesGrow(Details(lines[..last], panelAligned), DettaglioLinee,
          DetailFields(lines[last], |lines|, panelAligned));
      DetailTotal(lines[last], |lines|, panelAligned);
      LineTotalsGrow(Values(Details(lines[..last], panelAligned)),
        Object(DetailFields(lines[last], |lines|, panelAligned)),
                     Total(lines[..last]), LineTotal(lines[last]));
    }
  }

  lemma NoDetails(panelAligned: bool)
    ensures LineTotals(Values(Details([], panelAligned))) == Some(0)
  {
  }

  lemma DetailIsElement(line: Line, number: nat, panelAligned: bool)
    ensures Detail(line, number, panelAligned) == Element(DettaglioLinee, DetailFields(line, number, panelAligned))
  {
  }

  lemma {:induction false} DetailsAreElements(lines: seq<Line>, panelAligned: bool)
    ensures forall c <- Details(lines, panelAligned) :: c.name == DettaglioLinee && c.node.Branch?
  {
    if lines == [] {
    } else {
      DetailsAreElements(lines[..|lines| - 1], panelAligned);
    }
  }

  /** The sum of the line totals is the total of the document. */
  lemma LinesAddUp(input: Input, numbering: Numbering, panelAligned: bool)
    requires ValidInput(input) && numbering.year >= 0 && numbering.number >= 0
    ensures AcceptedLineTotal(Object(Body(input, numbering, panelAligned))) == Some(Total(input.lines))
  {
    hide Field, ToObject, LineTotals, Values, Body, XmlArray, XmlRecord, Summary, IsDate, LineTotal, Total, Details,
      GeneralOf, Payment, General;
    BodyFields(input, numbering, panelAligned);
    DetailsAreElements(input.lines, panelAligned);
    ArrayField(Details(input.lines, panelAligned), [Element(DatiRiepilogo, Summary(Total(input.lines)))],
        DettaglioLinee);
    LinesAreBounded(input.lines);
    DetailsAddUp(input.lines, panelAligned);
  }

  lemma SummaryFields(total: int)
    requires 0 <= total <= POSTGRES_INTEGER_MAX
    ensures var s := Object(Summary(total));
            FieldCents(Field(s, ImponibileImporto)) == Some(total) && FieldCents(Field(s, Imposta)) == Some(0) &&
            FieldCents(Field(s, AliquotaIVA)) == Some(0) && XmlValue(Field(s, Natura)) == Some("N5") &&
            XmlValue(Field(s, RiferimentoNormativo)) == Some("Regime del margine Art. 36 41/95")
  {
    hide Field, ToObject, Amount, FieldCents, XmlValue, XmlText, IsText, IsSpace, Sole;
    var children := Summary(total);
    SummaryNames(total);
    LiteralsAreText();
    ItemIsRead(children, 0, AliquotaIVA, "0.00");
    ItemIsRead(children, 1, Natura, TAX_NATURE);
    ItemIsRead(children, 2, ImponibileImporto, Amount(total));
    ItemIsRead(children, 3, Imposta, "0.00");
    ItemIsRead(children, 4, RiferimentoNormativo, LEGAL_REFERENCE);
    CentsAreRead(total);
    NothingIsZero();
    CentsAreRead(0);
    TextIsRead(TAX_NATURE);
    TextIsRead(LEGAL_REFERENCE);
  }

  lemma SummaryNames(total: int)
    ensures forall i :: 0 <= i < 5 ==> Sole(Summary(total), i)
  {
    hide Amount;
  }

  lemma LiteralsAreText()
    ensures TAX_NATURE == "N5" && IsText("N5")
    ensures LEGAL_REFERENCE == "Regime del margine Art. 36 41/95" && IsText("Regime del margine Art. 36 41/95")
  {
  }

  lemma NothingIsZero()
    ensures Amount(0) == "0.00"
  {
    assert Decimal(0) == "0";
    assert PadStart("0", 2) == "00";
  }

  /** The tax summary is usable exactly when the total is positive, and its taxable base is it. */
  lemma SummaryIsRead(input: Input, numbering: Numbering, panelAligned: bool)
    requires ValidInput(input)
    ensures AcceptedTaxSummary(Object(Goods(input, panelAligned)))
         == if Total(input.lines) > 0 then Some(TaxSummary("N5", "Regime del margine Art. 36 41/95")) else None
  {
    hide Field, ToObject, FieldCents, XmlValue, Summary, XmlArray, Details, IsDate, Total, LineTotal;
    var total := Total(input.lines);
    LinesAreBounded(input.lines);
    SummaryFields(total);
    var details := Details(input.lines, panelAligned);
    DetailsAreElements(input.lines, panelAligned);
    ElementIsRead(details + [Element(DatiRiepilogo, Summary(total))], |details|, DatiRiepilogo, Summary(total));
    SoleSummary(Object(Summary(total)), total);
    SoleText(Object(Summary(total)), Natura, TAX_NATURE);
    SoleText(Object(Summary(total)), RiferimentoNormativo, LEGAL_REFERENCE);
  }

  /** Only the summaries with a base or a tax count. */
  lemma {:induction false} CountedSummaries(all: seq<Parsed>, counted: seq<Parsed>)
    requires WithAmount(all) == Some(counted)
    ensures forall s :: s in counted <==>
              s in all &&
              (FieldCents(Field(s, ImponibileImporto)) != Some(0) || FieldCents(Field(s, Imposta)) != Some(0))
    ensures forall s <- all :: FieldCents(Field(s, ImponibileImporto)).Some?
  {
    hide Field, FieldCents;
    if all == [] {
    } else {
      CountedSummaries(all[1..], WithAmount(all[1..]).value);
      assert all == [all[0]] + all[1..];
    }
  }

  lemma {:induction false} TextsAre(records: seq<Parsed>, name: Name)
    ensures Texts(records, name).Some? <==> forall s <- records :: XmlValue(Field(s, name)).Some?
    ensures Texts(records, name).Some? ==>
              |Texts(records, name).value| == |records| &&
              forall i :: 0 <= i < |records| ==>
                XmlValue(Field(records[i], name)) == Some(Texts(records, name).value[i])
  {
    hide Field, XmlValue;
    if records == [] {
    } else {
      TextsAre(records[1..], name);
      assert records == [records[0]] + records[1..];
    }
  }

  /** All these summaries name one nature and one reference, and there are some. */
  predicate AllName(counted: seq<Parsed>, t: TaxSummary) {
    counted != [] &&
    (forall s <- counted :: XmlValue(Field(s, Natura)) == Some(t.taxNature)) &&
    forall s <- counted :: XmlValue(Field(s, RiferimentoNormativo)) == Some(t.legalReference)
  }

  /** A body has a tax summary exactly when some of its summaries count and all of those name one
      nature and one reference. */
  lemma TaxSummaryIsUnanimous(goods: Parsed, t: TaxSummary)
    ensures AcceptedTaxSummary(goods) == Some(t) <==>
            var all := XmlArray(Field(goods, DatiRiepilogo));
            all.Some? && WithAmount(all.value).Some? && AllName(WithAmount(all.value).value, t)
  {
    hide Field, XmlValue, XmlArray, WithAmount, AllName, Texts, AllSame;
    var all := XmlArray(Field(goods, DatiRiepilogo));
    if all.Some? && WithAmount(all.value).Some? {
      UnanimousOnes(WithAmount(all.value).value, t);
    }
  }

  lemma UnanimousOnes(counted: seq<Parsed>, t: TaxSummary)
    ensures var natures, references := Texts(counted, Natura), Texts(counted, RiferimentoNormativo);
            (natures.Some? && references.Some? && AllSame(natures.value) && AllSame(references.value) &&
             natures.value[0] == t.taxNature && references.value[0] == t.legalReference) <==> AllName(counted, t)
  {
    hide Field, XmlValue, Texts;
    UnanimousField(counted, Natura, t.taxNature);
    UnanimousField(counted, RiferimentoNormativo, t.legalReference);
  }

  lemma UnanimousField(counted: seq<Parsed>, name: Name, text: string)
    ensures (Texts(counted, name).Some? && AllSame(Texts(counted, name).value) && Texts(counted, name).value[0] == text)
            <==> counted != [] && forall s <- counted :: XmlValue(Field(s, name)) == Some(text)
  {
    hide Field, XmlValue, Texts;
    TextsAre(counted, name);
    if Texts(counted, name).Some? {
      var texts := Texts(counted, name).value;
      forall i | 0 <= i < |counted|
        ensures XmlValue(Field(counted[i], name)) == Some(texts[i]) && counted[i] in counted && texts[i] in texts
      {
      }
      if forall s <- counted :: XmlValue(Field(s, name)) == Some(text) {
        assert forall i :: 0 <= i < |texts| ==> texts[i] == text;
      }
    }
  }

  lemma SoleSummary(s: Parsed, total: int)
    requires FieldCents(Field(s, ImponibileImporto)) == Some(total) && FieldCents(Field(s, Imposta)) == Some(0)
    ensures WithAmount([s]) == Some(if total != 0 then [s] else [])
  {
    hide Field, FieldCents;
    assert [s][1..] == [] && [s] + [] == [s];
    assert WithAmount([]) == Some([]);
  }

  lemma SoleText(s: Parsed, name: Name, text: string)
    requires XmlValue(Field(s, name)) == Some(text)
    ensures Texts([s], name) == Some([text]) && Texts([], name) == Some([])
  {
    hide Field, XmlValue;
    assert [s][1..] == [] && [text] + [] == [text];
  }

  /** The payment is of the whole total, at once and by the given method. */
  lemma PaymentIsRead(input: Input)
    requires ValidInput(input)
    ensures var p := Object(Payment(input.paymentMethod, Total(input.lines)));
            XmlValue(Field(p, CondizioniPagamento)) == Some("TP02") && XmlRecord(Field(p, DettaglioPagamento)).Some? &&
            var detail := XmlRecord(Field(p, DettaglioPagamento)).value;
            XmlValue(Field(detail, ModalitaPagamento)) == Some(input.paymentMethod) &&
            FieldCents(Field(detail, ImportoPagamento)) == Some(Total(input.lines))
  {
    hide Field, ToObject, FieldCents, Amount, XmlRecord, Total, IsDate, LineTotal, XmlText, IsText;
    var total := Total(input.lines);
    LinesAreBounded(input.lines);
    MethodsAreText(input);
    var inner := [Item(ModalitaPagamento, input.paymentMethod), Item(ImportoPagamento, Amount(total))];
    ItemIsRead(Payment(input.paymentMethod, total), 0, CondizioniPagamento, "TP02");
    ElementIsRead(Payment(input.paymentMethod, total), 1, DettaglioPagamento, inner);
    ItemIsRead(inner, 0, ModalitaPagamento, input.paymentMethod);
    ItemIsRead(inner, 1, ImportoPagamento, Amount(total));
    TextIsRead("TP02");
    TextIsRead(input.paymentMethod);
    CentsAreRead(total);
  }

  lemma MethodsAreText(input: Input)
    requires ValidInput(input)
    ensures IsText(input.paymentMethod) && IsText("TP02") && IsText("FPR12") && IsText("NR") && IsText("N5")
  {
    hide IsDate, Total;
  }

  /** The transmission names the format, and counts on by the document number alone or behind
      the year's last two digits. */
  lemma TransmissionIsRead(profile: Profile, numbering: Numbering, panelAligned: bool) returns (digits: string)
    requires numbering.year >= 0 && numbering.number >= 0
    ensures var t := Object(Transmission(profile, Progressive(numbering, panelAligned)));
            XmlValue(Field(t, FormatoTrasmissione)) == Some("FPR12") &&
            XmlValue(Field(t, ProgressivoInvio)) ==
            Some((if panelAligned then "" else LastTwo(Decimal(numbering.year))) + digits)
    ensures CountsTo(digits, numbering.number, if panelAligned then 1 else 8)
  {
    hide Field, ToObject, XmlText, XmlRecord, XmlArray, PartyId, Decimal, PadStart, LastTwo, IsText, IsSpace;
    var progressive := Progressive(numbering, panelAligned);
    var children := Transmission(profile, progressive);
    ItemIsRead(children, 1, ProgressivoInvio, progressive);
    ItemIsRead(children, 2, FormatoTrasmissione, "FPR12");
    FormatIsText();
    TextIsRead("FPR12");
    ProgressiveIsText(numbering, panelAligned);
    TextIsRead(progressive);
    digits := if panelAligned then Decimal(numbering.number) else PadStart(Decimal(numbering.number), 8);
    PaddedCounts(numbering.number, if panelAligned then 1 else 8);
    NoPadding(numbering.number);
    assert "" + digits == digits;
  }

  lemma FormatIsText()
    ensures IsText("FPR12")
  {
  }

  lemma NoPadding(n: nat)
    ensures PadStart(Decimal(n), 1) == Decimal(n)
  {
  }

  lemma ProgressiveIsText(numbering: Numbering, panelAligned: bool)
    requires numbering.year >= 0 && numbering.number >= 0
    ensures IsText(Progressive(numbering, panelAligned))
  {
    hide IsSpace, IsDigit, PadStart, Decimal;
    var text := Progressive(numbering, panelAligned);
    assert AllDigits(text) && text != "";
    DigitIsNoSpace(text[0]);
    DigitIsNoSpace(text[|text| - 1]);
  }

  // ---------- Every line ----------

  /** The line element as read: its number, quantity, unit amount and total. */
  ghost predicate ReadsLine(detail: Parsed, number: nat, line: Line, panelAligned: bool) {
    XmlValue(Field(detail, NumeroLinea)) == Some(Decimal(number)) &&
    XmlValue(Field(detail, UnitaMisura)) == (if panelAligned then Some("NR") else None) &&
    FieldCents(Field(detail, AliquotaIVA)) == Some(0) && XmlValue(Field(detail, Natura)) == Some("N5") &&
    FieldCents(Field(detail, Quantita)) == Bounded(line.quantity * 100) &&
    FieldCents(Field(detail, PrezzoUnitario)) == Some(line.unitAmount) &&
    FieldCents(Field(detail, PrezzoTotale)) == Some(line.quantity * line.unitAmount)
  }

  lemma NumberIsText(n: nat)
    ensures IsText(Decimal(n)) && IsText(Decimal(n) + ".00")
  {
    hide IsSpace;
    DigitIsNoSpace(Decimal(n)[0]);
    DigitIsNoSpace(Decimal(n)[|Decimal(n)| - 1]);
    DigitIsNoSpace('0');
    assert (Decimal(n) + ".00")[0] == Decimal(n)[0] && (Decimal(n) + ".00")[|Decimal(n)| + 2] == '0';
  }

  lemma PiecesAreRead(n: nat)
    ensures XmlValue(Some(Text(Decimal(n) + ".00"))) == Some(Decimal(n) + ".00")
    ensures DecimalToCents(Decimal(n) + ".00") == Bounded(n * 100)
  {
    hide DecimalToCents, IsText, XmlText, IsSpace;
    NumberIsText(n);
    TextIsRead(Decimal(n) + ".00");
    UnitsAndCentsAreRead(false, n, 0);
    assert PadStart(Decimal(0), 2) == "00" by { assert Decimal(0) == "0"; }
    assert Decimal(n) + "." + "00" == Decimal(n) + ".00";
  }

  lemma DetailNames(line: Line, number: nat, panelAligned: bool)
    ensures var fields, shift := DetailFields(line, number, panelAligned), if panelAligned then 1 else 0;
            |fields| == 6 + shift && forall i :: 0 <= i < 6 + shift ==> Sole(fields, i)
  {
    hide Amount, Decimal, Signed;
  }

  /** The unit of measure is there in the panel's form only. */
  lemma UnitIsRead(line: Line, number: nat, panelAligned: bool)
    ensures XmlValue(Field(Object(DetailFields(line, number, panelAligned)), UnitaMisura)) ==
            if panelAligned then Some("NR") else None
  {
    hide ToObject, Amount, Decimal, Sole, IsSpace;
    var fields := DetailFields(line, number, panelAligned);
    if panelAligned {
      hide Field, XmlText, IsText;
      DetailNames(line, number, panelAligned);
      ItemIsRead(fields, 2, UnitaMisura, "NR");
      UnitIsText();
      TextIsRead("NR");
    } else {
      NotThere(fields, UnitaMisura);
      EmptyIsBlank();
    }
  }

  lemma UnitIsText()
    ensures IsText("NR")
  {
  }

  lemma NotThere(children: seq<Child>, name: Name)
    requires forall child <- children :: child.name != name
    ensures Field(Object(children), name) == None
  {
    hide Field, ToObject;
    FieldIsPacked(children, name);
    forall e | e in Objects(children)
      ensures e.name != name
    {
      var i :| 0 <= i < |children| && Objects(children)[i] == e;
      ObjectsAt(children, i);
    }
    NamedNone(Objects(children), name);
  }

  lemma DetailIsRead(line: Line, number: nat, panelAligned: bool)
    requires ValidLine(line) && 0 <= LineTotal(line) <= POSTGRES_INTEGER_MAX
    ensures ReadsLine(Object(DetailFields(line, number, panelAligned)), number, line, panelAligned)
  {
    hide Field, ToObject, Amount, Decimal, DecimalToCents, Sole, XmlText, IsText;
    var fields, shift := DetailFields(line, number, panelAligned), if panelAligned then 1 else 0;
    DetailNames(line, number, panelAligned);
    ItemIsRead(fields, 0, NumeroLinea, Decimal(number));
    ItemIsRead(fields, 1, Quantita, Decimal(line.quantity) + ".00");
    ItemIsRead(fields, 2 + shift, PrezzoUnitario, Amount(line.unitAmount));
    ItemIsRead(fields, 4 + shift, AliquotaIVA, "0.00");
    ItemIsRead(fields, 5 + shift, Natura, "N5");
    UnitIsRead(line, number, panelAligned);
    LiteralsAreText();
    TextIsRead("N5");
    NothingIsZero();
    CentsAreRead(0);
    NumberIsText(number);
    TextIsRead(Decimal(number));
    PiecesAreRead(line.quantity);
    CentsAreRead(line.unitAmount);
    DetailTotal(line, number, panelAligned);
  }

  lemma {:induction false} DetailAt(lines: seq<Line>, panelAligned: bool, k: nat)
    requires k < |lines|
    ensures Values(Details(lines, panelAligned))[k] == Object(DetailFields(lines[k], k + 1, panelAligned))
    decreases |lines|
  {
    hide Detail, DetailFields, ToObject, Values;
    var last := |lines| - 1;
    DetailIsElement(lines[last], |lines|, panelAligned);
    ValuesGrow(Details(lines[..last], panelAligned), DettaglioLinee, DetailFields(lines[last], |lines|, panelAligned));
    if k < last {
      DetailAt(lines[..last], panelAligned, k);
    }
  }

  /** The lines of a generated document are read back in their order, numbered from one. */
  lemma LinesAreRead(input: Input, panelAligned: bool) returns (details: seq<Parsed>)
    requires ValidInput(input)
    ensures XmlArray(Field(Object(Goods(input, panelAligned)), DettaglioLinee)) == Some(details) &&
            |details| == |input.lines|
    ensures forall k :: 0 <= k < |details| ==> ReadsLine(details[k], k + 1, input.lines[k], panelAligned)
  {
    hide Field, ToObject, Values, XmlArray, Summary, IsDate, LineTotal, Total, Details, ReadsLine, DetailFields;
    DetailsAreElements(input.lines, panelAligned);
    ArrayField(Details(input.lines, panelAligned), [Element(DatiRiepilogo, Summary(Total(input.lines)))],
        DettaglioLinee);
    details := Values(Details(input.lines, panelAligned));
    LinesAreBounded(input.lines);
    forall k | 0 <= k < |details|
      ensures ReadsLine(details[k], k + 1, input.lines[k], panelAligned)
    {
      DetailAt(input.lines, panelAligned, k);
      DetailIsRead(input.lines[k], k + 1, panelAligned);
    }
  }

  // ---------- Whole files ----------

  lemma RootFields(profile: Profile, input: Input, numbering: Numbering, panelAligned: bool)
    requires numbering.year >= 0 && numbering.number >= 0
    ensures var parsed := ToObject(Document(profile, input, numbering, panelAligned));
            var root := Object(Root(profile, input, numbering, panelAligned));
            XmlRecord(Field(parsed, FatturaElettronica)) == Some(root) && XmlText(Field(root, VERSIONE)) == "FPR12" &&
            XmlRecord(Field(root, FatturaElettronicaHeader)) ==
              Some(Object(Header(profile, numbering, panelAligned))) &&
            XmlArray(Field(root, FatturaElettronicaBody)) == Some([Object(Body(input, numbering, panelAligned))])
  {
    hide Field, ToObject, XmlText, XmlRecord, XmlArray, Header, Body;
    var children := Root(profile, input, numbering, panelAligned);
    ElementIsRead([Element(FatturaElettronica, children)], 0, FatturaElettronica, children);
    ItemIsRead(children, 0, VERSIONE, "FPR12");
    TextIsRead("FPR12");
    ElementIsRead(children, 1, FatturaElettronicaHeader, Header(profile, numbering, panelAligned));
    ElementIsRead(children, 2, FatturaElettronicaBody, Body(input, numbering, panelAligned));
  }

  /** A generated file is accepted exactly when its year is 10 or later, as the one document it
      was generated from. */
  lemma GeneratedIsAccepted(profile: Profile, input: Input, numbering: Numbering, panelAligned: bool)
    requires Acceptable(profile, input, numbering)
    ensures AcceptedFiscalDocuments(ToObject(Document(profile, input, numbering, panelAligned)))
         == if numbering.year >= 10 then Some([AsAccepted(profile, input, numbering)]) else None
  {
    hide Field, ToObject, XmlText, XmlRecord, XmlArray, Header, Body, AcceptedBody, Document, Acceptable, AsAccepted;
    assert numbering.year >= 0 && numbering.number >= 0 by { AcceptableIsCounted(profile, input, numbering); }
    RootFields(profile, input, numbering, panelAligned);
    var transmission, supplier, data := HeaderFields(profile, numbering, panelAligned);
    BodyIsAccepted(profile, input, numbering, panelAligned);
    OneBody(Object(TransmitterOf(profile)), Object(VatOf(profile)), Object(Body(input, numbering, panelAligned)));
  }

  lemma AcceptableIsCounted(profile: Profile, input: Input, numbering: Numbering)
    requires Acceptable(profile, input, numbering)
    ensures numbering.year >= 0 && numbering.number >= 0
  {
  }

  lemma OneBody(transmitter: Parsed, supplierVat: Parsed, body: Parsed)
    ensures AcceptedBodies(transmitter, supplierVat, [body]) ==
            match AcceptedBody(transmitter, supplierVat, body)
            case None => None
            case Some(a) => Some([a])
  {
    hide AcceptedBody;
    assert [body][1..] == [];
    assert AcceptedBodies(transmitter, supplierVat, []) == Some([]);
    if AcceptedBody(transmitter, supplierVat, body).Some? {
      var a := AcceptedBody(transmitter, supplierVat, body).value;
      assert [a] + [] == [a];
    }
  }

  lemma OneEnvelope(body: Parsed, allowUnknownNumber: bool)
    ensures EnvelopeBodies([body], allowUnknownNumber) == EnvelopeBody(body, allowUnknownNumber)
  {
    hide EnvelopeBody;
    assert EnvelopeBodies([], allowUnknownNumber) == Some([]);
    if EnvelopeBody(body, allowUnknownNumber).Some? {
      assert EnvelopeBody(body, allowUnknownNumber).value + [] == EnvelopeBody(body, allowUnknownNumber).value;
    }
  }

  /** The other reader finds its number exactly when it is positive, safe, and the year is 10 or
      later; otherwise it refuses the file, or reports an unknown number where that is allowed. */
  lemma GeneratedIsEnveloped(profile: Profile, input: Input, numbering: Numbering, panelAligned: bool,
      allowUnknownNumber: bool)
    requires Acceptable(profile, input, numbering)
    ensures FiscalDocumentEnvelopes(ToObject(Document(profile, input, numbering, panelAligned)), allowUnknownNumber)
         == if Usable(numbering) || allowUnknownNumber then Some([AsEnvelope(input, numbering, Usable(numbering))])
         else None
  {
    hide Field, ToObject, XmlText, XmlRecord, XmlArray, Body, EnvelopeBody, Document, AsEnvelope, Usable;
    RootFields(profile, input, numbering, panelAligned);
    BodyIsEnveloped(profile, input, numbering, panelAligned, allowUnknownNumber);
    OneEnvelope(Object(Body(input, numbering, panelAligned)), allowUnknownNumber);
  }

  /** All amounts of a generated body are the sum of quantity times unit amount: the stated
      total, the sum of its lines, the taxable base and the payment. */
  lemma AmountsAgree(profile: Profile, input: Input, numbering: Numbering, panelAligned: bool)
    returns (body: Parsed, goods: Parsed)
    requires Acceptable(profile, input, numbering)
    ensures var root := XmlRecord(Field(ToObject(Document(profile, input, numbering, panelAligned)),
            FatturaElettronica));
            root.Some? && XmlArray(Field(root.value, FatturaElettronicaBody)) == Some([body])
    ensures GeneralOf(body).Some? && FieldCents(Field(GeneralOf(body).value, ImportoTotaleDocumento)) ==
            Some(Total(input.lines))
    ensures AcceptedLineTotal(body) == Some(Total(input.lines))
    ensures XmlRecord(Field(body, DatiBeniServizi)) == Some(goods)
    ensures AcceptedTaxSummary(goods) ==
            if Total(input.lines) > 0 then Some(TaxSummary("N5", "Regime del margine Art. 36 41/95")) else None
    ensures XmlArray(Field(goods, DatiRiepilogo)) == Some([Object(Summary(Total(input.lines)))])
    ensures FieldCents(Field(Object(Summary(Total(input.lines))), ImponibileImporto)) == Some(Total(input.lines))
    ensures PaymentOf(body) == Some(Total(input.lines))
  {
    hide Field, ToObject, XmlText, XmlRecord, XmlArray, Body, Document, Goods, Summary, FieldCents, General, GeneralOf,
      AcceptedLineTotal, AcceptedTaxSummary, Total, ValidProfile, IsDate, Payment, Root;
    body, goods := Object(Body(input, numbering, panelAligned)), Object(Goods(input, panelAligned));
    RootFields(profile, input, numbering, panelAligned);
    BodyFields(input, numbering, panelAligned);
    FieldsAreRead(profile, input, numbering, Object(General(input, numbering)));
    LinesAddUp(input, numbering, panelAligned);
    SummaryIsRead(input, numbering, panelAligned);
    SummaryStands(input, panelAligned);
    LinesAreBounded(input.lines);
    SummaryFields(Total(input.lines));
    PaymentIsRead(input);
  }

  /** The amount of the body's one payment. */
  function PaymentOf(body: Parsed): Option<int> {
    var payment :- XmlRecord(Field(body, DatiPagamento));
    var detail :- XmlRecord(Field(payment, DettaglioPagamento));
    FieldCents(Field(detail, ImportoPagamento))
  }

  lemma SummaryStands(input: Input, panelAligned: bool)
    ensures XmlArray(Field(Object(Goods(input, panelAligned)), DatiRiepilogo)) ==
            Some([Object(Summary(Total(input.lines)))])
  {
    hide Field, ToObject, XmlArray, Summary, Total, Details;
    var details := Details(input.lines, panelAligned);
    DetailsAreElements(input.lines, panelAligned);
    ElementIsRead(details + [Element(DatiRiepilogo, Summary(Total(input.lines)))], |details|, DatiRiepilogo,
        Summary(Total(input.lines)));
  }
}
