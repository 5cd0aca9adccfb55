/**
 The money, number and date part of src/documents.ts: the FatturaPA generator and the readers
 of accepted files. A schema's trimming and upper-casing is taken as done.
 */
module FiscalDocuments {
  import opened Options
  import opened Numerals
  import opened Whitespace
  import opened Money
  import opened FiscalNumbers
  import opened FiscalXml

  const MAX_SAFE_INTEGER := 9_007_199_254_740_991
  const TAX_NATURE := "N5"
  const LEGAL_REFERENCE := "Regime del margine Art. 36 41/95"
  const MAX_LINES := 999

  datatype Kind = INVOICE | CREDIT_NOTE

  datatype Line = Line(quantity: int, unitAmount: int)

  datatype Input = Input(kind: Kind, documentDate: string, lines: seq<Line>, paymentMethod: string)

  /** The profile's literal fields are the constants above, the series FPR and TP02. */
  datatype Profile = Profile(transmitterCountry: string, transmitterCode: string, vatCountry: string, vatCode: string)

  datatype Numbering = Numbering(year: int, number: int)

  // ---------- Valid inputs ----------

  function DaysIn(year: nat, month: nat): nat {
    if month == 2 then if (year % 4 == 0 && year % 100 != 0) || year % 400 == 0 then 29 else 28
    else if month in {4, 6, 9, 11} then 30
    else 31
  }

  /** postgresDateSchema: a calendar date YYYY-MM-DD, from the year 1 on. */
  predicate IsDate(s: string) {
    |s| == 10 && AllDigits(s[..4]) && s[4] == '-' && AllDigits(s[5..7]) && s[7] == '-' && AllDigits(s[8..]) &&
    1 <= Value(s[5..7]) <= 12 && 1 <= Value(s[8..]) <= DaysIn(Value(s[..4]), Value(s[5..7])) && s[..4] != "0000"
  }

  /** Number(date.slice(0, 4)) */
  function YearOf(date: string): Option<nat> {
    var head := if |date| < 4 then date else date[..4];
    if IsNumeral(head) then Some(Value(head)) else None
  }

  function LineTotal(line: Line): int {
    line.quantity * line.unitAmount
  }

  function Total(lines: seq<Line>): int {
    if lines == [] then 0 else Total(lines[..|lines| - 1]) + LineTotal(lines[|lines| - 1])
  }

  /** A text that the schema leaves as it is: not blank, and already trimmed. */
  predicate IsText(s: string) {
    s != "" && !IsSpace(s[0]) && !IsSpace(s[|s| - 1])
  }

  predicate ValidProfile(p: Profile) {
    IsText(p.transmitterCountry) && IsText(p.transmitterCode) && IsText(p.vatCountry) && IsText(p.vatCode)
  }

  predicate ValidLine(line: Line) {
    1 <= line.quantity <= POSTGRES_INTEGER_MAX && 0 <= line.unitAmount <= POSTGRES_INTEGER_MAX
  }

  predicate ValidInput(input: Input) {
    IsDate(input.documentDate) && 1 <= |input.lines| <= MAX_LINES && (forall line <- input.lines :: ValidLine(line)) &&
    Total(input.lines) <= POSTGRES_INTEGER_MAX && input.paymentMethod in {"MP01", "MP05", "MP08"}
  }

  predicate Acceptable(profile: Profile, input: Input, numbering: Numbering) {
    ValidProfile(profile) && ValidInput(input) &&
    YearOf(input.documentDate).Some? && numbering.year == YearOf(input.documentDate).value && numbering.number >= 0
  }

  // ---------- The generated tree ----------

  function Item(name: Name, text: string): Child {
    Child(name, Leaf(text))
  }

  function Element(name: Name, children: seq<Child>): Child {
    Child(name, Branch(children))
  }

  function DocumentType(kind: Kind): string {
    match kind
    case INVOICE => "TD01"
    case CREDIT_NOTE => "TD04"
  }

  function PartyId(country: string, code: string): seq<Child> {
    [Item(IdPaese, country), Item(IdCodice, code)]
  }

  function Progressive(numbering: Numbering, panelAligned: bool): string
    requires numbering.year >= 0 && numbering.number >= 0
  {
    if panelAligned then Decimal(numbering.number)
    else LastTwo(Decimal(numbering.year)) + PadStart(Decimal(numbering.number), 8)
  }

  function Transmission(p: Profile, progressive: string): seq<Child> {
    [Element(IdTrasmittente, PartyId(p.transmitterCountry, p.transmitterCode)),
     Item(ProgressivoInvio, progressive),
     Item(FormatoTrasmissione, "FPR12")]
  }

  function Supplier(p: Profile): seq<Child> {
    [Element(DatiAnagrafici, [Element(IdFiscaleIVA, PartyId(p.vatCountry, p.vatCode))])]
  }

  function Header(p: Profile, numbering: Numbering, panelAligned: bool): seq<Child>
    requires numbering.year >= 0 && numbering.number >= 0
  {
    [Element(DatiTrasmissione, Transmission(p, Progressive(numbering, panelAligned))),
     Element(CedentePrestatore, Supplier(p))]
  }

  function General(input: Input, numbering: Numbering): seq<Child>
    requires numbering.year >= 0 && numbering.number >= 0
  {
    [Item(TipoDocumento, DocumentType(input.kind)),
     Item(Divisa, "EUR"),
     Item(Data, input.documentDate),
     Item(Numero, FiscalNumberLabel("FPR", numbering.year, numbering.number)),
     Item(ImportoTotaleDocumento, Amount(Total(input.lines)))]
  }

  function DetailFields(line: Line, number: nat, panelAligned: bool): seq<Child> {
    [Item(NumeroLinea, Decimal(number)), Item(Quantita, Signed(line.quantity) + ".00")] +
    (if panelAligned then [Item(UnitaMisura, "NR")] else []) +
    [Item(PrezzoUnitario, Amount(line.unitAmount)),
     Item(PrezzoTotale, Amount(LineTotal(line))),
     Item(AliquotaIVA, "0.00"),
     Item(Natura, TAX_NATURE)]
  }

  function Detail(line: Line, number: nat, panelAligned: bool): Child {
    Element(DettaglioLinee, DetailFields(line, number, panelAligned))
  }

  function Details(lines: seq<Line>, panelAligned: bool): (r: seq<Child>)
    ensures |r| == |lines|
  {
    if lines == [] then []
    else Details(lines[..|lines| - 1], panelAligned) + [Detail(lines[|lines| - 1], |lines|, panelAligned)]
  }

  function Summary(total: int): seq<Child> {
    [Item(AliquotaIVA, "0.00"),
     Item(Natura, TAX_NATURE),
     Item(ImponibileImporto, Amount(total)),
     Item(Imposta, "0.00"),
     Item(RiferimentoNormativo, LEGAL_REFERENCE)]
  }

  function Payment(method_: string, total: int): seq<Child> {
    [Item(CondizioniPagamento, "TP02"),
     Element(DettaglioPagamento, [Item(ModalitaPagamento, method_), Item(ImportoPagamento, Amount(total))])]
  }

  function Goods(input: Input, panelAligned: bool): seq<Child> {
    Details(input.lines, panelAligned) + [Element(DatiRiepilogo, Summary(Total(input.lines)))]
  }

  function Body(input: Input, numbering: Numbering, panelAligned: bool): seq<Child>
    requires numbering.year >= 0 && numbering.number >= 0
  {
    [Element(DatiGenerali, [Element(DatiGeneraliDocumento, General(input, numbering))]),
     Element(DatiBeniServizi, Goods(input, panelAligned)),
     Element(DatiPagamento, Payment(input.paymentMethod, Total(input.lines)))]
  }

  function Root(profile: Profile, input: Input, numbering: Numbering, panelAligned: bool): seq<Child>
    requires numbering.year >= 0 && numbering.number >= 0
  {
    [Item(VERSIONE, "FPR12"),
     Element(FatturaElettronicaHeader, Header(profile, numbering, panelAligned)),
     Element(FatturaElettronicaBody, Body(input, numbering, panelAligned))]
  }

  function Document(profile: Profile, input: Input, numbering: Numbering, panelAligned: bool): Node
    requires numbering.year >= 0 && numbering.number >= 0
  {
    Branch([Element(FatturaElettronica, Root(profile, input, numbering, panelAligned))])
  }

  /** The generator: nodes are appended in the order of the source. */
  method GenerateFatturaXml(profile: Profile, input: Input, numbering: Numbering, panelAligned: bool)
    returns (xml: Option<Node>)
    ensures xml ==
            if Acceptable(profile, input, numbering) then Some(Document(profile, input, numbering, panelAligned))
            else None
  {
    hide Header, General, Summary, Payment, ValidProfile, ValidInput, YearOf, Item, Element, Details, Total;
    if !ValidProfile(profile) || !ValidInput(input) { return None; }
    if YearOf(input.documentDate) == None || numbering.year != YearOf(input.documentDate).value ||
      numbering.number < 0 {
      return None;
    }
    var total := SumLines(input.lines);
    var root := [Item(VERSIONE, "FPR12")];
    root := root + [Element(FatturaElettronicaHeader, Header(profile, numbering, panelAligned))];
    var body := [Element(DatiGenerali, [Element(DatiGeneraliDocumento, General(input, numbering))])];
    var goods := AppendDetails(input.lines, panelAligned);
    goods := goods + [Element(DatiRiepilogo, Summary(total))];
    body := body + [Element(DatiBeniServizi, goods)];
    body := body + [Element(DatiPagamento, Payment(input.paymentMethod, total))];
    assert body == Body(input, numbering, panelAligned);
    root := root + [Element(FatturaElettronicaBody, body)];
    assert root == Root(profile, input, numbering, panelAligned);
    xml := Some(Branch([Element(FatturaElettronica, root)]));
  }

  method SumLines(lines: seq<Line>) returns (total: int)
    ensures total == Total(lines)
  {
    total := 0;
    for i := 0 to |lines|
      invariant total == Total(lines[..i])
    {
      assert lines[..i + 1][..i] == lines[..i];
      total := total + lines[i].quantity * lines[i].unitAmount;
    }
    assert lines[..|lines|] == lines;
  }

  method AppendDetail(line: Line, number: nat, panelAligned: bool) returns (detail: Child)
    ensures detail == Detail(line, number, panelAligned)
  {
    hide Item, Decimal, Signed, Amount;
    var fields := [Item(NumeroLinea, Decimal(number))];
    fields := fields + [Item(Quantita, Signed(line.quantity) + ".00")];
    if panelAligned { fields := fields + [Item(UnitaMisura, "NR")]; }
    fields := fields + [Item(PrezzoUnitario, Amount(line.unitAmount))];
    fields := fields + [Item(PrezzoTotale, Amount(line.quantity * line.unitAmount))];
    fields := fields + [Item(AliquotaIVA, "0.00")];
    fields := fields + [Item(Natura, TAX_NATURE)];
    assert fields == DetailFields(line, number, panelAligned);
    detail := Element(DettaglioLinee, fields);
  }

  method AppendDetails(lines: seq<Line>, panelAligned: bool) returns (goods: seq<Child>)
    ensures goods == Details(lines, panelAligned)
  {
    hide Detail;
    goods := [];
    for i := 0 to |lines|
      invariant goods == Details(lines[..i], panelAligned)
    {
      assert lines[..i + 1][..i] == lines[..i];
      var detail := AppendDetail(lines[i], i + 1, panelAligned);
      goods := goods + [detail];
    }
    assert lines[..|lines|] == lines;
  }

  // ---------- The readers ----------

  function FieldCents(input: Option<Parsed>): Option<int> {
    var text := XmlValue(input);
    if text.None? then None else DecimalToCents(text.value)
  }

  function GeneralOf(body: Parsed): Option<Parsed> {
    var data :- XmlRecord(Field(body, DatiGenerali));
    XmlRecord(Field(data, DatiGeneraliDocumento))
  }

  datatype Accepted = Accepted(kind: string, documentDate: string, documentNumber: string, totalAmount: Option<int>,
                               year: nat, number: nat, transmitter: string, seller: string)

  function Party(id: Parsed): Option<string> {
    var paese :- XmlValue(Field(id, IdPaese));
    var codice :- XmlValue(Field(id, IdCodice));
    Some(paese + ":" + codice)
  }

  /** The document's total, when it states one; an unreadable one is an error. */
  function StatedTotal(general: Parsed): Option<Option<int>> {
    if XmlText(Field(general, ImportoTotaleDocumento)) == "" then Some(None)
    else
      var cents :- FieldCents(Field(general, ImportoTotaleDocumento));
      Some(Some(cents))
  }

  function AcceptedBody(transmitter: Parsed, supplierVat: Parsed, body: Parsed): Option<Accepted> {
    var general :- GeneralOf(body);
    var kind :- XmlValue(Field(general, TipoDocumento));
    var documentDate :- XmlValue(Field(general, Data));
    var numero :- XmlValue(Field(general, Numero));
    var divisa :- XmlValue(Field(general, Divisa));
    var parts :- MatchAccepted(numero);
    var year :- YearOf(documentDate);
    if kind !in {"TD01", "TD04"} || divisa != "EUR" || Value(parts.year) != year % 100 then None
    else
      var total :- StatedTotal(general);
      var from :- Party(transmitter);
      var seller :- Party(supplierVat);
      Some(Accepted(kind, documentDate, numero, total, year, Value(parts.number), from, seller))
  }

  function AcceptedBodies(transmitter: Parsed, supplierVat: Parsed, bodies: seq<Parsed>): Option<seq<Accepted>> {
    if bodies == [] then Some([])
    else
      var first :- AcceptedBody(transmitter, supplierVat, bodies[0]);
      var rest :- AcceptedBodies(transmitter, supplierVat, bodies[1..]);
      Some([first] + rest)
  }

  /** acceptedFiscalDocuments, on what the file parses to. */
  function AcceptedFiscalDocuments(parsed: Parsed): Option<seq<Accepted>> {
    var root :- XmlRecord(Field(parsed, FatturaElettronica));
    var header :- XmlRecord(Field(root, FatturaElettronicaHeader));
    var transmission :- XmlRecord(Field(header, DatiTrasmissione));
    var transmitter :- XmlRecord(Field(transmission, IdTrasmittente));
    var supplier :- XmlRecord(Field(header, CedentePrestatore));
    var supplierData :- XmlRecord(Field(supplier, DatiAnagrafici));
    var supplierVat :- XmlRecord(Field(supplierData, IdFiscaleIVA));
    if XmlText(Field(root, VERSIONE)) != "FPR12" then None
    else
      var bodies :- XmlArray(Field(root, FatturaElettronicaBody));
      AcceptedBodies(transmitter, supplierVat, bodies)
  }

  datatype Envelope = Envelope(kind: string, year: nat, series: Option<string>, fiscalNumber: Option<string>,
                               documentDate: string, totalAmount: int)

  /** The year as the number ends with it: in full, or its last two digits. */
  predicate NamesYear(text: string, year: nat) {
    text == Decimal(year) || text == LastTwo(Decimal(year))
  }

  /** The parts of a usable number: positive, within safe integers, and of the year. */
  function ValidNumber(numero: string, year: nat): Option<Parts> {
    var parts :- MatchEnvelope(numero);
    if 0 < Value(parts.number) <= MAX_SAFE_INTEGER && NamesYear(parts.year, year) then Some(parts) else None
  }

  function LineTotals(details: seq<Parsed>): Option<int> {
    if details == [] then Some(0)
    else
      var before :- LineTotals(details[..|details| - 1]);
      var cents :- FieldCents(Field(details[|details| - 1], PrezzoTotale));
      Some(before + cents)
  }

  function AcceptedLineTotal(body: Parsed): Option<int> {
    var goods :- XmlRecord(Field(body, DatiBeniServizi));
    var details :- XmlArray(Field(goods, DettaglioLinee));
    LineTotals(details)
  }

  /** JavaScript's truth of a parsed field: an empty text is false. */
  predicate Truthy(input: Option<Parsed>) {
    input.Some? && input.value != Text("")
  }

  function EnvelopeTotal(general: Parsed, body: Parsed): Option<int> {
    if Truthy(Field(general, ImportoTotaleDocumento)) then FieldCents(Field(general, ImportoTotaleDocumento))
    else AcceptedLineTotal(body)
  }

  /** Other types of document are passed over. */
  function EnvelopeBody(body: Parsed, allowUnknownNumber: bool): Option<seq<Envelope>> {
    var general :- GeneralOf(body);
    var kind :- XmlValue(Field(general, TipoDocumento));
    if kind !in {"TD01", "TD04"} then Some([])
    else
      var documentDate :- XmlValue(Field(general, Data));
      var numero :- XmlValue(Field(general, Numero));
      var divisa :- XmlValue(Field(general, Divisa));
      if divisa != "EUR" || !IsDate(documentDate) || YearOf(documentDate) == None then None
      else
        var year := YearOf(documentDate).value;
        var parts := ValidNumber(numero, year);
        if parts == None && !allowUnknownNumber then None
        else
          var total :- EnvelopeTotal(general, body);
          Some([Envelope(kind, year,
                         if parts.None? then None else Some(parts.value.series),
                         if parts.None? then None else Some(Decimal(Value(parts.value.number))),
                         documentDate, total)])
  }

  function EnvelopeBodies(bodies: seq<Parsed>, allowUnknownNumber: bool): Option<seq<Envelope>> {
    if bodies == [] then Some([])
    else
      var first :- EnvelopeBody(bodies[0], allowUnknownNumber);
      var rest :- EnvelopeBodies(bodies[1..], allowUnknownNumber);
      Some(first + rest)
  }

  /** fiscalDocumentEnvelopesFromXml, on what the file parses to. */
  function FiscalDocumentEnvelopes(parsed: Parsed, allowUnknownNumber: bool): Option<seq<Envelope>> {
    var root :- XmlRecord(Field(parsed, FatturaElettronica));
    if XmlText(Field(root, VERSIONE)) != "FPR12" then None
    else
      var bodies :- XmlArray(Field(root, FatturaElettronicaBody));
      EnvelopeBodies(bodies, allowUnknownNumber)
  }

  /** Whether a summary counts: its tax is looked at only where its base is zero. */
  function HasAmount(summary: Parsed): Option<bool> {
    var base :- FieldCents(Field(summary, ImponibileImporto));
    if base != 0 then Some(true)
    else
      var tax :- FieldCents(Field(summary, Imposta));
      Some(tax != 0)
  }

  function WithAmount(summaries: seq<Parsed>): Option<seq<Parsed>> {
    if summaries == [] then Some([])
    else
      var counts :- HasAmount(summaries[0]);
      var rest :- WithAmount(summaries[1..]);
      Some(if counts then [summaries[0]] + rest else rest)
  }

  function Texts(records: seq<Parsed>, name: Name): Option<seq<string>> {
    if records == [] then Some([])
    else
      var first :- XmlValue(Field(records[0], name));
      var rest :- Texts(records[1..], name);
      Some([first] + rest)
  }

  predicate AllSame(texts: seq<string>) {
    texts != [] && forall text <- texts :: text == texts[0]
  }

  datatype TaxSummary = TaxSummary(taxNature: string, legalReference: string)

  function AcceptedTaxSummary(goods: Parsed): Option<TaxSummary> {
    var all :- XmlArray(Field(goods, DatiRiepilogo));
    var summaries :- WithAmount(all);
    var taxNatures :- Texts(summaries, Natura);
    var legalReferences :- Texts(summaries, RiferimentoNormativo);
    if AllSame(taxNatures) && AllSame(legalReferences) then Some(TaxSummary(taxNatures[0], legalReferences[0]))
    else None
  }
}
