/** What the two readers of FatturaPA files take, said of any file by its texts (src/documents.ts). */
module FiscalReaders {
  import opened Options
  import opened Numerals
  import opened Whitespace
  import opened FiscalNumbers
  import opened FiscalXml
  import opened FiscalDocuments
  import opened FiscalInputs

  // ---------- Texts, records and lists ----------

  /** What is left of a text without white space at its ends. */
  ghost predicate IsTrimOf(s: string, t: string) {
    (exists before, after :: s == before + t + after && AllSpace(before) && AllSpace(after)) &&
    (t != "" ==> !IsSpace(t[0]) && !IsSpace(t[|t| - 1]))
  }

  lemma {:induction false} TrimStartIs(before: string, rest: string)
    requires AllSpace(before) && (rest == "" || !IsSpace(rest[0]))
    ensures TrimStart(before + rest) == rest
    decreases |before|
  {
    if before == "" {
      assert before + rest == rest;
    } else {
      assert (before + rest)[1..] == before[1..] + rest;
      TrimStartIs(before[1..], rest);
    }
  }

  lemma {:induction false} TrimStartSplits(s: string) returns (before: string)
    ensures s == before + TrimStart(s) && AllSpace(before) && (TrimStart(s) == "" || !IsSpace(TrimStart(s)[0]))
    decreases |s|
  {
    if s != "" && IsSpace(s[0]) {
      var rest := TrimStartSplits(s[1..]);
      before := [s[0]] + rest;
    } else {
      before := "";
    }
  }

  /** A blank text trims to nothing, and any other to what begins and ends it. */
  lemma TrimIs(s: string, t: string)
    ensures Trim(s) == t <==> IsTrimOf(s, t)
  {
    hide IsSpace, TrimStart;
    var start := TrimStartSplits(s);
    TrimEndSplits(TrimStart(s));
    if Trim(s) == t {
      var after := TrimStart(s)[|t|..];
      assert s == start + t + after;
    }
    if IsTrimOf(s, t) {
      var before, after :| s == before + t + after && AllSpace(before) && AllSpace(after);
      TrimmedAgain(s, before, t, after);
    }
  }

  lemma TrimmedAgain(s: string, before: string, t: string, after: string)
    requires s == before + t + after && AllSpace(before) && AllSpace(after)
    requires t != "" ==> !IsSpace(t[0]) && !IsSpace(t[|t| - 1])
    ensures Trim(s) == t
  {
    hide IsSpace, TrimStart;
    if t == "" {
      TrimStartIs(s, "");
      assert s + "" == s;
      TrimEndIs("", "");
    } else {
      assert s == before + (t + after);
      TrimStartIs(before, t + after);
      TrimEndIs(t, after);
    }
  }

  /** An element's text stands for itself, or below it beside its attributes. */
  ghost predicate HoldsText(input: Option<Parsed>, s: string) {
    input == Some(Text(s)) ||
    (input.Some? && input.value.Record? && TEXT in input.value.fields && input.value.fields[TEXT] == Text(s))
  }

  /** A value is a text that is not blank, trimmed. */
  lemma ValueIsText(input: Option<Parsed>, t: string)
    ensures XmlValue(input) == Some(t) <==> t != "" && exists s :: HoldsText(input, s) && IsTrimOf(s, t)
  {
    hide Trim, IsTrimOf;
    forall s | HoldsText(input, s)
      ensures XmlText(input) == Trim(s) && (Trim(s) == t <==> IsTrimOf(s, t))
    {
      TrimIs(s, t);
    }
  }

  lemma RecordIs(input: Option<Parsed>, record: Parsed)
    ensures XmlRecord(input) == Some(record) <==> input == Some(record) && record.Record?
  {
  }

  /** A list of records, or a single one. */
  lemma ArrayIs(input: Option<Parsed>, items: seq<Parsed>)
    ensures XmlArray(input) == Some(items) <==>
            (forall i :: 0 <= i < |items| ==> items[i].Record?) &&
            (input == Some(Array(items)) || (|items| == 1 && input == Some(items[0])))
  {
    if XmlArray(input) == Some(items) {
      assert forall i :: 0 <= i < |items| ==> items[i] in items;
    }
    assert |items| == 1 ==> items == [items[0]];
    assert Text("") in [Text("")];
  }

  // ---------- One body ----------

  ghost predicate Says(record: Parsed, name: Name, text: string) {
    XmlValue(Field(record, name)) == Some(text)
  }

  ghost predicate Under(record: Parsed, name: Name, below: Parsed) {
    XmlRecord(Field(record, name)) == Some(below)
  }

  ghost predicate HasGeneral(body: Parsed, general: Parsed) {
    exists data :: Under(body, DatiGenerali, data) && Under(data, DatiGeneraliDocumento, general)
  }

  lemma GeneralIs(body: Parsed, general: Parsed)
    ensures GeneralOf(body) == Some(general) <==> HasGeneral(body, general)
  {
    hide XmlRecord, Field;
    if GeneralOf(body) == Some(general) {
      assert Under(body, DatiGenerali, XmlRecord(Field(body, DatiGenerali)).value);
    }
  }

  /** FPR, a blank, digits, a slash, and two digits. */
  ghost predicate IsFpr(numero: string, digits: string, end: string) {
    numero == "FPR " + digits + "/" + end && IsNumeral(digits) && IsNumeral(end) && |end| == 2
  }

  /** The number, and the year that the date begins with and its end agrees with. */
  ghost predicate NumberedFpr(a: Accepted) {
    YearOf(a.documentDate) == Some(a.year) &&
    exists digits, end ::
      IsFpr(a.documentNumber, digits, end) && Value(digits) == a.number && Value(end) == a.year % 100
  }

  ghost predicate Names(id: Parsed, party: string) {
    exists country, code :: Says(id, IdPaese, country) && Says(id, IdCodice, code) && party == country + ":" + code
  }

  /** No total is stated, or one that reads. */
  ghost predicate States(general: Parsed, total: Option<int>) {
    match total
    case None => forall text :: !Says(general, ImportoTotaleDocumento, text)
    case Some(cents) => FieldCents(Field(general, ImportoTotaleDocumento)) == Some(cents)
  }

  ghost predicate IsAccepted(transmitter: Parsed, supplierVat: Parsed, body: Parsed, a: Accepted) {
    (exists general ::
       HasGeneral(body, general) && Says(general, TipoDocumento, a.kind) && Says(general, Divisa, "EUR") &&
       Says(general, Data, a.documentDate) && Says(general, Numero, a.documentNumber) &&
       States(general, a.totalAmount)) &&
    a.kind in {"TD01", "TD04"} && NumberedFpr(a) && Names(transmitter, a.transmitter) && Names(supplierVat, a.seller)
  }

  lemma PartyIs(id: Parsed, party: string)
    ensures Party(id) == Some(party) <==> Names(id, party)
  {
    hide XmlValue, Field;
    if Party(id) == Some(party) {
      var country, code := XmlValue(Field(id, IdPaese)).value, XmlValue(Field(id, IdCodice)).value;
      assert Says(id, IdPaese, country) && Says(id, IdCodice, code);
    }
  }

  lemma StatedIs(general: Parsed, total: Option<int>)
    ensures StatedTotal(general) == Some(total) <==> States(general, total)
  {
    hide Field, XmlText;
    var stated := Field(general, ImportoTotaleDocumento);
    assert XmlText(stated) != "" ==> Says(general, ImportoTotaleDocumento, XmlText(stated));
  }

  lemma FprIs(numero: string, p: Parts)
    ensures MatchAccepted(numero) == Some(p) <==> IsFpr(numero, p.number, p.year) && p.series == "FPR"
  {
    if MatchAccepted(numero) == Some(p) {
      assert numero == numero[..4] + numero[4..|numero| - 3] + [numero[|numero| - 3]] + numero[|numero| - 2..];
    }
    if IsFpr(numero, p.number, p.year) && p.series == "FPR" {
      FprIsAccepted(p.number, p.year);
    }
  }

  lemma NumberedIs(a: Accepted)
    ensures NumberedFpr(a) <==>
            YearOf(a.documentDate) == Some(a.year) && MatchAccepted(a.documentNumber).Some? &&
            Value(MatchAccepted(a.documentNumber).value.number) == a.number &&
            Value(MatchAccepted(a.documentNumber).value.year) == a.year % 100
  {
    hide MatchAccepted, YearOf, Value;
    if MatchAccepted(a.documentNumber).Some? {
      FprIs(a.documentNumber, MatchAccepted(a.documentNumber).value);
    }
    if NumberedFpr(a) {
      var digits, end :|
        IsFpr(a.documentNumber, digits, end) && Value(digits) == a.number && Value(end) == a.year % 100;
      FprIs(a.documentNumber, Parts("FPR", digits, end));
    }
  }

  /** On any body of any file. */
  lemma AcceptedBodyIff(transmitter: Parsed, supplierVat: Parsed, body: Parsed, a: Accepted)
    ensures AcceptedBody(transmitter, supplierVat, body) == Some(a) <==> IsAccepted(transmitter, supplierVat, body, a)
  {
    hide *;
    if AcceptedBody(transmitter, supplierVat, body) == Some(a) { AcceptedIsSaid(transmitter, supplierVat, body, a); }
    if IsAccepted(transmitter, supplierVat, body, a) { SaidIsAccepted(transmitter, supplierVat, body, a); }
  }

  lemma AcceptedIsSaid(transmitter: Parsed, supplierVat: Parsed, body: Parsed, a: Accepted)
    requires AcceptedBody(transmitter, supplierVat, body) == Some(a)
    ensures IsAccepted(transmitter, supplierVat, body, a)
  {
    hide Field, XmlValue, GeneralOf, HasGeneral, Party, Names, StatedTotal, States, MatchAccepted, YearOf, Value,
        NumberedFpr;
    var general := GeneralOf(body).value;
    GeneralIs(body, general);
    StatedIs(general, a.totalAmount);
    PartyIs(transmitter, a.transmitter);
    PartyIs(supplierVat, a.seller);
    NumberedIs(a);
    assert Says(general, TipoDocumento, a.kind) && Says(general, Divisa, "EUR");
  }

  lemma SaidIsAccepted(transmitter: Parsed, supplierVat: Parsed, body: Parsed, a: Accepted)
    requires IsAccepted(transmitter, supplierVat, body, a)
    ensures AcceptedBody(transmitter, supplierVat, body) == Some(a)
  {
    hide Field, XmlValue, GeneralOf, HasGeneral, Party, Names, StatedTotal, States, MatchAccepted, YearOf, Value,
        NumberedFpr;
    var general :|
      HasGeneral(body, general) && Says(general, TipoDocumento, a.kind) && Says(general, Divisa, "EUR") &&
      Says(general, Data, a.documentDate) && Says(general, Numero, a.documentNumber) && States(general, a.totalAmount);
    GeneralIs(body, general);
    StatedIs(general, a.totalAmount);
    PartyIs(transmitter, a.transmitter);
    PartyIs(supplierVat, a.seller);
    NumberedIs(a);
  }

  // ---------- A file of accepted documents ----------

  /** A record below another one, name by name. */
  ghost predicate Beneath(record: Parsed, names: seq<Name>, below: Parsed)
    decreases |names|
  {
    if names == [] then record == below
    else exists next :: Under(record, names[0], next) && Beneath(next, names[1..], below)
  }

  /** The records are those of the file: its root, with the two parties and the list of bodies. */
  ghost predicate IsFile(parsed: Parsed, transmitter: Parsed, supplierVat: Parsed, bodies: seq<Parsed>) {
    exists root ::
      IsRoot(parsed, root, bodies) &&
      Beneath(root, [FatturaElettronicaHeader, DatiTrasmissione, IdTrasmittente], transmitter) &&
      Beneath(root, [FatturaElettronicaHeader, CedentePrestatore, DatiAnagrafici, IdFiscaleIVA], supplierVat)
  }

  /** The root is of the ordinary format and lists bodies. */
  ghost predicate IsRoot(parsed: Parsed, root: Parsed, bodies: seq<Parsed>) {
    Under(parsed, FatturaElettronica, root) && Says(root, VERSIONE, "FPR12") &&
    XmlArray(Field(root, FatturaElettronicaBody)) == Some(bodies)
  }

  function Get(record: Option<Parsed>, name: Name): Option<Parsed> {
    var r :- record;
    XmlRecord(Field(r, name))
  }

  lemma BeneathStep(record: Parsed, name: Name, rest: seq<Name>, below: Parsed)
    ensures Beneath(record, [name] + rest, below) <==>
            Get(Some(record), name).Some? && Beneath(Get(Some(record), name).value, rest, below)
  {
    hide Field, XmlRecord;
    assert ([name] + rest)[1..] == rest;
  }

  lemma BeneathThree(record: Parsed, a: Name, b: Name, c: Name, below: Parsed)
    ensures Beneath(record, [a, b, c], below) <==> Get(Get(Get(Some(record), a), b), c) == Some(below)
  {
    hide Field, XmlRecord, Beneath;
    BeneathStep(record, a, [b, c], below);
    assert [a] + [b, c] == [a, b, c] && [b] + [c] == [b, c] && [c] + [] == [c];
    var first := Get(Some(record), a);
    if first.Some? {
      BeneathStep(first.value, b, [c], below);
      var second := Get(first, b);
      if second.Some? {
        BeneathStep(second.value, c, [], below);
        BeneathNothing(Get(second, c), below);
      }
    }
  }

  lemma BeneathNothing(record: Option<Parsed>, below: Parsed)
    ensures record.Some? ==> (Beneath(record.value, [], below) <==> record.value == below)
  {
  }

  lemma BeneathFour(record: Parsed, a: Name, b: Name, c: Name, d: Name, below: Parsed)
    ensures Beneath(record, [a, b, c, d], below) <==> Get(Get(Get(Get(Some(record), a), b), c), d) == Some(below)
  {
    hide Field, XmlRecord, Beneath;
    BeneathStep(record, a, [b, c, d], below);
    assert [a] + [b, c, d] == [a, b, c, d];
    var first := Get(Some(record), a);
    if first.Some? { BeneathThree(first.value, b, c, d, below); }
  }

  lemma VersionIs(root: Parsed)
    ensures XmlText(Field(root, VERSIONE)) == "FPR12" <==> Says(root, VERSIONE, "FPR12")
  {
    hide XmlText, Field;
  }

  /** Both parties are read with the root. */
  lemma FileIs(parsed: Parsed, list: seq<Accepted>)
    ensures AcceptedFiscalDocuments(parsed) == Some(list) <==>
            exists transmitter, supplierVat, bodies ::
              IsFile(parsed, transmitter, supplierVat, bodies) &&
              AcceptedBodies(transmitter, supplierVat, bodies) == Some(list)
  {
    hide *;
    if AcceptedFiscalDocuments(parsed) == Some(list) {
      var transmitter, supplierVat, bodies := FileIsRead(parsed, list);
    }
    forall transmitter, supplierVat, bodies | IsFile(parsed, transmitter, supplierVat, bodies)
      ensures AcceptedFiscalDocuments(parsed) == AcceptedBodies(transmitter, supplierVat, bodies)
    {
      ReadFile(parsed, transmitter, supplierVat, bodies);
    }
  }

  lemma FileIsRead(parsed: Parsed, list: seq<Accepted>)
    returns (transmitter: Parsed, supplierVat: Parsed, bodies: seq<Parsed>)
    requires AcceptedFiscalDocuments(parsed) == Some(list)
    ensures IsFile(parsed, transmitter, supplierVat, bodies)
    ensures AcceptedBodies(transmitter, supplierVat, bodies) == Some(list)
  {
    hide Field, XmlRecord, XmlText, XmlValue, XmlArray, Beneath, AcceptedBodies;
    var root := XmlRecord(Field(parsed, FatturaElettronica)).value;
    VersionIs(root);
    var header := Get(Some(root), FatturaElettronicaHeader);
    transmitter := Get(Get(header, DatiTrasmissione), IdTrasmittente).value;
    supplierVat := Get(Get(Get(header, CedentePrestatore), DatiAnagrafici), IdFiscaleIVA).value;
    bodies := XmlArray(Field(root, FatturaElettronicaBody)).value;
    BeneathThree(root, FatturaElettronicaHeader, DatiTrasmissione, IdTrasmittente, transmitter);
    BeneathFour(root, FatturaElettronicaHeader, CedentePrestatore, DatiAnagrafici, IdFiscaleIVA, supplierVat);
    assert IsRoot(parsed, root, bodies);
  }

  lemma ReadFile(parsed: Parsed, transmitter: Parsed, supplierVat: Parsed, bodies: seq<Parsed>)
    requires IsFile(parsed, transmitter, supplierVat, bodies)
    ensures AcceptedFiscalDocuments(parsed) == AcceptedBodies(transmitter, supplierVat, bodies)
  {
    hide Field, XmlRecord, XmlText, XmlValue, XmlArray, Beneath, AcceptedBodies;
    var root := XmlRecord(Field(parsed, FatturaElettronica)).value;
    VersionIs(root);
    BeneathThree(root, FatturaElettronicaHeader, DatiTrasmissione, IdTrasmittente, transmitter);
    BeneathFour(root, FatturaElettronicaHeader, CedentePrestatore, DatiAnagrafici, IdFiscaleIVA, supplierVat);
  }

  lemma {:induction false} BodiesAreEach(transmitter: Parsed, supplierVat: Parsed, bodies: seq<Parsed>,
      list: seq<Accepted>)
    ensures AcceptedBodies(transmitter, supplierVat, bodies) == Some(list) <==>
            |list| == |bodies| &&
            forall i :: 0 <= i < |bodies| ==> AcceptedBody(transmitter, supplierVat, bodies[i]) == Some(list[i])
    decreases |bodies|
  {
    hide AcceptedBody;
    if bodies == [] {
    } else if list != [] {
      BodiesAreEach(transmitter, supplierVat, bodies[1..], list[1..]);
      assert list == [list[0]] + list[1..];
      assert forall i :: 0 < i < |bodies| ==> bodies[i] == bodies[1..][i - 1];
      assert forall i :: 0 < i < |list| ==> list[i] == list[1..][i - 1];
    }
  }

  /** A file is accepted exactly when it is of the ordinary format, has a transmitter and a
      supplier, and each of its bodies is; as the list of these. */
  lemma AcceptedFileIff(parsed: Parsed, list: seq<Accepted>)
    ensures AcceptedFiscalDocuments(parsed) == Some(list) <==>
            exists transmitter, supplierVat, bodies ::
              IsFile(parsed, transmitter, supplierVat, bodies) && |list| == |bodies| &&
              forall i :: 0 <= i < |bodies| ==> IsAccepted(transmitter, supplierVat, bodies[i], list[i])
  {
    hide AcceptedFiscalDocuments, IsFile, IsAccepted, AcceptedBodies, AcceptedBody;
    FileIs(parsed, list);
    forall transmitter, supplierVat, bodies | IsFile(parsed, transmitter, supplierVat, bodies)
      ensures AcceptedBodies(transmitter, supplierVat, bodies) == Some(list) <==>
              |list| == |bodies| &&
              forall i :: 0 <= i < |bodies| ==> IsAccepted(transmitter, supplierVat, bodies[i], list[i])
    {
      BodiesAreEach(transmitter, supplierVat, bodies, list);
      forall i | 0 <= i < |bodies| && i < |list|
        ensures AcceptedBody(transmitter, supplierVat, bodies[i]) == Some(list[i]) <==>
                IsAccepted(transmitter, supplierVat, bodies[i], list[i])
      {
        AcceptedBodyIff(transmitter, supplierVat, bodies[i], list[i]);
      }
    }
  }

  // ---------- The envelope of any body ----------

  ghost predicate IsUsable(numero: string, year: nat, p: Parts) {
    exists gap :: IsEnvelopeText(numero, p, gap) && 0 < Value(p.number) <= 9_007_199_254_740_991 &&
                  EndsWithYear(p.year, year)
  }

  /** Series and number are those of a usable number, or unknown if that is allowed. */
  ghost predicate NumbersEnvelope(e: Envelope, numero: string, allowUnknownNumber: bool) {
    if exists p :: IsUsable(numero, e.year, p)
    then exists p :: IsUsable(numero, e.year, p) && e.series == Some(p.series) &&
                     e.fiscalNumber == Some(Decimal(Value(p.number)))
    else allowUnknownNumber && e.series == None && e.fiscalNumber == None
  }

  /** The total is the one stated, unless its element is absent or empty, and otherwise the sum of
      the lines. */
  ghost predicate Totals(body: Parsed, general: Parsed, total: int) {
    if Field(general, ImportoTotaleDocumento) in {None, Some(Text(""))} then AcceptedLineTotal(body) == Some(total)
    else FieldCents(Field(general, ImportoTotaleDocumento)) == Some(total)
  }

  ghost predicate IsEnvelope(body: Parsed, general: Parsed, e: Envelope, allowUnknownNumber: bool) {
    Says(general, TipoDocumento, e.kind) && Says(general, Divisa, "EUR") && Says(general, Data, e.documentDate) &&
    (exists d :: IsDay(d) && DateText(d) == e.documentDate && d.year == e.year) &&
    (exists numero :: Says(general, Numero, numero) && NumbersEnvelope(e, numero, allowUnknownNumber)) &&
    Totals(body, general, e.totalAmount)
  }

  lemma NumbersAre(e: Envelope, numero: string, allowUnknownNumber: bool)
    ensures NumbersEnvelope(e, numero, allowUnknownNumber) <==>
            match ValidNumber(numero, e.year)
            case None => allowUnknownNumber && e.series == None && e.fiscalNumber == None
            case Some(p) => e.series == Some(p.series) && e.fiscalNumber == Some(Decimal(Value(p.number)))
  {
    hide ValidNumber, Value, Decimal, IsUsable;
    forall p
      ensures ValidNumber(numero, e.year) == Some(p) <==> IsUsable(numero, e.year, p)
    {
      UsableIs(numero, e.year, p);
    }
  }

  lemma UsableIs(numero: string, year: nat, p: Parts)
    ensures ValidNumber(numero, year) == Some(p) <==> IsUsable(numero, year, p)
  {
    hide ValidNumber, Value, IsEnvelopeText, EndsWithYear;
    ValidNumberIff(numero, year, p);
  }

  lemma DateIs(date: string, year: nat)
    ensures IsDate(date) && YearOf(date) == Some(year) <==>
            exists d :: IsDay(d) && DateText(d) == date && d.year == year
  {
    hide IsDate, YearOf, IsDay, DateText;
    DateIsDay(date);
  }

  /** Documents of other types are passed over. */
  lemma EnvelopeBodyIff(body: Parsed, allowUnknownNumber: bool, list: seq<Envelope>)
    ensures EnvelopeBody(body, allowUnknownNumber) == Some(list) <==>
            exists general, kind ::
              HasGeneral(body, general) && Says(general, TipoDocumento, kind) &&
              if kind in {"TD01", "TD04"}
              then |list| == 1 && IsEnvelope(body, general, list[0], allowUnknownNumber)
              else list == []
  {
    hide HasGeneral, GeneralOf, EnvelopeBody, IsEnvelope, XmlValue;
    forall general
      ensures GeneralOf(body) == Some(general) <==> HasGeneral(body, general)
    {
      GeneralIs(body, general);
    }
    var general := GeneralOf(body);
    EnvelopeNeeds(body, allowUnknownNumber);
    if general.Some? && XmlValue(Field(general.value, TipoDocumento)).Some? {
      var kind := XmlValue(Field(general.value, TipoDocumento)).value;
      assert Says(general.value, TipoDocumento, kind);
      EnvelopeOfKind(body, general.value, kind, allowUnknownNumber, list);
    }
  }

  lemma EnvelopeNeeds(body: Parsed, allowUnknownNumber: bool)
    ensures EnvelopeBody(body, allowUnknownNumber).Some? ==>
              GeneralOf(body).Some? && XmlValue(Field(GeneralOf(body).value, TipoDocumento)).Some?
  {
    hide GeneralOf, Field, XmlValue;
  }

  lemma EnvelopeOfKind(body: Parsed, general: Parsed, kind: string, allowUnknownNumber: bool, list: seq<Envelope>)
    requires GeneralOf(body) == Some(general) && Says(general, TipoDocumento, kind)
    ensures EnvelopeBody(body, allowUnknownNumber) == Some(list) <==>
            if kind in {"TD01", "TD04"}
            then |list| == 1 && IsEnvelope(body, general, list[0], allowUnknownNumber)
            else list == []
  {
    hide GeneralOf, Field, XmlValue, IsDate, YearOf, IsDay, DateText, NumbersEnvelope, Totals, ValidNumber,
        EnvelopeTotal, Decimal, Value;
    if |list| == 1 {
      var e := list[0];
      DateIs(e.documentDate, e.year);
      TotalIs(body, general, e.totalAmount);
      var numero := XmlValue(Field(general, Numero));
      if numero.Some? {
        assert Says(general, Numero, numero.value);
        NumbersAre(e, numero.value, allowUnknownNumber);
      }
      assert list == [e];
    }
  }

  lemma TotalIs(body: Parsed, general: Parsed, total: int)
    ensures EnvelopeTotal(general, body) == Some(total) <==> Totals(body, general, total)
  {
    hide AcceptedLineTotal, FieldCents;
  }

  function SumOf(cents: seq<int>): int {
    if cents == [] then 0 else cents[0] + SumOf(cents[1..])
  }

  ghost predicate LinesRead(details: seq<Parsed>, cents: seq<int>) {
    |cents| == |details| &&
    forall i :: 0 <= i < |details| ==> FieldCents(Field(details[i], PrezzoTotale)) == Some(cents[i])
  }

  lemma {:induction false} SumGrows(cents: seq<int>)
    requires cents != []
    ensures SumOf(cents) == SumOf(cents[..|cents| - 1]) + cents[|cents| - 1]
  {
    if |cents| > 1 {
      SumGrows(cents[1..]);
      assert cents[1..][..|cents| - 2] == cents[..|cents| - 1][1..];
    }
  }

  lemma {:induction false} LineTotalsAre(details: seq<Parsed>) returns (cents: seq<int>)
    ensures LineTotals(details).Some? ==> LinesRead(details, cents)
    ensures forall all :: LinesRead(details, all) ==> LineTotals(details) == Some(SumOf(all))
    decreases |details|
  {
    hide FieldCents, Field;
    cents := [];
    if details != [] {
      var n := |details| - 1;
      var before := LineTotalsAre(details[..n]);
      if LineTotals(details).Some? {
        cents := before + [FieldCents(Field(details[n], PrezzoTotale)).value];
      }
      forall all | LinesRead(details, all)
        ensures LineTotals(details) == Some(SumOf(all))
      {
        assert LinesRead(details[..n], all[..n]);
        SumGrows(all);
      }
    }
  }

  /** The sum of the lines is there exactly when each line has a total that reads. */
  lemma LineTotalIff(body: Parsed, total: int)
    ensures AcceptedLineTotal(body) == Some(total) <==>
            exists goods, details, cents ::
              Under(body, DatiBeniServizi, goods) && XmlArray(Field(goods, DettaglioLinee)) == Some(details) &&
              LinesRead(details, cents) && total == SumOf(cents)
  {
    hide Field, XmlRecord, XmlArray, LinesRead, LineTotals;
    var goods := XmlRecord(Field(body, DatiBeniServizi));
    if goods.Some? && XmlArray(Field(goods.value, DettaglioLinee)).Some? {
      var cents := LineTotalsAre(XmlArray(Field(goods.value, DettaglioLinee)).value);
    }
  }

  // ---------- A file of envelopes ----------

  function Concat(lists: seq<seq<Envelope>>): seq<Envelope> {
    if lists == [] then [] else lists[0] + Concat(lists[1..])
  }

  ghost predicate EachYields(bodies: seq<Parsed>, allowUnknownNumber: bool, lists: seq<seq<Envelope>>) {
    |lists| == |bodies| &&
    forall i :: 0 <= i < |bodies| ==> EnvelopeBody(bodies[i], allowUnknownNumber) == Some(lists[i])
  }

  /** Each body has a list of envelopes, and they make up this one. */
  ghost predicate Yield(bodies: seq<Parsed>, allowUnknownNumber: bool, list: seq<Envelope>) {
    exists lists :: EachYields(bodies, allowUnknownNumber, lists) && list == Concat(lists)
  }

  lemma FirstYields(bodies: seq<Parsed>, allowUnknownNumber: bool, first: seq<Envelope>, rest: seq<seq<Envelope>>)
    requires bodies != [] && EnvelopeBody(bodies[0], allowUnknownNumber) == Some(first)
    requires EachYields(bodies[1..], allowUnknownNumber, rest)
    ensures EachYields(bodies, allowUnknownNumber, [first] + rest) && Concat([first] + rest) == first + Concat(rest)
  {
    hide EnvelopeBody;
    assert ([first] + rest)[1..] == rest;
    assert forall i :: 0 < i < |bodies| ==> ([first] + rest)[i] == rest[i - 1] && bodies[i] == bodies[1..][i - 1];
  }

  lemma RestYields(bodies: seq<Parsed>, allowUnknownNumber: bool, lists: seq<seq<Envelope>>)
    requires bodies != [] && EachYields(bodies, allowUnknownNumber, lists)
    ensures EnvelopeBody(bodies[0], allowUnknownNumber) == Some(lists[0])
    ensures EachYields(bodies[1..], allowUnknownNumber, lists[1..])
  {
    hide EnvelopeBody;
    assert forall i :: 0 <= i < |bodies| - 1 ==> bodies[1..][i] == bodies[i + 1] && lists[1..][i] == lists[i + 1];
  }

  lemma {:induction false} EnvelopesAreEach(bodies: seq<Parsed>, allowUnknownNumber: bool, list: seq<Envelope>)
    ensures EnvelopeBodies(bodies, allowUnknownNumber) == Some(list) <==> Yield(bodies, allowUnknownNumber, list)
    decreases |bodies|
  {
    hide EnvelopeBody, EachYields;
    if bodies == [] {
      NothingYields(allowUnknownNumber, list);
      return;
    }
    if EnvelopeBodies(bodies, allowUnknownNumber) == Some(list) {
      var first, rest := EnvelopeBody(bodies[0], allowUnknownNumber), EnvelopeBodies(bodies[1..], allowUnknownNumber);
      EnvelopesAreEach(bodies[1..], allowUnknownNumber, rest.value);
      var others :| EachYields(bodies[1..], allowUnknownNumber, others) && rest.value == Concat(others);
      FirstYields(bodies, allowUnknownNumber, first.value, others);
    }
    if Yield(bodies, allowUnknownNumber, list) {
      var lists :| EachYields(bodies, allowUnknownNumber, lists) && list == Concat(lists);
      YieldsAreMany(bodies, allowUnknownNumber, lists);
      RestYields(bodies, allowUnknownNumber, lists);
      EnvelopesAreEach(bodies[1..], allowUnknownNumber, Concat(lists[1..]));
    }
  }

  lemma NothingYields(allowUnknownNumber: bool, list: seq<Envelope>)
    ensures Yield([], allowUnknownNumber, list) <==> list == []
  {
    assert EachYields([], allowUnknownNumber, []);
  }

  lemma YieldsAreMany(bodies: seq<Parsed>, allowUnknownNumber: bool, lists: seq<seq<Envelope>>)
    requires EachYields(bodies, allowUnknownNumber, lists)
    ensures |lists| == |bodies|
  {
  }

  /** A file yields envelopes exactly when it is of the ordinary format and each of its bodies
      does; in their order. */
  lemma EnvelopesIff(parsed: Parsed, allowUnknownNumber: bool, list: seq<Envelope>)
    ensures FiscalDocumentEnvelopes(parsed, allowUnknownNumber) == Some(list) <==>
            exists root, bodies :: IsRoot(parsed, root, bodies) && Yield(bodies, allowUnknownNumber, list)
  {
    hide *;
    if FiscalDocumentEnvelopes(parsed, allowUnknownNumber).Some? {
      var root, bodies := RootIsRead(parsed, allowUnknownNumber);
      EnvelopesAreEach(bodies, allowUnknownNumber, list);
    }
    forall root, bodies | IsRoot(parsed, root, bodies)
      ensures FiscalDocumentEnvelopes(parsed, allowUnknownNumber) == Some(list) <==>
              Yield(bodies, allowUnknownNumber, list)
    {
      ReadRoot(parsed, root, bodies, allowUnknownNumber);
      EnvelopesAreEach(bodies, allowUnknownNumber, list);
    }
  }

  lemma RootIsRead(parsed: Parsed, allowUnknownNumber: bool) returns (root: Parsed, bodies: seq<Parsed>)
    requires FiscalDocumentEnvelopes(parsed, allowUnknownNumber).Some?
    ensures IsRoot(parsed, root, bodies)
    ensures FiscalDocumentEnvelopes(parsed, allowUnknownNumber) == EnvelopeBodies(bodies, allowUnknownNumber)
  {
    hide Field, XmlRecord, XmlText, XmlValue, XmlArray, EnvelopeBodies;
    root := XmlRecord(Field(parsed, FatturaElettronica)).value;
    VersionIs(root);
    bodies := XmlArray(Field(root, FatturaElettronicaBody)).value;
  }

  lemma ReadRoot(parsed: Parsed, root: Parsed, bodies: seq<Parsed>, allowUnknownNumber: bool)
    requires IsRoot(parsed, root, bodies)
    ensures FiscalDocumentEnvelopes(parsed, allowUnknownNumber) == EnvelopeBodies(bodies, allowUnknownNumber)
  {
    hide Field, XmlRecord, XmlText, XmlValue, XmlArray, EnvelopeBodies;
    VersionIs(root);
  }
}
