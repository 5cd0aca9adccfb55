/**
 The XML of a FatturaPA file as a tree of elements, and as the object xmlbuilder2 reads it
 into: an element name that occurs once becomes a field, one that occurs again an array.
 Texts are not empty; serialisation and indentation are taken to change nothing.
 */
module FiscalXml {
  import opened Options
  import opened Whitespace

  /** The names of the elements and of the one attribute that are read. */
  datatype Name =
    | VERSIONE | FatturaElettronica | FatturaElettronicaHeader | FatturaElettronicaBody
    | DatiTrasmissione | IdTrasmittente | IdPaese | IdCodice | ProgressivoInvio | FormatoTrasmissione
    | CedentePrestatore | DatiAnagrafici | IdFiscaleIVA
    | DatiGenerali | DatiGeneraliDocumento | TipoDocumento | Divisa | Data | Numero | ImportoTotaleDocumento
    | DatiBeniServizi | DettaglioLinee | NumeroLinea | Quantita | UnitaMisura | PrezzoUnitario | PrezzoTotale
    | DatiRiepilogo | AliquotaIVA | Natura | ImponibileImporto | Imposta | RiferimentoNormativo
    | DatiPagamento | CondizioniPagamento | DettaglioPagamento | ModalitaPagamento | ImportoPagamento
    | TEXT

  datatype Node = Leaf(text: string) | Branch(children: seq<Child>)

  datatype Child = Child(name: Name, node: Node)

  datatype Parsed = Text(text: string) | Record(fields: map<Name, Parsed>) | Array(items: seq<Parsed>)

  datatype Entry = Entry(name: Name, value: Parsed)

  function Objects(children: seq<Child>): (r: seq<Entry>)
    ensures |r| == |children|
  {
    if children == [] then [] else [ObjectOf(children[0])] + Objects(children[1..])
  }

  function ObjectOf(child: Child): Entry {
    Entry(child.name, ToObject(child.node))
  }

  function ToObject(node: Node): Parsed {
    match node
    case Leaf(text) => Text(text)
    case Branch(children) => Record(Fields(Objects(children)))
  }

  function Named(entries: seq<Entry>, name: Name): seq<Parsed> {
    if entries == [] then []
    else (if entries[0].name == name then [entries[0].value] else []) + Named(entries[1..], name)
  }

  function Pack(values: seq<Parsed>): Parsed {
    if |values| == 1 then values[0] else Array(values)
  }

  function Fields(entries: seq<Entry>): map<Name, Parsed> {
    map name | name in (set e <- entries :: e.name) :: Pack(Named(entries, name))
  }

  // ---------- The readers' accessors ----------

  function Field(record: Parsed, name: Name): Option<Parsed> {
    if record.Record? && name in record.fields then Some(record.fields[name]) else None
  }

  function Trim(s: string): string {
    TrimEnd(TrimStart(s))
  }

  function TrimStart(s: string): string {
    if s != "" && IsSpace(s[0]) then TrimStart(s[1..]) else s
  }

  function XmlText(input: Option<Parsed>): string {
    match input
    case None => ""
    case Some(Text(text)) => Trim(text)
    case Some(Array(_)) => ""
    case Some(Record(fields)) => if TEXT in fields && fields[TEXT].Text? then Trim(fields[TEXT].text) else ""
  }

  function XmlValue(input: Option<Parsed>): Option<string> {
    var value := XmlText(input);
    if value == "" then None else Some(value)
  }

  function XmlRecord(input: Option<Parsed>): Option<Parsed> {
    if input.Some? && input.value.Record? then input else None
  }

  predicate AllRecords(items: seq<Parsed>) {
    forall item <- items :: item.Record?
  }

  function XmlArray(input: Option<Parsed>): Option<seq<Parsed>> {
    var items :=
      if input.Some? && input.value.Array? then input.value.items
      else if input.Some? then [input.value] else [Text("")];
    if AllRecords(items) then Some(items) else None
  }

  // ---------- Reading a field of a tree ----------

  lemma {:induction false} ObjectsAt(children: seq<Child>, i: nat)
    requires i < |children|
    ensures Objects(children)[i] == ObjectOf(children[i])
    decreases |children|
  {
    if i == 0 {
    } else {
      ObjectsAt(children[1..], i - 1);
    }
  }

  /** The children of that name, in order. */
  function Under(children: seq<Child>, name: Name): seq<Parsed> {
    Named(Objects(children), name)
  }

  lemma {:induction false} NamedNone(entries: seq<Entry>, name: Name)
    requires forall e <- entries :: e.name != name
    ensures Named(entries, name) == []
  {
    if entries == [] {
    } else {
      NamedNone(entries[1..], name);
    }
  }

  lemma {:induction false} NamedSome(entries: seq<Entry>, name: Name)
    requires exists e <- entries :: e.name == name
    ensures Named(entries, name) != []
  {
    if entries[0].name != name {
      var e :| e in entries && e.name == name;
      assert e in entries[1..];
      NamedSome(entries[1..], name);
    }
  }

  lemma NamedIn(entries: seq<Entry>, name: Name)
    ensures Named(entries, name) == [] <==> name !in Fields(entries)
  {
    hide Named, Pack;
    if exists e <- entries :: e.name == name {
      NamedSome(entries, name);
    } else {
      NamedNone(entries, name);
    }
  }

  lemma FieldIsPacked(children: seq<Child>, name: Name)
    ensures Field(ToObject(Branch(children)), name) ==
            if Under(children, name) == [] then None else Some(Pack(Under(children, name)))
  {
    hide Named, Pack;
    NamedIn(Objects(children), name);
  }

  lemma {:induction false} NamedSole(entries: seq<Entry>, i: nat)
    requires i < |entries| && forall j :: 0 <= j < |entries| && entries[j].name == entries[i].name ==> j == i
    ensures Named(entries, entries[i].name) == [entries[i].value]
  {
    if i == 0 {
      NamedNone(entries[1..], entries[0].name);
    } else {
      NamedSole(entries[1..], i - 1);
    }
  }

  predicate Sole(children: seq<Child>, i: nat) {
    i < |children| && forall j :: 0 <= j < |children| && j != i ==> children[j].name != children[i].name
  }

  /** A child with a name of its own is read as a field. */
  lemma SoleField(children: seq<Child>, i: nat)
    requires Sole(children, i)
    ensures Field(ToObject(Branch(children)), children[i].name) == Some(ToObject(children[i].node))
  {
    forall j | 0 <= j < |children|
      ensures Objects(children)[j] == ObjectOf(children[j])
    {
      ObjectsAt(children, j);
    }
    NamedSole(Objects(children), i);
    FieldIsPacked(children, children[i].name);
  }

  function Values(children: seq<Child>): (r: seq<Parsed>)
    ensures |r| == |children|
  {
    if children == [] then [] else [ToObject(children[0].node)] + Values(children[1..])
  }

  lemma {:induction false} NamedJoins(a: seq<Child>, b: seq<Child>, name: Name)
    ensures Under(a + b, name) == Under(a, name) + Under(b, name)
  {
    if a == [] {
      assert a + b == b;
    } else {
      assert (a + b)[1..] == a[1..] + b;
      NamedJoins(a[1..], b, name);
    }
  }

  lemma {:induction false} UnderOwn(children: seq<Child>, name: Name)
    requires forall c <- children :: c.name == name
    ensures Under(children, name) == Values(children)
  {
    if children == [] {
    } else {
      assert Objects(children)[1..] == Objects(children[1..]);
      UnderOwn(children[1..], name);
    }
  }

  lemma {:induction false} UnderOthers(children: seq<Child>, name: Name)
    requires forall c <- children :: c.name != name
    ensures Under(children, name) == []
  {
    if children == [] {
    } else {
      assert Objects(children)[1..] == Objects(children[1..]);
      UnderOthers(children[1..], name);
    }
  }

  lemma {:induction false} BranchesAreRecords(children: seq<Child>)
    requires forall c <- children :: c.node.Branch?
    ensures AllRecords(Values(children))
  {
    if children == [] {
    } else {
      BranchesAreRecords(children[1..]);
    }
  }

  /** Children of one name followed by others are read as an array, even when there is only one. */
  lemma ArrayField(first: seq<Child>, rest: seq<Child>, name: Name)
    requires first != [] && (forall c <- first :: c.name == name && c.node.Branch?)
    requires forall c <- rest :: c.name != name
    ensures XmlArray(Field(ToObject(Branch(first + rest)), name)) == Some(Values(first))
  {
    hide Under, Values, ToObject, Field;
    NamedJoins(first, rest, name);
    UnderOwn(first, name);
    UnderOthers(rest, name);
    BranchesAreRecords(first);
    FieldIsPacked(first + rest, name);
    var values := Values(first);
    assert values + [] == values;
    assert values[0] in values;
    if |values| == 1 { assert values == [values[0]]; }
  }
}
