/** The rules of tax identifiers and customer identity, said type by type (src/orders.ts). */
module TaxRules {
  import opened Options
  import opened Numerals
  import opened TaxIdentity

  const DIGITS := "0123456789"
  const CAPITALS := "ABCDEFGHIJKLMNOPQRSTUVWXYZ"

  /** So many characters, all of them listed. */
  predicate IsWritten(s: string, length: nat, alphabet: string) {
    |s| == length && forall i :: 0 <= i < |s| ==> s[i] in alphabet
  }

  /** The country an identifier is taken to be of, if any. */
  function CountryOf(customer: Customer, countryCode: Option<string>): string {
    match countryCode
    case Some(country) => country
    case None => if customer.billingCountry.Some? then customer.billingCountry.value else ""
  }

  /** Italian customers always write in the Italian format; others do so for Italy, and unknown
      ones also where no country is given. */
  predicate WritesItalian(customer: Customer, countryCode: Option<string>) {
    match customer.kind
    case PRIVATE_IT => true
    case BUSINESS_IT => true
    case EU => CountryOf(customer, countryCode) == "IT"
    case NON_EU => CountryOf(customer, countryCode) == "IT"
    case UNKNOWN => CountryOf(customer, countryCode) in {"", "IT"}
  }

  predicate IsCode(s: string) {
    IsWritten(s, 16, CAPITALS + DIGITS)
  }

  predicate IsVat(s: string) {
    IsWritten(s, 11, DIGITS)
  }

  /** A fiscal code, or a VAT number with or without its country. */
  predicate IsItalian(kind: TaxType, raw: string) {
    match kind
    case CODICE_FISCALE => IsCode(raw)
    case PARTITA_IVA => IsVat(raw) || ("IT" <= raw && IsVat(raw[2..]))
    case ALTRO => false
  }

  // ---------- Texts ----------

  lemma CharactersAreListed(c: char)
    ensures c in DIGITS <==> IsDigit(c)
    ensures c in CAPITALS <==> 'A' <= c <= 'Z'
    ensures c in CAPITALS + DIGITS <==> IsCodeChar(c)
  {
    DigitsAreListed(c);
    CapitalsAreListed(c);
  }

  lemma DigitsAreListed(c: char)
    ensures c in DIGITS <==> IsDigit(c)
  {
    if IsDigit(c) { assert DIGITS[c as int - 48] == c; }
  }

  lemma CapitalsAreListed(c: char)
    ensures c in CAPITALS <==> 'A' <= c <= 'Z'
  {
    if 'A' <= c <= 'Z' { assert CAPITALS[c as int - 65] == c; }
  }

  lemma FormatsAreWritten(s: string)
    ensures IsFiscalCode(s) <==> IsCode(s)
    ensures IsVatNumber(s) <==> IsVat(s)
  {
    hide IsCodeChar, IsDigit;
    forall i | 0 <= i < |s|
      ensures s[i] in CAPITALS + DIGITS <==> IsCodeChar(s[i])
      ensures s[i] in DIGITS <==> IsDigit(s[i])
    {
      CharactersAreListed(s[i]);
    }
  }

  lemma ItalianFormatIs(customer: Customer, countryCode: Option<string>)
    ensures RequiresItalianTaxFormat(customer, countryCode) <==> WritesItalian(customer, countryCode)
  {
  }

  /** A VAT number is no longer one with its country before it. */
  lemma PrefixedIsLonger(raw: string)
    requires "IT" <= raw
    ensures !IsVat(raw)
  {
    DigitsAreListed('I');
    assert raw[0] == "IT"[0] == 'I';
  }

  lemma ItalianIdentifierIs(customer: Customer, kind: TaxType, value: string, countryCode: Option<string>,
      normalize: string -> string)
    ensures IsItalianTaxIdentifier(customer, kind, value, countryCode, normalize) <==>
            WritesItalian(customer, countryCode) && IsItalian(kind, normalize(value))
  {
    hide IsFiscalCode, IsVatNumber, IsCode, IsVat, RequiresItalianTaxFormat, WritesItalian;
    var raw := normalize(value);
    ItalianFormatIs(customer, countryCode);
    FormatsAreWritten(raw);
    FormatsAreWritten(WithoutPrefix(raw, "IT"));
    if "IT" <= raw { PrefixedIsLonger(raw); }
  }

  // ---------- One identifier ----------

  /** What is left of a text behind a country, if it begins with one. */
  ghost predicate IsBehind(value: string, raw: string, country: string) {
    if country <= raw then raw == country + value else value == raw
  }

  /** An Italian identifier loses its country, and a VAT number the letters before it; any other
      keeps the country given for it or for the customer. */
  lemma CanonicalIs(customer: Customer, id: Identifier, normalize: string -> string)
    ensures var c, raw := CanonicalTaxIdentifier(customer, id, normalize), normalize(id.value);
            c.kind == id.kind && c.rawValue == id.value && c.sourceField == id.sourceField &&
            (c.kind != PARTITA_IVA ==> c.value == raw) &&
            if WritesItalian(customer, id.countryCode) && IsItalian(id.kind, raw)
            then c.countryCode == None && (c.kind == PARTITA_IVA ==> IsBehind(c.value, raw, "IT"))
            else c.countryCode == (if id.countryCode.Some? then id.countryCode else customer.billingCountry) &&
                 (c.kind == PARTITA_IVA ==> IsBehind(c.value, raw, CountryOf(customer, id.countryCode)))
  {
    hide IsItalianTaxIdentifier, WritesItalian, IsItalian;
    ItalianIdentifierIs(customer, id.kind, id.value, id.countryCode, normalize);
    NoOtherIsItalian(id.kind, normalize(id.value));
    PrefixIsTaken(normalize(id.value), "IT");
    PrefixIsTaken(normalize(id.value), CountryOf(customer, id.countryCode));
  }

  lemma NoOtherIsItalian(kind: TaxType, raw: string)
    ensures IsItalian(kind, raw) ==> kind != ALTRO
  {
  }

  lemma PrefixIsTaken(raw: string, prefix: string)
    ensures IsBehind(WithoutPrefix(raw, prefix), raw, prefix)
  {
  }

  /** An identifier counts if it has a country or is an Italian one, and is written as its
      customer writes. */
  lemma UsableIff(customer: Customer, c: Canonical, normalize: string -> string)
    ensures Usable(customer, c, normalize) <==>
            (CountryOf(customer.(billingCountry := None), c.countryCode) != "" ||
             (WritesItalian(customer, c.countryCode) && IsItalian(c.kind, normalize(c.value)))) &&
            match c.kind
            case ALTRO => |c.value| > 1
            case CODICE_FISCALE => if WritesItalian(customer, c.countryCode) then IsCode(c.value) else |c.value| > 1
            case PARTITA_IVA => if WritesItalian(customer, c.countryCode) then IsVat(c.value) else |c.value| > 1
  {
    hide IsItalianTaxIdentifier, WritesItalian, IsItalian, RequiresItalianTaxFormat, IsFiscalCode, IsVatNumber, IsCode,
        IsVat;
    ItalianIdentifierIs(customer, c.kind, c.value, c.countryCode, normalize);
    ItalianFormatIs(customer, c.countryCode);
    NoOtherIsItalian(c.kind, normalize(c.value));
    FormatsAreWritten(c.value);
  }

  // ---------- Which are kept ----------

  /** Of one type, value and country; no country is the country "". */
  predicate SameIdentifier(x: Canonical, y: Canonical) {
    x.kind == y.kind && x.value == y.value &&
    (x.countryCode == y.countryCode || (NoCountry(x.countryCode) && NoCountry(y.countryCode)))
  }

  predicate NoCountry(country: Option<string>) {
    country in {None, Some("")}
  }

  lemma SameKeyIff(x: Canonical, y: Canonical)
    ensures KeyOf(x) == KeyOf(y) <==> SameIdentifier(x, y)
  {
  }

  /** Of identifiers that are the same the least text is kept, and of each only one. */
  lemma KeptAreLeast(cs: seq<Canonical>, less: Less)
    requires StrictOrderOn(less, cs)
    ensures var kept := Unique(cs, less);
            (forall x :: x in kept <==> x in cs && forall y :: y in cs && SameIdentifier(x, y) ==> !less(y, x)) &&
            (forall i, j :: 0 <= i < j < |kept| ==> !SameIdentifier(kept[i], kept[j])) &&
            forall y :: y in cs ==> exists x :: x in kept && SameIdentifier(x, y)
  {
    hide Unique, StrictOrderOn, KeyOf, SameIdentifier;
    var kept := Unique(cs, less);
    UniqueIsLeast(cs, less);
    forall x, y
      ensures KeyOf(x) == KeyOf(y) <==> SameIdentifier(x, y)
    {
      SameKeyIff(x, y);
    }
    forall y | y in cs
      ensures exists x :: x in kept && SameIdentifier(x, y)
    {
      var i :| 0 <= i < |kept| && KeyOf(kept[i]) == KeyOf(y);
      assert kept[i] in kept && SameIdentifier(kept[i], y);
    }
  }

  // ---------- Preference and review ----------

  /** A business is known by its VAT number first, everybody else by the fiscal code. */
  function Preferred(kind: CustomerKind): seq<TaxType> {
    if kind.BUSINESS_IT? then [PARTITA_IVA, CODICE_FISCALE, ALTRO] else [CODICE_FISCALE, PARTITA_IVA, ALTRO]
  }

  lemma RankIsPreference(kind: CustomerKind, t: TaxType)
    ensures Rank(kind, t) < 3 && Preferred(kind)[Rank(kind, t)] == t
  {
  }

  lemma RankedBeforeIff(kind: CustomerKind, collate: Less, x: Canonical, y: Canonical)
    ensures RankedBefore(kind, collate, x, y) <==>
            (x.kind == y.kind && collate(x, y)) ||
            exists i, j :: 0 <= i < j < 3 && Preferred(kind)[i] == x.kind && Preferred(kind)[j] == y.kind
  {
    RankIsPreference(kind, x.kind);
    RankIsPreference(kind, y.kind);
  }

  /** No review is needed where name and address are complete and the identifier is the one
      expected: the fiscal code of an Italian private customer, the VAT number of an Italian
      business, any of a foreign customer. */
  lemma ReviewOfTaxId(customer: Customer, c: Canonical)
    ensures var identity := TaxIdentityOf(customer, c);
            identity.confidence == TAX_ID && identity.primaryTaxId ==
              Some(PrimaryTaxId(c.kind, c.value, c.countryCode)) &&
            identity.matchKey == TaxKey(c.kind, CountryOf(customer.(billingCountry := None), c.countryCode), c.value) &&
            (!identity.reviewRequired <==>
             customer.addressComplete && customer.nameComplete &&
             match customer.kind
             case PRIVATE_IT => c.kind.CODICE_FISCALE?
             case BUSINESS_IT => c.kind.PARTITA_IVA?
             case EU => true
             case NON_EU => true
             case UNKNOWN => false)
  {
  }

  /** Without a usable identifier the whole profile is needed, and a person looks at it unless the
      customer is foreign. */
  lemma ReviewOfProfile(customer: Customer)
    ensures var identity := ProfileIdentity(customer);
            identity.primaryTaxId == None &&
            if customer.addressComplete && customer.nameComplete && customer.hasEmail
            then identity.confidence == EXACT_PROFILE && identity.matchKey == ProfileKey(customer.profile) &&
                 (!identity.reviewRequired <==> customer.kind == EU || customer.kind == NON_EU)
            else identity == Identity(OrderKey(customer.order), AMBIGUOUS, true, None)
  {
  }
}
