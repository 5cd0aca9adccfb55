/**
 Tax identifiers and the customer they identify (src/orders.ts). The normalisation of a value
 and the two orders on the JSON texts of identifiers are parameters.
 */
module TaxIdentity {
  import opened Options
  import opened Numerals
  import opened Sorting

  datatype CustomerKind = PRIVATE_IT | BUSINESS_IT | EU | NON_EU | UNKNOWN

  datatype TaxType = CODICE_FISCALE | PARTITA_IVA | ALTRO

  /** An identifier as it comes from the source. */
  datatype Identifier = Identifier(kind: TaxType, value: string, countryCode: Option<string>,
      sourceField: Option<string>)

  datatype Canonical = Canonical(kind: TaxType, value: string, countryCode: Option<string>,
                                 sourceField: Option<string>, rawValue: string)

  /** The customer, apart from the tax identifiers. */
  datatype Customer = Customer(kind: CustomerKind, billingCountry: Option<string>, addressComplete: bool,
      nameComplete: bool, hasEmail: bool, profile: string, order: string)

  type Less = (Canonical, Canonical) -> bool

  // ---------- One identifier ----------

  predicate RequiresItalianTaxFormat(customer: Customer, countryCode: Option<string>) {
    var country := if countryCode.Some? then countryCode else customer.billingCountry;
    customer.kind in {PRIVATE_IT, BUSINESS_IT} ||
    if country.Some? && country.value != "" then country.value == "IT" else customer.kind == UNKNOWN
  }

  predicate IsCodeChar(c: char) {
    'A' <= c <= 'Z' || IsDigit(c)
  }

  /** /^[A-Z0-9]{16}$/ */
  predicate IsFiscalCode(s: string) {
    |s| == 16 && forall i :: 0 <= i < |s| ==> IsCodeChar(s[i])
  }

  /** /^\d{11}$/ */
  predicate IsVatNumber(s: string) {
    |s| == 11 && AllDigits(s)
  }

  function WithoutPrefix(s: string, prefix: string): string {
    if prefix <= s then s[|prefix|..] else s
  }

  predicate IsItalianTaxIdentifier(customer: Customer, kind: TaxType, value: string, countryCode: Option<string>,
      normalize: string -> string) {
    RequiresItalianTaxFormat(customer, countryCode) &&
    match kind
    case CODICE_FISCALE => IsFiscalCode(normalize(value))
    case PARTITA_IVA => IsVatNumber(WithoutPrefix(normalize(value), "IT"))
    case ALTRO => false
  }

  function CanonicalTaxIdentifier(customer: Customer, id: Identifier, normalize: string -> string): Canonical {
    var italian := IsItalianTaxIdentifier(customer, id.kind, id.value, id.countryCode, normalize);
    var source :=
      if id.countryCode.Some? then id.countryCode
      else if customer.billingCountry.Some? then customer.billingCountry
      else if italian then Some("IT")
      else None;
    var needsCountry := id.kind == ALTRO || !italian;
    var raw := normalize(id.value);
    var prefix := if italian then "IT" else if source.Some? then source.value else "";
    Canonical(id.kind, if id.kind == PARTITA_IVA then WithoutPrefix(raw, prefix) else raw,
              if needsCountry then source else None, id.sourceField, id.value)
  }

  function Canonicals(customer: Customer, ids: seq<Identifier>, normalize: string -> string): (r: seq<Canonical>)
    ensures |r| == |ids| && forall i :: 0 <= i < |ids| ==> r[i] == CanonicalTaxIdentifier(customer, ids[i], normalize)
  {
    if ids == [] then []
    else [CanonicalTaxIdentifier(customer, ids[0], normalize)] + Canonicals(customer, ids[1..], normalize)
  }

  // ---------- One identifier for each key ----------

  datatype Key = Key(kind: TaxType, countryCode: string, value: string)

  function KeyOf(c: Canonical): Key {
    Key(c.kind, if c.countryCode.Some? then c.countryCode.value else "", c.value)
  }

  /** Map.set for a smaller or new value: an existing key keeps its place. */
  function Put(kept: seq<Canonical>, c: Canonical, less: Less): seq<Canonical> {
    if kept == [] then [c]
    else if KeyOf(kept[0]) == KeyOf(c) then [if less(c, kept[0]) then c else kept[0]] + kept[1..]
    else [kept[0]] + Put(kept[1..], c, less)
  }

  /** The values of the Map after the loop, in insertion order. */
  function Unique(cs: seq<Canonical>, less: Less): seq<Canonical> {
    if cs == [] then [] else Put(Unique(cs[..|cs| - 1], less), cs[|cs| - 1], less)
  }

  function CanonicalTaxIdentifiers(customer: Customer, ids: seq<Identifier>, normalize: string -> string,
      less: Less, collate: Less): seq<Canonical> {
    ToSorted(Unique(Canonicals(customer, ids, normalize), less), collate)
  }

  predicate KeysDiffer(kept: seq<Canonical>) {
    forall i, j :: 0 <= i < j < |kept| ==> KeyOf(kept[i]) != KeyOf(kept[j])
  }

  predicate HasKey(kept: seq<Canonical>, key: Key) {
    exists i :: 0 <= i < |kept| && KeyOf(kept[i]) == key
  }

  lemma {:induction false} PutNew(kept: seq<Canonical>, c: Canonical, less: Less)
    requires !HasKey(kept, KeyOf(c))
    ensures Put(kept, c, less) == kept + [c]
  {
    if kept == [] {
    } else {
      assert KeyOf(kept[0]) != KeyOf(c);
      assert forall i :: 0 <= i < |kept| - 1 ==> kept[1..][i] == kept[i + 1];
      PutNew(kept[1..], c, less);
    }
  }

  lemma UpdateBehind(kept: seq<Canonical>, i: nat, c: Canonical)
    requires 0 < i < |kept|
    ensures kept == [kept[0]] + kept[1..] && kept[1..][i - 1] == kept[i]
    ensures kept[i := c] == [kept[0]] + kept[1..][i - 1 := c]
  {
  }

  lemma KeysDifferBehind(kept: seq<Canonical>)
    requires KeysDiffer(kept) && kept != []
    ensures KeysDiffer(kept[1..])
  {
  }

  lemma PutBehind(kept: seq<Canonical>, i: nat, c: Canonical, less: Less)
    requires KeysDiffer(kept) && 0 < i < |kept| && KeyOf(kept[i]) == KeyOf(c)
    ensures Put(kept, c, less) == [kept[0]] + Put(kept[1..], c, less)
  {
    hide KeyOf;
  }

  lemma {:induction false} PutOld(kept: seq<Canonical>, i: nat, c: Canonical, less: Less)
    requires KeysDiffer(kept) && i < |kept| && KeyOf(kept[i]) == KeyOf(c)
    ensures Put(kept, c, less) == if less(c, kept[i]) then kept[i := c] else kept
  {
    if i == 0 {
    } else {
      PutBehind(kept, i, c, less);
      hide *;
      KeysDifferBehind(kept);
      PutOld(kept[1..], i - 1, c, less);
      UpdateBehind(kept, i, c);
    }
  }

  lemma PutKeepsKeys(kept: seq<Canonical>, c: Canonical, less: Less)
    requires KeysDiffer(kept)
    ensures KeysDiffer(Put(kept, c, less))
  {
    hide Put, KeyOf;
    if HasKey(kept, KeyOf(c)) {
      var i :| 0 <= i < |kept| && KeyOf(kept[i]) == KeyOf(c);
      PutOld(kept, i, c, less);
    } else {
      PutNew(kept, c, less);
    }
  }

  /** The Map: its keys in insertion order, and its values. */
  ghost predicate Holds(keys: seq<Key>, values: map<Key, Canonical>, kept: seq<Canonical>) {
    |keys| == |kept| && KeysDiffer(kept) && (forall k :: k in values <==> k in keys) &&
    forall i :: 0 <= i < |keys| ==> keys[i] == KeyOf(kept[i]) && values[keys[i]] == kept[i]
  }

  lemma SetNew(keys: seq<Key>, values: map<Key, Canonical>, kept: seq<Canonical>, c: Canonical, less: Less)
    requires Holds(keys, values, kept) && KeyOf(c) !in values
    ensures Holds(keys + [KeyOf(c)], values[KeyOf(c) := c], Put(kept, c, less))
  {
    assert !HasKey(kept, KeyOf(c)) by {
      assert forall i :: 0 <= i < |kept| ==> keys[i] == KeyOf(kept[i]) && keys[i] in values;
    }
    PutNew(kept, c, less);
  }

  lemma ReplaceHeld(keys: seq<Key>, values: map<Key, Canonical>, kept: seq<Canonical>, i: nat, c: Canonical)
    requires Holds(keys, values, kept) && i < |kept| && KeyOf(kept[i]) == KeyOf(c)
    ensures Holds(keys, values[KeyOf(c) := c], kept[i := c])
  {
    hide KeyOf;
    forall j | 0 <= j < |keys|
      ensures keys[j] == KeyOf(kept[i := c][j]) && values[KeyOf(c) := c][keys[j]] == kept[i := c][j]
    {
      assert keys[j] == KeyOf(kept[j]);
    }
  }

  lemma SetOld(keys: seq<Key>, values: map<Key, Canonical>, kept: seq<Canonical>, c: Canonical, less: Less)
    requires Holds(keys, values, kept) && KeyOf(c) in values
    ensures Holds(keys, if less(c, values[KeyOf(c)]) then values[KeyOf(c) := c] else values, Put(kept, c, less))
  {
    hide KeyOf, Put, Holds;
    var i := KeyStands(keys, values, kept, KeyOf(c));
    PutOld(kept, i, c, less);
    ReplaceHeld(keys, values, kept, i, c);
  }

  lemma KeyStands(keys: seq<Key>, values: map<Key, Canonical>, kept: seq<Canonical>, key: Key) returns (i: nat)
    requires Holds(keys, values, kept) && key in values
    ensures i < |kept| && KeyOf(kept[i]) == key && values[key] == kept[i] && KeysDiffer(kept)
  {
    i :| i < |keys| && keys[i] == key;
  }

  /** The Map loop of canonicalTaxIdentifiers. */
  method CollectUnique(customer: Customer, ids: seq<Identifier>, normalize: string -> string, less: Less)
    returns (kept: seq<Canonical>)
    ensures kept == Unique(Canonicals(customer, ids, normalize), less)
  {
    hide Holds, Put, CanonicalTaxIdentifier;
    var keys: seq<Key>, values: map<Key, Canonical> := [], map[];
    ghost var cs := Canonicals(customer, ids, normalize);
    NothingHeld();
    for i := 0 to |ids|
      invariant Holds(keys, values, Unique(cs[..i], less))
    {
      var canonical := CanonicalTaxIdentifier(customer, ids[i], normalize);
      var key := KeyOf(canonical);
      assert cs[..i + 1][..i] == cs[..i];
      if key !in values {
        SetNew(keys, values, Unique(cs[..i], less), canonical, less);
        keys := keys + [key];
        values := values[key := canonical];
      } else {
        SetOld(keys, values, Unique(cs[..i], less), canonical, less);
        if less(canonical, values[key]) { values := values[key := canonical]; }
      }
    }
    assert cs[..|ids|] == cs;
    HeldValues(keys, values, Unique(cs, less));
    kept := seq(|keys|, i requires 0 <= i < |keys| => values[keys[i]]);
  }

  lemma NothingHeld()
    ensures Holds([], map[], [])
  {
  }

  lemma HeldValues(keys: seq<Key>, values: map<Key, Canonical>, kept: seq<Canonical>)
    requires Holds(keys, values, kept)
    ensures |keys| == |kept| && forall i :: 0 <= i < |keys| ==> keys[i] in values && values[keys[i]] == kept[i]
  {
  }

  method CollectCanonical(customer: Customer, ids: seq<Identifier>, normalize: string -> string, less: Less,
      collate: Less) returns (r: seq<Canonical>)
    ensures r == CanonicalTaxIdentifiers(customer, ids, normalize, less, collate)
  {
    var kept := CollectUnique(customer, ids, normalize, less);
    r := ToSorted(kept, collate);
  }

  // ---------- What is kept ----------

  /** `<` on the texts of the identifiers: texts differ where identifiers do. */
  ghost predicate StrictOrderOn(less: Less, cs: seq<Canonical>) {
    (forall x, y :: x in cs && y in cs ==> (less(x, y) || less(y, x) || x == y) && !(less(x, y) && less(y, x))) &&
    forall x, y, z :: x in cs && y in cs && z in cs && less(x, y) && less(y, z) ==> less(x, z)
  }

  /** The least of its key. */
  ghost predicate LeastOfKey(x: Canonical, cs: seq<Canonical>, less: Less) {
    x in cs && forall y :: y in cs && KeyOf(y) == KeyOf(x) ==> !less(y, x)
  }

  lemma LeastGrows(x: Canonical, before: seq<Canonical>, c: Canonical, less: Less)
    ensures LeastOfKey(x, before + [c], less) <==>
            if x == c then !less(c, c) && forall y :: y in before && KeyOf(y) == KeyOf(c) ==> !less(y, c)
            else LeastOfKey(x, before, less) && !(KeyOf(c) == KeyOf(x) && less(c, x))
  {
    var cs := before + [c];
    assert forall y :: y in cs <==> y in before || y == c;
  }

  lemma PrefixIsOrdered(less: Less, cs: seq<Canonical>, n: nat)
    requires n <= |cs| && StrictOrderOn(less, cs)
    ensures StrictOrderOn(less, cs[..n])
  {
    assert forall x :: x in cs[..n] ==> x in cs;
  }

  /** Whatever the order of the input, what is kept is the least identifier of each key. */
  lemma {:induction false} UniqueIsLeast(cs: seq<Canonical>, less: Less)
    requires StrictOrderOn(less, cs)
    ensures KeysDiffer(Unique(cs, less))
    ensures forall x :: x in Unique(cs, less) <==> LeastOfKey(x, cs, less)
    ensures forall y :: y in cs ==> HasKey(Unique(cs, less), KeyOf(y))
  {
    if cs == [] {
    } else {
      var n := |cs| - 1;
      PrefixIsOrdered(less, cs, n);
      UniqueIsLeast(cs[..n], less);
      assert cs == cs[..n] + [cs[n]];
      PutIsLeast(cs[..n], Unique(cs[..n], less), cs[n], less);
    }
  }

  /** One of its key: members of `kept` with one key are one. */
  lemma SameKeyIsSame(kept: seq<Canonical>, i: nat, x: Canonical)
    requires KeysDiffer(kept) && i < |kept| && x in kept && KeyOf(x) == KeyOf(kept[i])
    ensures x == kept[i]
  {
    var j :| 0 <= j < |kept| && kept[j] == x;
  }

  lemma InReplaced(kept: seq<Canonical>, i: nat, c: Canonical, x: Canonical)
    requires KeysDiffer(kept) && i < |kept| && KeyOf(c) == KeyOf(kept[i])
    ensures x in kept[i := c] <==> x == c || (x in kept && x != kept[i])
  {
    var after := kept[i := c];
    assert after[i] == c;
    if x in kept && x != kept[i] {
      var j :| 0 <= j < |kept| && kept[j] == x;
      assert after[j] == x;
    }
    if x in after && x != c {
      var j :| 0 <= j < |after| && after[j] == x;
      assert kept[j] == x && j != i;
    }
  }

  lemma LeastIn(x: Canonical, before: seq<Canonical>, kept: seq<Canonical>, c: Canonical, less: Less)
    requires StrictOrderOn(less, before + [c]) && KeysDiffer(kept)
    requires forall x :: x in kept <==> LeastOfKey(x, before, less)
    requires forall y :: y in before ==> HasKey(kept, KeyOf(y))
    ensures x in Put(kept, c, less) <==> LeastOfKey(x, before + [c], less)
  {
    LeastGrows(x, before, c, less);
    assert c in before + [c] && forall y :: y in before ==> y in before + [c];
    if HasKey(kept, KeyOf(c)) {
      var i :| 0 <= i < |kept| && KeyOf(kept[i]) == KeyOf(c);
      var m := kept[i];
      PutOld(kept, i, c, less);
      InReplaced(kept, i, c, x);
      assert m in kept && LeastOfKey(m, before, less);
      if x in kept && KeyOf(x) == KeyOf(c) { SameKeyIsSame(kept, i, x); }
    } else {
      PutNew(kept, c, less);
    }
  }

  lemma PutIsLeast(before: seq<Canonical>, kept: seq<Canonical>, c: Canonical, less: Less)
    requires StrictOrderOn(less, before + [c]) && KeysDiffer(kept)
    requires forall x :: x in kept <==> LeastOfKey(x, before, less)
    requires forall y :: y in before ==> HasKey(kept, KeyOf(y))
    ensures KeysDiffer(Put(kept, c, less))
    ensures forall x :: x in Put(kept, c, less) <==> LeastOfKey(x, before + [c], less)
    ensures forall y :: y in before + [c] ==> HasKey(Put(kept, c, less), KeyOf(y))
  {
    PutKeepsKeys(kept, c, less);
    forall x
      ensures x in Put(kept, c, less) <==> LeastOfKey(x, before + [c], less)
    {
      LeastIn(x, before, kept, c, less);
    }
    forall y | y in before + [c]
      ensures HasKey(Put(kept, c, less), KeyOf(y))
    {
      PutHasKeys(kept, c, less, KeyOf(y));
    }
  }

  lemma PutHasKeys(kept: seq<Canonical>, c: Canonical, less: Less, key: Key)
    requires KeysDiffer(kept)
    ensures HasKey(Put(kept, c, less), key) <==> HasKey(kept, key) || key == KeyOf(c)
  {
    var after := Put(kept, c, less);
    if HasKey(kept, KeyOf(c)) {
      var i :| 0 <= i < |kept| && KeyOf(kept[i]) == KeyOf(c);
      PutOld(kept, i, c, less);
      assert |after| == |kept| && forall j :: 0 <= j < |kept| ==> KeyOf(after[j]) == KeyOf(kept[j]);
    } else {
      PutNew(kept, c, less);
      assert after[|kept|] == c && forall j :: 0 <= j < |kept| ==> after[j] == kept[j];
    }
  }

  // ---------- The order of the input is forgotten ----------

  lemma {:induction false} DistinctCountsOnce(kept: seq<Canonical>)
    requires KeysDiffer(kept)
    ensures forall x :: multiset(kept)[x] == if x in kept then 1 else 0
  {
    if kept == [] {
    } else {
      var last := |kept| - 1;
      assert kept == kept[..last] + [kept[last]];
      assert KeysDiffer(kept[..last]);
      DistinctCountsOnce(kept[..last]);
      assert kept[last] !in kept[..last];
    }
  }

  lemma SameMembersSameBag(a: seq<Canonical>, b: seq<Canonical>)
    requires KeysDiffer(a) && KeysDiffer(b) && forall x :: x in a <==> x in b
    ensures multiset(a) == multiset(b)
  {
    DistinctCountsOnce(a);
    DistinctCountsOnce(b);
  }

  /** The texts compare in a total order, also by the locale. */
  ghost predicate Ordered(cs: seq<Canonical>, less: Less, collate: Less) {
    StrictOrderOn(less, cs) && TotalPreorderOn(collate, cs) && AntisymmetricOn(collate, cs)
  }

  ghost predicate SameIdentifiers(a: seq<Identifier>, b: seq<Identifier>) {
    forall id :: id in a <==> id in b
  }

  lemma SameCanonicals(customer: Customer, a: seq<Identifier>, b: seq<Identifier>, normalize: string -> string)
    requires SameIdentifiers(a, b)
    ensures forall x :: x in Canonicals(customer, a, normalize) <==> x in Canonicals(customer, b, normalize)
  {
    forall x
      ensures x in Canonicals(customer, a, normalize) <==> x in Canonicals(customer, b, normalize)
    {
      MemberOf(customer, a, normalize, x);
      MemberOf(customer, b, normalize, x);
    }
  }

  lemma MemberOf(customer: Customer, ids: seq<Identifier>, normalize: string -> string, x: Canonical)
    ensures x in Canonicals(customer, ids, normalize) <==>
            exists id :: id in ids && CanonicalTaxIdentifier(customer, id, normalize) == x
  {
    var cs := Canonicals(customer, ids, normalize);
    if x in cs {
      var i :| 0 <= i < |cs| && cs[i] == x;
      assert ids[i] in ids;
    }
    if exists id :: id in ids && CanonicalTaxIdentifier(customer, id, normalize) == x {
      var id :| id in ids && CanonicalTaxIdentifier(customer, id, normalize) == x;
      var i :| 0 <= i < |ids| && ids[i] == id;
      assert cs[i] == x;
    }
  }

  lemma SameUnique(cs: seq<Canonical>, ds: seq<Canonical>, less: Less)
    requires StrictOrderOn(less, cs) && forall x :: x in cs <==> x in ds
    ensures multiset(Unique(cs, less)) == multiset(Unique(ds, less))
    ensures forall x :: x in Unique(cs, less) ==> x in cs
  {
    assert StrictOrderOn(less, ds);
    UniqueIsLeast(cs, less);
    UniqueIsLeast(ds, less);
    assert forall x :: LeastOfKey(x, cs, less) <==> LeastOfKey(x, ds, less);
    SameMembersSameBag(Unique(cs, less), Unique(ds, less));
  }

  lemma OrderedWithin(cs: seq<Canonical>, some: seq<Canonical>, collate: Less)
    requires TotalPreorderOn(collate, cs) && AntisymmetricOn(collate, cs) && forall x :: x in some ==> x in cs
    ensures TotalPreorderOn(collate, some) && AntisymmetricOn(collate, some)
  {
  }

  /** The canonical list depends only on which identifiers there are: not on their order, nor on
      how often one is repeated. */
  lemma CanonicalListForgetsOrder(customer: Customer, a: seq<Identifier>, b: seq<Identifier>,
      normalize: string -> string, less: Less, collate: Less)
    requires SameIdentifiers(a, b) && Ordered(Canonicals(customer, a, normalize), less, collate)
    ensures CanonicalTaxIdentifiers(customer, a, normalize, less, collate) ==
            CanonicalTaxIdentifiers(customer, b, normalize, less, collate)
  {
    hide Unique, StrictOrderOn, TotalPreorderOn, AntisymmetricOn, Canonicals;
    var cs, ds := Canonicals(customer, a, normalize), Canonicals(customer, b, normalize);
    SameCanonicals(customer, a, b, normalize);
    SameUnique(cs, ds, less);
    OrderedWithin(cs, Unique(cs, less), collate);
    SortForgetsOrder(Unique(cs, less), Unique(ds, less), collate);
  }

  // ---------- The customer's identity ----------

  datatype Confidence = TAX_ID | EXACT_PROFILE | AMBIGUOUS

  datatype PrimaryTaxId = PrimaryTaxId(kind: TaxType, value: string, countryCode: Option<string>)

  datatype MatchKey =
    | TaxKey(kind: TaxType, countryCode: string, value: string) | ProfileKey(profile: string) | OrderKey(order: string)

  datatype Identity = Identity(matchKey: MatchKey, confidence: Confidence, reviewRequired: bool,
      primaryTaxId: Option<PrimaryTaxId>)

  /** identifierOrder.indexOf(type) */
  function Rank(kind: CustomerKind, t: TaxType): nat {
    if t == ALTRO then 2 else if (kind == BUSINESS_IT) == (t == PARTITA_IVA) then 0 else 1
  }

  /** By rank, then by text. */
  predicate RankedBefore(kind: CustomerKind, collate: Less, x: Canonical, y: Canonical) {
    Rank(kind, x.kind) < Rank(kind, y.kind) || (Rank(kind, x.kind) == Rank(kind, y.kind) && collate(x, y))
  }

  function Ranked(kind: CustomerKind, collate: Less): Less {
    (x, y) => RankedBefore(kind, collate, x, y)
  }

  predicate ValidTaxId(kind: TaxType, value: string, italianFormat: bool) {
    match kind
    case CODICE_FISCALE => if italianFormat then IsFiscalCode(value) else |value| >= 2
    case PARTITA_IVA => if italianFormat then IsVatNumber(value) else |value| >= 2
    case ALTRO => |value| >= 2
  }

  /** Whether the loop stops at this identifier. */
  predicate Usable(customer: Customer, c: Canonical, normalize: string -> string) {
    var italian := IsItalianTaxIdentifier(customer, c.kind, c.value, c.countryCode, normalize);
    var needsCountry := c.kind == ALTRO || !italian;
    !(needsCountry && (c.countryCode == None || c.countryCode == Some(""))) &&
    ValidTaxId(c.kind, c.value, RequiresItalianTaxFormat(customer, c.countryCode))
  }

  predicate Foreign(kind: CustomerKind) {
    kind in {EU, NON_EU}
  }

  predicate Expected(kind: CustomerKind, t: TaxType) {
    match kind
    case PRIVATE_IT => t == CODICE_FISCALE
    case BUSINESS_IT => t == PARTITA_IVA
    case _ => Foreign(kind)
  }

  predicate ProfileComplete(customer: Customer) {
    customer.addressComplete && customer.nameComplete
  }

  function TaxIdentityOf(customer: Customer, c: Canonical): Identity {
    Identity(TaxKey(c.kind, if c.countryCode.Some? then c.countryCode.value else "", c.value), TAX_ID,
             !Expected(customer.kind, c.kind) || !ProfileComplete(customer),
             Some(PrimaryTaxId(c.kind, c.value, c.countryCode)))
  }

  function ProfileIdentity(customer: Customer): Identity {
    if ProfileComplete(customer) && customer.hasEmail then
      Identity(ProfileKey(customer.profile), EXACT_PROFILE, !Foreign(customer.kind), None)
    else
      Identity(OrderKey(customer.order), AMBIGUOUS, true, None)
  }

  /** The order in which the loop meets the identifiers. */
  function Candidates(customer: Customer, ids: seq<Identifier>, normalize: string -> string, less: Less,
      collate: Less): seq<Canonical> {
    ToSorted(CanonicalTaxIdentifiers(customer, ids, normalize, less, collate), Ranked(customer.kind, collate))
  }

  function FirstUsable(customer: Customer, candidates: seq<Canonical>, normalize: string -> string): Identity {
    if candidates == [] then ProfileIdentity(customer)
    else if Usable(customer, candidates[0], normalize) then TaxIdentityOf(customer, candidates[0])
    else FirstUsable(customer, candidates[1..], normalize)
  }

  function CustomerIdentity(customer: Customer, ids: seq<Identifier>, normalize: string -> string, less: Less,
      collate: Less): Identity {
    FirstUsable(customer, Candidates(customer, ids, normalize, less, collate), normalize)
  }

  method FindCustomerIdentity(customer: Customer, ids: seq<Identifier>, normalize: string -> string, less: Less,
      collate: Less) returns (r: Identity)
    ensures r == CustomerIdentity(customer, ids, normalize, less, collate)
  {
    var identifiers := CollectCanonical(customer, ids, normalize, less, collate);
    identifiers := ToSorted(identifiers, Ranked(customer.kind, collate));
    for i := 0 to |identifiers|
      invariant FirstUsable(customer, identifiers, normalize) == FirstUsable(customer, identifiers[i..], normalize)
    {
      if Usable(customer, identifiers[i], normalize) { return TaxIdentityOf(customer, identifiers[i]); }
    }
    return ProfileIdentity(customer);
  }

  /** So does everything that is derived from it: key, confidence, review and primary id. */
  lemma IdentityForgetsOrder(customer: Customer, a: seq<Identifier>, b: seq<Identifier>,
      normalize: string -> string, less: Less, collate: Less)
    requires SameIdentifiers(a, b) && Ordered(Canonicals(customer, a, normalize), less, collate)
    ensures CustomerIdentity(customer, a, normalize, less, collate) ==
            CustomerIdentity(customer, b, normalize, less, collate)
  {
    CanonicalListForgetsOrder(customer, a, b, normalize, less, collate);
  }

  // ---------- Which identifier is chosen ----------

  lemma RankedIsTotal(cs: seq<Canonical>, kind: CustomerKind, collate: Less)
    requires TotalPreorderOn(collate, cs)
    ensures TotalPreorderOn(Ranked(kind, collate), cs)
  {
  }

  lemma {:induction false} FirstUsableIsLeast(customer: Customer, candidates: seq<Canonical>,
      normalize: string -> string, le: Less) returns (least: Option<Canonical>)
    requires Sorted(candidates, le) && forall x <- candidates :: le(x, x)
    ensures least.Some? ==> least.value in candidates && Usable(customer, least.value, normalize)
    ensures least.Some? ==> forall y <- candidates :: Usable(customer, y, normalize) ==> le(least.value, y)
    ensures least.None? ==> forall y <- candidates :: !Usable(customer, y, normalize)
    ensures FirstUsable(customer, candidates, normalize)
         == if least.Some? then TaxIdentityOf(customer, least.value) else ProfileIdentity(customer)
  {
    if candidates == [] {
      least := None;
    } else if Usable(customer, candidates[0], normalize) {
      least := Some(candidates[0]);
    } else {
      least := FirstUsableIsLeast(customer, candidates[1..], normalize, le);
    }
  }

  lemma CandidatesAre(customer: Customer, ids: seq<Identifier>, normalize: string -> string, less: Less, collate: Less)
    requires Ordered(Canonicals(customer, ids, normalize), less, collate)
    ensures forall x :: x in Candidates(customer, ids, normalize, less, collate) <==>
                        LeastOfKey(x, Canonicals(customer, ids, normalize), less)
    ensures Sorted(Candidates(customer, ids, normalize, less, collate), Ranked(customer.kind, collate))
    ensures forall x <- Candidates(customer, ids, normalize, less, collate) :: Ranked(customer.kind, collate)(x, x)
  {
    hide Unique, StrictOrderOn, AntisymmetricOn, Canonicals, LeastOfKey, Sorted, ToSorted, Ranked;
    var cs := Canonicals(customer, ids, normalize);
    var kept := Unique(cs, less);
    var first := ToSorted(kept, collate);
    var order := Ranked(customer.kind, collate);
    UniqueIsLeast(cs, less);
    SameUnique(cs, cs, less);
    SortKeeps(kept, collate);
    SameMembers(kept, first);
    OrderedWithin(cs, first, collate);
    RankedIsTotal(first, customer.kind, collate);
    SortSorts(first, order);
    SortKeeps(first, order);
    SameMembers(first, ToSorted(first, order));
  }

  /** The customer is identified by the first, by rank and then by text, of the usable least
      identifiers of each key; and by profile or order exactly when none of those is usable. */
  lemma IdentityIsFirstUsable(customer: Customer, ids: seq<Identifier>, normalize: string -> string, less: Less,
      collate: Less) returns (chosen: Option<Canonical>)
    requires Ordered(Canonicals(customer, ids, normalize), less, collate)
    ensures var cs := Canonicals(customer, ids, normalize);
            match chosen
            case None => forall y :: LeastOfKey(y, cs, less) ==> !Usable(customer, y, normalize)
            case Some(x) => LeastOfKey(x, cs, less) && Usable(customer, x, normalize) &&
                            forall y :: LeastOfKey(y, cs, less) && Usable(customer, y, normalize) ==>
                                        RankedBefore(customer.kind, collate, x, y)
    ensures CustomerIdentity(customer, ids, normalize, less, collate)
         == if chosen.Some? then TaxIdentityOf(customer, chosen.value) else ProfileIdentity(customer)
  {
    hide Unique, StrictOrderOn, AntisymmetricOn, Canonicals, LeastOfKey, Usable, Candidates, Sorted, RankedBefore,
        Ordered;
    CandidatesAre(customer, ids, normalize, less, collate);
    chosen := FirstUsableIsLeast(customer, Candidates(customer, ids, normalize, less, collate), normalize,
        Ranked(customer.kind, collate));
  }
}
