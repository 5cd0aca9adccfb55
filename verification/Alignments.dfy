/** Source changes that may be accepted without a person (src/order-source-alignment.ts). */
module Alignments {
  import opened Options
  import opened Numerals
  import opened SnapshotJson

  type Snapshot = map<string, Json>

  function Get(fields: map<string, Json>, key: string): Json {
    if key in fields then fields[key] else Undefined
  }

  /** record(): the value as an object, or null. */
  function RecordOf(value: Json): Option<map<string, Json>> {
    if value.Obj? then Some(value.fields) else None
  }

  function GetMaybe(record: Option<map<string, Json>>, key: string): Json {
    if record.Some? then Get(record.value, key) else Undefined
  }

  /** The === of JavaScript between values of two snapshots, which share no object. */
  predicate StrictlyEqual(a: Json, b: Json) {
    a == b && !a.Arr? && !a.Obj?
  }

  function WithStableDefaults(snapshot: Snapshot): Snapshot {
    if "sourceIdentityIds" in snapshot then snapshot else snapshot["sourceIdentityIds" := Arr([])]
  }

  function Without(snapshot: Snapshot, keys: set<string>): Snapshot {
    map key | key in snapshot && key !in keys :: snapshot[key]
  }

  predicate FromEbay(previous: Snapshot, current: Snapshot) {
    Get(previous, "provider") == Str("EBAY") && Get(current, "provider") == Str("EBAY")
  }

  // ---------- E-mail ----------

  function CanonicalEmail(snapshot: Snapshot): Json {
    var customer := RecordOf(Get(snapshot, "customerSnapshot"));
    var email := GetMaybe(RecordOf(GetMaybe(customer, "canonicalProfile")), "email");
    if email == Undefined || email == Null then GetMaybe(customer, "email") else email
  }

  predicate IsEbayEmailOnlyChange(previous: Snapshot, current: Snapshot) {
    FromEbay(previous, current) && CanonicalEmail(previous) != CanonicalEmail(current) &&
    WithoutEmailEvidence(Obj(WithStableDefaults(previous))) == WithoutEmailEvidence(Obj(WithStableDefaults(current)))
  }

  /** An e-mail-only change is a change of the e-mail between snapshots that, stable defaults
      filled in, read the same along every path through no e-mail evidence. */
  lemma EmailOnlyChangesNothingElse(previous: Snapshot, current: Snapshot)
    ensures IsEbayEmailOnlyChange(previous, current) <==>
            FromEbay(previous, current) && CanonicalEmail(previous) != CanonicalEmail(current) &&
            AgreeOutside(Obj(WithStableDefaults(previous)), Obj(WithStableDefaults(current)), EMAIL_EVIDENCE)
  {
    ErasureIsAgreement(Obj(WithStableDefaults(previous)), Obj(WithStableDefaults(current)));
  }

  // ---------- Fulfilment ----------

  /** String(value). */
  function TextOf(value: Json): string {
    match value
    case Undefined => "undefined"
    case Null => "null"
    case Bool(b) => if b then "true" else "false"
    case Number(n) => if n < 0 then "-" + Decimal(-n) else Decimal(n)
    case Str(s) => s
    case Arr(items) => JoinTexts(items)
    case Obj(_) => "[object Object]"
  }

  /** Array.prototype.join: null and undefined items leave no text. */
  function JoinTexts(items: seq<Json>): string {
    if items == [] then ""
    else
      var head := if items[0] == Undefined || items[0] == Null then "" else TextOf(items[0]);
      if |items| == 1 then head else head + "," + JoinTexts(items[1..])
  }

  /** Names every object inherits; looking one up gives no number. */
  const INHERITED: set<string> := {
    "constructor", "__defineGetter__", "__defineSetter__", "hasOwnProperty", "__lookupGetter__", "__lookupSetter__",
    "isPrototypeOf", "propertyIsEnumerable", "toString", "valueOf", "__proto__", "toLocaleString"}

  /** The rank of a status, -1 if unknown; None compares with nothing. */
  function FulfillmentRank(status: Json): Option<int> {
    var text := TextOf(status);
    if text == "UNFULFILLED" then Some(0)
    else if text == "PARTIAL" then Some(1)
    else if text == "FULFILLED" then Some(2)
    else if text in INHERITED then None
    else Some(-1)
  }

  const FULFILLMENT_EVIDENCE: set<string> :=
    {"fulfillmentStatus", "reviewFingerprint", "sourceConflictRequired", "sourceSnapshot", "updatedAt"}

  function WithoutFulfillmentEvidence(snapshot: Snapshot): Json {
    NormalizeJsonValue(Obj(Without(WithStableDefaults(snapshot), FULFILLMENT_EVIDENCE)))
  }

  predicate Advances(previous: Json, current: Json) {
    var before, after := FulfillmentRank(previous), FulfillmentRank(current);
    before.Some? && after.Some? && after.value > before.value
  }

  predicate IsFulfillmentOnlyChange(previous: Snapshot, current: Snapshot) {
    StrictlyEqual(Get(previous, "provider"), Get(current, "provider")) &&
    TextOf(Get(previous, "provider")) in {"SHOPIFY", "EBAY"} &&
    Advances(Get(previous, "fulfillmentStatus"), Get(current, "fulfillmentStatus")) &&
    WithoutFulfillmentEvidence(previous) == WithoutFulfillmentEvidence(current)
  }

  /** Each snapshot of the chain is a fulfilment-only change of the one before. */
  predicate FulfillmentChain(chain: seq<Snapshot>) {
    forall i :: 0 < i < |chain| ==> IsFulfillmentOnlyChange(chain[i - 1], chain[i])
  }

  lemma FulfillmentIsStrictOrder(a: Snapshot, b: Snapshot, c: Snapshot)
    ensures !IsFulfillmentOnlyChange(a, a)
    ensures IsFulfillmentOnlyChange(a, b) && IsFulfillmentOnlyChange(b, c) ==> IsFulfillmentOnlyChange(a, c)
  {
    hide TextOf, INHERITED;
  }

  lemma {:induction false} ChainRanksRise(chain: seq<Snapshot>, i: nat)
    requires FulfillmentChain(chain) && i < |chain| && |chain| >= 2
    ensures FulfillmentRank(Get(chain[i], "fulfillmentStatus")).Some?
    ensures FulfillmentRank(Get(chain[i], "fulfillmentStatus")).value >= i - 1
  {
    if i > 0 {
      ChainRanksRise(chain, i - 1);
      assert IsFulfillmentOnlyChange(chain[i - 1], chain[i]);
    } else {
      assert IsFulfillmentOnlyChange(chain[0], chain[1]);
    }
  }

  /** There are never more than three such changes in a row. */
  lemma FulfillmentChainsAreShort(chain: seq<Snapshot>)
    requires FulfillmentChain(chain)
    ensures |chain| <= 4
  {
    if |chain| > 4 {
      ChainRanksRise(chain, 4);
    }
  }
}
