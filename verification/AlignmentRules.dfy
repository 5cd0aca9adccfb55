/**
 The alignments said by what is in the two snapshots: by paths, by keys, and by the statuses
 themselves (src/order-source-alignment.ts).
 */
module AlignmentRules {
  import opened Options
  import opened Numerals
  import opened SnapshotJson
  import opened Alignments
  import opened RefundAlignment

  /** A snapshot spread over its defaults. */
  function Stable(snapshot: Snapshot): Snapshot {
    map["sourceIdentityIds" := Arr([])] + snapshot
  }

  lemma StableIs(snapshot: Snapshot)
    ensures WithStableDefaults(snapshot) == Stable(snapshot)
  {
  }

  /** What stands below an object along some keys. */
  function Below(value: Json, keys: seq<string>): Json
    decreases |keys|
  {
    if keys == [] then value
    else if value.Obj? && keys[0] in value.fields then Below(value.fields[keys[0]], keys[1..])
    else Undefined
  }

  function Under(snapshot: Snapshot, keys: seq<string>): Json {
    Below(Obj(snapshot), keys)
  }

  lemma BelowFirst(value: Json, key: string, rest: seq<string>)
    ensures Below(value, []) == value
    ensures Below(value, [key] + rest) == Below(GetMaybe(RecordOf(value), key), rest)
    decreases |rest|
  {
    assert ([key] + rest)[1..] == rest;
    UndefinedHoldsNothing(rest);
  }

  lemma UndefinedHoldsNothing(keys: seq<string>)
    ensures Below(Undefined, keys) == Undefined
  {
  }

  lemma UnderOne(snapshot: Snapshot, key: string)
    ensures Under(snapshot, [key]) == Get(snapshot, key)
  {
    BelowFirst(Obj(snapshot), key, []);
    BelowFirst(Get(snapshot, key), key, []);
    assert [key] + [] == [key];
  }

  lemma UnderTwo(snapshot: Snapshot, a: string, b: string)
    ensures Under(snapshot, [a, b]) == GetMaybe(RecordOf(Get(snapshot, a)), b)
  {
    BelowFirst(Obj(snapshot), a, [b]);
    BelowFirst(Get(snapshot, a), b, []);
    BelowFirst(GetMaybe(RecordOf(Get(snapshot, a)), b), b, []);
    assert [a] + [b] == [a, b] && [b] + [] == [b];
  }

  lemma UnderThree(snapshot: Snapshot, a: string, b: string, c: string)
    ensures Under(snapshot, [a, b, c]) == GetMaybe(RecordOf(GetMaybe(RecordOf(Get(snapshot, a)), b)), c)
  {
    BelowFirst(Obj(snapshot), a, [b, c]);
    var first := GetMaybe(RecordOf(Obj(snapshot)), a);
    BelowFirst(first, b, [c]);
    var second := GetMaybe(RecordOf(first), b);
    BelowFirst(second, c, []);
    BelowFirst(GetMaybe(RecordOf(second), c), c, []);
    assert [a] + [b, c] == [a, b, c] && [b] + [c] == [b, c] && [c] + [] == [c];
  }

  // ---------- E-mail ----------

  /** The profile's e-mail, or else the customer's. */
  function Email(snapshot: Snapshot): Json {
    var own := Under(snapshot, ["customerSnapshot", "canonicalProfile", "email"]);
    if own.Undefined? || own.Null? then Under(snapshot, ["customerSnapshot", "email"]) else own
  }

  /** Between eBay snapshots the e-mail changes, and nothing that is read along a path through no
      "email" and no "reviewFingerprint". */
  lemma EmailOnlyIff(previous: Snapshot, current: Snapshot)
    ensures IsEbayEmailOnlyChange(previous, current) <==>
            Under(previous, ["provider"]) == Str("EBAY") && Under(current, ["provider"]) == Str("EBAY") &&
            Email(previous) != Email(current) &&
            AgreeOutside(Obj(Stable(previous)), Obj(Stable(current)), {"email", "reviewFingerprint"})
  {
    hide Under, WithStableDefaults;
    forall snapshot | snapshot in {previous, current}
      ensures CanonicalEmail(snapshot) == Email(snapshot) && WithStableDefaults(snapshot) == Stable(snapshot)
      ensures Under(snapshot, ["provider"]) == Get(snapshot, "provider")
    {
      UnderOne(snapshot, "provider");
      UnderTwo(snapshot, "customerSnapshot", "email");
      UnderThree(snapshot, "customerSnapshot", "canonicalProfile", "email");
      StableIs(snapshot);
    }
    EmailOnlyChangesNothingElse(previous, current);
  }

  // ---------- All but some keys ----------

  /** On every other key the two snapshots are alike. */
  ghost predicate SameBut(a: Snapshot, b: Snapshot, keys: set<string>) {
    forall key :: key !in keys ==> AlikeAsText(Get(a, key), Get(b, key))
  }

  lemma NormalIsUndefined(value: Json)
    ensures NormalizeJsonValue(value) == Undefined <==> value == Undefined
  {
  }

  lemma NormalFieldsAre(a: Snapshot, keys: set<string>, key: string)
    ensures NormalizeJsonValue(Obj(Without(a, keys))).Obj?
    ensures Get(NormalizeJsonValue(Obj(Without(a, keys))).fields, key) ==
            if key in keys then Undefined else NormalizeJsonValue(Get(a, key))
    ensures key in NormalizeJsonValue(Obj(Without(a, keys))).fields ==>
              NormalizeJsonValue(Obj(Without(a, keys))).fields[key] != Undefined
  {
    NormalIsUndefined(Get(a, key));
  }

  lemma NormalWithout(a: Snapshot, b: Snapshot, keys: set<string>)
    ensures NormalizeJsonValue(Obj(Without(a, keys))) == NormalizeJsonValue(Obj(Without(b, keys))) <==>
            SameBut(a, b, keys)
  {
    hide NormalizeJsonValue, Without, AlikeAsText;
    var x, y := NormalizeJsonValue(Obj(Without(a, keys))), NormalizeJsonValue(Obj(Without(b, keys)));
    NormalFieldsAre(a, keys, "");
    NormalFieldsAre(b, keys, "");
    forall key
      ensures Get(x.fields, key) == if key in keys then Undefined else NormalizeJsonValue(Get(a, key))
      ensures Get(y.fields, key) == if key in keys then Undefined else NormalizeJsonValue(Get(b, key))
      ensures key in x.fields <==> Get(x.fields, key) != Undefined
      ensures key in y.fields <==> Get(y.fields, key) != Undefined
      ensures NormalizeJsonValue(Get(a, key)) == NormalizeJsonValue(Get(b, key)) <==>
              AlikeAsText(Get(a, key), Get(b, key))
    {
      NormalizationIsAgreement(Get(a, key), Get(b, key));
      NormalFieldsAre(a, keys, key);
      NormalFieldsAre(b, keys, key);
    }
    if SameBut(a, b, keys) {
      forall key
        ensures key in x.fields <==> key in y.fields
        ensures key in x.fields ==> x.fields[key] == y.fields[key]
      {
        assert Get(x.fields, key) == Get(y.fields, key);
      }
      assert x.fields == y.fields;
    }
    if x == y {
      forall key | key !in keys
        ensures AlikeAsText(Get(a, key), Get(b, key))
      {
        assert Get(x.fields, key) == Get(y.fields, key);
      }
    }
  }

  // ---------- Fulfilment ----------

  const STAGES := ["UNFULFILLED", "PARTIAL", "FULFILLED"]

  /** The names under which every object finds something it was not given. */
  const OBJECT_NAMES := [
    "toString", "valueOf", "constructor", "hasOwnProperty", "isPrototypeOf", "propertyIsEnumerable",
    "toLocaleString", "__proto__", "__defineGetter__", "__defineSetter__", "__lookupGetter__", "__lookupSetter__"]

  /** The later text is a stage, and the earlier one neither it nor a later stage. */
  ghost predicate MovesOn(before: string, after: string) {
    before !in OBJECT_NAMES &&
    exists j :: 0 <= j < 3 && after == STAGES[j] && forall i :: j <= i < 3 ==> before != STAGES[i]
  }

  lemma StagesDiffer()
    ensures STAGES[0] != STAGES[1] && STAGES[1] != STAGES[2] && STAGES[0] != STAGES[2]
    ensures forall i :: 0 <= i < 3 ==> STAGES[i] !in INHERITED
  {
    assert STAGES[0][0] == 'U' && STAGES[1][0] == 'P' && STAGES[2][0] == 'F';
    assert forall name <- INHERITED :: name[0] !in {'U', 'P', 'F'};
  }

  lemma InheritedAreListed(text: string)
    ensures text in INHERITED <==> text in OBJECT_NAMES
  {
    assert forall i :: 0 <= i < |OBJECT_NAMES| ==> OBJECT_NAMES[i] in INHERITED;
    assert OBJECT_NAMES[0] == "toString" && OBJECT_NAMES[1] == "valueOf" && OBJECT_NAMES[2] == "constructor";
    assert OBJECT_NAMES[3] == "hasOwnProperty" && OBJECT_NAMES[4] == "isPrototypeOf";
    assert OBJECT_NAMES[5] == "propertyIsEnumerable" && OBJECT_NAMES[6] == "toLocaleString";
    assert OBJECT_NAMES[7] == "__proto__" && OBJECT_NAMES[8] == "__defineGetter__";
    assert OBJECT_NAMES[9] == "__defineSetter__" && OBJECT_NAMES[10] == "__lookupGetter__";
    assert OBJECT_NAMES[11] == "__lookupSetter__";
  }

  lemma RankIsStage(value: Json)
    ensures forall i :: 0 <= i < 3 ==> (FulfillmentRank(value) == Some(i) <==> TextOf(value) == STAGES[i])
    ensures FulfillmentRank(value) == None <==> TextOf(value) in OBJECT_NAMES
    ensures FulfillmentRank(value) in {None, Some(-1), Some(0), Some(1), Some(2)}
  {
    hide TextOf, INHERITED, OBJECT_NAMES;
    StagesDiffer();
    InheritedAreListed(TextOf(value));
  }

  lemma AdvancesIff(previous: Json, current: Json)
    ensures Advances(previous, current) <==> MovesOn(TextOf(previous), TextOf(current))
  {
    hide TextOf, FulfillmentRank, OBJECT_NAMES, INHERITED;
    RankIsStage(previous);
    RankIsStage(current);
    StagesDiffer();
    InheritedAreListed(TextOf(current));
  }

  /** A text of digits, of a truth value or of nothing is no provider. */
  lemma OnlyTextsAreProviders(value: Json, provider: string)
    requires provider in {"SHOPIFY", "EBAY"} && !value.Arr? && !value.Obj?
    ensures TextOf(value) == provider <==> value == Str(provider)
  {
    if value.Number? {
      var digits := Decimal(if value.number < 0 then -value.number else value.number);
      assert TextOf(value)[0] == if value.number < 0 then '-' else digits[0];
    }
    assert "undefined"[0] == 'u' && "null"[0] == 'n' && "true"[0] == 't' && "false"[0] == 'f';
  }

  /** Between snapshots of one of the two providers the fulfilment moves on, and nothing changes
      but the five keys that go with it. */
  lemma FulfillmentIff(previous: Snapshot, current: Snapshot)
    ensures IsFulfillmentOnlyChange(previous, current) <==>
            (exists provider :: provider in {"SHOPIFY", "EBAY"} &&
               Get(previous, "provider") == Str(provider) && Get(current, "provider") == Str(provider)) &&
            MovesOn(TextOf(Get(previous, "fulfillmentStatus")), TextOf(Get(current, "fulfillmentStatus"))) &&
            SameBut(Stable(previous), Stable(current),
                    {"fulfillmentStatus", "reviewFingerprint", "sourceConflictRequired", "sourceSnapshot", "updatedAt"})
  {
    hide TextOf, Advances, MovesOn, SameBut, NormalizeJsonValue, Without, WithStableDefaults;
    StableIs(previous);
    StableIs(current);
    AdvancesIff(Get(previous, "fulfillmentStatus"), Get(current, "fulfillmentStatus"));
    NormalWithout(Stable(previous), Stable(current), FULFILLMENT_EVIDENCE);
    var provider := Get(previous, "provider");
    if !provider.Arr? && !provider.Obj? {
      OnlyTextsAreProviders(provider, "SHOPIFY");
      OnlyTextsAreProviders(provider, "EBAY");
    }
  }

  /** String() of plain values. */
  lemma TextsOfPlainValues(n: nat, s: string)
    ensures TextOf(Str(s)) == s && TextOf(Number(n)) == Decimal(n) &&
            (n > 0 ==> TextOf(Number(-(n as int))) == "-" + Decimal(n))
    ensures TextOf(Bool(true)) == "true" && TextOf(Bool(false)) == "false"
    ensures TextOf(Undefined) == "undefined" && TextOf(Null) == "null" && TextOf(Obj(map[])) == "[object Object]"
  {
  }

  /** The texts of a list stand between commas, and nothing stands for what is undefined or null. */
  lemma {:induction false} TextsAreJoined(a: seq<Json>, b: seq<Json>)
    requires a != [] && b != []
    ensures TextOf(Arr(a + b)) == TextOf(Arr(a)) + ("," + TextOf(Arr(b)))
    ensures TextOf(Arr([])) == ""
    ensures TextOf(Arr([a[0]])) == if a[0].Undefined? || a[0].Null? then "" else TextOf(a[0])
    decreases |a|
  {
    hide TextOf;
    ListText(a + b);
    ListText(a);
    ListText(b);
    ListText([a[0]]);
    ListText([]);
    JoinsTexts(a, b);
    assert |[a[0]]| == 1;
  }

  lemma ListText(items: seq<Json>)
    ensures TextOf(Arr(items)) == JoinTexts(items)
  {
  }

  lemma {:induction false} JoinsTexts(a: seq<Json>, b: seq<Json>)
    requires a != [] && b != []
    ensures JoinTexts(a + b) == JoinTexts(a) + ("," + JoinTexts(b))
    decreases |a|
  {
    hide TextOf;
    if |a| == 1 {
      assert (a + b)[1..] == b;
    } else {
      assert (a + b)[1..] == a[1..] + b;
      JoinsTexts(a[1..], b);
      var head := if a[0] == Undefined || a[0] == Null then "" else TextOf(a[0]);
      assert head + "," + (JoinTexts(a[1..]) + ("," + JoinTexts(b))) ==
             head + "," + JoinTexts(a[1..]) + ("," + JoinTexts(b));
    }
  }

  // ---------- Refunds ----------

  /** Units, a point, and two digits. */
  ghost predicate IsPrice(text: string) {
    exists units, cents ::
      text == units + "." + cents && units != "" && AllDigits(units) && |cents| == 2 && AllDigits(cents)
  }

  lemma PriceIs(text: string)
    ensures IsAmount(text) <==> IsPrice(text)
  {
    if IsAmount(text) {
      assert text == text[..|text| - 3] + "." + text[|text| - 2..];
    }
    if IsPrice(text) {
      var units, cents :|
        text == units + "." + cents && units != "" && AllDigits(units) && |cents| == 2 && AllDigits(cents);
      assert text[..|text| - 3] == units && text[|text| - 2..] == cents;
    }
  }

  /** An ambiguous refund without amount becomes a completed one with a price; identifier, raw
      evidence and time stay. */
  ghost predicate Completion(before: Json, after: Json) {
    before.Obj? && after.Obj? &&
    var x, y := before.fields, after.fields;
    Get(x, "externalRefundId").Str? && Get(x, "externalRefundId") == Get(y, "externalRefundId") &&
    Get(x, "status") == Str("AMBIGUOUS") && Get(y, "status") == Str("COMPLETED") &&
    Get(x, "amount").Null? && Get(y, "amount").Str? && IsPrice(Get(y, "amount").text) &&
    Get(x, "raw") == Get(y, "raw") && Get(x, "completedAt") == Get(y, "completedAt") &&
    !Get(x, "completedAt").Arr? && !Get(x, "completedAt").Obj?
  }

  lemma CompletesIff(before: Json, after: Json)
    ensures Completes(before, after) <==> Completion(before, after)
  {
    hide IsAmount, IsPrice;
    if after.Obj? && Get(after.fields, "amount").Str? { PriceIs(Get(after.fields, "amount").text); }
    assert "AMBIGUOUS"[0] != "COMPLETED"[0];
  }

  lemma ItemsAreAlike(a: Json, b: Json)
    ensures NormalItem(a) == NormalItem(b) <==> AlikeAsText(Arr([a]), Arr([b]))
  {
    hide AlikeAsText;
    NormalizationIsAgreement(Arr([a]), Arr([b]));
    assert NormalizeJsonValue(Arr([a])).items == [NormalItem(a)];
    assert NormalizeJsonValue(Arr([b])).items == [NormalItem(b)];
  }

  function Refunds(snapshot: Snapshot): seq<Json> {
    match Get(snapshot, "refunds")
    case Arr(items) => items
    case _ => []
  }

  /** Between eBay snapshots of one source, some ambiguous refunds are completed, and nothing else
      changes but the three keys that go with it. */
  lemma RefundChangeIff(previous: Snapshot, current: Snapshot)
    ensures RefundMapperOnlyChange(previous, current) <==>
            Get(previous, "provider") == Str("EBAY") && Get(current, "provider") == Str("EBAY") &&
            Get(previous, "sourceSnapshot") == Get(current, "sourceSnapshot") &&
            |Refunds(previous)| == |Refunds(current)| &&
            (exists i :: 0 <= i < |Refunds(current)| && Completion(Refunds(previous)[i], Refunds(current)[i])) &&
            (forall i :: 0 <= i < |Refunds(current)| ==>
               Completion(Refunds(previous)[i], Refunds(current)[i]) ||
               AlikeAsText(Arr([Refunds(previous)[i]]), Arr([Refunds(current)[i]]))) &&
            SameBut(Stable(previous), Stable(current),
                    {"orderReviewRequired", "reviewFingerprint", "sourceConflictRequired", "refunds"})
  {
    hide Completes, Completion, NormalItem, SameBut, NormalizeJsonValue, Without, WithStableDefaults, Stable,
        RefundMapperOnlyChange, AlikeAsText;
    StableIs(previous);
    StableIs(current);
    ChangeByItems(previous, current);
    EvidenceKeysAre();
    NormalWithout(Stable(previous), Stable(current), REFUND_EVIDENCE + {"refunds"});
    forall i | 0 <= i < |RefundsOf(previous)| && i < |RefundsOf(current)|
      ensures Completes(RefundsOf(previous)[i], RefundsOf(current)[i]) <==>
              Completion(RefundsOf(previous)[i], RefundsOf(current)[i])
      ensures NormalItem(RefundsOf(previous)[i]) == NormalItem(RefundsOf(current)[i]) <==>
              AlikeAsText(Arr([RefundsOf(previous)[i]]), Arr([RefundsOf(current)[i]]))
    {
      CompletesIff(RefundsOf(previous)[i], RefundsOf(current)[i]);
      ItemsAreAlike(RefundsOf(previous)[i], RefundsOf(current)[i]);
    }
    assert RefundsOf(previous) == Refunds(previous) && RefundsOf(current) == Refunds(current);
  }

  lemma EvidenceKeysAre()
    ensures REFUND_EVIDENCE + {"refunds"} ==
            {"orderReviewRequired", "reviewFingerprint", "sourceConflictRequired", "refunds"}
  {
  }
}
