/** Refunds completed by a replay of the same eBay payload (src/order-source-alignment.ts). */
module RefundAlignment {
  import opened Options
  import opened Numerals
  import opened SnapshotJson
  import opened Alignments

  const REFUND_EVIDENCE: set<string> := {"orderReviewRequired", "reviewFingerprint", "sourceConflictRequired"}

  function RefundsOf(snapshot: Snapshot): seq<Json> {
    var refunds := Get(snapshot, "refunds");
    if refunds.Arr? then refunds.items else []
  }

  /** refundRecord(): an object with a textual identifier. */
  function RefundRecord(value: Json): Option<map<string, Json>> {
    if value.Obj? && Get(value.fields, "externalRefundId").Str? then Some(value.fields) else None
  }

  /** /^\d+(?:\.\d{2})$/ */
  predicate IsAmount(text: string) {
    |text| >= 4 && text[|text| - 3] == '.' && IsNumeral(text[..|text| - 3]) && IsNumeral(text[|text| - 2..])
  }

  /** AMBIGUOUS without amount before, COMPLETED with an amount after, all evidence equal. */
  predicate Completes(value: Json, value': Json) {
    var before, after := RefundRecord(value), RefundRecord(value');
    before.Some? && after.Some? &&
    Get(before.value, "externalRefundId") == Get(after.value, "externalRefundId") && before != after &&
    Get(before.value, "status") == Str("AMBIGUOUS") && Get(before.value, "amount") == Null &&
    Get(after.value, "status") == Str("COMPLETED") && Get(after.value, "amount").Str? &&
    IsAmount(Get(after.value, "amount").text) &&
    Get(before.value, "raw") == Get(after.value, "raw") &&
    StrictlyEqual(Get(before.value, "completedAt"), Get(after.value, "completedAt"))
  }

  /** The current refunds, with each completed one put back as it was. */
  function Restored(previous: seq<Json>, current: seq<Json>): (r: seq<Json>)
    requires |previous| == |current|
    ensures |r| == |current|
    ensures forall i :: 0 <= i < |r| ==> r[i] == if Completes(previous[i], current[i]) then previous[i] else current[i]
  {
    if previous == [] then []
    else
      [if Completes(previous[0], current[0]) then previous[0] else current[0]] + Restored(previous[1..], current[1..])
  }

  predicate SomeCompletes(previous: seq<Json>, current: seq<Json>)
    requires |previous| == |current|
  {
    exists i :: 0 <= i < |current| && Completes(previous[i], current[i])
  }

  function WithoutRefundEvidence(snapshot: Snapshot): Json {
    NormalizeJsonValue(Obj(Without(WithStableDefaults(snapshot), REFUND_EVIDENCE)))
  }

  predicate RefundsMayAlign(previous: Snapshot, current: Snapshot) {
    FromEbay(previous, current) && Get(previous, "sourceSnapshot") == Get(current, "sourceSnapshot") &&
    0 < |RefundsOf(previous)| == |RefundsOf(current)|
  }

  predicate RefundMapperOnlyChange(previous: Snapshot, current: Snapshot) {
    RefundsMayAlign(previous, current) && SomeCompletes(RefundsOf(previous), RefundsOf(current)) &&
    WithoutRefundEvidence(previous) ==
      WithoutRefundEvidence(current["refunds" := Arr(Restored(RefundsOf(previous), RefundsOf(current)))])
  }

  method IsEbayRefundMapperOnlyChange(previous: Snapshot, current: Snapshot) returns (r: bool)
    ensures r == RefundMapperOnlyChange(previous, current)
  {
    if !RefundsMayAlign(previous, current) { return false; }
    var before, after := RefundsOf(previous), RefundsOf(current);
    var completedAmbiguousRefund := false;
    var normalized: seq<Json> := [];
    for index := 0 to |after|
      invariant |normalized| == index
      invariant forall i :: 0 <= i < index ==>
                  normalized[i] == if Completes(before[i], after[i]) then before[i] else after[i]
      invariant completedAmbiguousRefund == exists i :: 0 <= i < index && Completes(before[i], after[i])
    {
      if Completes(before[index], after[index]) {
        completedAmbiguousRefund := true;
        normalized := normalized + [before[index]];
      } else {
        normalized := normalized + [after[index]];
      }
    }
    if !completedAmbiguousRefund { return false; }
    assert normalized == Restored(before, after);
    return WithoutRefundEvidence(previous) == WithoutRefundEvidence(current["refunds" := Arr(normalized)]);
  }

  // ---------- What the comparison amounts to ----------

  /** A refund as an item of a normalised list. */
  function NormalItem(value: Json): Json {
    if value == Undefined then Null else NormalizeJsonValue(value)
  }

  ghost predicate SameItems(a: seq<Json>, b: seq<Json>) {
    |a| == |b| && forall i :: 0 <= i < |a| ==> NormalItem(a[i]) == NormalItem(b[i])
  }

  function OtherEvidence(snapshot: Snapshot): Json {
    NormalizeJsonValue(Obj(Without(WithStableDefaults(snapshot), REFUND_EVIDENCE + {"refunds"})))
  }

  lemma SameItemsAreOneList(a: seq<Json>, b: seq<Json>)
    ensures SameItems(a, b) <==> NormalizeJsonValue(Arr(a)) == NormalizeJsonValue(Arr(b))
  {
    if NormalizeJsonValue(Arr(a)) == NormalizeJsonValue(Arr(b)) {
      forall i | 0 <= i < |a|
        ensures NormalItem(a[i]) == NormalItem(b[i])
      {
        assert NormalizeJsonValue(Arr(a)).items[i] == NormalItem(a[i]);
        assert NormalizeJsonValue(Arr(b)).items[i] == NormalItem(b[i]);
      }
    }
    if SameItems(a, b) {
      assert NormalizeJsonValue(Arr(a)).items == NormalizeJsonValue(Arr(b)).items;
    }
  }

  lemma EvidenceFields(snapshot: Snapshot, key: string)
    requires key !in REFUND_EVIDENCE && Get(WithStableDefaults(snapshot), key) != Undefined
    ensures key in WithoutRefundEvidence(snapshot).fields
    ensures WithoutRefundEvidence(snapshot).fields[key] == NormalizeJsonValue(Get(WithStableDefaults(snapshot), key))
    ensures key != "refunds" ==> key in OtherEvidence(snapshot).fields
    ensures key != "refunds" ==> OtherEvidence(snapshot).fields[key] == WithoutRefundEvidence(snapshot).fields[key]
  {
  }

  lemma EvidenceKeys(snapshot: Snapshot, key: string)
    ensures key in WithoutRefundEvidence(snapshot).fields <==>
            key !in REFUND_EVIDENCE && Get(WithStableDefaults(snapshot), key) != Undefined
    ensures key in OtherEvidence(snapshot).fields <==> key != "refunds" && key in WithoutRefundEvidence(snapshot).fields
  {
  }

  lemma OtherIsPart(snapshot: Snapshot)
    ensures OtherEvidence(snapshot).fields == WithoutRefundEvidence(snapshot).fields - {"refunds"}
  {
    var p, x := OtherEvidence(snapshot).fields, WithoutRefundEvidence(snapshot).fields;
    forall key
      ensures key in p <==> key != "refunds" && key in x
      ensures key in p ==> p[key] == x[key]
    {
      EvidenceKeys(snapshot, key);
      if key in p { EvidenceFields(snapshot, key); }
    }
  }

  lemma RefundsArePart(snapshot: Snapshot)
    requires Get(snapshot, "refunds").Arr?
    ensures "refunds" in WithoutRefundEvidence(snapshot).fields
    ensures WithoutRefundEvidence(snapshot).fields["refunds"] == NormalizeJsonValue(Arr(RefundsOf(snapshot)))
  {
    EvidenceFields(snapshot, "refunds");
  }

  lemma OtherIgnoresRefunds(snapshot: Snapshot, items: seq<Json>)
    ensures OtherEvidence(snapshot["refunds" := Arr(items)]) == OtherEvidence(snapshot)
  {
    assert Without(WithStableDefaults(snapshot["refunds" := Arr(items)]), REFUND_EVIDENCE + {"refunds"}) ==
           Without(WithStableDefaults(snapshot), REFUND_EVIDENCE + {"refunds"});
  }

  lemma EvidenceSplits(a: Snapshot, b: Snapshot, items: seq<Json>)
    requires Get(a, "refunds").Arr?
    ensures WithoutRefundEvidence(a) == WithoutRefundEvidence(b["refunds" := Arr(items)]) <==>
            OtherEvidence(a) == OtherEvidence(b) && SameItems(RefundsOf(a), items)
  {
    hide NormalizeJsonValue, SameItems, WithStableDefaults, Without;
    var b' := b["refunds" := Arr(items)];
    SameItemsAreOneList(RefundsOf(a), items);
    OtherIgnoresRefunds(b, items);
    RefundsArePart(a);
    RefundsArePart(b');
    OtherIsPart(a);
    OtherIsPart(b');
    EvidenceIsObject(a);
    EvidenceIsObject(b);
    EvidenceIsObject(b');
    MapsSplit(WithoutRefundEvidence(a).fields, WithoutRefundEvidence(b').fields, "refunds");
  }

  lemma EvidenceIsObject(snapshot: Snapshot)
    ensures WithoutRefundEvidence(snapshot).Obj? && OtherEvidence(snapshot).Obj?
  {
  }

  lemma MapsSplit(x: map<string, Json>, y: map<string, Json>, key: string)
    requires key in x && key in y
    ensures x == y <==> x - {key} == y - {key} && x[key] == y[key]
  {
    if x - {key} == y - {key} && x[key] == y[key] {
      forall k
        ensures k in x <==> k in y
        ensures k in x ==> x[k] == y[k]
      {
        assert k != key ==> (k in x <==> k in x - {key}) && (k in y <==> k in y - {key});
        assert k != key && k in x ==> (x - {key})[k] == x[k] && (y - {key})[k] == y[k];
      }
    }
  }

  /** A mapper-only change, item by item. */
  lemma ChangeByItems(previous: Snapshot, current: Snapshot)
    ensures RefundMapperOnlyChange(previous, current) <==>
            RefundsMayAlign(previous, current) && SomeCompletes(RefundsOf(previous), RefundsOf(current)) &&
            OtherEvidence(previous) == OtherEvidence(current) &&
            forall i :: 0 <= i < |RefundsOf(previous)| ==>
              Completes(RefundsOf(previous)[i], RefundsOf(current)[i]) ||
              NormalItem(RefundsOf(previous)[i]) == NormalItem(RefundsOf(current)[i])
  {
    hide WithoutRefundEvidence, OtherEvidence, Completes, NormalItem;
    if RefundsMayAlign(previous, current) {
      EvidenceSplits(previous, current, Restored(RefundsOf(previous), RefundsOf(current)));
    }
  }

  // ---------- Ambiguous refunds ----------

  predicate IsAmbiguous(value: Json) {
    GetMaybe(RecordOf(value), "status") == Str("AMBIGUOUS")
  }

  function AmbiguousCount(refunds: seq<Json>): nat {
    if refunds == [] then 0 else (if IsAmbiguous(refunds[0]) then 1 else 0) + AmbiguousCount(refunds[1..])
  }

  lemma NormalField(fields: map<string, Json>, key: string, value: Json)
    requires key in fields && fields[key] == value && value != Undefined
    ensures key in NormalizeJsonValue(Obj(fields)).fields
    ensures NormalizeJsonValue(Obj(fields)).fields[key] == NormalizeJsonValue(value)
  {
  }

  /** Records alike when normalised agree on every field that holds a plain value. */
  lemma PlainFieldsAgree(a: Json, b: Json, key: string)
    requires NormalItem(a) == NormalItem(b) && a.Obj?
    ensures b.Obj? && (Get(a.fields, key) == Undefined <==> Get(b.fields, key) == Undefined)
    ensures NormalizeJsonValue(Get(a.fields, key)) == NormalizeJsonValue(Get(b.fields, key))
    ensures !Get(a.fields, key).Arr? && !Get(a.fields, key).Obj? ==> Get(a.fields, key) == Get(b.fields, key)
  {
    var x, y := Get(a.fields, key), Get(b.fields, key);
    if x != Undefined { NormalField(a.fields, key, x); }
    if y != Undefined { NormalField(b.fields, key, y); }
    assert key in NormalizeJsonValue(a).fields <==> x != Undefined;
    assert key in NormalizeJsonValue(b).fields <==> y != Undefined;
  }

  lemma AmbiguityCarries(a: Json, b: Json)
    requires NormalItem(a) == NormalItem(b)
    ensures IsAmbiguous(a) <==> IsAmbiguous(b)
  {
    if a.Obj? { PlainFieldsAgree(a, b, "status"); }
    if b.Obj? { PlainFieldsAgree(b, a, "status"); }
  }

  lemma {:induction false} CountDrops(a: seq<Json>, b: seq<Json>)
    requires |a| == |b| && forall i :: 0 <= i < |a| ==> Completes(a[i], b[i]) || NormalItem(a[i]) == NormalItem(b[i])
    ensures AmbiguousCount(b) <= AmbiguousCount(a)
    ensures SomeCompletes(a, b) ==> AmbiguousCount(b) < AmbiguousCount(a)
  {
    if a == [] {
    } else {
      var n := |a|;
      assert forall i :: 0 <= i < |a[1..]| ==> a[1..][i] == a[i + 1] && b[1..][i] == b[i + 1];
      CountDrops(a[1..], b[1..]);
      if !Completes(a[0], b[0]) { AmbiguityCarries(a[0], b[0]); }
      hide Completes, NormalItem;
      if SomeCompletes(a, b) && !Completes(a[0], b[0]) {
        var i :| 0 <= i < |b| && Completes(a[i], b[i]);
        assert Completes(a[1..][i - 1], b[1..][i - 1]);
      }
    }
  }

  /** Each such change leaves fewer ambiguous refunds, and every refund it does not complete
      reads the same. */
  lemma ChangeResolvesAmbiguity(previous: Snapshot, current: Snapshot)
    requires RefundMapperOnlyChange(previous, current)
    ensures AmbiguousCount(RefundsOf(current)) < AmbiguousCount(RefundsOf(previous))
    ensures forall i :: 0 <= i < |RefundsOf(previous)| && !Completes(RefundsOf(previous)[i], RefundsOf(current)[i]) ==>
              NormalItem(RefundsOf(previous)[i]) == NormalItem(RefundsOf(current)[i])
    ensures !RefundMapperOnlyChange(current, previous) && previous != current
  {
    ChangeByItems(previous, current);
    CountDrops(RefundsOf(previous), RefundsOf(current));
    if RefundMapperOnlyChange(current, previous) {
      ChangeByItems(current, previous);
      CountDrops(RefundsOf(current), RefundsOf(previous));
    }
  }

  // ---------- Two changes in a row ----------

  function RawOf(value: Json): Json {
    GetMaybe(RecordOf(value), "raw")
  }

  lemma CompletesThenStays(a: Json, b: Json, c: Json)
    requires Completes(a, b) && NormalItem(b) == NormalItem(c)
    ensures Completes(a, c) <==> RawOf(a) == RawOf(c)
    ensures NormalItem(a) != NormalItem(c)
  {
    PlainFieldsAgree(b, c, "externalRefundId");
    PlainFieldsAgree(b, c, "status");
    PlainFieldsAgree(b, c, "amount");
    PlainFieldsAgree(b, c, "completedAt");
    if NormalItem(a) == NormalItem(c) { PlainFieldsAgree(a, c, "status"); }
  }

  lemma StaysThenCompletes(a: Json, b: Json, c: Json)
    requires NormalItem(a) == NormalItem(b) && Completes(b, c)
    ensures Completes(a, c) <==> RawOf(a) == RawOf(c)
    ensures NormalItem(a) != NormalItem(c)
  {
    PlainFieldsAgree(b, a, "externalRefundId");
    PlainFieldsAgree(b, a, "status");
    PlainFieldsAgree(b, a, "amount");
    PlainFieldsAgree(b, a, "completedAt");
    if NormalItem(a) == NormalItem(c) { PlainFieldsAgree(a, c, "status"); }
  }

  lemma NeverTwice(a: Json, b: Json, c: Json)
    requires Completes(a, b)
    ensures !Completes(b, c)
  {
  }

  /** The raw evidence of each refund completed on the way is the same at both ends. */
  ghost predicate RawEvidenceKept(a: seq<Json>, b: seq<Json>, c: seq<Json>) {
    |a| == |b| == |c| &&
    forall i :: 0 <= i < |a| && (Completes(a[i], b[i]) || Completes(b[i], c[i])) ==> RawOf(a[i]) == RawOf(c[i])
  }

  ghost predicate ItemAligned(a: Json, b: Json) {
    Completes(a, b) || NormalItem(a) == NormalItem(b)
  }

  lemma ItemsCompose(a: Json, b: Json, c: Json)
    requires ItemAligned(a, b) && ItemAligned(b, c)
    ensures ItemAligned(a, c) <==> (Completes(a, b) || Completes(b, c) ==> RawOf(a) == RawOf(c))
    ensures (Completes(a, b) || Completes(b, c)) && ItemAligned(a, c) ==> Completes(a, c)
  {
    if Completes(a, b) {
      NeverTwice(a, b, c);
      CompletesThenStays(a, b, c);
    } else if Completes(b, c) {
      StaysThenCompletes(a, b, c);
    }
  }

  /** Two changes in a row are one change exactly when the raw evidence of every refund
      completed on the way is kept; the source compares it before normalising. */
  lemma ChangesCompose(a: Snapshot, b: Snapshot, c: Snapshot)
    requires RefundMapperOnlyChange(a, b) && RefundMapperOnlyChange(b, c)
    ensures RefundMapperOnlyChange(a, c) <==> RawEvidenceKept(RefundsOf(a), RefundsOf(b), RefundsOf(c))
  {
    hide WithoutRefundEvidence, OtherEvidence, Completes, NormalItem, RawOf;
    ChangeByItems(a, b);
    ChangeByItems(b, c);
    ChangeByItems(a, c);
    hide RefundMapperOnlyChange;
    var x, y, z := RefundsOf(a), RefundsOf(b), RefundsOf(c);
    forall i | 0 <= i < |x|
      ensures ItemAligned(x[i], z[i]) <==>
              (Completes(x[i], y[i]) || Completes(y[i], z[i]) ==> RawOf(x[i]) == RawOf(z[i]))
      ensures (Completes(x[i], y[i]) || Completes(y[i], z[i])) && ItemAligned(x[i], z[i]) ==> Completes(x[i], z[i])
    {
      ItemsCompose(x[i], y[i], z[i]);
    }
    var k :| 0 <= k < |x| && Completes(x[k], y[k]);
  }

  /** On snapshots as stored, which hold nothing undefined, the relation is transitive. */
  lemma StoredChangesCompose(a: Snapshot, b: Snapshot, c: Snapshot)
    requires RefundMapperOnlyChange(a, b) && RefundMapperOnlyChange(b, c)
    requires Serializable(Obj(a)) && Serializable(Obj(b)) && Serializable(Obj(c))
    ensures RefundMapperOnlyChange(a, c)
  {
    hide RefundMapperOnlyChange, OtherEvidence, WithoutRefundEvidence, Completes, NormalItem, Serializable, RawOf;
    ChangeByItems(a, b);
    ChangeByItems(b, c);
    ChangesCompose(a, b, c);
    RefundsAreSerializable(a);
    RefundsAreSerializable(b);
    RefundsAreSerializable(c);
    var x, y, z := RefundsOf(a), RefundsOf(b), RefundsOf(c);
    forall i | 0 <= i < |x| && (Completes(x[i], y[i]) || Completes(y[i], z[i]))
      ensures RawOf(x[i]) == RawOf(z[i])
    {
      StoredRawKept(x[i], y[i], z[i]);
    }
  }

  lemma RefundsAreSerializable(snapshot: Snapshot)
    requires Serializable(Obj(snapshot))
    ensures forall i :: 0 <= i < |RefundsOf(snapshot)| ==> Serializable(RefundsOf(snapshot)[i])
  {
  }

  lemma StoredRawKept(a: Json, b: Json, c: Json)
    requires ItemAligned(a, b) && ItemAligned(b, c) && Serializable(a) && Serializable(b) && Serializable(c)
    ensures RawOf(a) == RawOf(b) == RawOf(c)
  {
    NormalizationFixesSerializable(a);
    NormalizationFixesSerializable(b);
    NormalizationFixesSerializable(c);
  }

  // ---------- A chain that breaks ----------

  function Refund(id: string, completed: bool, raw: Json): Json {
    Obj(map["externalRefundId" := Str(id), "status" := Str(if completed then "COMPLETED" else "AMBIGUOUS"),
            "amount" := if completed then Str("1.00") else Null, "raw" := raw])
  }

  function Order(refunds: seq<Json>): Snapshot {
    map["provider" := Str("EBAY"), "refunds" := Arr(refunds)]
  }

  lemma OneIsAmount()
    ensures IsAmount("1.00")
  {
    assert "1.00"[..1] == "1" && "1.00"[2..] == "00";
  }

  lemma RefundCompletes(id: string, raw: Json)
    ensures Completes(Refund(id, false, raw), Refund(id, true, raw))
  {
    OneIsAmount();
    hide IsAmount;
    var before, after := Refund(id, false, raw).fields, Refund(id, true, raw).fields;
    assert before["status"] == Str("AMBIGUOUS") && after["status"] == Str("COMPLETED");
    assert "AMBIGUOUS"[0] != "COMPLETED"[0];
  }

  lemma PairChanges(a: seq<Json>, b: seq<Json>)
    requires |a| == |b| == 2 && (Completes(a[0], b[0]) || Completes(a[1], b[1]))
    requires ItemAligned(a[0], b[0]) && ItemAligned(a[1], b[1])
    ensures RefundMapperOnlyChange(Order(a), Order(b))
  {
    hide Completes, NormalItem, WithoutRefundEvidence;
    ChangeByItems(Order(a), Order(b));
    var rest := REFUND_EVIDENCE + {"refunds"};
    assert Without(WithStableDefaults(Order(a)), rest) == Without(WithStableDefaults(Order(b)), rest);
  }

  /** An undefined field that the mapper adds to the raw evidence between two changes is
      dropped by each comparison, and yet the two changes are not one. */
  lemma UndefinedEvidenceBreaksChain() returns (a: Snapshot, b: Snapshot, c: Snapshot)
    ensures RefundMapperOnlyChange(a, b) && RefundMapperOnlyChange(b, c) && !RefundMapperOnlyChange(a, c)
  {
    var raw, raw' := Obj(map[]), Obj(map["note" := Undefined]);
    var x := [Refund("1", false, raw), Refund("2", false, raw)];
    var y := [Refund("1", true, raw), Refund("2", false, raw)];
    var z := [Refund("1", true, raw'), Refund("2", true, raw)];
    a, b, c := Order(x), Order(y), Order(z);
    RefundCompletes("1", raw);
    RefundCompletes("2", raw);
    assert NormalizeJsonValue(raw).fields == map[] == NormalizeJsonValue(raw').fields;
    SameWhenNormal("1", true, raw, raw');
    hide Completes, NormalizeJsonValue, RefundMapperOnlyChange, Refund;
    PairChanges(x, y);
    PairChanges(y, z);
    ChangesCompose(a, b, c);
    RefundRaw("1", false, raw);
    RefundRaw("1", true, raw');
    assert "note" in raw'.fields;
  }

  lemma SameWhenNormal(id: string, completed: bool, raw: Json, raw': Json)
    requires NormalizeJsonValue(raw) == NormalizeJsonValue(raw') && raw.Obj? && raw'.Obj?
    ensures NormalItem(Refund(id, completed, raw)) == NormalItem(Refund(id, completed, raw'))
  {
    hide NormalizeJsonValue;
    var x, y := Refund(id, completed, raw).fields, Refund(id, completed, raw').fields;
    SameFields(x, y);
  }

  lemma SameFields(x: map<string, Json>, y: map<string, Json>)
    requires x.Keys == y.Keys
    requires forall key <- x :: x[key] == Undefined <==> y[key] == Undefined
    requires forall key <- x :: NormalizeJsonValue(x[key]) == NormalizeJsonValue(y[key])
    ensures NormalizeJsonValue(Obj(x)) == NormalizeJsonValue(Obj(y))
  {
    assert NormalizeJsonValue(Obj(x)).fields == NormalizeJsonValue(Obj(y)).fields;
  }

  lemma RefundRaw(id: string, completed: bool, raw: Json)
    ensures RawOf(Refund(id, completed, raw)) == raw
  {
  }
}
