/**
 JSON snapshots of orders and the two rewritings that alignments compare them by
 (src/order-source-alignment.ts). An object is a map: isDeepStrictEqual ignores key order.
 */
module SnapshotJson {
  import opened Options

  datatype Json =
    | Undefined
    | Null
    | Bool(truth: bool)
    | Number(number: int)
    | Str(text: string)
    | Arr(items: seq<Json>)
    | Obj(fields: map<string, Json>)

  const EMAIL_EVIDENCE: set<string> := {"email", "reviewFingerprint"}

  /** withoutEmailEvidence: drops the e-mail keys and undefined fields at every level. */
  function WithoutEmailEvidence(value: Json): Json {
    match value
    case Arr(items) => Arr(seq(|items|, i requires 0 <= i < |items| => WithoutEmailEvidence(items[i])))
    case Obj(fields) =>
      Obj(map key | key in fields && key !in EMAIL_EVIDENCE && fields[key] != Undefined ::
        WithoutEmailEvidence(fields[key]))
    case _ => value
  }

  /** normalizeJsonValue: what JSON.stringify followed by JSON.parse would leave. */
  function NormalizeJsonValue(value: Json): Json {
    match value
    case Arr(items) =>
      Arr(seq(|items|, i requires 0 <= i < |items| =>
        if items[i] == Undefined then Null else NormalizeJsonValue(items[i])))
    case Obj(fields) =>
      Obj(map key | key in fields && fields[key] != Undefined :: NormalizeJsonValue(fields[key]))
    case _ => value
  }

  // ---------- Reading along paths ----------

  datatype Step = Field(key: string) | Item(index: nat)

  /** What stands at the end of a path, its contents aside. */
  datatype Reading = Scalar(value: Json) | List(length: nat) | Record

  function ReadingOf(value: Json): Reading {
    match value
    case Arr(items) => List(|items|)
    case Obj(_) => Record
    case _ => Scalar(value)
  }

  /** A field whose value is undefined is not there. */
  function Read(value: Json, path: seq<Step>): Option<Reading>
    decreases |path|
  {
    if path == [] then Some(ReadingOf(value))
    else
      match (path[0], value)
      case (Field(key), Obj(fields)) =>
        if key in fields && fields[key] != Undefined then Read(fields[key], path[1..]) else None
      case (Item(index), Arr(items)) => if index < |items| then Read(items[index], path[1..]) else None
      case _ => None
  }

  /** The path leads through no e-mail evidence. */
  predicate Avoids(path: seq<Step>, keys: set<string>) {
    forall i :: 0 <= i < |path| ==> path[i].Field? ==> path[i].key !in keys
  }

  /** Both values read the same along every path that avoids the keys. */
  ghost predicate AgreeOutside(a: Json, b: Json, keys: set<string>) {
    forall path :: Avoids(path, keys) ==> Read(a, path) == Read(b, path)
  }

  lemma {:induction false} ErasureReads(value: Json, path: seq<Step>)
    ensures Read(WithoutEmailEvidence(value), path) == if Avoids(path, EMAIL_EVIDENCE) then Read(value, path) else None
    decreases |path|
  {
    if path == [] {
    } else {
      var rest := path[1..];
      assert Avoids(path, EMAIL_EVIDENCE) <==>
             (path[0].Field? ==> path[0].key !in EMAIL_EVIDENCE) && Avoids(rest, EMAIL_EVIDENCE) by {
        assert path == [path[0]] + rest;
      }
      match (path[0], value)
      case (Field(key), Obj(fields)) =>
        if key in fields { ErasureReads(fields[key], rest); }
      case (Item(index), Arr(items)) =>
        if index < |items| { ErasureReads(items[index], rest); }
      case _ =>
    }
  }

  /** No object in the value has an undefined field. */
  predicate Defined(value: Json) {
    match value
    case Arr(items) => forall i :: 0 <= i < |items| ==> Defined(items[i])
    case Obj(fields) => forall key :: key in fields ==> fields[key] != Undefined && Defined(fields[key])
    case _ => true
  }

  lemma {:induction false} ErasureIsDefined(value: Json)
    ensures Defined(WithoutEmailEvidence(value))
  {
    match value
    case Arr(items) =>
      forall i | 0 <= i < |items| { ErasureIsDefined(items[i]); }
    case Obj(fields) =>
      forall key | key in fields { ErasureIsDefined(fields[key]); }
    case _ =>
  }

  lemma ReadsBelow(a: Json, b: Json, step: Step, x: Json, y: Json)
    requires forall path :: Read(a, path) == Read(b, path)
    requires forall path :: Read(a, [step] + path) == Read(x, path) && Read(b, [step] + path) == Read(y, path)
    ensures forall path :: Read(x, path) == Read(y, path)
  {
    forall path
      ensures Read(x, path) == Read(y, path)
    {
      assert Read(a, [step] + path) == Read(b, [step] + path);
    }
  }

  lemma ReadsField(fields: map<string, Json>, key: string)
    requires key in fields && fields[key] != Undefined
    ensures forall path :: Read(Obj(fields), [Field(key)] + path) == Read(fields[key], path)
  {
    assert forall path: seq<Step> :: ([Field(key)] + path)[1..] == path;
  }

  lemma ReadsItem(items: seq<Json>, index: nat)
    requires index < |items|
    ensures forall path :: Read(Arr(items), [Item(index)] + path) == Read(items[index], path)
  {
    assert forall path: seq<Step> :: ([Item(index)] + path)[1..] == path;
  }

  /** Defined values that read the same along every path are the same value. */
  lemma {:induction false} ReadsDetermine(a: Json, b: Json)
    requires Defined(a) && Defined(b) && forall path :: Read(a, path) == Read(b, path)
    ensures a == b
    decreases a
  {
    assert Read(a, []) == Read(b, []);
    match a
    case Arr(items) =>
      forall i | 0 <= i < |items|
        ensures items[i] == b.items[i]
      {
        ReadsItem(items, i);
        ReadsItem(b.items, i);
        ReadsBelow(a, b, Item(i), items[i], b.items[i]);
        ReadsDetermine(items[i], b.items[i]);
      }
    case Obj(fields) =>
      forall key | key in fields || key in b.fields
        ensures key in fields && key in b.fields
      {
        assert Read(a, [Field(key)]) == Read(b, [Field(key)]);
        assert Read(Obj(fields), [Field(key)]).Some? <==> key in fields;
        assert Read(Obj(b.fields), [Field(key)]).Some? <==> key in b.fields;
      }
      forall key | key in fields
        ensures fields[key] == b.fields[key]
      {
        ReadsField(fields, key);
        ReadsField(b.fields, key);
        ReadsBelow(a, b, Field(key), fields[key], b.fields[key]);
        ReadsDetermine(fields[key], b.fields[key]);
      }
      assert fields == b.fields;
    case _ =>
  }

  /** Two values are alike without e-mail evidence iff they read the same along every path
      that leads through none. */
  lemma ErasureIsAgreement(a: Json, b: Json)
    ensures WithoutEmailEvidence(a) == WithoutEmailEvidence(b) <==> AgreeOutside(a, b, EMAIL_EVIDENCE)
  {
    var x, y := WithoutEmailEvidence(a), WithoutEmailEvidence(b);
    forall path
      ensures Read(x, path) == if Avoids(path, EMAIL_EVIDENCE) then Read(a, path) else None
      ensures Read(y, path) == if Avoids(path, EMAIL_EVIDENCE) then Read(b, path) else None
    {
      ErasureReads(a, path);
      ErasureReads(b, path);
    }
    if AgreeOutside(a, b, EMAIL_EVIDENCE) {
      ErasureIsDefined(a);
      ErasureIsDefined(b);
      ReadsDetermine(x, y);
    }
  }

  lemma ErasureIsIdempotent(value: Json)
    ensures WithoutEmailEvidence(WithoutEmailEvidence(value)) == WithoutEmailEvidence(value)
  {
    forall path | Avoids(path, EMAIL_EVIDENCE)
      ensures Read(WithoutEmailEvidence(value), path) == Read(value, path)
    {
      ErasureReads(value, path);
    }
    ErasureIsAgreement(WithoutEmailEvidence(value), value);
  }

  // ---------- Normalisation ----------

  /** What JSON text can hold: nothing undefined anywhere. */
  predicate Serializable(value: Json) {
    match value
    case Undefined => false
    case Arr(items) => forall i :: 0 <= i < |items| ==> Serializable(items[i])
    case Obj(fields) => forall key :: key in fields ==> Serializable(fields[key])
    case _ => true
  }

  lemma {:induction false} NormalizationFixesSerializable(value: Json)
    requires Serializable(value)
    ensures NormalizeJsonValue(value) == value
  {
    match value
    case Arr(items) =>
      forall i | 0 <= i < |items| { NormalizationFixesSerializable(items[i]); }
      assert NormalizeJsonValue(value).items == items;
    case Obj(fields) =>
      forall key | key in fields { NormalizationFixesSerializable(fields[key]); }
      assert NormalizeJsonValue(value).fields == fields;
    case _ =>
  }

  lemma {:induction false} NormalizationSerializes(value: Json)
    requires value != Undefined
    ensures Serializable(NormalizeJsonValue(value))
  {
    match value
    case Arr(items) =>
      forall i | 0 <= i < |items| && items[i] != Undefined { NormalizationSerializes(items[i]); }
    case Obj(fields) =>
      forall key | key in fields && fields[key] != Undefined { NormalizationSerializes(fields[key]); }
    case _ =>
  }

  /** As JSON text is read: nothing is undefined in a list, but null. */
  function ReadAsText(value: Json, path: seq<Step>): Option<Reading> {
    var reading := Read(value, path);
    if path != [] && reading == Some(Scalar(Undefined)) then Some(Scalar(Null)) else reading
  }

  /** Their JSON texts read the same along every path. */
  ghost predicate AlikeAsText(a: Json, b: Json) {
    forall path :: ReadAsText(a, path) == ReadAsText(b, path)
  }

  lemma {:induction false} NormalizationReads(value: Json, path: seq<Step>)
    ensures Read(NormalizeJsonValue(value), path) == ReadAsText(value, path)
    decreases |path|
  {
    if path == [] {
    } else {
      match (path[0], value)
      case (Field(key), Obj(fields)) =>
        if key in fields { NormalizationReads(fields[key], path[1..]); }
      case (Item(index), Arr(items)) =>
        if index < |items| { NormalizationReads(items[index], path[1..]); }
      case _ =>
    }
  }

  lemma {:induction false} SerializableIsDefined(value: Json)
    requires Serializable(value)
    ensures Defined(value)
  {
    match value
    case Arr(items) =>
      forall i | 0 <= i < |items| { SerializableIsDefined(items[i]); }
    case Obj(fields) =>
      forall key | key in fields { SerializableIsDefined(fields[key]); }
    case _ =>
  }

  /** Two values are alike when normalised iff their JSON texts are. */
  lemma NormalizationIsAgreement(a: Json, b: Json)
    ensures NormalizeJsonValue(a) == NormalizeJsonValue(b) <==> AlikeAsText(a, b)
  {
    hide NormalizeJsonValue, Read, ReadAsText, Defined;
    forall path
      ensures Read(NormalizeJsonValue(a), path) == ReadAsText(a, path)
      ensures Read(NormalizeJsonValue(b), path) == ReadAsText(b, path)
    {
      NormalizationReads(a, path);
      NormalizationReads(b, path);
    }
    NormalIsDefined(a);
    NormalIsDefined(b);
    if AlikeAsText(a, b) {
      ReadsDetermine(NormalizeJsonValue(a), NormalizeJsonValue(b));
    }
  }

  lemma NormalIsDefined(value: Json)
    ensures Defined(NormalizeJsonValue(value))
  {
    hide NormalizeJsonValue;
    if value == Undefined {
      UndefinedIsNormal();
    } else {
      NormalizationSerializes(value);
      SerializableIsDefined(NormalizeJsonValue(value));
    }
  }

  lemma UndefinedIsNormal()
    ensures NormalizeJsonValue(Undefined) == Undefined
  {
  }
}
