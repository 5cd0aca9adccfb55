/**
 Which messages the validator of signed invoices accepts, said on element trees instead of
 offsets: `EnvelopeContent` is the shape of RFC 5652 (sections 3, 5.1 and 5.2) that it looks for.
 */
module Envelope {
  import opened Options
  import opened Ber
  import opened BerEncoding
  import opened SignedData

  /** A number in digits of seven bits, each with bit 8 set. */
  function LeadingDigits(n: nat): seq<Octet> {
    (if n < 128 then [] else LeadingDigits(n / 128)) + [128 + n % 128]
  }

  /** The same, but for bit 8 of the last digit (ITU-T X.690, clause 8.19.2). */
  function Subidentifier(n: nat): seq<Octet> {
    (if n < 128 then [] else LeadingDigits(n / 128)) + [n % 128]
  }

  /** The number of digits of seven bits. */
  function NumberOf(digits: seq<Octet>): nat {
    if digits == [] then 0 else NumberOf(digits[..|digits| - 1]) * 128 + digits[|digits| - 1] % 128
  }

  lemma DigitAppends(digits: seq<Octet>, digit: Octet)
    ensures NumberOf(digits + [digit]) == NumberOf(digits) * 128 + digit % 128
  {
    assert (digits + [digit])[..|digits|] == digits;
  }

  lemma {:induction false} LeadingDigitsRead(n: nat)
    ensures NumberOf(LeadingDigits(n)) == n && (n > 0 ==> LeadingDigits(n)[0] != 128)
    ensures forall i :: 0 <= i < |LeadingDigits(n)| ==> LeadingDigits(n)[i] >= 128
  {
    hide NumberOf;
    var before := if n < 128 then [] else LeadingDigits(n / 128);
    DigitAppends(before, 128 + n % 128);
    if n >= 128 {
      LeadingDigitsRead(n / 128);
    } else {
      ReadNothing();
    }
  }

  lemma ReadNothing()
    ensures NumberOf([]) == 0
  {
  }

  /** A subidentifier reads as its number, in no more digits than it takes; its last digit is the
      one without bit 8. */
  lemma SubidentifierReads(n: nat)
    ensures NumberOf(Subidentifier(n)) == n && Subidentifier(n)[0] != 128
    ensures forall i :: 0 <= i < |Subidentifier(n)| ==> (Subidentifier(n)[i] < 128 <==> i == |Subidentifier(n)| - 1)
  {
    hide LeadingDigits, NumberOf;
    var before := if n < 128 then [] else LeadingDigits(n / 128);
    DigitAppends(before, n % 128);
    ReadNothing();
    if n >= 128 { LeadingDigitsRead(n / 128); }
  }

  function Subidentifiers(arcs: seq<nat>): seq<Octet> {
    if arcs == [] then [] else Subidentifier(arcs[0]) + Subidentifiers(arcs[1..])
  }

  /** An OBJECT IDENTIFIER under iso(1) member-body(2), whose two arcs share one subidentifier. */
  function UnderMemberBody(arcs: seq<nat>): Node {
    Prim(0x06, 0, Subidentifier(40 * 1 + 2) + Subidentifiers(arcs))
  }

  /** us rsadsi pkcs 7, and in it data and signedData (RFC 5652, sections 4 and 5.1). */
  const DATA_TYPE := UnderMemberBody([840, 113549, 1, 7, 1])
  const SIGNED_DATA_TYPE := UnderMemberBody([840, 113549, 1, 7, 2])

  lemma ArcsAreWritten()
    ensures Subidentifier(42) == [42] && Subidentifier(840) == [0x86, 0x48] &&
            Subidentifier(113549) == [0x86, 0xf7, 0x0d]
    ensures Subidentifier(7) == [7] && forall n :: n in {1, 2} ==> Subidentifier(n) == [n]
  {
    assert LeadingDigits(6) == [0x86];
    assert LeadingDigits(887) == LeadingDigits(6) + [0xf7];
  }

  lemma TypeIsWritten(last: nat)
    requires last in {1, 2}
    ensures UnderMemberBody([840, 113549, 1, 7, last]) ==
            Prim(0x06, 0, [0x2a, 0x86, 0x48, 0x86, 0xf7, 0x0d, 0x01, 0x07, last])
  {
    hide Subidentifier;
    ArcsAreWritten();
    assert [last][1..] == [] && Subidentifiers([last]) == [last];
    assert [7, last][1..] == [last] && Subidentifiers([7, last]) == [7, last];
    assert [1, 7, last][1..] == [7, last] && Subidentifiers([1, 7, last]) == [1, 7, last];
    var most := [113549, 1, 7, last];
    assert most[1..] == [1, 7, last] && Subidentifiers(most) == [0x86, 0xf7, 0x0d] + [1, 7, last];
    assert ([840] + most)[1..] == most && [840, 113549, 1, 7, last] == [840] + most;
    assert Subidentifiers([840] + most) == [0x86, 0x48] + ([0x86, 0xf7, 0x0d] + [1, 7, last]);
  }

  lemma TypesAreConstants()
    ensures SIGNED_DATA_TYPE == Prim(0x06, 0, SIGNED_DATA_OID[2..]) && DATA_TYPE == Prim(0x06, 0, DATA_OID[2..])
  {
    hide UnderMemberBody;
    TypeIsWritten(1);
    TypeIsWritten(2);
  }

  /** The octets compared with are those of the two types. */
  lemma TypesAreWritten()
    ensures Encode(SIGNED_DATA_TYPE) == SIGNED_DATA_OID && Encode(DATA_TYPE) == DATA_OID
  {
    hide UnderMemberBody;
    TypesAreConstants();
    assert forall length: nat :: LengthDigits(length, 0) == [];
  }

  function Kids(node: Node): seq<Node> {
    if node.Cons? then node.children else []
  }

  /** The octets of a possibly segmented OCTET STRING (ITU-T X.690, clause 8.7). */
  function Segments(node: Node): Option<seq<Octet>>
    decreases node, 1
  {
    if node.tag == 0x04 then Some(Content(node))
    else if node.tag != 0x24 || node.Prim? then None
    else AllSegments(node.children)
  }

  function AllSegments(forest: seq<Node>): Option<seq<Octet>> {
    if forest == [] then Some([])
    else
      var head :- Segments(forest[0]);
      var tail :- AllSegments(forest[1..]);
      Some(head + tail)
  }

  function EnvelopeContent(root: Node): Option<Option<seq<Octet>>> {
    var info := Kids(root);
    :- Need(root.tag == 0x30 && |info| == 2 && info[0] == SIGNED_DATA_TYPE && info[1].tag == 0xa0);
    var explicitContent := Kids(info[1]);
    :- Need(|explicitContent| == 1 && explicitContent[0].tag == 0x30);
    var fields := Kids(explicitContent[0]);
    :- Need(|fields| >= 4 && fields[0].tag == 0x02 && fields[1].tag == 0x31 &&
            fields[2].tag == 0x30 && fields[|fields| - 1].tag == 0x31);
    EncapsulatedPayload(Kids(fields[2]))
  }

  function EncapsulatedPayload(encapsulated: seq<Node>): Option<Option<seq<Octet>>> {
    if encapsulated == [] || encapsulated[0] != DATA_TYPE then None
    else if |encapsulated| == 1 then Some(None)
    else
      :- Need(|encapsulated| == 2 && encapsulated[1].tag == 0xa0 && |Kids(encapsulated[1])| == 1);
      var payload :- Segments(Kids(encapsulated[1])[0]);
      :- Need(payload != []);
      Some(Some(payload))
  }

  // ---------- Reading a tree that lies in the buffer ----------

  ghost predicate Sits(b: seq<Octet>, node: Node, offset: nat) {
    WellFormed(node) && Holds(b, offset, Encode(node)) && Height(node) <= MAX_DEPTH &&
    NodeSize(node) <= MAX_ELEMENTS + 1
  }

  ghost predicate Listed(b: seq<Octet>, forest: seq<Node>, list: seq<Placed>) {
    |forest| == |list| &&
    forall i {:trigger list[i]} :: 0 <= i < |list| ==>
      Sits(b, forest[i], list[i].start) && list[i].element == Place(forest[i], list[i].start)
  }

  lemma ForestSplits(b: seq<Octet>, start: nat, forest: seq<Node>)
    requires forest != [] && AllWellFormed(forest) && Holds(b, start, EncodeAll(forest))
    requires ForestHeight(forest) <= MAX_DEPTH && Size(forest) <= MAX_ELEMENTS + 1
    ensures Sits(b, forest[0], start) && Height(forest[0]) <= ForestHeight(forest)
    ensures AllWellFormed(forest[1..]) && ForestHeight(forest[1..]) <= ForestHeight(forest)
    ensures Holds(b, start + |Encode(forest[0])|, EncodeAll(forest[1..]))
    ensures |EncodeAll(forest)| == |Encode(forest[0])| + |EncodeAll(forest[1..])|
    ensures Size(forest) == NodeSize(forest[0]) + Size(forest[1..])
    ensures start + |EncodeAll(forest)| <= |b|
  {
    hide Encode, WellFormed, Height, NodeSize;
    HoldsSplit(b, start, Encode(forest[0]), EncodeAll(forest[1..]));
  }

  lemma SitsReads(b: seq<Octet>, start: nat, end: nat, node: Node)
    requires Sits(b, node, start) && start + |Encode(node)| <= end <= |b|
    ensures ElementAt(b, start, end, 0) == Some(Place(node, start))
    ensures start < Place(node, start).end == start + |Encode(node)|
  {
    EncodingIsRead(b, start, end, 0, node);
  }

  lemma EmptyForestIsListed(b: seq<Octet>, start: nat)
    requires Holds(b, start, EncodeAll([]))
    ensures start <= |b| && EncodeAll([]) == []
    ensures Children(b, start, start) == Some([]) && Listed(b, [], [])
  {
  }

  lemma {:induction false} ForestIsListed(b: seq<Octet>, start: nat, forest: seq<Node>)
    requires AllWellFormed(forest) && Holds(b, start, EncodeAll(forest))
    requires ForestHeight(forest) <= MAX_DEPTH && Size(forest) <= MAX_ELEMENTS + 1
    ensures Children(b, start, start + |EncodeAll(forest)|).Some?
    ensures Listed(b, forest, Children(b, start, start + |EncodeAll(forest)|).value)
    decreases forest
  {
    hide *;
    if forest == [] {
      EmptyForestIsListed(b, start);
      return;
    }
    ForestSplits(b, start, forest);
    var end := start + |EncodeAll(forest)|;
    SitsReads(b, start, end, forest[0]);
    ForestIsListed(b, start + |Encode(forest[0])|, forest[1..]);
    ListedFirst(b, forest, start, end);
  }

  lemma ListedFirst(b: seq<Octet>, forest: seq<Node>, start: nat, end: nat)
    requires start < end <= |b| && forest != [] && Sits(b, forest[0], start)
    requires ElementAt(b, start, end, 0) == Some(Place(forest[0], start))
    requires Children(b, Place(forest[0], start).end, end).Some?
    requires Listed(b, forest[1..], Children(b, Place(forest[0], start).end, end).value)
    ensures Children(b, start, end).Some? && Listed(b, forest, Children(b, start, end).value)
  {
    hide Sits, Place;
    var rest := Children(b, Place(forest[0], start).end, end).value;
    var list := [Placed(start, Place(forest[0], start))] + rest;
    forall i | 0 <= i < |list|
      ensures Sits(b, forest[i], list[i].start) && list[i].element == Place(forest[i], list[i].start)
    {
      if i > 0 {
        assert list[i] == rest[i - 1] && forest[i] == forest[1..][i - 1];
      }
    }
  }

  lemma ContentSits(b: seq<Octet>, node: Node, offset: nat)
    requires Sits(b, node, offset)
    ensures Holds(b, offset + HeaderSize(node), Content(node))
  {
    if node.Cons? && node.form.Indefinite? {
      assert Encode(node) == [node.tag, INDEFINITE_LENGTH] + (Content(node) + [0, 0]);
      HoldsSplit(b, offset, [node.tag, INDEFINITE_LENGTH], Content(node) + [0, 0]);
      HoldsSplit(b, offset + 2, Content(node), [0, 0]);
    } else {
      HoldsSplit(b, offset, Header(node.tag, HeaderSize(node) - 2, |Content(node)|), Content(node));
    }
  }

  lemma PartsOf(node: Node)
    requires WellFormed(node) && Constructed(node.tag)
    ensures node.Cons? && Content(node) == EncodeAll(node.children) && AllWellFormed(node.children)
    ensures Height(node) == 1 + ForestHeight(node.children) && NodeSize(node) == 1 + Size(node.children)
  {
  }

  lemma KidsAreListed(b: seq<Octet>, node: Node, offset: nat)
    requires Sits(b, node, offset) && Constructed(node.tag)
    ensures Place(node, offset).contentEnd <= |b|
    ensures ContentChildren(b, Place(node, offset)).Some?
    ensures Listed(b, Kids(node), ContentChildren(b, Place(node, offset)).value)
  {
    hide Listed, Children, Encode, EncodeAll, Holds;
    ContentSits(b, node, offset);
    PartsOf(node);
    ForestIsListed(b, offset + HeaderSize(node), node.children);
  }

  lemma TypeIsRecognised(b: seq<Octet>, node: Node, offset: nat, oid: seq<Octet>)
    requires Sits(b, node, offset)
    requires |oid| == 11 && oid[0] == 0x06 && oid[1] == 0x09
    ensures offset <= Place(node, offset).end <= |b|
    ensures b[offset..Place(node, offset).end] == oid <==> node == Prim(0x06, 0, oid[2..])
  {
    var code := Encode(node);
    assert b[offset..offset + |code|] == code;
    if code == oid {
      assert node.Prim? && node.lengthSize == 0;
      assert code[2..] == node.content;
    }
    if node == Prim(0x06, 0, oid[2..]) {
      assert code == [0x06, 0x09] + oid[2..] == oid;
    }
  }

  lemma {:induction false} OctetsAreSegments(b: seq<Octet>, node: Node, offset: nat)
    requires Sits(b, node, offset)
    ensures Place(node, offset).contentEnd <= |b|
    ensures Octets(b, Place(node, offset)) == Segments(node)
    decreases node, 1
  {
    var e := Place(node, offset);
    ContentSits(b, node, offset);
    if node.tag == 0x04 {
      assert b[e.contentStart..e.contentEnd] == Content(node);
    } else if node.tag == 0x24 {
      KidsAreListed(b, node, offset);
      AllOctetsAreSegments(b, node.children, ContentChildren(b, e).value, e.contentStart, e.contentEnd);
    }
  }

  lemma {:induction false} AllOctetsAreSegments(b: seq<Octet>, forest: seq<Node>, list: seq<Placed>, start: nat,
      end: nat)
    requires Listed(b, forest, list) && AllWithin(b, list, start, end) && start <= end
    ensures AllOctets(b, list, start, end) == AllSegments(forest)
    decreases forest
  {
    if list == [] {
    } else {
      OctetsAreSegments(b, forest[0], list[0].start);
      AllOctetsAreSegments(b, forest[1..], list[1..], start, end);
    }
  }

  lemma VisitSteps(b: seq<Octet>, offset: nat, end: nat, depth: nat, elements: nat, e: Element, inner: nat)
    requires offset < end <= |b| && ElementAt(b, offset, end, 0) == Some(e) && elements < MAX_ELEMENTS
    requires if Constructed(e.tag)
             then depth < MAX_DEPTH &&
                  VisitFrom(b, e.contentStart, e.contentEnd, depth + 1, elements + 1) == Some(inner)
             else inner == elements + 1
    ensures VisitFrom(b, offset, end, depth, elements) == VisitFrom(b, e.end, end, depth, inner)
  {
  }

  lemma EmptyForestIsVisited(b: seq<Octet>, offset: nat, depth: nat, elements: nat)
    requires Holds(b, offset, EncodeAll([]))
    ensures offset <= |b| && Size([]) == 0 && EncodeAll([]) == []
    ensures VisitFrom(b, offset, offset, depth, elements) == Some(elements)
  {
  }

  lemma {:induction false} ForestIsVisited(b: seq<Octet>, offset: nat, forest: seq<Node>, depth: nat, elements: nat)
    requires AllWellFormed(forest) && Holds(b, offset, EncodeAll(forest))
    requires 1 <= depth && depth + ForestHeight(forest) <= MAX_DEPTH && elements + Size(forest) <= MAX_ELEMENTS
    ensures VisitFrom(b, offset, offset + |EncodeAll(forest)|, depth, elements) == Some(elements + Size(forest))
    decreases forest
  {
    hide *;
    if forest == [] {
      EmptyForestIsVisited(b, offset, depth, elements);
      return;
    }
    var node := forest[0];
    ForestSplits(b, offset, forest);
    SitsReads(b, offset, offset + |EncodeAll(forest)|, node);
    NodeIsVisited(b, offset, offset + |EncodeAll(forest)|, node, depth, elements);
    ForestIsVisited(b, offset + |Encode(node)|, forest[1..], depth, elements + NodeSize(node));
  }

  lemma {:induction false} NodeIsVisited(b: seq<Octet>, offset: nat, end: nat, node: Node, depth: nat, elements: nat)
    requires Sits(b, node, offset) && offset < end <= |b| && ElementAt(b, offset, end, 0) == Some(Place(node, offset))
    requires 1 <= depth && depth + Height(node) <= MAX_DEPTH && elements + NodeSize(node) <= MAX_ELEMENTS
    ensures VisitFrom(b, offset, end, depth, elements) ==
              VisitFrom(b, offset + |Encode(node)|, end, depth, elements + NodeSize(node))
    decreases node
  {
    hide ElementAt, Encode, VisitFrom;
    if node.Cons? {
      ContentSits(b, node, offset);
      ForestIsVisited(b, offset + HeaderSize(node), node.children, depth + 1, elements + 1);
    }
    VisitSteps(b, offset, end, depth, elements, Place(node, offset), elements + NodeSize(node));
  }

  // ---------- The validator sees the shape of the tree ----------

  lemma ContentInfoMatches(b: seq<Octet>, node: Node, offset: nat) returns (at: nat)
    requires Sits(b, node, offset) && Constructed(node.tag)
    ensures Place(node, offset).contentEnd <= |b|
    ensures if |Kids(node)| == 2 && Kids(node)[0] == SIGNED_DATA_TYPE && Kids(node)[1].tag == 0xa0
            then Sits(b, Kids(node)[1], at) &&
                 SignedDataContent(b, Place(node, offset)) == Some(Place(Kids(node)[1], at))
            else SignedDataContent(b, Place(node, offset)).None?
  {
    hide Sits, Children, ElementAt, Encode, Content, HeaderSize, UnderMemberBody;
    TypesAreConstants();
    KidsAreListed(b, node, offset);
    var info := ContentChildren(b, Place(node, offset)).value;
    at := if |info| == 2 then info[1].start else 0;
    if |info| == 2 {
      assert info[0].element == Place(Kids(node)[0], info[0].start) && info[1].element == Place(Kids(node)[1], at);
      TypeIsRecognised(b, Kids(node)[0], info[0].start, SIGNED_DATA_OID);
    }
  }

  ghost predicate SignedDataShape(fields: seq<Node>) {
    |fields| >= 4 && fields[0].tag == 0x02 && fields[1].tag == 0x31 && fields[2].tag == 0x30 &&
    fields[|fields| - 1].tag == 0x31
  }

  lemma FieldsMatch(b: seq<Octet>, node: Node, offset: nat) returns (at: nat)
    requires Sits(b, node, offset) && Constructed(node.tag)
    ensures Place(node, offset).contentEnd <= |b|
    ensures if |Kids(node)| == 1 && Kids(node)[0].tag == 0x30 && SignedDataShape(Kids(Kids(node)[0]))
            then Sits(b, Kids(Kids(node)[0])[2], at) &&
                 SignedDataFields(b, Place(node, offset)).Some? &&
                 SignedDataFields(b, Place(node, offset)).value[2].element == Place(Kids(Kids(node)[0])[2], at)
            else SignedDataFields(b, Place(node, offset)).None?
  {
    hide Sits, Children, ElementAt, Encode, Content, HeaderSize;
    at := 0;
    KidsAreListed(b, node, offset);
    var explicitContent := ContentChildren(b, Place(node, offset)).value;
    if |explicitContent| == 1 && explicitContent[0].element.tag == 0x30 {
      var sequence, start := Kids(node)[0], explicitContent[0].start;
      assert Sits(b, sequence, start) && explicitContent[0].element == Place(sequence, start);
      KidsAreListed(b, sequence, start);
      at := ListedFields(b, Kids(sequence), ContentChildren(b, Place(sequence, start)).value);
    }
  }

  lemma ListedFields(b: seq<Octet>, forest: seq<Node>, list: seq<Placed>) returns (at: nat)
    requires Listed(b, forest, list)
    ensures SignedDataShape(forest) <==>
              |list| >= 4 && list[0].element.tag == 0x02 && list[1].element.tag == 0x31 &&
              list[2].element.tag == 0x30 && list[|list| - 1].element.tag == 0x31
    ensures |list| >= 4 ==> Sits(b, forest[2], at) && list[2].element == Place(forest[2], at)
  {
    at := if |list| >= 4 then list[2].start else 0;
    if |list| >= 4 {
      assert list[0].element == Place(forest[0], list[0].start);
      assert list[1].element == Place(forest[1], list[1].start);
      assert list[2].element == Place(forest[2], list[2].start);
      assert list[|list| - 1].element == Place(forest[|list| - 1], list[|list| - 1].start);
    }
  }

  lemma EncapsulatedMatches(b: seq<Octet>, node: Node, offset: nat)
    requires Sits(b, node, offset) && Constructed(node.tag)
    ensures Place(node, offset).contentEnd <= |b|
    ensures EncapsulatedContent(b, Place(node, offset)) == EncapsulatedPayload(Kids(node))
  {
    hide Sits, Children, ElementAt, Encode, Content, HeaderSize, UnderMemberBody;
    TypesAreConstants();
    KidsAreListed(b, node, offset);
    var kids, list := Kids(node), ContentChildren(b, Place(node, offset)).value;
    if kids != [] {
      assert list[0].element == Place(kids[0], list[0].start);
      TypeIsRecognised(b, kids[0], list[0].start, DATA_OID);
    }
    if |kids| == 2 && kids[1].tag == 0xa0 {
      assert Sits(b, kids[1], list[1].start) && list[1].element == Place(kids[1], list[1].start);
      KidsAreListed(b, kids[1], list[1].start);
      var wrapped := ContentChildren(b, Place(kids[1], list[1].start)).value;
      if |wrapped| == 1 {
        assert wrapped[0].element == Place(Kids(kids[1])[0], wrapped[0].start);
        OctetsAreSegments(b, Kids(kids[1])[0], wrapped[0].start);
      }
    }
  }

  lemma RootIsRead(root: Node)
    requires Sits(Encode(root), root, 0) && Constructed(root.tag)
    ensures ElementAt(Encode(root), 0, |Encode(root)|, 0) == Some(Place(root, 0))
    ensures Place(root, 0).tag == root.tag && Place(root, 0).contentStart <= Place(root, 0).contentEnd
    ensures Place(root, 0).contentEnd <= Place(root, 0).end == |Encode(root)|
    ensures Visit(Encode(root), Place(root, 0).contentStart, Place(root, 0).contentEnd, 1, 0) ==
            Some(Size(root.children))
  {
    hide Encode, EncodeAll, Holds, ElementAt, VisitFrom;
    var b := Encode(root);
    SitsReads(b, 0, |b|, root);
    ContentSits(b, root, 0);
    PartsOf(root);
    ForestIsVisited(b, HeaderSize(root), root.children, 1, 0);
  }

  lemma PlaceKeepsTag(node: Node, offset: nat)
    ensures Place(node, offset).tag == node.tag
  {
  }

  lemma PlacedMessageMatches(b: seq<Octet>, root: Node)
    requires Sits(b, root, 0) && root.tag == 0x30
    requires ElementAt(b, 0, |b|, 0) == Some(Place(root, 0)) && Place(root, 0).end == |b|
    requires Visit(b, Place(root, 0).contentStart, Place(root, 0).contentEnd, 1, 0).Some?
    ensures SignedContent(b) == EnvelopeContent(root)
  {
    hide Sits, Children, Content, HeaderSize, Encode, ElementAt, Visit, Place, WellFormed;
    hide SignedDataContent, SignedDataFields, EncapsulatedContent, EncapsulatedPayload;
    assert Place(root, 0).tag == 0x30 by { PlaceKeepsTag(root, 0); }
    var content := ContentInfoMatches(b, root, 0);
    if SignedDataContent(b, Place(root, 0)).Some? {
      var explicitContent := Kids(root)[1];
      var fields := FieldsMatch(b, explicitContent, content);
      if SignedDataFields(b, Place(explicitContent, content)).Some? {
        EncapsulatedMatches(b, Kids(Kids(explicitContent)[0])[2], fields);
      }
    }
  }

  /** On the encoding of a tree within the bounds the validator returns what the tree's
      shape says, be it an attached payload, a detached one or a refusal. */
  lemma MessageMatches(root: Node)
    requires WellFormed(root) && Height(root) <= MAX_DEPTH && NodeSize(root) <= MAX_ELEMENTS + 1
    ensures SignedContent(Encode(root)) == EnvelopeContent(root)
  {
    assert Sits(Encode(root), root, 0);
    if root.tag == 0x30 {
      RootIsRead(root);
      PlacedMessageMatches(Encode(root), root);
    } else {
      SitsReads(Encode(root), 0, |Encode(root)|, root);
    }
  }

  // ---------- Every accepted message is the encoding of a tree ----------

  lemma HeaderIsWritten(b: seq<Octet>, offset: nat, limit: nat, header: nat, length: nat)
    requires offset + 2 <= limit <= |b| && b[offset + 1] != INDEFINITE_LENGTH
    requires DefiniteLength(b, offset, limit) == Some((header, length))
    ensures LengthFits(header - 2, length) && Header(b[offset], header - 2, length) == b[offset..offset + header]
  {
    hide LengthDigits, BigEndian, Pow256;
    var digits := b[offset + 2..offset + header];
    DigitsWritten(digits);
    assert b[offset..offset + header] == [b[offset], b[offset + 1]] + digits;
    if header == 2 {
      NoDigits(length);
    }
  }

  lemma NoDigits(length: nat)
    ensures LengthDigits(length, 0) == []
  {
  }

  lemma IndefiniteElement(b: seq<Octet>, offset: nat, limit: nat, e: Element)
    requires limit <= |b| && ElementAt(b, offset, limit, 0) == Some(e) && b[offset + 1] == INDEFINITE_LENGTH
    ensures EndOfContents(b, offset + 2, limit, 0, 0) == Some(e.contentEnd) && Constructed(e.tag) && !HighTag(e.tag)
    ensures b[offset..e.end] == [e.tag, INDEFINITE_LENGTH] + b[e.contentStart..e.contentEnd] + [0, 0]
    ensures e.contentStart == offset + 2
  {
    IndefiniteReading(b, offset, limit, e);
    hide ElementAt, EndOfContents;
    EndOfContentsAreZeros(b, offset + 2, limit, 0, 0);
  }

  lemma IndefiniteReading(b: seq<Octet>, offset: nat, limit: nat, e: Element)
    requires limit <= |b| && ElementAt(b, offset, limit, 0) == Some(e) && b[offset + 1] == INDEFINITE_LENGTH
    ensures EndOfContents(b, offset + 2, limit, 0, 0) == Some(e.contentEnd) && Constructed(e.tag) && !HighTag(e.tag)
    ensures e.tag == b[offset] && e.contentStart == offset + 2 && e.end == e.contentEnd + 2
  {
  }

  lemma IndefiniteNode(b: seq<Octet>, offset: nat, limit: nat, e: Element, inner: seq<Node>)
    requires limit <= |b| && ElementAt(b, offset, limit, 0) == Some(e) && b[offset + 1] == INDEFINITE_LENGTH
    requires AllWellFormed(inner) && EncodeAll(inner) == b[e.contentStart..e.contentEnd]
    requires ForestHeight(inner) < MAX_DEPTH && Size(inner) <= MAX_ELEMENTS
    ensures WellFormed(Cons(e.tag, Indefinite, inner))
    ensures Encode(Cons(e.tag, Indefinite, inner)) == b[offset..e.end]
  {
    hide ElementAt, EndOfContents;
    IndefiniteElement(b, offset, limit, e);
    ClosedForestHasNoMarker(b, offset + 2, limit, 0, inner, 0);
  }

  lemma DefiniteElement(b: seq<Octet>, offset: nat, limit: nat, e: Element) returns (size: nat)
    requires limit <= |b| && ElementAt(b, offset, limit, 0) == Some(e) && b[offset + 1] != INDEFINITE_LENGTH
    ensures LengthFits(size, e.contentEnd - e.contentStart) && !HighTag(e.tag)
    ensures b[offset..e.end] == Header(e.tag, size, e.contentEnd - e.contentStart) + b[e.contentStart..e.contentEnd]
  {
    hide *;
    var header, length := DefiniteReading(b, offset, limit, e);
    HeaderIsWritten(b, offset, limit, header, length);
    size := header - 2;
    assert b[offset..e.end] == b[offset..offset + header] + b[offset + header..e.end];
  }

  lemma DefiniteReading(b: seq<Octet>, offset: nat, limit: nat, e: Element) returns (header: nat, length: nat)
    requires limit <= |b| && ElementAt(b, offset, limit, 0) == Some(e) && b[offset + 1] != INDEFINITE_LENGTH
    ensures offset + 2 <= limit && DefiniteLength(b, offset, limit) == Some((header, length)) && header >= 2
    ensures e.tag == b[offset] && !HighTag(e.tag)
    ensures e.contentStart == offset + header && e.contentEnd == e.end == e.contentStart + length
  {
    hide DefiniteLength, HighTag;
    var reading := DefiniteLength(b, offset, limit).value;
    header, length := reading.0, reading.1;
  }

  lemma IndefiniteIsConstructed(b: seq<Octet>, offset: nat, limit: nat, e: Element)
    requires limit <= |b| && ElementAt(b, offset, limit, 0) == Some(e) && b[offset + 1] == INDEFINITE_LENGTH
    ensures Constructed(e.tag)
  {
  }

  /** The node read at `offset`, given the forest in its content when it is constructed. */
  lemma NodeOf(b: seq<Octet>, offset: nat, limit: nat, e: Element, inner: seq<Node>) returns (node: Node)
    requires limit <= |b| && ElementAt(b, offset, limit, 0) == Some(e)
    requires Constructed(e.tag) ==> AllWellFormed(inner) && EncodeAll(inner) == b[e.contentStart..e.contentEnd]
    requires Constructed(e.tag) ==> ForestHeight(inner) < MAX_DEPTH && Size(inner) <= MAX_ELEMENTS
    ensures WellFormed(node) && Encode(node) == b[offset..e.end] && node.tag == e.tag
    ensures node.Cons? == Constructed(e.tag) && (node.Cons? ==> node.children == inner)
  {
    hide ElementAt, EndOfContents, EncodeAll, Header;
    if b[offset + 1] == INDEFINITE_LENGTH {
      IndefiniteIsConstructed(b, offset, limit, e);
      IndefiniteNode(b, offset, limit, e, inner);
      node := Cons(e.tag, Indefinite, inner);
    } else {
      var size := DefiniteElement(b, offset, limit, e);
      node := if Constructed(e.tag) then Cons(e.tag, Definite(size), inner)
              else Prim(e.tag, size, b[e.contentStart..e.contentEnd]);
    }
  }

  lemma {:induction false} EndOfContentsAreZeros(b: seq<Octet>, cursor: nat, limit: nat, depth: nat, elements: nat)
    requires limit <= |b| && EndOfContents(b, cursor, limit, depth, elements).Some?
    ensures b[EndOfContents(b, cursor, limit, depth, elements).value] == 0
    ensures b[EndOfContents(b, cursor, limit, depth, elements).value + 1] == 0
    decreases limit - cursor
  {
    if b[cursor] != 0 || b[cursor + 1] != 0 {
      EndOfContentsAreZeros(b, ElementAt(b, cursor, limit, depth + 1).value.end, limit, depth, elements + 1);
    }
  }

  lemma {:induction false} ClosedForestHasNoMarker(b: seq<Octet>, cursor: nat, limit: nat, depth: nat,
      forest: seq<Node>, elements: nat)
    requires limit <= |b| && EndOfContents(b, cursor, limit, depth, elements).Some?
    requires AllWellFormed(forest) && ForestHeight(forest) <= MAX_DEPTH && Size(forest) <= MAX_ELEMENTS + 1
    requires EncodeAll(forest) == b[cursor..EndOfContents(b, cursor, limit, depth, elements).value]
    ensures NoEndMarker(forest)
    decreases forest
  {
    hide ElementAt, EndOfContents, Encode, EncodeAll, WellFormed, AllWellFormed, ForestHeight, Size, Sits;
    if forest == [] {
    } else {
      var stop := EndOfContents(b, cursor, limit, depth, elements).value;
      ForestSplits(b, cursor, forest);
      SitsReads(b, cursor, stop, forest[0]);
      EndOfContentsGoesOn(b, cursor, limit, depth, elements);
      MarkerIsZeros(b, cursor, forest[0]);
      ReadingIsDeterminate(b, cursor, stop, limit, 0, depth + 1);
      assert b[cursor + |Encode(forest[0])|..stop] == EncodeAll(forest)[|Encode(forest[0])|..] ==
             EncodeAll(forest[1..]);
      ClosedForestHasNoMarker(b, cursor + |Encode(forest[0])|, limit, depth, forest[1..], elements + 1);
    }
  }

  lemma EndOfContentsGoesOn(b: seq<Octet>, cursor: nat, limit: nat, depth: nat, elements: nat)
    requires limit <= |b| && EndOfContents(b, cursor, limit, depth, elements).Some?
    requires EndOfContents(b, cursor, limit, depth, elements).value != cursor
    ensures !(b[cursor] == 0 && b[cursor + 1] == 0) && ElementAt(b, cursor, limit, depth + 1).Some?
    ensures EndOfContents(b, cursor, limit, depth, elements) ==
              EndOfContents(b, ElementAt(b, cursor, limit, depth + 1).value.end, limit, depth, elements + 1)
  {
  }

  lemma MarkerIsZeros(b: seq<Octet>, offset: nat, node: Node)
    requires Sits(b, node, offset)
    ensures EndMarker(node) ==> b[offset] == 0 && b[offset + 1] == 0
  {
    var code := Encode(node);
    assert code[0] == b[offset] && code[1] == b[offset + 1];
  }

  /** Whatever the counting walk accepts is an encoded forest of exactly the counted size,
      no deeper than the walk allows. */
  lemma {:induction false} ForestOf(b: seq<Octet>, offset: nat, end: nat, depth: nat, elements: nat)
    returns (forest: seq<Node>)
    requires offset <= end <= |b| && 1 <= depth <= MAX_DEPTH && elements <= MAX_ELEMENTS
    requires VisitFrom(b, offset, end, depth, elements).Some?
    ensures AllWellFormed(forest) && EncodeAll(forest) == b[offset..end]
    ensures depth + ForestHeight(forest) <= MAX_DEPTH
    ensures VisitFrom(b, offset, end, depth, elements).value == elements + Size(forest) <= MAX_ELEMENTS
    decreases end - offset
  {
    hide *;
    if offset == end {
      forest := [];
      NothingVisited(b, offset, depth, elements);
    } else {
      VisitUnfolds(b, offset, end, depth, elements);
      var e := ElementAt(b, offset, end, 0).value;
      var inner := [];
      var count := elements + 1;
      if Constructed(e.tag) {
        inner := ForestOf(b, e.contentStart, e.contentEnd, depth + 1, elements + 1);
        count := count + Size(inner);
      }
      var node := NodeOf(b, offset, end, e, inner);
      VisitSteps(b, offset, end, depth, elements, e, count);
      var rest := ForestOf(b, e.end, end, depth, count);
      forest := [node] + rest;
      Measures(node);
      JoinForest(node, rest);
      assert b[offset..end] == b[offset..e.end] + b[e.end..end];
    }
  }

  lemma Measures(node: Node)
    ensures Height(node) == if node.Cons? then 1 + ForestHeight(node.children) else 0
    ensures NodeSize(node) == if node.Cons? then 1 + Size(node.children) else 1
  {
  }

  lemma NothingVisited(b: seq<Octet>, offset: nat, depth: nat, elements: nat)
    requires offset <= |b|
    ensures VisitFrom(b, offset, offset, depth, elements) == Some(elements)
    ensures AllWellFormed([]) && EncodeAll([]) == [] && ForestHeight([]) == 0 && Size([]) == 0
  {
  }

  lemma VisitUnfolds(b: seq<Octet>, offset: nat, end: nat, depth: nat, elements: nat)
    requires offset < end <= |b| && depth <= MAX_DEPTH && VisitFrom(b, offset, end, depth, elements).Some?
    ensures ElementAt(b, offset, end, 0).Some? && elements < MAX_ELEMENTS
    ensures var e := ElementAt(b, offset, end, 0).value;
            Constructed(e.tag) ==>
              depth < MAX_DEPTH && VisitFrom(b, e.contentStart, e.contentEnd, depth + 1, elements + 1).Some?
  {
  }

  lemma JoinForest(node: Node, rest: seq<Node>)
    requires WellFormed(node) && AllWellFormed(rest)
    ensures AllWellFormed([node] + rest) && EncodeAll([node] + rest) == Encode(node) + EncodeAll(rest)
    ensures Size([node] + rest) == NodeSize(node) + Size(rest)
    ensures ForestHeight([node] + rest) ==
            if Height(node) > ForestHeight(rest) then Height(node) else ForestHeight(rest)
  {
    var all := [node] + rest;
    assert all[0] == node && all[1..] == rest;
  }

  // ---------- Main results ----------

  /** A signed message within the reader's bounds: 64 nested levels, and 20,000 elements
      below the root. */
  ghost predicate SignedMessage(root: Node, content: Option<seq<Octet>>) {
    WellFormed(root) && Height(root) <= 64 && NodeSize(root) <= 20_001 && EnvelopeContent(root) == Some(content)
  }

  lemma MessageOf(b: seq<Octet>) returns (root: Node)
    requires SignedContent(b).Some?
    ensures SignedMessage(root, SignedContent(b).value) && Encode(root) == b
  {
    var e := ElementAt(b, 0, |b|, 0).value;
    var inner := ForestOf(b, e.contentStart, e.contentEnd, 1, 0);
    root := NodeOf(b, 0, |b|, e, inner);
    assert b[0..|b|] == b;
    hide SignedContent, EnvelopeContent, Encode, ElementAt, Visit, WellFormed;
    MessageMatches(root);
  }

  /** The validator accepts exactly the encodings of signed messages, and returns their content. */
  lemma AcceptsExactlyMessages(b: seq<Octet>, content: Option<seq<Octet>>)
    ensures SignedContent(b) == Some(content) <==> exists root :: SignedMessage(root, content) && Encode(root) == b
  {
    if SignedContent(b) == Some(content) {
      var root := MessageOf(b);
    }
    forall root | SignedMessage(root, content) && Encode(root) == b
      ensures SignedContent(b) == Some(content)
    {
      MessageMatches(root);
    }
  }

  /** For one tree the bounds are exact: past 64 levels or 20,000 elements it is refused. */
  lemma BoundsAreExact(root: Node, content: Option<seq<Octet>>)
    requires WellFormed(root)
    ensures SignedContent(Encode(root)) == Some(content) <==> SignedMessage(root, content)
  {
    hide SignedContent, EnvelopeContent, Encode;
    if SignedContent(Encode(root)) == Some(content) {
      var other := MessageOf(Encode(root));
      EncodingsArePrefixFree(root, other, [], []);
    } else if SignedMessage(root, content) {
      MessageMatches(root);
    }
  }

  /** Everything of a message but its payload: the forms of the lengths that enclose the
      payload and the fields RFC 5652 puts beside it. */
  datatype Wrapping = Wrapping(message: Form, explicitContent: Form, signedData: Form, encapsulated: Form,
      explicitPayload: Form, version: Node, algorithms: Node, optionalFields: seq<Node>, signers: Node)

  function Wrap(w: Wrapping, octets: Node): Node {
    var encapsulated := Cons(0x30, w.encapsulated, [DATA_TYPE, Cons(0xa0, w.explicitPayload, [octets])]);
    var fields := [w.version, w.algorithms, encapsulated] + w.optionalFields + [w.signers];
    Cons(0x30, w.message, [SIGNED_DATA_TYPE, Cons(0xa0, w.explicitContent, [Cons(0x30, w.signedData, fields)])])
  }

  /** However the payload is cut into nested segments and however the lengths around it are
      written, unwrapping a wrapped payload gives it back. */
  lemma WrappedPayloadIsReturned(w: Wrapping, octets: Node, payload: seq<Octet>)
    requires w.version.tag == 0x02 && w.algorithms.tag == 0x31 && w.signers.tag == 0x31
    requires Segments(octets) == Some(payload) && payload != []
    requires WellFormed(Wrap(w, octets))
    requires Height(Wrap(w, octets)) <= 64 && NodeSize(Wrap(w, octets)) <= 20_001
    ensures SignedContent(Encode(Wrap(w, octets))) == Some(Some(payload))
  {
    hide SignedContent, Encode, WellFormed, Height, NodeSize, Segments;
    MessageMatches(Wrap(w, octets));
  }
}
