/**
 The CMS envelope of a signed invoice: the validator of src/aruba.ts that accepts a
 SignedData message (RFC 5652, sections 3, 5.1 and 5.2) and returns its encapsulated octets.
 */
module SignedData {
  import opened Options
  import opened Ber

  const SIGNED_DATA_OID: seq<Octet> := [0x06, 0x09, 0x2a, 0x86, 0x48, 0x86, 0xf7, 0x0d, 0x01, 0x07, 0x02]
  const DATA_OID: seq<Octet> := [0x06, 0x09, 0x2a, 0x86, 0x48, 0x86, 0xf7, 0x0d, 0x01, 0x07, 0x01]

  /** An element together with the offset it starts at. */
  datatype Placed = Placed(start: nat, element: Element)

  /** The element's content lies in [start, end) of the buffer. */
  predicate Within(b: seq<Octet>, p: Placed, start: nat, end: nat) {
    start <= p.start && p.start + 2 <= p.element.contentStart <= p.element.contentEnd <= p.element.end <= end <= |b|
  }

  predicate AllWithin(b: seq<Octet>, list: seq<Placed>, start: nat, end: nat) {
    forall i {:trigger list[i]} :: 0 <= i < |list| ==> Within(b, list[i], start, end)
  }

  // ---------- What the validator computes ----------

  function Children(b: seq<Octet>, start: nat, end: nat): (r: Option<seq<Placed>>)
    requires start <= end <= |b|
    ensures r.Some? ==> AllWithin(b, r.value, start, end)
    decreases end - start
  {
    if start == end then Some([])
    else
      var e :- ElementAt(b, start, end, 0);
      var rest :- Children(b, e.end, end);
      Some([Placed(start, e)] + rest)
  }

  function ContentChildren(b: seq<Octet>, e: Element): (r: Option<seq<Placed>>)
    requires e.contentStart <= e.contentEnd <= |b|
    ensures r.Some? ==> AllWithin(b, r.value, e.contentStart, e.contentEnd)
  {
    Children(b, e.contentStart, e.contentEnd)
  }

  /** The octet string in `e`: one segment, or the segments of a constructed string in order. */
  function Octets(b: seq<Octet>, e: Element): Option<seq<Octet>>
    requires e.contentStart <= e.contentEnd <= |b|
    decreases e.contentEnd - e.contentStart, 1, 0
  {
    if e.tag == 0x04 then Some(b[e.contentStart..e.contentEnd])
    else if e.tag != 0x24 then None
    else
      var list :- ContentChildren(b, e);
      AllOctets(b, list, e.contentStart, e.contentEnd)
  }

  function AllOctets(b: seq<Octet>, list: seq<Placed>, start: nat, end: nat): Option<seq<Octet>>
    requires AllWithin(b, list, start, end)
    requires start <= end
    decreases end - start, 0, |list|
  {
    if list == [] then Some([])
    else
      var head :- Octets(b, list[0].element);
      var tail :- AllOctets(b, list[1..], start, end);
      Some(head + tail)
  }

  /** Elements counted after walking [start, end) at `depth`, or None past a limit. */
  function Visit(b: seq<Octet>, start: nat, end: nat, depth: nat, elements: nat): (r: Option<nat>)
    requires start <= end <= |b|
    decreases end - start, 1
  {
    if depth > MAX_DEPTH then None else VisitFrom(b, start, end, depth, elements)
  }

  function VisitFrom(b: seq<Octet>, offset: nat, end: nat, depth: nat, elements: nat): (r: Option<nat>)
    requires offset <= end <= |b|
    decreases end - offset, 0
  {
    if offset == end then Some(elements)
    else
      var e :- ElementAt(b, offset, end, 0);
      :- Need(elements + 1 <= MAX_ELEMENTS);
      var inner :- if Constructed(e.tag) then Visit(b, e.contentStart, e.contentEnd, depth + 1, elements + 1)
                   else Some(elements + 1);
      VisitFrom(b, e.end, end, depth, inner)
  }

  /** ContentInfo: the content of an element of type signed-data. */
  function SignedDataContent(b: seq<Octet>, root: Element): (r: Option<Element>)
    requires root.contentStart <= root.contentEnd <= |b|
    ensures r.Some? ==> r.value.contentStart <= r.value.contentEnd <= |b|
  {
    var info :- ContentChildren(b, root);
    :- Need(|info| == 2 && b[info[0].start..info[0].element.end] == SIGNED_DATA_OID && info[1].element.tag == 0xa0);
    Some(info[1].element)
  }

  /** The SignedData sequence inside the explicit tag, as its fields. */
  function SignedDataFields(b: seq<Octet>, content: Element): (r: Option<seq<Placed>>)
    requires content.contentStart <= content.contentEnd <= |b|
    ensures r.Some? ==> |r.value| >= 4 && AllWithin(b, r.value, 0, |b|)
  {
    var explicitContent :- ContentChildren(b, content);
    :- Need(|explicitContent| == 1 && explicitContent[0].element.tag == 0x30);
    var fields :- ContentChildren(b, explicitContent[0].element);
    :- Need(|fields| >= 4 && fields[0].element.tag == 0x02 && fields[1].element.tag == 0x31 &&
            fields[2].element.tag == 0x30 && fields[|fields| - 1].element.tag == 0x31);
    Some(fields)
  }

  /** EncapsulatedContentInfo: Some(None) when the content is detached. */
  function EncapsulatedContent(b: seq<Octet>, e: Element): Option<Option<seq<Octet>>>
    requires e.contentStart <= e.contentEnd <= |b|
  {
    var encapsulated :- ContentChildren(b, e);
    :- Need(encapsulated != [] && b[encapsulated[0].start..encapsulated[0].element.end] == DATA_OID);
    EncapsulatedOctets(b, encapsulated)
  }

  /** The encapsulated content of a message: None when it is refused, Some(None) when the
      content is detached, and otherwise the octets themselves. */
  function SignedContent(b: seq<Octet>): Option<Option<seq<Octet>>> {
    var root :- ElementAt(b, 0, |b|, 0);
    :- Need(root.tag == 0x30 && root.end == |b|);
    var content :- SignedDataContent(b, root);
    var fields :- SignedDataFields(b, content);
    var payload :- EncapsulatedContent(b, fields[2].element);
    var _ :- Visit(b, root.contentStart, root.contentEnd, 1, 0);
    Some(payload)
  }

  function EncapsulatedOctets(b: seq<Octet>, encapsulated: seq<Placed>): Option<Option<seq<Octet>>>
    requires AllWithin(b, encapsulated, 0, |b|)
  {
    if |encapsulated| <= 1 then Some(None)
    else
      :- Need(|encapsulated| == 2 && encapsulated[1].element.tag == 0xa0);
      var explicitPayload :- ContentChildren(b, encapsulated[1].element);
      :- Need(|explicitPayload| == 1);
      var payload :- Octets(b, explicitPayload[0].element);
      :- Need(payload != []);
      Some(Some(payload))
  }

  // ---------- The validator as written ----------

  /** Each listed element starts where the one before it ends; the last one ends at `end`. */
  predicate Tiles(list: seq<Placed>, start: nat, end: nat) {
    if list == [] then start == end
    else list[|list| - 1].element.end == end && Tiles(list[..|list| - 1], start, list[|list| - 1].start)
  }

  /** The rest of a list behind what is already read. */
  function Behind(read: seq<Placed>, rest: Option<seq<Placed>>): Option<seq<Placed>> {
    match rest
    case None => None
    case Some(list) => Some(read + list)
  }

  lemma ChildrenFromStart(b: seq<Octet>, start: nat, end: nat)
    requires start <= end <= |b|
    ensures Children(b, start, end) == Behind([], Children(b, start, end))
  {
    hide Children;
    assert forall list: seq<Placed> :: [] + list == list;
  }

  lemma NextChild(b: seq<Octet>, offset: nat, end: nat, read: seq<Placed>)
    requires offset < end <= |b|
    ensures match ElementAt(b, offset, end, 0)
            case None => Children(b, offset, end) == None
            case Some(e) =>
              var next := read + [Placed(offset, e)];
              Behind(read, Children(b, offset, end)) == Behind(next, Children(b, e.end, end)) &&
              next[..|next| - 1] == read
  {
    hide ElementAt;
    match ElementAt(b, offset, end, 0)
    case None =>
    case Some(e) =>
      var p, rest := Placed(offset, e), Children(b, e.end, end);
      assert (read + [p])[..|read + [p]| - 1] == read;
      if rest.Some? {
        assert read + ([p] + rest.value) == (read + [p]) + rest.value;
      }
  }

  lemma NoMoreChildren(b: seq<Octet>, end: nat, read: seq<Placed>)
    requires end <= |b|
    ensures Behind(read, Children(b, end, end)) == Some(read)
  {
    assert read + [] == read;
  }

  method ReadChildren(b: seq<Octet>, start: nat, end: nat) returns (r: Option<seq<Placed>>)
    requires start <= end <= |b|
    ensures r == Children(b, start, end)
    ensures r.Some? ==> Tiles(r.value, start, end)
  {
    hide ElementAt, Children;
    var result := [];
    ChildrenFromStart(b, start, end);
    var offset := start;
    while offset < end
      invariant start <= offset <= end
      invariant Tiles(result, start, offset)
      invariant Children(b, start, end) == Behind(result, Children(b, offset, end))
      decreases end - offset
    {
      var element := DerElement(b, offset, end, 0);
      NextChild(b, offset, end, result);
      if element.None? { return None; }
      result := result + [Placed(offset, element.value)];
      offset := element.value.end;
    }
    // The closing check of the source, offset !== end, cannot fail.
    NoMoreChildren(b, end, result);
    return Some(result);
  }

  /** The counting walk: `elements` is the counter shared by all levels. */
  method WalkElements(b: seq<Octet>, start: nat, end: nat, depth: nat, elements: nat) returns (r: Option<nat>)
    requires start <= end <= |b|
    ensures r == Visit(b, start, end, depth, elements)
    decreases end - start
  {
    if depth > MAX_DEPTH { return None; }
    var offset := start;
    var count: nat := elements;
    while offset < end
      invariant start <= offset <= end
      invariant Visit(b, start, end, depth, elements) == VisitFrom(b, offset, end, depth, count)
      decreases end - offset
    {
      var element := DerElement(b, offset, end, 0);
      if element.None? { return None; }
      count := count + 1;
      if count > MAX_ELEMENTS { return None; }
      if Constructed(element.value.tag) {
        var inner := WalkElements(b, element.value.contentStart, element.value.contentEnd, depth + 1, count);
        if inner.None? { return None; }
        count := inner.value;
      }
      offset := element.value.end;
    }
    assert offset == end;
    return Some(count);
  }

  method ReadSignedDataContent(b: seq<Octet>, root: Element) returns (r: Option<Element>)
    requires root.contentStart <= root.contentEnd <= |b|
    ensures r == SignedDataContent(b, root)
  {
    var info := ReadChildren(b, root.contentStart, root.contentEnd);
    if info.None? || |info.value| != 2 || b[info.value[0].start..info.value[0].element.end] != SIGNED_DATA_OID
       || info.value[1].element.tag != 0xa0 { return None; }
    return Some(info.value[1].element);
  }

  method ReadSignedDataFields(b: seq<Octet>, content: Element) returns (r: Option<seq<Placed>>)
    requires content.contentStart <= content.contentEnd <= |b|
    ensures r == SignedDataFields(b, content)
  {
    hide Children, ElementAt;
    var explicitContent := ReadChildren(b, content.contentStart, content.contentEnd);
    if explicitContent.None? || |explicitContent.value| != 1 ||
      explicitContent.value[0].element.tag != 0x30 { return None; }
    var signedData := explicitContent.value[0].element;
    var fields := ReadChildren(b, signedData.contentStart, signedData.contentEnd);
    if fields.None? || |fields.value| < 4 || fields.value[0].element.tag != 0x02 || fields.value[1].element.tag != 0x31
       || fields.value[2].element.tag != 0x30 || fields.value[|fields.value| - 1].element.tag != 0x31 { return None; }
    return fields;
  }

  method ReadEncapsulatedContent(b: seq<Octet>, e: Element) returns (r: Option<Option<seq<Octet>>>)
    requires e.contentStart <= e.contentEnd <= |b|
    ensures r == EncapsulatedContent(b, e)
  {
    var encapsulated := ReadChildren(b, e.contentStart, e.contentEnd);
    if encapsulated.None? || |encapsulated.value| == 0
       || b[encapsulated.value[0].start..encapsulated.value[0].element.end] != DATA_OID { return None; }
    if |encapsulated.value| == 1 { return Some(None); }
    if |encapsulated.value| != 2 || encapsulated.value[1].element.tag != 0xa0 { return None; }
    var explicitOctets := encapsulated.value[1].element;
    var explicitPayload := ReadChildren(b, explicitOctets.contentStart, explicitOctets.contentEnd);
    if explicitPayload.None? || |explicitPayload.value| != 1 { return None; }
    var payload := Octets(b, explicitPayload.value[0].element);
    if payload.None? || payload.value == [] { return None; }
    return Some(payload);
  }

  method ValidateSignedDataDer(b: seq<Octet>) returns (r: Option<Option<seq<Octet>>>)
    ensures r == SignedContent(b)
  {
    var root := DerElement(b, 0, |b|, 0);
    if root.None? || root.value.tag != 0x30 || root.value.end != |b| { return None; }
    var content := ReadSignedDataContent(b, root.value);
    if content.None? { return None; }
    var fields := ReadSignedDataFields(b, content.value);
    if fields.None? { return None; }
    var payload := ReadEncapsulatedContent(b, fields.value[2].element);
    if payload.None? { return None; }
    var visited := WalkElements(b, root.value.contentStart, root.value.contentEnd, 1, 0);
    if visited.None? { return None; }
    return payload;
  }
}
