/**
 The element reader of src/aruba.ts for the BER encodings found in signed invoices.
 `ElementAt` is what the reader computes and `DerElement` the loop that computes it;
 BerEncoding holds the encodings it is proved against.
 */
module Ber {
  import opened Options

  type Octet = x: int | 0 <= x < 256

  const MAX_DEPTH := 64
  const MAX_ELEMENTS := 20_000
  const INDEFINITE_LENGTH := 0x80

  /** Offsets of one element: `end` lies past the end-of-contents octets, if any. */
  datatype Element = Element(tag: Octet, contentStart: nat, contentEnd: nat, end: nat)

  /** Bit 6 of the identifier octet. */
  predicate Constructed(tag: Octet) {
    (tag / 32) % 2 == 1
  }

  /** Identifier octets that announce a multi-octet tag number, which the reader refuses. */
  predicate HighTag(tag: Octet) {
    tag % 32 == 31
  }

  function BigEndian(octets: seq<Octet>): nat {
    if octets == [] then 0
    else BigEndian(octets[..|octets| - 1]) * 256 + octets[|octets| - 1]
  }

  /** The definite length at `offset + 1`: header size and content length. */
  function DefiniteLength(b: seq<Octet>, offset: nat, limit: nat): (r: Option<(nat, nat)>)
    requires offset + 2 <= limit <= |b|
    requires b[offset + 1] != INDEFINITE_LENGTH
    ensures r.Some? ==> r.value.0 >= 2 && offset + r.value.0 <= limit
  {
    var first := b[offset + 1];
    if first < 128 then Some((2, first))
    else
      var size := first - 128;
      if size > 4 || offset + 2 + size > limit then None
      else
        var length := BigEndian(b[offset + 2..offset + 2 + size]);
        if length < 128 then None else Some((2 + size, length))
  }

  function ElementAt(b: seq<Octet>, offset: nat, limit: nat, depth: nat): (r: Option<Element>)
    requires limit <= |b|
    ensures r.Some? ==>
              offset + 2 <= r.value.contentStart <= r.value.contentEnd <= r.value.end <= limit
    decreases limit - offset, 0
  {
    if depth > MAX_DEPTH || offset + 2 > limit then None
    else
      var tag := b[offset];
      if HighTag(tag) then None
      else if b[offset + 1] == INDEFINITE_LENGTH then
        if !Constructed(tag) then None
        else
          match EndOfContents(b, offset + 2, limit, depth, 0)
          case None => None
          case Some(cursor) => Some(Element(tag, offset + 2, cursor, cursor + 2))
      else
        match DefiniteLength(b, offset, limit)
        case None => None
        case Some((header, length)) =>
          var end := offset + header + length;
          if end > limit then None else Some(Element(tag, offset + header, end, end))
  }

  /** Offset of the end-of-contents octets that close the elements starting at `cursor`. */
  function EndOfContents(b: seq<Octet>, cursor: nat, limit: nat, depth: nat, elements: nat): (r: Option<nat>)
    requires limit <= |b|
    ensures r.Some? ==> cursor <= r.value && r.value + 2 <= limit
    decreases limit - cursor, 1
  {
    if cursor + 2 > limit then None
    else if b[cursor] == 0 && b[cursor + 1] == 0 then Some(cursor)
    else
      match ElementAt(b, cursor, limit, depth + 1)
      case None => None
      case Some(child) =>
        if elements + 1 > MAX_ELEMENTS then None
        else EndOfContents(b, child.end, limit, depth, elements + 1)
  }

  method ReadDefiniteLength(b: seq<Octet>, offset: nat, limit: nat) returns (r: Option<(nat, nat)>)
    requires offset + 2 <= limit <= |b| && b[offset + 1] != INDEFINITE_LENGTH
    ensures r == DefiniteLength(b, offset, limit)
  {
    var firstLength := b[offset + 1];
    if firstLength < 128 { return Some((2, firstLength)); }
    var lengthBytes := firstLength - 128;
    if lengthBytes > 4 || offset + 2 + lengthBytes > limit { return None; }
    var length: nat := 0;
    for index := 0 to lengthBytes
      invariant length == BigEndian(b[offset + 2..offset + 2 + index])
    {
      assert b[offset + 2..offset + 2 + index + 1][..index] == b[offset + 2..offset + 2 + index];
      length := length * 256 + b[offset + 2 + index];
    }
    if length < 128 { return None; }
    return Some((2 + lengthBytes, length));
  }

  /** The reader as written: a cursor moves over the children of an indefinite-length element. */
  method DerElement(b: seq<Octet>, offset: nat, limit: nat, depth: nat) returns (r: Option<Element>)
    requires limit <= |b|
    ensures r == ElementAt(b, offset, limit, depth)
    decreases limit - offset
  {
    hide DefiniteLength, BigEndian;
    if depth > MAX_DEPTH { return None; }
    if offset + 2 > limit { return None; }
    var tag := b[offset];
    var firstLength := b[offset + 1];
    if HighTag(tag) { return None; }
    if firstLength == INDEFINITE_LENGTH {
      if !Constructed(tag) { return None; }
      var contentStart := offset + 2;
      var cursor: nat := contentStart;
      var elements := 0;
      while cursor + 2 <= limit && (b[cursor] != 0 || b[cursor + 1] != 0)
        invariant contentStart <= cursor
        invariant 0 <= elements <= MAX_ELEMENTS
        invariant EndOfContents(b, contentStart, limit, depth, 0) == EndOfContents(b, cursor, limit, depth, elements)
        decreases limit - cursor
      {
        var child := DerElement(b, cursor, limit, depth + 1);
        if child.None? { return None; }
        elements := elements + 1;
        if elements > MAX_ELEMENTS { return None; }
        cursor := child.value.end;
      }
      if cursor + 2 > limit { return None; }
      return Some(Element(tag, contentStart, cursor, cursor + 2));
    }
    var read := ReadDefiniteLength(b, offset, limit);
    if read.None? { return None; }
    var (headerBytes, length) := read.value;
    var start := offset + headerBytes;
    var end := start + length;
    if end > limit { return None; }
    return Some(Element(tag, start, end, end));
  }

  // ---------- The reader looks at nothing past the element it returns ----------

  ghost predicate Agree(b: seq<Octet>, b': seq<Octet>, from: nat, to: nat)
  {
    to <= |b| && to <= |b'| && forall i :: from <= i < to ==> b[i] == b'[i]
  }

  /** An element that is read is read again from every buffer that agrees on it, under
      every limit that holds it and at every smaller depth. */
  lemma {:induction false} ReadingIsLocal(b: seq<Octet>, b': seq<Octet>, offset: nat, limit: nat, limit': nat,
      depth: nat, depth': nat)
    requires limit <= |b| && limit' <= |b'| && depth' <= depth
    requires ElementAt(b, offset, limit, depth).Some?
    requires ElementAt(b, offset, limit, depth).value.end <= limit'
    requires Agree(b, b', offset, ElementAt(b, offset, limit, depth).value.end)
    ensures ElementAt(b', offset, limit', depth') == ElementAt(b, offset, limit, depth)
    decreases limit - offset, 0
  {
    hide EndOfContents, DefiniteLength;
    if b[offset + 1] == INDEFINITE_LENGTH {
      EndOfContentsIsLocal(b, b', offset + 2, limit, limit', depth, depth', 0);
    } else {
      var (header, length) := DefiniteLength(b, offset, limit).value;
      LengthIsLocal(b, b', offset, limit, limit', header, length);
    }
  }

  lemma LengthIsLocal(b: seq<Octet>, b': seq<Octet>, offset: nat, limit: nat, limit': nat, header: nat, length: nat)
    requires offset + 2 <= limit <= |b| && offset + 2 <= limit' <= |b'| && b[offset + 1] != INDEFINITE_LENGTH
    requires DefiniteLength(b, offset, limit) == Some((header, length))
    requires offset + header <= limit' && Agree(b, b', offset, offset + header)
    ensures DefiniteLength(b', offset, limit') == DefiniteLength(b, offset, limit)
  {
    hide BigEndian;
    if b[offset + 1] >= 128 {
      var size := b[offset + 1] - 128;
      assert b[offset + 2..offset + 2 + size] == b'[offset + 2..offset + 2 + size];
    }
  }

  lemma {:induction false} EndOfContentsIsLocal(
      b: seq<Octet>, b': seq<Octet>, cursor: nat, limit: nat, limit': nat, depth: nat, depth': nat, elements: nat)
    requires limit <= |b| && limit' <= |b'| && depth' <= depth
    requires EndOfContents(b, cursor, limit, depth, elements).Some?
    requires EndOfContents(b, cursor, limit, depth, elements).value + 2 <= limit'
    requires Agree(b, b', cursor, EndOfContents(b, cursor, limit, depth, elements).value + 2)
    ensures EndOfContents(b', cursor, limit', depth', elements) == EndOfContents(b, cursor, limit, depth, elements)
    decreases limit - cursor, 1
  {
    if b[cursor] != 0 || b[cursor + 1] != 0 {
      var child := ElementAt(b, cursor, limit, depth + 1).value;
      EndOfContentsIsLocal(b, b', child.end, limit, limit', depth, depth', elements + 1);
      ReadingIsLocal(b, b', cursor, limit, limit', depth + 1, depth' + 1);
    }
  }

  /** Whenever two readings at one offset succeed they are the same element. */
  lemma ReadingIsDeterminate(b: seq<Octet>, offset: nat, limit: nat, limit': nat, depth: nat, depth': nat)
    requires limit <= |b| && limit' <= |b|
    requires ElementAt(b, offset, limit, depth).Some?
    requires ElementAt(b, offset, limit', depth').Some?
    ensures ElementAt(b, offset, limit, depth) == ElementAt(b, offset, limit', depth')
  {
    var top := if limit < limit' then limit' else limit;
    var low := if depth < depth' then depth else depth';
    ReadingIsLocal(b, b, offset, limit, top, depth, low);
    ReadingIsLocal(b, b, offset, limit', top, depth', low);
  }

  /** The limit decides success and nothing else: it must reach the element's end. */
  lemma ReadingIsLimitExact(b: seq<Octet>, b': seq<Octet>, offset: nat, limit: nat, limit': nat, depth: nat)
    requires limit <= |b| && limit' <= |b'|
    requires ElementAt(b, offset, limit, depth).Some?
    requires Agree(b, b', offset, ElementAt(b, offset, limit, depth).value.end)
    ensures ElementAt(b', offset, limit', depth) ==
              if limit' >= ElementAt(b, offset, limit, depth).value.end
              then ElementAt(b, offset, limit, depth)
              else None
  {
    var end := ElementAt(b, offset, limit, depth).value.end;
    if limit' >= end {
      ReadingIsLocal(b, b', offset, limit, limit', depth, depth);
    } else if ElementAt(b', offset, limit', depth).Some? {
      ReadingIsLocal(b, b', offset, limit, end, depth, depth);
      ReadingIsDeterminate(b', offset, limit', end, depth, depth);
    }
  }
}
