/**
 The encodings the reader is proved against: element trees and their octets, as ITU-T X.690
 clauses 8.1.2 (identifier octets), 8.1.3 (length octets) and 8.1.5 (end-of-contents octets) lay
 them out.
 */
module BerEncoding {
  import opened Options
  import opened Ber

  /** How the length of a constructed element is written: in a number of further octets
      (0 for the short form) or not at all, with end-of-contents octets instead. */
  datatype Form = Definite(lengthSize: nat) | Indefinite

  datatype Node =
    | Prim(tag: Octet, lengthSize: nat, content: seq<Octet>)
    | Cons(tag: Octet, form: Form, children: seq<Node>)

  function Pow256(n: nat): nat {
    if n == 0 then 1 else 256 * Pow256(n - 1)
  }

  function LengthDigits(length: nat, size: nat): (r: seq<Octet>)
    ensures |r| == size
  {
    if size == 0 then [] else LengthDigits(length / 256, size - 1) + [length % 256]
  }

  predicate LengthFits(size: nat, length: nat) {
    if size == 0 then length < 128 else size <= 4 && 128 <= length < Pow256(size)
  }

  function Header(tag: Octet, size: nat, length: nat): (r: seq<Octet>)
    ensures |r| == 2 + size
  {
    [tag, if size == 0 then length % 256 else (128 + size) % 256] + LengthDigits(length, size)
  }

  function Encode(node: Node): (r: seq<Octet>)
    ensures |r| >= 2 && r[0] == node.tag
  {
    match node
    case Prim(tag, size, content) => Header(tag, size, |content|) + content
    case Cons(tag, Definite(size), children) => Header(tag, size, |EncodeAll(children)|) + EncodeAll(children)
    case Cons(tag, Indefinite, children) => [tag, 0x80] + EncodeAll(children) + [0, 0]
  }

  function EncodeAll(forest: seq<Node>): seq<Octet> {
    if forest == [] then [] else Encode(forest[0]) + EncodeAll(forest[1..])
  }

  /** The primitive element that reads as end-of-contents octets. */
  predicate EndMarker(node: Node) {
    node == Prim(0, 0, [])
  }

  /** One identifier octet: two bits of class, the bit of a constructed encoding, and five of a
      tag number below 31. */
  predicate IsIdentifier(octet: Octet, constructed: bool)
    ensures IsIdentifier(octet, constructed) <==> !HighTag(octet) && (Constructed(octet) <==> constructed)
  {
    var class_, number := octet / 64, octet % 32;
    number < 31 && octet == 64 * class_ + (if constructed then 32 else 0) + number
  }

  predicate WellFormed(node: Node) {
    IsIdentifier(node.tag, node.Cons?) &&
    match node
    case Prim(_, size, content) => LengthFits(size, |content|)
    case Cons(_, form, children) =>
      AllWellFormed(children) &&
      match form
      case Definite(size) => LengthFits(size, |EncodeAll(children)|)
      case Indefinite => NoEndMarker(children)
  }

  predicate AllWellFormed(forest: seq<Node>) {
    forest != [] ==> WellFormed(forest[0]) && AllWellFormed(forest[1..])
  }

  predicate NoEndMarker(forest: seq<Node>) {
    forall i :: 0 <= i < |forest| ==> !EndMarker(forest[i])
  }

  /** Elements in a forest, at every level. */
  function Size(forest: seq<Node>): nat {
    if forest == [] then 0 else NodeSize(forest[0]) + Size(forest[1..])
  }

  function NodeSize(node: Node): nat {
    match node
    case Prim(_, _, _) => 1
    case Cons(_, _, children) => 1 + Size(children)
  }

  /** Longest chain of nested constructed elements. */
  function Height(node: Node): nat {
    match node
    case Prim(_, _, _) => 0
    case Cons(_, _, children) => 1 + ForestHeight(children)
  }

  function ForestHeight(forest: seq<Node>): nat {
    if forest == [] then 0
    else
      var head, tail := Height(forest[0]), ForestHeight(forest[1..]);
      if head > tail then head else tail
  }

  function HeaderSize(node: Node): nat {
    match node
    case Prim(_, size, _) => 2 + size
    case Cons(_, Definite(size), _) => 2 + size
    case Cons(_, Indefinite, _) => 2
  }

  function Content(node: Node): seq<Octet> {
    match node
    case Prim(_, _, content) => content
    case Cons(_, _, children) => EncodeAll(children)
  }

  /** Where a node lies when its encoding starts at `offset`. */
  function Place(node: Node, offset: nat): Element {
    var start := offset + HeaderSize(node);
    Element(node.tag, start, start + |Content(node)|, offset + |Encode(node)|)
  }

  ghost predicate Holds(b: seq<Octet>, offset: nat, octets: seq<Octet>) {
    offset + |octets| <= |b| && forall i :: 0 <= i < |octets| ==> octets[i] == b[offset + i]
  }

  lemma {:induction false} DigitsRead(length: nat, size: nat)
    requires length < Pow256(size)
    ensures BigEndian(LengthDigits(length, size)) == length
  {
    if size == 0 {
    } else {
      DigitsRead(length / 256, size - 1);
      assert LengthDigits(length, size)[..size - 1] == LengthDigits(length / 256, size - 1);
    }
  }

  lemma {:induction false} DigitsWritten(octets: seq<Octet>)
    ensures BigEndian(octets) < Pow256(|octets|)
    ensures LengthDigits(BigEndian(octets), |octets|) == octets
  {
    if octets == [] {
    } else {
      DigitsWritten(octets[..|octets| - 1]);
    }
  }

  // ---------- Every encoding within the bounds is read ----------

  lemma HoldsSplit(b: seq<Octet>, offset: nat, left: seq<Octet>, right: seq<Octet>)
    requires Holds(b, offset, left + right)
    ensures Holds(b, offset, left) && Holds(b, offset + |left|, right)
  {
    forall i | 0 <= i < |left|
      ensures left[i] == b[offset + i]
    {
      assert (left + right)[i] == left[i];
    }
    forall i | 0 <= i < |right|
      ensures right[i] == b[offset + |left| + i]
    {
      assert (left + right)[|left| + i] == right[i];
    }
  }

  lemma DefiniteHeaderIsRead(b: seq<Octet>, offset: nat, limit: nat, tag: Octet, size: nat, length: nat)
    requires LengthFits(size, length) && Holds(b, offset, Header(tag, size, length))
    requires offset + 2 + size <= limit <= |b|
    ensures b[offset] == tag && b[offset + 1] != INDEFINITE_LENGTH
    ensures DefiniteLength(b, offset, limit) == Some((2 + size, length))
  {
    hide LengthDigits, BigEndian, Pow256;
    SecondHeaderOctet(tag, size, length);
    var header := Header(tag, size, length);
    assert header[0] == b[offset] && header[1] == b[offset + 1];
    if size > 0 {
      DigitsStand(b, offset, tag, size, length);
      DigitsRead(length, size);
    }
  }

  lemma DigitsStand(b: seq<Octet>, offset: nat, tag: Octet, size: nat, length: nat)
    requires LengthFits(size, length) && size > 0 && Holds(b, offset, Header(tag, size, length)) &&
             offset + 2 + size <= |b|
    ensures b[offset + 2..offset + 2 + size] == LengthDigits(length, size)
  {
    hide LengthDigits, Pow256;
    var header := Header(tag, size, length);
    HoldsSplit(b, offset, header[..2], LengthDigits(length, size));
  }

  lemma IndefiniteHeaderIsRead(b: seq<Octet>, offset: nat, limit: nat, depth: nat, tag: Octet, rest: seq<Octet>)
    requires Holds(b, offset, [tag, INDEFINITE_LENGTH] + rest) && limit <= |b|
    requires Constructed(tag) && !HighTag(tag)
    requires depth <= MAX_DEPTH && EndOfContents(b, offset + 2, limit, depth, 0).Some?
    ensures Holds(b, offset + 2, rest)
    ensures ElementAt(b, offset, limit, depth) ==
              Some(Element(tag, offset + 2, EndOfContents(b, offset + 2, limit, depth, 0).value,
                           EndOfContents(b, offset + 2, limit, depth, 0).value + 2))
  {
    var code := [tag, INDEFINITE_LENGTH] + rest;
    assert code[0] == b[offset] && code[1] == b[offset + 1];
    HoldsSplit(b, offset, [tag, INDEFINITE_LENGTH], rest);
  }

  lemma DefiniteEncodingIsRead(b: seq<Octet>, offset: nat, limit: nat, depth: nat, node: Node)
    requires WellFormed(node) && limit <= |b| && (node.Prim? || node.form.Definite?)
    requires Holds(b, offset, Encode(node)) && offset + |Encode(node)| <= limit && depth <= MAX_DEPTH
    ensures ElementAt(b, offset, limit, depth) == Some(Place(node, offset))
  {
    hide DefiniteLength, LengthFits, Header, EncodeAll, AllWellFormed, Content, HeaderSize, BigEndian, WellFormed,
      Encode, EndOfContents;
    NodeParts(node);
    var size, length := HeaderSize(node) - 2, |Content(node)|;
    HoldsSplit(b, offset, Header(node.tag, size, length), Content(node));
    DefiniteHeaderIsRead(b, offset, limit, node.tag, size, length);
  }

  /** What an indefinite-length node is made of. */
  lemma IndefiniteEncoding(b: seq<Octet>, offset: nat, node: Node)
    requires WellFormed(node) && node.Cons? && node.form.Indefinite? && Holds(b, offset, Encode(node))
    ensures Encode(node) == [node.tag, INDEFINITE_LENGTH] + (EncodeAll(node.children) + [0, 0])
    ensures Holds(b, offset + 2, EncodeAll(node.children) + [0, 0])
    ensures AllWellFormed(node.children) && NoEndMarker(node.children)
    ensures Constructed(node.tag) && !HighTag(node.tag)
    ensures Height(node) == 1 + ForestHeight(node.children) && NodeSize(node) == 1 + Size(node.children)
    ensures Place(node, offset) ==
              Element(node.tag, offset + 2, offset + 2 + |EncodeAll(node.children)|,
                offset + 4 + |EncodeAll(node.children)|)
  {
    var rest := EncodeAll(node.children) + [0, 0];
    assert Encode(node) == [node.tag, INDEFINITE_LENGTH] + rest;
    HoldsSplit(b, offset, [node.tag, INDEFINITE_LENGTH], rest);
  }

  lemma {:induction false} EncodingIsRead(b: seq<Octet>, offset: nat, limit: nat, depth: nat, node: Node)
    requires WellFormed(node) && limit <= |b|
    requires Holds(b, offset, Encode(node)) && offset + |Encode(node)| <= limit
    requires depth + Height(node) <= MAX_DEPTH
    requires NodeSize(node) <= MAX_ELEMENTS + 1
    ensures ElementAt(b, offset, limit, depth) == Some(Place(node, offset))
    decreases node
  {
    hide *;
    if node.Cons? && node.form.Indefinite? {
      IndefiniteEncoding(b, offset, node);
      ForestIsClosed(b, offset + 2, limit, depth, node.children, 0);
      IndefiniteHeaderIsRead(b, offset, limit, depth, node.tag, EncodeAll(node.children) + [0, 0]);
    } else {
      DefiniteEncodingIsRead(b, offset, limit, depth, node);
    }
  }

  lemma AtLeastItself(node: Node)
    ensures NodeSize(node) >= 1
  {
  }

  lemma ForestUnfolds(b: seq<Octet>, cursor: nat, forest: seq<Node>)
    requires AllWellFormed(forest) && NoEndMarker(forest) && forest != []
    requires Holds(b, cursor, EncodeAll(forest) + [0, 0])
    ensures Holds(b, cursor, Encode(forest[0]))
    ensures Holds(b, cursor + |Encode(forest[0])|, EncodeAll(forest[1..]) + [0, 0])
    ensures |EncodeAll(forest)| == |Encode(forest[0])| + |EncodeAll(forest[1..])|
    ensures cursor + |EncodeAll(forest)| + 2 <= |b| && !(b[cursor] == 0 && b[cursor + 1] == 0)
    ensures WellFormed(forest[0]) && AllWellFormed(forest[1..]) && NoEndMarker(forest[1..])
    ensures Height(forest[0]) <= ForestHeight(forest) && ForestHeight(forest[1..]) <= ForestHeight(forest)
    ensures Size(forest) == NodeSize(forest[0]) + Size(forest[1..]) && NodeSize(forest[0]) >= 1
  {
    hide Encode, WellFormed, Height, NodeSize;
    AtLeastItself(forest[0]);
    var head, rest := Encode(forest[0]), EncodeAll(forest[1..]) + [0, 0];
    assert EncodeAll(forest) + [0, 0] == head + rest;
    HoldsSplit(b, cursor, head, rest);
    assert head[0] == b[cursor] && head[1] == b[cursor + 1];
    OnlyEndMarkerStartsWithZeros(forest[0]);
  }

  lemma EndOfContentsStops(b: seq<Octet>, cursor: nat, limit: nat, depth: nat, elements: nat)
    requires Holds(b, cursor, EncodeAll([]) + [0, 0]) && cursor + 2 <= limit <= |b|
    ensures EncodeAll([]) == [] && EndOfContents(b, cursor, limit, depth, elements) == Some(cursor)
  {
    var code := EncodeAll([]) + [0, 0];
    assert code[0] == b[cursor] && code[1] == b[cursor + 1];
  }

  lemma EndOfContentsSkips(b: seq<Octet>, cursor: nat, limit: nat, depth: nat, elements: nat, child: Element)
    requires cursor + 2 <= limit <= |b| && !(b[cursor] == 0 && b[cursor + 1] == 0)
    requires ElementAt(b, cursor, limit, depth + 1) == Some(child) && elements < MAX_ELEMENTS
    ensures EndOfContents(b, cursor, limit, depth, elements) == EndOfContents(b, child.end, limit, depth, elements + 1)
  {
  }

  lemma {:induction false} ForestIsClosed(b: seq<Octet>, cursor: nat, limit: nat, depth: nat, forest: seq<Node>,
      elements: nat)
    requires AllWellFormed(forest) && NoEndMarker(forest) && limit <= |b|
    requires Holds(b, cursor, EncodeAll(forest) + [0, 0]) && cursor + |EncodeAll(forest)| + 2 <= limit
    requires depth + 1 + ForestHeight(forest) <= MAX_DEPTH
    requires elements + Size(forest) <= MAX_ELEMENTS
    ensures EndOfContents(b, cursor, limit, depth, elements) == Some(cursor + |EncodeAll(forest)|)
    decreases forest
  {
    hide *;
    if forest == [] {
      EndOfContentsStops(b, cursor, limit, depth, elements);
    } else {
      ForestUnfolds(b, cursor, forest);
      EncodingIsRead(b, cursor, limit, depth + 1, forest[0]);
      PlaceEnds(forest[0], cursor);
      EndOfContentsSkips(b, cursor, limit, depth, elements, Place(forest[0], cursor));
      ForestIsClosed(b, cursor + |Encode(forest[0])|, limit, depth, forest[1..], elements + 1);
    }
  }

  lemma PlaceEnds(node: Node, offset: nat)
    ensures Place(node, offset).end == offset + |Encode(node)| > offset
  {
  }

  lemma OnlyEndMarkerStartsWithZeros(node: Node)
    requires WellFormed(node)
    ensures Encode(node)[0] == 0 && Encode(node)[1] == 0 <==> EndMarker(node)
  {
  }

  // ---------- Encodings are prefix-free ----------

  ghost predicate SameStart(t: Node, t': Node, x: seq<Octet>, y: seq<Octet>) {
    WellFormed(t) && WellFormed(t') && Encode(t) + x == Encode(t') + y
  }

  predicate IndefiniteNode(node: Node) {
    node.Cons? && node.form.Indefinite?
  }

  lemma SecondHeaderOctet(tag: Octet, size: nat, length: nat)
    requires LengthFits(size, length)
    ensures Header(tag, size, length)[1] == if size == 0 then length else 128 + size
    ensures Header(tag, size, length)[1] != INDEFINITE_LENGTH
    ensures if size == 0 then length < 128 else length < Pow256(size)
  {
  }

  lemma NodeParts(node: Node)
    requires WellFormed(node)
    ensures node.Cons? == Constructed(node.tag) && !HighTag(node.tag) && HeaderSize(node) >= 2
    ensures IndefiniteNode(node) ==> HeaderSize(node) == 2 && Encode(node)[1] == INDEFINITE_LENGTH
    ensures !IndefiniteNode(node) ==> LengthFits(HeaderSize(node) - 2, |Content(node)|)
    ensures !IndefiniteNode(node) ==>
              Encode(node) == Header(node.tag, HeaderSize(node) - 2, |Content(node)|) + Content(node)
    ensures !IndefiniteNode(node) ==> |Encode(node)| == HeaderSize(node) + |Content(node)|
  {
    hide LengthFits, Header, EncodeAll, AllWellFormed, NoEndMarker;
  }

  /** The second octet tells the form of the length. */
  lemma SecondOctet(node: Node)
    requires WellFormed(node) && !IndefiniteNode(node)
    ensures Encode(node)[1] == if HeaderSize(node) == 2 then |Content(node)| else 126 + HeaderSize(node)
    ensures Encode(node)[1] != INDEFINITE_LENGTH
    ensures if HeaderSize(node) == 2 then |Content(node)| < 128 else |Content(node)| < Pow256(HeaderSize(node) - 2)
  {
    NodeParts(node);
    hide *;
    SecondHeaderOctet(node.tag, HeaderSize(node) - 2, |Content(node)|);
  }

  lemma FirstOctetsAgree(t: Node, t': Node, x: seq<Octet>, y: seq<Octet>)
    requires SameStart(t, t', x, y)
    ensures t.tag == t'.tag && t.Cons? == t'.Cons? && Encode(t)[1] == Encode(t')[1]
    ensures IndefiniteNode(t) == IndefiniteNode(t') && HeaderSize(t) == HeaderSize(t')
  {
    NodeParts(t);
    NodeParts(t');
    if !IndefiniteNode(t) { SecondOctet(t); }
    if !IndefiniteNode(t') { SecondOctet(t'); }
    hide Encode, WellFormed, Content, HeaderSize, Header, LengthFits, Pow256;
    var code := Encode(t) + x;
    assert code[0] == Encode(t)[0] == Encode(t')[0];
    assert code[1] == Encode(t)[1] == Encode(t')[1];
    assert !IndefiniteNode(t) ==> HeaderSize(t) == if Encode(t)[1] < 128 then 2 else Encode(t)[1] - 126;
  }

  lemma LengthsAgree(tag: Octet, size: nat, c: seq<Octet>, c': seq<Octet>, x: seq<Octet>, y: seq<Octet>)
    requires Header(tag, size, |c|) + c + x == Header(tag, size, |c'|) + c' + y
    requires if size == 0 then |c| < 256 && |c'| < 256 else |c| < Pow256(size) && |c'| < Pow256(size)
    ensures c == c' && x == y
  {
    var code := Header(tag, size, |c|) + c + x;
    assert Header(tag, size, |c|) == code[..2 + size] == Header(tag, size, |c'|);
    if size > 0 {
      assert LengthDigits(|c|, size) == Header(tag, size, |c|)[2..] == LengthDigits(|c'|, size);
      DigitsRead(|c|, size);
      DigitsRead(|c'|, size);
    }
    var n := 2 + size + |c|;
    assert c == code[2 + size..n] == c';
    assert x == code[n..] == y;
  }

  lemma ContentsAgree(t: Node, t': Node, x: seq<Octet>, y: seq<Octet>)
    requires SameStart(t, t', x, y) && !IndefiniteNode(t)
    ensures Content(t) == Content(t') && x == y
  {
    FirstOctetsAgree(t, t', x, y);
    NodeParts(t);
    NodeParts(t');
    SecondOctet(t);
    SecondOctet(t');
    hide Encode, WellFormed, Content, HeaderSize, Header, Pow256, LengthFits;
    LengthsAgree(t.tag, HeaderSize(t) - 2, Content(t), Content(t'), x, y);
  }

  lemma {:induction false} EncodingsArePrefixFree(t: Node, t': Node, x: seq<Octet>, y: seq<Octet>)
    requires SameStart(t, t', x, y)
    ensures t == t' && x == y
    decreases t
  {
    FirstOctetsAgree(t, t', x, y);
    if IndefiniteNode(t) {
      IndefiniteStart(t, t', x, y);
      hide SameStart, Encode, EncodeAll;
      ForestsArePrefixFree(t.children, t'.children, [0, 0] + x, [0, 0] + y);
      assert x == ([0, 0] + x)[2..] == ([0, 0] + y)[2..] == y;
    } else {
      ContentsAgree(t, t', x, y);
      hide SameStart, Encode, EncodeAll;
      if t.Cons? {
        ForestsArePrefixFree(t.children, t'.children, [], []);
      }
    }
  }

  lemma IndefiniteStart(t: Node, t': Node, x: seq<Octet>, y: seq<Octet>)
    requires SameStart(t, t', x, y) && IndefiniteNode(t) && IndefiniteNode(t')
    ensures EncodeAll(t.children) + ([0, 0] + x) == EncodeAll(t'.children) + ([0, 0] + y)
  {
    var code := Encode(t) + x;
    assert code[2..] == EncodeAll(t.children) + ([0, 0] + x);
    assert code[2..] == EncodeAll(t'.children) + ([0, 0] + y);
  }

  ghost predicate Closes(forest: seq<Node>, x: seq<Octet>) {
    x == [] || (|x| >= 2 && x[0] == 0 && x[1] == 0 && NoEndMarker(forest))
  }

  lemma {:induction false} ForestsArePrefixFree(f: seq<Node>, g: seq<Node>, x: seq<Octet>, y: seq<Octet>)
    requires AllWellFormed(f) && AllWellFormed(g) && EncodeAll(f) + x == EncodeAll(g) + y
    requires Closes(f, x) && Closes(g, y) && (x == [] <==> y == [])
    ensures f == g && x == y
    decreases f
  {
    hide Encode, WellFormed;
    if f == [] {
      NothingLeft(g, x, y);
    } else if g == [] {
      NothingLeft(f, y, x);
    } else {
      FirstEncoding(f, x);
      FirstEncoding(g, y);
      EncodingsArePrefixFree(f[0], g[0], EncodeAll(f[1..]) + x, EncodeAll(g[1..]) + y);
      ForestsArePrefixFree(f[1..], g[1..], x, y);
      assert f == [f[0]] + f[1..] && g == [g[0]] + g[1..];
    }
  }

  lemma FirstEncoding(f: seq<Node>, x: seq<Octet>)
    requires f != []
    ensures EncodeAll(f) + x == Encode(f[0]) + (EncodeAll(f[1..]) + x)
  {
  }

  lemma NothingLeft(g: seq<Node>, x: seq<Octet>, y: seq<Octet>)
    requires AllWellFormed(g) && x == EncodeAll(g) + y
    requires Closes([], x) && Closes(g, y) && (x == [] <==> y == [])
    ensures g == []
  {
    if g != [] {
      assert x[0] == Encode(g[0])[0] && x[1] == Encode(g[0])[1];
      OnlyEndMarkerStartsWithZeros(g[0]);
    }
  }
}
