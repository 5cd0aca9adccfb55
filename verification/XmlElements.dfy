/** Which tag streams the scanner accepts: those of element forests within its bounds. */
module XmlElements {
  import opened Integers
  import opened Options
  import opened XmlScanner

  /** An element: a self-closing tag, or a pair of tags around other elements. */
  datatype Element = Leaf(name: string) | Pair(name: string, children: seq<Element>)

  function Flatten(forest: seq<Element>): seq<Tag> {
    if forest == [] then [] else FlattenOne(forest[0]) + Flatten(forest[1..])
  }

  function FlattenOne(e: Element): seq<Tag> {
    match e
    case Leaf(name) => [Empty(name)]
    case Pair(name, children) => [Open(name)] + Flatten(children) + [Close(name)]
  }

  function Size(forest: seq<Element>): nat {
    if forest == [] then 0 else SizeOne(forest[0]) + Size(forest[1..])
  }

  function SizeOne(e: Element): nat {
    if e.Leaf? then 1 else 1 + Size(e.children)
  }

  /** Most elements open at once; a self-closing element is never open. */
  function Height(forest: seq<Element>): nat {
    if forest == [] then 0 else Max(HeightOne(forest[0]), Height(forest[1..]))
  }

  function HeightOne(e: Element): nat {
    if e.Leaf? then 0 else 1 + Height(e.children)
  }

  predicate Fits(s: Stack, forest: seq<Element>) {
    s.elements + Size(forest) <= XML_MAX_ELEMENTS && |s.openElements| + Height(forest) <= XML_MAX_DEPTH
  }

  lemma {:induction false} FeedAllJoins(s: Stack, left: seq<Tag>, right: seq<Tag>)
    ensures FeedAll(s, left + right) ==
              match FeedAll(s, left)
              case None => None
              case Some(next) => FeedAll(next, right)
    decreases |left|
  {
    if left == [] {
      assert left + right == right;
    } else {
      assert (left + right)[0] == left[0] && (left + right)[1..] == left[1..] + right;
      if Feed(s, left[0]).Some? {
        FeedAllJoins(Feed(s, left[0]).value, left[1..], right);
      }
    }
  }

  predicate Room(s: Stack) {
    s.elements <= XML_MAX_ELEMENTS && |s.openElements| <= XML_MAX_DEPTH
  }

  /** A forest's tags leave the stack as it was and add its size to the count; they are
      taken exactly when both bounds are kept. */
  lemma {:induction false} ForestIsFed(s: Stack, forest: seq<Element>)
    requires Room(s)
    ensures FeedAll(s, Flatten(forest)) ==
              if Fits(s, forest) then Some(s.(elements := s.elements + Size(forest))) else None
    decreases forest
  {
    if forest == [] {
    } else {
      FeedAllJoins(s, FlattenOne(forest[0]), Flatten(forest[1..]));
      ElementIsFed(s, forest[0]);
      var next := FeedAll(s, FlattenOne(forest[0]));
      if next.Some? {
        ForestIsFed(next.value, forest[1..]);
      }
    }
  }

  lemma {:induction false} ElementIsFed(s: Stack, e: Element)
    requires Room(s)
    ensures FeedAll(s, FlattenOne(e)) ==
              if s.elements + SizeOne(e) <= XML_MAX_ELEMENTS && |s.openElements| + HeightOne(e) <= XML_MAX_DEPTH
              then Some(s.(elements := s.elements + SizeOne(e))) else None
    decreases e
  {
    match e
    case Leaf(name) =>
      LeafIsFed(s, name);
    case Pair(name, children) =>
      var pushed := Stack(s.openElements + [name], s.elements + 1);
      PairParts(name, children);
      hide FeedAll, Flatten, FlattenOne, Size, SizeOne, Height, HeightOne;
      assert FlattenOne(e) == [Open(name)] + (Flatten(children) + [Close(name)]);
      FeedAllJoins(s, [Open(name)], Flatten(children) + [Close(name)]);
      FeedAllJoins(pushed, Flatten(children), [Close(name)]);
      OpenIsFed(s, name);
      if Room(pushed) {
        ForestIsFed(pushed, children);
        CloseIsFed(s, name, pushed.elements + Size(children));
      }
  }

  lemma LeafIsFed(s: Stack, name: string)
    ensures FeedAll(s, FlattenOne(Leaf(name))) ==
              if s.elements < XML_MAX_ELEMENTS then Some(s.(elements := s.elements + 1)) else None
  {
    assert FlattenOne(Leaf(name))[1..] == [];
  }

  lemma OpenIsFed(s: Stack, name: string)
    requires Room(s)
    ensures var pushed := Stack(s.openElements + [name], s.elements + 1);
            FeedAll(s, [Open(name)]) == if Room(pushed) then Some(pushed) else None
  {
  }

  lemma CloseIsFed(s: Stack, name: string, elements: nat)
    ensures FeedAll(Stack(s.openElements + [name], elements), [Close(name)]) == Some(s.(elements := elements))
  {
    assert (s.openElements + [name])[..|s.openElements|] == s.openElements;
  }

  lemma Joined(e: Element, tail: seq<Element>)
    ensures Flatten([e] + tail) == FlattenOne(e) + Flatten(tail)
    ensures Size([e] + tail) == SizeOne(e) + Size(tail)
    ensures Height([e] + tail) == Max(HeightOne(e), Height(tail))
  {
    assert ([e] + tail)[1..] == tail;
  }

  lemma Nothing()
    ensures Flatten([]) == [] && Size([]) == 0 && Height([]) == 0
  {
  }

  lemma PairParts(name: string, inner: seq<Element>)
    ensures FlattenOne(Pair(name, inner)) == [Open(name)] + Flatten(inner) + [Close(name)]
    ensures SizeOne(Pair(name, inner)) == 1 + Size(inner) && HeightOne(Pair(name, inner)) == 1 + Height(inner)
  {
  }

  lemma FirstIsFed(s: Stack, tags: seq<Tag>)
    requires FeedAll(s, tags).Some?
    ensures tags == [] ==> FeedAll(s, tags) == Some(s)
    ensures tags != [] ==> Feed(s, tags[0]).Some? && FeedAll(s, tags) == FeedAll(Feed(s, tags[0]).value, tags[1..])
  {
  }

  /** A stream that empties the stack closes, one after another, every element that was open:
      it is a forest, then the closing tag of the innermost open element, and so on. */
  lemma {:induction false} ForestOf(s: Stack, tags: seq<Tag>) returns (forest: seq<Element>, rest: seq<Tag>)
    requires Room(s) && FeedAll(s, tags).Some? && FeedAll(s, tags).value.openElements == []
    ensures Fits(s, forest) && |rest| <= |tags|
    ensures if s.openElements == [] then tags == Flatten(forest) && rest == []
            else |rest| < |tags| && tags == Flatten(forest) + [Close(s.openElements[|s.openElements| - 1])] + rest &&
                 FeedAll(Stack(s.openElements[..|s.openElements| - 1], s.elements + Size(forest)), rest) ==
                   FeedAll(s, tags)
    decreases |tags|, 1
  {
    hide FeedAll, Flatten, FlattenOne, Size, SizeOne, Height, HeightOne;
    Nothing();
    FirstIsFed(s, tags);
    if tags == [] {
      forest, rest := [], [];
    } else {
      assert tags == [tags[0]] + tags[1..];
      if tags[0].Close? {
        forest, rest := [], tags[1..];
      } else {
        var first, after := EmptyOrOpen(s, tags);
        var tail;
        tail, rest := ForestOf(Stack(s.openElements, s.elements + SizeOne(first)), after);
        forest := [first] + tail;
        Joined(first, tail);
      }
    }
  }

  /** The element that a tag other than a closing one begins. */
  lemma {:induction false} EmptyOrOpen(s: Stack, tags: seq<Tag>) returns (e: Element, after: seq<Tag>)
    requires Room(s) && tags != [] && !tags[0].Close?
    requires FeedAll(s, tags).Some? && FeedAll(s, tags).value.openElements == []
    ensures |after| < |tags| && tags == FlattenOne(e) + after
    ensures s.elements + SizeOne(e) <= XML_MAX_ELEMENTS && |s.openElements| + HeightOne(e) <= XML_MAX_DEPTH
    ensures FeedAll(Stack(s.openElements, s.elements + SizeOne(e)), after) == FeedAll(s, tags)
    decreases |tags|, 0
  {
    hide FeedAll, Flatten, Size, Height;
    FirstIsFed(s, tags);
    if tags[0].Empty? {
      e, after := Leaf(tags[0].name), tags[1..];
    } else {
      hide FlattenOne, SizeOne, HeightOne;
      var name := tags[0].name;
      var next := Feed(s, tags[0]).value;
      var inner;
      inner, after := ForestOf(next, tags[1..]);
      assert next.openElements[..|s.openElements|] == s.openElements;
      e := Pair(name, inner);
      PairParts(name, inner);
      assert tags == [tags[0]] + tags[1..];
    }
  }

  /** The scanner accepts a text iff its tag stream is that of an element forest of 1 to
      20,000 elements with never more than 64 of them open. */
  lemma AcceptsExactlyForests(xml: string)
    ensures Accepts(xml) <==>
            exists forest :: Tokens(xml, 0) == Some(Flatten(forest)) &&
              1 <= Size(forest) <= XML_MAX_ELEMENTS && Height(forest) <= XML_MAX_DEPTH
  {
    var s := Stack([], 0);
    if Accepts(xml) {
      var forest, _ := ForestOf(s, Tokens(xml, 0).value);
      ForestIsFed(s, forest);
    }
    forall forest | Tokens(xml, 0) == Some(Flatten(forest)) &&
        1 <= Size(forest) <= XML_MAX_ELEMENTS && Height(forest) <= XML_MAX_DEPTH
      ensures Accepts(xml)
    {
      ForestIsFed(s, forest);
    }
  }
}
