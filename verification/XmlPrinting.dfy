/** Documents with attributes, printed, and the marks they are written in. */
module XmlPrinting {
  import opened Options
  import opened Text
  import opened Whitespace
  import opened XmlScanner
  import opened XmlElements
  import opened XmlGrammar

  datatype Attribute = Attribute(space: string, key: string, quote: char, value: string)

  datatype Item =
    | Characters(text: string)
    | Comment(text: string)
    | CData(text: string)
    | Instruction(text: string)
    | Single(name: string, attributes: seq<Attribute>, pad: string, endPad: string)
    | Double(name: string, attributes: seq<Attribute>, pad: string, content: seq<Item>, closePad: string)

  function PrintAttributes(attributes: seq<Attribute>): string {
    if attributes == [] then "" else PrintAttribute(attributes[0]) + PrintAttributes(attributes[1..])
  }

  function PrintAttribute(a: Attribute): string {
    a.space + a.key + "=" + [a.quote] + (a.value + [a.quote])
  }

  function Print(item: Item): string {
    match item
    case Characters(text) => text
    case Comment(text) => "<!--" + (text + "-->")
    case CData(text) => "<![CDATA[" + (text + "]]>")
    case Instruction(text) => "<?" + (text + "?>")
    case Single(name, attributes, pad, endPad) => PrintTag(name, attributes, pad, "/" + endPad)
    case Double(name, attributes, pad, content, closePad) =>
      PrintTag(name, attributes, pad, "") + (PrintAll(content) + PrintClose(name, closePad))
  }

  function PrintTag(name: string, attributes: seq<Attribute>, pad: string, tail: string): string {
    "<" + (name + (PrintAttributes(attributes) + (pad + (tail + ">"))))
  }

  function PrintClose(name: string, pad: string): string {
    "</" + (name + (pad + ">"))
  }

  function PrintAll(items: seq<Item>): string {
    if items == [] then "" else Print(items[0]) + PrintAll(items[1..])
  }

  /** The elements of a printed document. */
  function Skeleton(items: seq<Item>): seq<Element> {
    if items == [] then [] else SkeletonOne(items[0]) + Skeleton(items[1..])
  }

  function SkeletonOne(item: Item): seq<Element> {
    match item
    case Single(name, _, _, _) => [Leaf(name)]
    case Double(name, _, _, content, _) => [Pair(name, Skeleton(content))]
    case _ => []
  }

  // ---------- What may be printed ----------

  predicate CleanName(name: string) {
    IsName(name) && name[0] !in {'!', '?'}
  }

  predicate CleanAttribute(a: Attribute) {
    a.space != "" && AllWhite(a.space) && a.quote in QUOTES &&
    (forall i :: 0 <= i < |a.key| ==> a.key[i] !in QUOTES + {'<', '>'}) &&
    forall i :: 0 <= i < |a.value| ==> a.value[i] !in {a.quote, '<'}
  }

  predicate CleanAttributes(attributes: seq<Attribute>) {
    forall i :: 0 <= i < |attributes| ==> CleanAttribute(attributes[i])
  }

  ghost predicate Clean(item: Item) {
    match item
    case Characters(text) => '<' !in text
    case Comment(text) => EndsFirst(text, "-->")
    case CData(text) => EndsFirst(text, "]]>")
    case Instruction(text) => EndsFirst(text, "?>")
    case Single(name, attributes, pad, endPad) =>
      CleanName(name) && CleanAttributes(attributes) && AllWhite(pad) && AllWhite(endPad)
    case Double(name, attributes, pad, content, closePad) =>
      CleanName(name) && CleanAttributes(attributes) && AllWhite(pad) && AllClean(content) && ClosePad(closePad)
  }

  /** Only XML white space ends a name, though any trimmed character may follow it. */
  predicate ClosePad(pad: string) {
    (pad == "" || pad[0] in WHITE) && forall i :: 0 <= i < |pad| ==> IsSpace(pad[i])
  }

  ghost predicate AllClean(items: seq<Item>) {
    items != [] ==> Clean(items[0]) && AllClean(items[1..])
  }

  // ---------- The marks of a printed document ----------

  function Plains(s: string): (r: seq<Part>)
    ensures |r| == |s| && forall i :: 0 <= i < |s| ==> r[i] == Plain(s[i])
  {
    seq(|s|, i requires 0 <= i < |s| => Plain(s[i]))
  }

  function AttributeParts(a: Attribute): seq<Part> {
    Plains(a.space + a.key + "=") + [Quoted(a.quote, a.value)]
  }

  function AttributesParts(attributes: seq<Attribute>): seq<Part> {
    if attributes == [] then [] else AttributeParts(attributes[0]) + AttributesParts(attributes[1..])
  }

  function MarksOfItem(item: Item): seq<Mark> {
    match item
    case Characters(text) => [Mark.Characters(text)]
    case Comment(text) => [Mark.Comment(text)]
    case CData(text) => [Mark.CData(text)]
    case Instruction(text) => [Mark.Instruction(text)]
    case Single(name, attributes, pad, endPad) =>
      [StartTag(name, AttributesParts(attributes) + Plains(pad) + Plains("/" + endPad))]
    case Double(name, attributes, pad, content, closePad) =>
      [StartTag(name, AttributesParts(attributes) + Plains(pad))] + MarksOfAll(content) + [EndTag(name, closePad)]
  }

  function MarksOfAll(items: seq<Item>): seq<Mark> {
    if items == [] then [] else MarksOfItem(items[0]) + MarksOfAll(items[1..])
  }

  // ---------- Their parts ----------

  lemma {:induction false} PlainsAreWritten(s: string)
    ensures WriteParts(Plains(s)) == s
  {
    if s == "" {
    } else {
      PlainsAreWritten(s[1..]);
      PlainIsWritten(s[0]);
      assert s == [s[0]] + s[1..] && Plains(s) == [Plain(s[0])] + Plains(s[1..]);
      PartsBegin(Plain(s[0]), Plains(s[1..]));
    }
  }

  lemma PlainsAreParts(s: string)
    requires forall i :: 0 <= i < |s| ==> s[i] !in QUOTES + {'<', '>'}
    ensures AreParts(Plains(s))
  {
  }

  lemma WhiteIsPlain(s: string)
    requires AllWhite(s)
    ensures forall i :: 0 <= i < |s| ==> s[i] !in QUOTES + {'<', '>'}
  {
  }

  lemma PartsJoin(left: seq<Part>, right: seq<Part>)
    requires AreParts(left) && AreParts(right)
    ensures AreParts(left + right) && WriteParts(left + right) == WriteParts(left) + WriteParts(right)
  {
    PartsSplit(left, right);
  }

  lemma AttributeIsWritten(a: Attribute)
    requires CleanAttribute(a)
    ensures AreParts(AttributeParts(a)) && WriteParts(AttributeParts(a)) == PrintAttribute(a)
    ensures AttributeParts(a) != [] && AttributeParts(a)[0] == Plain(a.space[0]) && a.space[0] in WHITE
    ensures AttributeParts(a)[|AttributeParts(a)| - 1].Quoted?
  {
    var head := a.space + a.key + "=";
    WhiteIsPlain(a.space);
    PlainsAreParts(head);
    PlainsAreWritten(head);
    hide Plains;
    OnePart(Quoted(a.quote, a.value));
    PartsJoin(Plains(head), [Quoted(a.quote, a.value)]);
    assert PrintAttribute(a) == head + ([a.quote] + (a.value + [a.quote]));
  }

  lemma {:induction false} AttributesAreWritten(attributes: seq<Attribute>)
    requires CleanAttributes(attributes)
    ensures AreParts(AttributesParts(attributes)) &&
            WriteParts(AttributesParts(attributes)) == PrintAttributes(attributes)
    ensures attributes != [] ==>
              var parts := AttributesParts(attributes);
              parts != [] && parts[0].Plain? && parts[0].c in WHITE && parts[|parts| - 1].Quoted?
    ensures attributes == [] ==> AttributesParts(attributes) == []
  {
    hide CleanAttribute, AttributeParts, PrintAttribute, WriteParts, AreParts;
    if attributes == [] {
      NoPartsNoText([]);
    } else {
      AttributeIsWritten(attributes[0]);
      AttributesAreWritten(attributes[1..]);
      var first, rest := AttributeParts(attributes[0]), AttributesParts(attributes[1..]);
      PartsJoin(first, rest);
      assert first != [] && (rest == [] ==> first + rest == first);
    }
  }

  lemma LastDecides(parts: seq<Part>, last: Part)
    ensures ClosesItself(parts + [last]) <==>
            last == Plain('/') || (last.Plain? && last.c in WHITE && ClosesItself(parts))
  {
    assert (parts + [last])[..|parts|] == parts;
  }

  lemma LastPlain(pad: string)
    requires pad != ""
    ensures Plains(pad) == Plains(pad[..|pad| - 1]) + [Plain(pad[|pad| - 1])]
  {
    hide Plains;
  }

  lemma {:induction false} WhiteHidesNothing(parts: seq<Part>, pad: string)
    requires AllWhite(pad)
    ensures ClosesItself(parts + Plains(pad)) <==> ClosesItself(parts)
    decreases |pad|
  {
    hide ClosesItself;
    if pad == "" {
      assert parts + Plains(pad) == parts;
    } else {
      hide Plains;
      var init, last := pad[..|pad| - 1], Plain(pad[|pad| - 1]);
      WhiteHidesNothing(parts, init);
      LastPlain(pad);
      assert parts + Plains(pad) == parts + Plains(init) + [last];
      LastDecides(parts + Plains(init), last);
    }
  }

  /** The parts of an opening tag do not close it. */
  lemma OpeningParts(attributes: seq<Attribute>, pad: string)
    requires CleanAttributes(attributes) && AllWhite(pad)
    ensures var parts := AttributesParts(attributes) + Plains(pad);
            AreParts(parts) && WriteParts(parts) == PrintAttributes(attributes) + pad && !ClosesItself(parts) &&
            (parts == [] || (parts[0].Plain? && parts[0].c in WHITE))
  {
    hide AreParts, WriteParts, CleanAttribute, CleanAttributes, PrintAttributes, AttributesParts;
    AttributesAreWritten(attributes);
    WhiteIsPlain(pad);
    PlainsAreParts(pad);
    PlainsAreWritten(pad);
    PartsJoin(AttributesParts(attributes), Plains(pad));
    WhiteHidesNothing(AttributesParts(attributes), pad);
  }

  lemma ClosingParts(attributes: seq<Attribute>, pad: string, endPad: string)
    requires CleanAttributes(attributes) && AllWhite(pad) && AllWhite(endPad)
    ensures var parts := AttributesParts(attributes) + Plains(pad) + Plains("/" + endPad);
            AreParts(parts) && WriteParts(parts) == PrintAttributes(attributes) + pad + ("/" + endPad) &&
            ClosesItself(parts) && parts != [] && parts[0].Plain? && parts[0].c in WHITE + {'/'}
  {
    hide *;
    OpeningParts(attributes, pad);
    ClosedBySlash(AttributesParts(attributes) + Plains(pad), endPad);
  }

  lemma ClosedBySlash(opening: seq<Part>, endPad: string)
    requires AreParts(opening) && AllWhite(endPad)
    requires opening == [] || (opening[0].Plain? && opening[0].c in WHITE)
    ensures var parts := opening + Plains("/" + endPad);
            AreParts(parts) && WriteParts(parts) == WriteParts(opening) + ("/" + endPad) && ClosesItself(parts) &&
            parts != [] && parts[0].Plain? && parts[0].c in WHITE + {'/'}
  {
    hide *;
    SlashAndWhite(endPad);
    PartsJoin(opening, Plains("/" + endPad));
    FirstOfJoined(opening, Plains("/" + endPad));
    RegroupParts(opening, [Plain('/')], Plains(endPad));
    LastDecides(opening, Plain('/'));
    WhiteHidesNothing(opening + [Plain('/')], endPad);
  }

  lemma RegroupParts(a: seq<Part>, b: seq<Part>, c: seq<Part>)
    ensures a + b + c == a + (b + c)
  {
  }

  lemma FirstOfJoined(left: seq<Part>, right: seq<Part>)
    requires right != []
    ensures (left + right)[0] == if left == [] then right[0] else left[0]
  {
  }

  lemma SlashAndWhite(endPad: string)
    requires AllWhite(endPad)
    ensures Plains("/" + endPad) == [Plain('/')] + Plains(endPad) && Plains("/" + endPad)[0] == Plain('/')
    ensures AreParts(Plains("/" + endPad)) && WriteParts(Plains("/" + endPad)) == "/" + endPad
  {
    WhiteIsPlain(endPad);
    PlainsAreParts("/" + endPad);
    PlainsAreWritten("/" + endPad);
  }

  // ---------- Their marks ----------

  lemma SingleIsMark(name: string, attributes: seq<Attribute>, pad: string, endPad: string)
    requires CleanName(name) && CleanAttributes(attributes) && AllWhite(pad) && AllWhite(endPad)
    ensures var mark := StartTag(name, AttributesParts(attributes) + Plains(pad) + Plains("/" + endPad));
            IsMark(mark) && WriteMark(mark) == PrintTag(name, attributes, pad, "/" + endPad) &&
            TagOf(mark) == [Empty(name)]
  {
    hide AreParts, WriteParts, PrintAttributes, AttributesParts, Plains, ClosesItself, IsName, CleanAttributes;
    ClosingParts(attributes, pad, endPad);
    var written, tail := PrintAttributes(attributes), "/" + endPad;
    Regroup(written, pad, tail);
    Regroup(written, pad + tail, ">");
    Regroup(pad, tail, ">");
  }

  lemma OpenIsMark(name: string, attributes: seq<Attribute>, pad: string)
    requires CleanName(name) && CleanAttributes(attributes) && AllWhite(pad)
    ensures var mark := StartTag(name, AttributesParts(attributes) + Plains(pad));
            IsMark(mark) && WriteMark(mark) == PrintTag(name, attributes, pad, "") && TagOf(mark) == [Open(name)]
  {
    hide AreParts, WriteParts, PrintAttributes, AttributesParts, Plains, ClosesItself, IsName, CleanAttributes;
    OpeningParts(attributes, pad);
    Regroup(PrintAttributes(attributes), pad, ">");
    assert "" + ">" == ">";
  }

  lemma CloseIsMark(name: string, closePad: string)
    requires CleanName(name) && ClosePad(closePad)
    ensures IsMark(EndTag(name, closePad)) && WriteMark(EndTag(name, closePad)) == PrintClose(name, closePad)
    ensures TagOf(EndTag(name, closePad)) == [Close(name)]
  {
    hide IsName, IsSpace;
  }

  /** The marks are written as the text, and their tags are those of the elements. */
  ghost predicate Stand(marks: seq<Mark>, text: string, elements: seq<Element>) {
    AreMarks(marks) && Write(marks) == text && TagsOf(marks) == Flatten(elements)
  }

  lemma OneStands(mark: Mark)
    requires IsMark(mark)
    ensures AreMarks([mark]) && Write([mark]) == WriteMark(mark) && TagsOf([mark]) == TagOf(mark)
  {
    assert [mark][1..] == [];
  }

  lemma {:induction false} MarksJoin(left: seq<Mark>, right: seq<Mark>)
    ensures Write(left + right) == Write(left) + Write(right) && TagsOf(left + right) == TagsOf(left) + TagsOf(right)
    ensures AreMarks(left) && AreMarks(right) ==> AreMarks(left + right)
  {
    hide WriteMark, TagOf, IsMark;
    if left == [] {
      assert left + right == right;
    } else {
      MarksJoin(left[1..], right);
      assert (left + right)[1..] == left[1..] + right;
      Regroup(WriteMark(left[0]), Write(left[1..]), Write(right));
    }
  }

  lemma {:induction false} FlattenJoins(left: seq<Element>, right: seq<Element>)
    ensures Flatten(left + right) == Flatten(left) + Flatten(right)
  {
    hide *;
    if left == [] {
      Nothing();
      assert left + right == right;
    } else {
      FlattenJoins(left[1..], right);
      assert left + right == [left[0]] + (left[1..] + right);
      Joined(left[0], left[1..] + right);
      Joined(left[0], left[1..]);
      assert left == [left[0]] + left[1..];
    }
  }

  lemma OneElement(e: Element)
    ensures Flatten([e]) == FlattenOne(e)
  {
    assert [e][1..] == [];
  }

  lemma DoubleStands(item: Item)
    requires item.Double? && Clean(item)
    requires Stand(MarksOfAll(item.content), PrintAll(item.content), Skeleton(item.content))
    ensures Stand(MarksOfItem(item), Print(item), SkeletonOne(item))
  {
    var open := StartTag(item.name, AttributesParts(item.attributes) + Plains(item.pad));
    var close := EndTag(item.name, item.closePad);
    var inner := MarksOfAll(item.content);
    OpenIsMark(item.name, item.attributes, item.pad);
    CloseIsMark(item.name, item.closePad);
    hide IsMark, WriteMark, TagOf, AreMarks, Write, TagsOf, Flatten, FlattenOne, PrintTag, PrintClose, AllClean,
        CleanName;
    OneStands(open);
    OneStands(close);
    MarksJoin([open], inner);
    MarksJoin([open] + inner, [close]);
    OneElement(Pair(item.name, Skeleton(item.content)));
    PairParts(item.name, Skeleton(item.content));
    Regroup(WriteMark(open), PrintAll(item.content), WriteMark(close));
  }

  lemma PlainItemStands(item: Item)
    requires !item.Double? && Clean(item)
    ensures Stand(MarksOfItem(item), Print(item), SkeletonOne(item))
  {
    hide IsMark, WriteMark, TagOf, AreMarks, Write, TagsOf, Flatten, FlattenOne, CleanName, CleanAttributes, EndsFirst;
    Nothing();
    if item.Single? {
      SingleIsMark(item.name, item.attributes, item.pad, item.endPad);
      OneStands(MarksOfItem(item)[0]);
      OneElement(Leaf(item.name));
      LeafParts(item.name);
    } else {
      PlainMark(item);
      OneStands(MarksOfItem(item)[0]);
    }
  }

  lemma LeafParts(name: string)
    ensures FlattenOne(Leaf(name)) == [Empty(name)]
  {
  }

  lemma PlainMark(item: Item)
    requires !item.Double? && !item.Single? && Clean(item)
    ensures |MarksOfItem(item)| == 1 && IsMark(MarksOfItem(item)[0]) && TagOf(MarksOfItem(item)[0]) == []
    ensures WriteMark(MarksOfItem(item)[0]) == Print(item) && SkeletonOne(item) == []
  {
  }

  /** A printed document is written in marks with the tags of its elements. */
  lemma {:induction false} ItemsAreMarks(items: seq<Item>)
    requires AllClean(items)
    ensures Stand(MarksOfAll(items), PrintAll(items), Skeleton(items))
    decreases items
  {
    hide MarksOfItem, Print, SkeletonOne, Clean;
    if items == [] {
      Nothing();
    } else {
      ItemStands(items[0]);
      ItemsAreMarks(items[1..]);
      hide Write, TagsOf, Flatten, AreMarks;
      MarksJoin(MarksOfItem(items[0]), MarksOfAll(items[1..]));
      FlattenJoins(SkeletonOne(items[0]), Skeleton(items[1..]));
    }
  }

  lemma {:induction false} ItemStands(item: Item)
    requires Clean(item)
    ensures Stand(MarksOfItem(item), Print(item), SkeletonOne(item))
    decreases item
  {
    if item.Double? {
      CleanContent(item);
      hide *;
      ItemsAreMarks(item.content);
      DoubleStands(item);
    } else {
      PlainItemStands(item);
    }
  }

  lemma CleanContent(item: Item)
    requires item.Double? && Clean(item)
    ensures AllClean(item.content)
  {
  }

  /** Scanning a printed document gives the tags of its elements, so it is accepted exactly
      when it has 1 to 20,000 elements and never more than 64 of them open. */
  lemma PrintedDocumentIsAccepted(items: seq<Item>)
    requires AllClean(items)
    ensures Tokens(PrintAll(items), 0) == Some(Flatten(Skeleton(items)))
    ensures Accepts(PrintAll(items)) <==> 1 <= Size(Skeleton(items)) <= 20_000 && Height(Skeleton(items)) <= 64
  {
    hide Print, PrintAll, Skeleton, Flatten, AllClean, Tokens, FeedAll, AreMarks, Write, TagsOf, MarksOfAll;
    ItemsAreMarks(items);
    WrittenIsRead(MarksOfAll(items));
    ForestIsFed(Stack([], 0), Skeleton(items));
  }
}
