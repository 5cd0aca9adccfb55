/**
 The complexity check on untrusted XML in src/aruba.ts: a cursor runs over the text and a
 stack holds the open element names.
 */
module XmlScanner {
  import opened Options
  import opened Text
  import opened Whitespace

  const XML_MAX_DEPTH := 64
  const XML_MAX_ELEMENTS := 20_000

  datatype Tag = Open(name: string) | Close(name: string) | Empty(name: string)

  predicate IsXmlWhitespace(c: char) {
    c == ' ' || c == '\t' || c == '\r' || c == '\n'
  }

  predicate EndsName(c: char) {
    IsXmlWhitespace(c) || c == '/' || c == '>'
  }

  predicate IsQuote(c: char) {
    c == '"' || c == '\''
  }

  // ---------- One turn of the scanner ----------

  datatype Turn = Fail | Finish | Skip(next: nat) | Found(tag: Tag, next: nat)

  function NameEnd(xml: string, from: nat): (r: nat)
    requires from <= |xml|
    ensures from <= r <= |xml| && (r < |xml| ==> EndsName(xml[r]))
    ensures forall i :: from <= i < r ==> !EndsName(xml[i])
    decreases |xml| - from
  {
    if from == |xml| || EndsName(xml[from]) then from else NameEnd(xml, from + 1)
  }

  /** Position of the '>' that ends a tag, quoted values being skipped, or -1. */
  function TagEnd(xml: string, from: nat, quote: Option<char>): (r: int)
    requires from <= |xml|
    ensures -1 <= r < |xml| && (r >= 0 ==> from <= r)
    decreases |xml| - from
  {
    if from == |xml| || xml[from] == '<' then -1
    else if quote.Some? then TagEnd(xml, from + 1, if xml[from] == quote.value then None else quote)
    else if IsQuote(xml[from]) then TagEnd(xml, from + 1, Some(xml[from]))
    else if xml[from] == '>' then from
    else TagEnd(xml, from + 1, None)
  }

  /** The last character before `end` that is no white space. */
  function FinalCharacter(xml: string, nameEnd: nat, end: nat): (r: nat)
    requires 1 <= nameEnd <= end <= |xml|
    ensures nameEnd - 1 <= r < end
    decreases end
  {
    if end > nameEnd && IsXmlWhitespace(xml[end - 1]) then FinalCharacter(xml, nameEnd, end - 1) else end - 1
  }

  function TagFrom(xml: string, start: nat): (r: Turn)
    requires start < |xml|
    ensures r.Found? ==> start < r.next <= |xml|
    ensures !r.Skip? && !r.Finish?
  {
    var closing := start + 1 < |xml| && xml[start + 1] == '/';
    var nameStart := start + if closing then 2 else 1;
    var nameEnd := NameEnd(xml, nameStart);
    if nameEnd == nameStart then Fail
    else
      var name := xml[nameStart..nameEnd];
      var end := TagEnd(xml, nameEnd, None);
      if end == -1 then Fail
      else if closing then
        if forall i :: nameEnd <= i < end ==> IsSpace(xml[i]) then Found(Close(name), end + 1) else Fail
      else if xml[FinalCharacter(xml, nameEnd, end)] == '/' then Found(Empty(name), end + 1)
      else Found(Open(name), end + 1)
  }

  function SkipPast(xml: string, piece: string, from: nat): (r: Turn)
    requires from <= |xml|
    ensures r.Fail? || (r.Skip? && from <= r.next <= |xml|)
  {
    var end := IndexOf(xml, piece, from);
    if end == -1 then Fail else Skip(end + |piece|)
  }

  function NextTurn(xml: string, cursor: nat): (r: Turn)
    requires cursor <= |xml|
    ensures r.Found? || r.Skip? ==> cursor < r.next <= |xml|
  {
    var start := IndexOf(xml, "<", cursor);
    if start == -1 then Finish
    else if At(xml, start, "<!--") then SkipPast(xml, "-->", start + 4)
    else if At(xml, start, "<![CDATA[") then SkipPast(xml, "]]>", start + 9)
    else if At(xml, start, "<?") then SkipPast(xml, "?>", start + 2)
    else if At(xml, start, "<!") then Fail
    else TagFrom(xml, start)
  }

  // ---------- Token stream and stack ----------

  function Tokens(xml: string, cursor: nat): Option<seq<Tag>>
    requires cursor <= |xml|
    decreases |xml| - cursor
  {
    match NextTurn(xml, cursor)
    case Fail => None
    case Finish => Some([])
    case Skip(next) => Tokens(xml, next)
    case Found(tag, next) =>
      var rest :- Tokens(xml, next);
      Some([tag] + rest)
  }

  datatype Stack = Stack(openElements: seq<string>, elements: nat)

  function Feed(s: Stack, tag: Tag): Option<Stack> {
    match tag
    case Close(name) =>
      var n := |s.openElements|;
      if n > 0 && s.openElements[n - 1] == name then Some(s.(openElements := s.openElements[..n - 1])) else None
    case Empty(name) => if s.elements < XML_MAX_ELEMENTS then Some(s.(elements := s.elements + 1)) else None
    case Open(name) =>
      if s.elements < XML_MAX_ELEMENTS && |s.openElements| < XML_MAX_DEPTH
      then Some(Stack(s.openElements + [name], s.elements + 1)) else None
  }

  function FeedAll(s: Stack, tags: seq<Tag>): Option<Stack>
    decreases |tags|
  {
    if tags == [] then Some(s)
    else
      var next :- Feed(s, tags[0]);
      FeedAll(next, tags[1..])
  }

  predicate Passes(s: Stack, tags: Option<seq<Tag>>) {
    tags.Some? && FeedAll(s, tags.value).Some? &&
    var last := FeedAll(s, tags.value).value;
    last.openElements == [] && last.elements > 0
  }

  predicate Accepts(xml: string) {
    Passes(Stack([], 0), Tokens(xml, 0))
  }

  // ---------- The scanner as written ----------

  method ScanTagEnd(xml: string, nameEnd: nat) returns (markupEnd: int)
    requires nameEnd <= |xml|
    ensures markupEnd == TagEnd(xml, nameEnd, None)
  {
    var quote := None;
    var index := nameEnd;
    while index < |xml|
      invariant nameEnd <= index <= |xml|
      invariant TagEnd(xml, nameEnd, None) == TagEnd(xml, index, quote)
    {
      var character := xml[index];
      if quote.Some? {
        if character == '<' { return -1; }
        if character == quote.value { quote := None; }
      } else if IsQuote(character) {
        quote := Some(character);
      } else if character == '<' {
        return -1;
      } else if character == '>' {
        return index;
      }
      index := index + 1;
    }
    return -1;
  }

  method ScanName(xml: string, nameStart: nat) returns (nameEnd: nat)
    requires nameStart <= |xml|
    ensures nameEnd == NameEnd(xml, nameStart)
  {
    nameEnd := nameStart;
    while nameEnd < |xml|
      invariant nameStart <= nameEnd <= |xml|
      invariant NameEnd(xml, nameStart) == NameEnd(xml, nameEnd)
    {
      if EndsName(xml[nameEnd]) { break; }
      nameEnd := nameEnd + 1;
    }
  }

  method ScanBack(xml: string, nameEnd: nat, markupEnd: nat) returns (finalCharacter: nat)
    requires 1 <= nameEnd <= markupEnd <= |xml|
    ensures finalCharacter == FinalCharacter(xml, nameEnd, markupEnd)
  {
    finalCharacter := markupEnd - 1;
    while finalCharacter >= nameEnd && IsXmlWhitespace(xml[finalCharacter])
      invariant nameEnd - 1 <= finalCharacter < markupEnd
      invariant FinalCharacter(xml, nameEnd, markupEnd) == FinalCharacter(xml, nameEnd, finalCharacter + 1)
    {
      finalCharacter := finalCharacter - 1;
    }
  }

  method ScanTag(xml: string, start: nat) returns (r: Turn)
    requires start < |xml|
    ensures r == TagFrom(xml, start)
  {
    hide TagEnd, NameEnd, FinalCharacter, IsSpace;
    var closing := start + 1 < |xml| && xml[start + 1] == '/';
    var nameStart := start + if closing then 2 else 1;
    var nameEnd := ScanName(xml, nameStart);
    if nameEnd == nameStart { return Fail; }
    var name := xml[nameStart..nameEnd];
    var markupEnd := ScanTagEnd(xml, nameEnd);
    if markupEnd == -1 { return Fail; }
    if closing {
      if exists i :: nameEnd <= i < markupEnd && !IsSpace(xml[i]) { return Fail; }
      return Found(Close(name), markupEnd + 1);
    }
    var finalCharacter := ScanBack(xml, nameEnd, markupEnd);
    return Found(if xml[finalCharacter] == '/' then Empty(name) else Open(name), markupEnd + 1);
  }

  method ScanMarkup(xml: string, cursor: nat) returns (r: Turn)
    requires cursor <= |xml|
    ensures r == NextTurn(xml, cursor)
  {
    var markupStart := IndexOf(xml, "<", cursor);
    if markupStart == -1 { return Finish; }
    if At(xml, markupStart, "<!--") {
      var commentEnd := IndexOf(xml, "-->", markupStart + 4);
      return if commentEnd == -1 then Fail else Skip(commentEnd + 3);
    }
    if At(xml, markupStart, "<![CDATA[") {
      var cdataEnd := IndexOf(xml, "]]>", markupStart + 9);
      return if cdataEnd == -1 then Fail else Skip(cdataEnd + 3);
    }
    if At(xml, markupStart, "<?") {
      var instructionEnd := IndexOf(xml, "?>", markupStart + 2);
      return if instructionEnd == -1 then Fail else Skip(instructionEnd + 2);
    }
    if At(xml, markupStart, "<!") { return Fail; }
    r := ScanTag(xml, markupStart);
  }

  lemma PassesTurn(xml: string, cursor: nat, s: Stack)
    requires cursor <= |xml|
    ensures Passes(s, Tokens(xml, cursor)) ==
              match NextTurn(xml, cursor)
              case Fail => false
              case Finish => s.openElements == [] && s.elements > 0
              case Skip(next) => Passes(s, Tokens(xml, next))
              case Found(tag, next) => Feed(s, tag).Some? && Passes(Feed(s, tag).value, Tokens(xml, next))
  {
    if NextTurn(xml, cursor).Found? {
      var rest := Tokens(xml, NextTurn(xml, cursor).next);
      if rest.Some? {
        assert ([NextTurn(xml, cursor).tag] + rest.value)[1..] == rest.value;
      }
    }
  }

  /** Pops a closing tag's element, counts any other tag and pushes an opening one. */
  method Account(openElements: seq<string>, elements: nat, tag: Tag) returns (r: Option<Stack>)
    ensures r == Feed(Stack(openElements, elements), tag)
  {
    if tag.Close? {
      var n := |openElements|;
      if n == 0 || openElements[n - 1] != tag.name { return None; }
      return Some(Stack(openElements[..n - 1], elements));
    }
    var count := elements + 1;
    if count > XML_MAX_ELEMENTS { return None; }
    if tag.Empty? { return Some(Stack(openElements, count)); }
    var pushed := openElements + [tag.name];
    if |pushed| > XML_MAX_DEPTH { return None; }
    return Some(Stack(pushed, count));
  }

  method ValidateXmlComplexity(xml: string) returns (ok: bool)
    ensures ok == Accepts(xml)
  {
    var stack := Stack([], 0);
    var cursor := 0;
    while cursor < |xml|
      invariant 0 <= cursor <= |xml|
      invariant Accepts(xml) == Passes(stack, Tokens(xml, cursor))
      decreases |xml| - cursor
    {
      PassesTurn(xml, cursor, stack);
      hide Accepts, Passes, Tokens, NextTurn, Feed;
      var turn := ScanMarkup(xml, cursor);
      match turn {
        case Fail => return false;
        case Finish => return stack.openElements == [] && stack.elements > 0;
        case Skip(next) => cursor := next;
        case Found(tag, next) =>
          var fed := Account(stack.openElements, stack.elements, tag);
          if fed.None? { return false; }
          stack := fed.value;
          cursor := next;
      }
    }
    PassesTurn(xml, cursor, stack);
    return stack.openElements == [] && stack.elements > 0;
  }
}
