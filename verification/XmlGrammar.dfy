/**
 The texts in which the scanner of untrusted XML finds tags: a grammar of marks, said by
 characters and without the scanner's own tests, and accepted in both directions.
 */
module XmlGrammar {
  import opened Options
  import opened Text
  import opened Whitespace
  import opened XmlScanner
  import opened XmlElements

  /** What stands between a tag's name and its end: characters and quoted values. */
  datatype Part = Plain(c: char) | Quoted(quote: char, value: string)

  datatype Mark =
    | Characters(text: string)
    | Comment(text: string)
    | CData(text: string)
    | Instruction(text: string)
    | StartTag(name: string, parts: seq<Part>)
    | EndTag(name: string, pad: string)

  function WritePart(part: Part): string {
    match part
    case Plain(c) => [c]
    case Quoted(quote, value) => [quote] + (value + [quote])
  }

  function WriteParts(parts: seq<Part>): string {
    if parts == [] then "" else WritePart(parts[0]) + WriteParts(parts[1..])
  }

  function WriteMark(mark: Mark): string {
    match mark
    case Characters(text) => text
    case Comment(text) => "<!--" + (text + "-->")
    case CData(text) => "<![CDATA[" + (text + "]]>")
    case Instruction(text) => "<?" + (text + "?>")
    case StartTag(name, parts) => "<" + (name + (WriteParts(parts) + ">"))
    case EndTag(name, pad) => "</" + (name + (pad + ">"))
  }

  function Write(marks: seq<Mark>): string {
    if marks == [] then "" else WriteMark(marks[0]) + Write(marks[1..])
  }

  // ---------- What may be written ----------

  /** White space of XML 1.0, section 2.3. */
  const WHITE: set<char> := {' ', '\t', '\r', '\n'}

  const QUOTES: set<char> := {'"', '\''}

  predicate AllWhite(s: string) {
    forall i :: 0 <= i < |s| ==> s[i] in WHITE
  }

  /** A name goes on up to white space, a slash or the end of the tag. */
  predicate IsName(name: string) {
    name != "" && forall i :: 0 <= i < |name| ==> name[i] !in WHITE + {'/', '>'}
  }

  predicate IsPart(part: Part) {
    match part
    case Plain(c) => c !in QUOTES + {'<', '>'}
    case Quoted(quote, value) => quote in QUOTES && forall i :: 0 <= i < |value| ==> value[i] !in {quote, '<'}
  }

  predicate AreParts(parts: seq<Part>) {
    forall i :: 0 <= i < |parts| ==> IsPart(parts[i])
  }

  /** The terminator stands at the end of what it ends, and nowhere before. */
  ghost predicate EndsFirst(text: string, terminator: string) {
    forall i :: 0 <= i < |text| ==> !At(text + terminator, i, terminator)
  }

  ghost predicate IsMark(mark: Mark) {
    match mark
    case Characters(text) => '<' !in text
    case Comment(text) => EndsFirst(text, "-->")
    case CData(text) => EndsFirst(text, "]]>")
    case Instruction(text) => EndsFirst(text, "?>")
    case StartTag(name, parts) =>
      IsName(name) && name[0] !in {'!', '?'} && AreParts(parts) &&
      (parts == [] || (parts[0].Plain? && parts[0].c in WHITE + {'/'}))
    case EndTag(name, pad) =>
      IsName(name) && (pad == "" || pad[0] in WHITE) && forall i :: 0 <= i < |pad| ==> IsSpace(pad[i])
  }

  ghost predicate AreMarks(marks: seq<Mark>) {
    forall i :: 0 <= i < |marks| ==> IsMark(marks[i])
  }

  /** The last part that is no white space, if there is one, is a slash. */
  predicate ClosesItself(parts: seq<Part>) {
    parts != [] &&
    var last := parts[|parts| - 1];
    last == Plain('/') || (last.Plain? && last.c in WHITE && ClosesItself(parts[..|parts| - 1]))
  }

  function TagOf(mark: Mark): seq<Tag> {
    match mark
    case StartTag(name, parts) => [if ClosesItself(parts) then Empty(name) else Open(name)]
    case EndTag(name, _) => [Close(name)]
    case _ => []
  }

  function TagsOf(marks: seq<Mark>): seq<Tag> {
    if marks == [] then [] else TagOf(marks[0]) + TagsOf(marks[1..])
  }

  // ---------- The scanner's characters ----------

  lemma SameCharacters(c: char)
    ensures IsXmlWhitespace(c) <==> c in WHITE
    ensures EndsName(c) <==> c in WHITE + {'/', '>'}
    ensures IsQuote(c) <==> c in QUOTES
    ensures c in WHITE ==> c !in QUOTES + {'<', '>', '/', '!', '?'} && IsSpace(c)
  {
  }

  lemma SpacesArePlain(c: char)
    requires IsSpace(c)
    ensures c !in QUOTES + {'<', '>', '/'}
  {
  }

  // ---------- Forward: a written mark is scanned ----------

  lemma {:induction false} NameIsRead(xml: string, from: nat, until: nat)
    requires from <= until < |xml| && EndsName(xml[until])
    requires forall i :: from <= i < until ==> !EndsName(xml[i])
    ensures NameEnd(xml, from) == until
    decreases until - from
  {
    if from == until {
    } else {
      NameIsRead(xml, from + 1, until);
    }
  }

  lemma {:induction false} QuotedStretch(xml: string, from: nat, until: nat, quote: char)
    requires from <= until <= |xml| && forall i :: from <= i < until ==> xml[i] != '<' && xml[i] != quote
    ensures TagEnd(xml, from, Some(quote)) == TagEnd(xml, until, Some(quote))
    decreases until - from
  {
    if from == until {
    } else {
      QuotedStretch(xml, from + 1, until, quote);
    }
  }

  lemma AtFits(xml: string, from: nat, part: string)
    requires At(xml, from, part)
    ensures from + |part| <= |xml|
    ensures xml[from..from + |part|] == part
  {
  }

  lemma PlainIsPassed(xml: string, from: nat, c: char)
    requires from < |xml| && xml[from] == c && IsPart(Plain(c))
    ensures TagEnd(xml, from, None) == TagEnd(xml, from + 1, None)
  {
    SameCharacters(c);
  }

  lemma QuotedIsPassed(xml: string, from: nat, quote: char, value: string)
    requires At(xml, from, WritePart(Quoted(quote, value))) && IsPart(Quoted(quote, value))
    ensures TagEnd(xml, from, None) == TagEnd(xml, from + |value| + 2, None)
  {
    SameCharacters(quote);
    AtSplit(xml, from, [quote], value + [quote]);
    AtSplit(xml, from + 1, value, [quote]);
    AtChar(xml, from, [quote], 0);
    AtChar(xml, from + 1 + |value|, [quote], 0);
    forall i | from + 1 <= i < from + 1 + |value|
      ensures xml[i] != '<' && xml[i] != quote
    {
      AtChar(xml, from + 1, value, i - from - 1);
    }
    QuotedStretch(xml, from + 1, from + 1 + |value|, quote);
  }

  lemma PartIsPassed(xml: string, from: nat, part: Part)
    requires At(xml, from, WritePart(part)) && IsPart(part)
    ensures from + |WritePart(part)| <= |xml| && |WritePart(part)| > 0
    ensures TagEnd(xml, from, None) == TagEnd(xml, from + |WritePart(part)|, None)
  {
    match part
    case Plain(c) =>
      AtChar(xml, from, [c], 0);
      PlainIsPassed(xml, from, c);
    case Quoted(quote, value) =>
      QuotedIsPassed(xml, from, quote, value);
  }

  lemma FirstPart(xml: string, from: nat, parts: seq<Part>)
    requires parts != [] && At(xml, from, WriteParts(parts)) && AreParts(parts)
    ensures At(xml, from, WritePart(parts[0])) && At(xml, from + |WritePart(parts[0])|, WriteParts(parts[1..]))
    ensures IsPart(parts[0]) && AreParts(parts[1..])
    ensures |WriteParts(parts)| == |WritePart(parts[0])| + |WriteParts(parts[1..])|
  {
    hide At, WritePart, IsPart;
    AtSplit(xml, from, WritePart(parts[0]), WriteParts(parts[1..]));
  }

  lemma {:induction false} PartsArePassed(xml: string, from: nat, parts: seq<Part>)
    requires At(xml, from, WriteParts(parts)) && AreParts(parts)
    ensures TagEnd(xml, from, None) == TagEnd(xml, from + |WriteParts(parts)|, None)
    decreases |parts|
  {
    hide *;
    if parts == [] {
      NoPartsNoText(parts);
    } else {
      FirstPart(xml, from, parts);
      PartIsPassed(xml, from, parts[0]);
      PartsArePassed(xml, from + |WritePart(parts[0])|, parts[1..]);
    }
  }

  lemma PartsBegin(part: Part, rest: seq<Part>)
    ensures WriteParts([part] + rest) == WritePart(part) + WriteParts(rest)
    ensures AreParts([part] + rest) <==> IsPart(part) && AreParts(rest)
  {
    hide WritePart, IsPart;
    var parts := [part] + rest;
    assert parts[1..] == rest && parts[0] == part && forall i :: 0 <= i < |rest| ==> rest[i] == parts[i + 1];
  }

  lemma OnePart(part: Part)
    ensures WriteParts([part]) == WritePart(part)
  {
    assert [part][1..] == [];
  }

  lemma {:induction false} PartsSplit(left: seq<Part>, right: seq<Part>)
    ensures WriteParts(left + right) == WriteParts(left) + WriteParts(right)
  {
    hide *;
    if left == [] {
      NoPartsNoText(left);
      assert left + right == right && "" + WriteParts(right) == WriteParts(right);
    } else {
      PartsSplit(left[1..], right);
      PartsBegin(left[0], left[1..] + right);
      PartsBegin(left[0], left[1..]);
      Regroup(WritePart(left[0]), WriteParts(left[1..]), WriteParts(right));
      assert left == [left[0]] + left[1..] && left + right == [left[0]] + (left[1..] + right);
    }
  }

  lemma LastPart(init: seq<Part>, last: Part)
    ensures WriteParts(init + [last]) == WriteParts(init) + WritePart(last)
  {
    hide *;
    PartsSplit(init, [last]);
    OnePart(last);
  }

  /** What the scanner looks back on tells whether the tag closes itself. */
  lemma {:induction false} LooksBack(xml: string, nameEnd: nat, parts: seq<Part>)
    requires 1 <= nameEnd && At(xml, nameEnd, WriteParts(parts)) && AreParts(parts)
    requires nameEnd <= |xml| && xml[nameEnd - 1] != '/'
    ensures nameEnd + |WriteParts(parts)| <= |xml|
    ensures xml[FinalCharacter(xml, nameEnd, nameEnd + |WriteParts(parts)|)] == '/' <==> ClosesItself(parts)
    decreases |parts|
  {
    hide At, FinalCharacter, IsXmlWhitespace, WritePart, WriteParts;
    AtFits(xml, nameEnd, WriteParts(parts));
    if parts == [] {
      NothingBehindName(xml, nameEnd);
    } else {
      var init, last := parts[..|parts| - 1], parts[|parts| - 1];
      var end := nameEnd + |WriteParts(parts)|;
      assert parts == init + [last];
      LastPart(init, last);
      AtSplit(xml, nameEnd, WriteParts(init), WritePart(last));
      LastCharacter(xml, nameEnd + |WriteParts(init)|, last);
      LookOneBack(xml, nameEnd, end);
      LooksBack(xml, nameEnd, init);
      SameCharacters(xml[end - 1]);
    }
  }

  lemma NothingBehindName(xml: string, nameEnd: nat)
    requires 1 <= nameEnd <= |xml|
    ensures WriteParts([]) == "" && FinalCharacter(xml, nameEnd, nameEnd) == nameEnd - 1
  {
  }

  lemma LastCharacter(xml: string, from: nat, part: Part)
    requires At(xml, from, WritePart(part)) && IsPart(part)
    ensures 0 < |WritePart(part)| && from + |WritePart(part)| <= |xml|
    ensures var c := xml[from + |WritePart(part)| - 1];
            if part.Plain? then c == part.c && |WritePart(part)| == 1 else c in QUOTES
  {
    AtChar(xml, from, WritePart(part), |WritePart(part)| - 1);
  }

  lemma LookOneBack(xml: string, nameEnd: nat, end: nat)
    requires 1 <= nameEnd < end <= |xml|
    ensures FinalCharacter(xml, nameEnd, end) ==
            if IsXmlWhitespace(xml[end - 1]) then FinalCharacter(xml, nameEnd, end - 1) else end - 1
  {
  }

  lemma NameStands(xml: string, from: nat, name: string)
    requires At(xml, from, name) && IsName(name)
    ensures name != "" && from + |name| <= |xml| && xml[from..from + |name|] == name
    ensures forall i :: from <= i < from + |name| ==> !EndsName(xml[i])
    ensures xml[from] == name[0] && !EndsName(xml[from + |name| - 1]) && xml[from] != '/'
  {
    hide EndsName;
    AtFits(xml, from, name);
    forall i | from <= i < from + |name|
      ensures !EndsName(xml[i])
    {
      AtChar(xml, from, name, i - from);
      SameCharacters(xml[i]);
    }
    AtChar(xml, from, name, 0);
  }

  lemma StartTagParts(xml: string, start: nat, name: string, parts: seq<Part>)
    requires At(xml, start, WriteMark(StartTag(name, parts))) && IsMark(StartTag(name, parts))
    ensures At(xml, start, "<") && At(xml, start + 1, name)
    ensures At(xml, start + 1 + |name|, WriteParts(parts)) && At(xml, start + 1 + |name| + |WriteParts(parts)|, ">")
    ensures IsName(name) && name[0] !in {'!', '?'} && AreParts(parts)
    ensures parts == [] || (parts[0].Plain? && parts[0].c in WHITE + {'/'})
  {
    hide IsName, AreParts, WriteParts;
    AtSplit(xml, start, "<", name + (WriteParts(parts) + ">"));
    AtSplit(xml, start + 1, name, WriteParts(parts) + ">");
    AtSplit(xml, start + 1 + |name|, WriteParts(parts), ">");
  }

  lemma FirstEndsName(xml: string, from: nat, parts: seq<Part>)
    requires At(xml, from, WriteParts(parts)) && At(xml, from + |WriteParts(parts)|, ">")
    requires parts == [] || (parts[0].Plain? && parts[0].c in WHITE + {'/'})
    ensures from < |xml| && EndsName(xml[from])
  {
    AtChar(xml, from + |WriteParts(parts)|, ">", 0);
    if parts == [] {
    } else {
      AtSplit(xml, from, WritePart(parts[0]), WriteParts(parts[1..]));
      AtChar(xml, from, [parts[0].c], 0);
      SameCharacters(xml[from]);
    }
  }

  lemma StartTagIsFound(xml: string, start: nat, name: string, parts: seq<Part>)
    requires At(xml, start, WriteMark(StartTag(name, parts))) && IsMark(StartTag(name, parts))
    ensures start + 1 < |xml| && xml[start] == '<' && xml[start + 1] != '!' && xml[start + 1] != '?'
    ensures TagFrom(xml, start) ==
            Found(TagOf(StartTag(name, parts))[0], start + |WriteMark(StartTag(name, parts))|)
  {
    hide *;
    var nameEnd := start + 1 + |name|;
    var end := nameEnd + |WriteParts(parts)|;
    StartTagParts(xml, start, name, parts);
    AtChar(xml, start, "<", 0);
    AtChar(xml, end, ">", 0);
    NameStands(xml, start + 1, name);
    FirstEndsName(xml, nameEnd, parts);
    NameIsRead(xml, start + 1, nameEnd);
    PartsArePassed(xml, nameEnd, parts);
    BracketEnds(xml, end);
    SlashEndsName();
    LooksBack(xml, nameEnd, parts);
    TagConsistsOf(xml, start, start + 1, nameEnd, end);
    StartTagLength(name, parts);
  }

  lemma StartTagLength(name: string, parts: seq<Part>)
    ensures |WriteMark(StartTag(name, parts))| == |name| + |WriteParts(parts)| + 2
    ensures TagOf(StartTag(name, parts)) == [if ClosesItself(parts) then Empty(name) else Open(name)]
  {
  }

  lemma EndTagLength(name: string, pad: string)
    ensures |WriteMark(EndTag(name, pad))| == |name| + |pad| + 3
  {
  }

  /** What the scanner makes of a tag whose name and end it has found. */
  lemma TagConsistsOf(xml: string, start: nat, nameStart: nat, nameEnd: nat, end: nat)
    requires start < nameStart < nameEnd <= end < |xml|
    requires NameEnd(xml, nameStart) == nameEnd && TagEnd(xml, nameEnd, None) == end
    requires var closing := xml[start + 1] == '/';
             nameStart == (if closing then start + 2 else start + 1) &&
             (closing ==> forall i :: nameEnd <= i < end ==> IsSpace(xml[i]))
    ensures TagFrom(xml, start) ==
            Found(if xml[start + 1] == '/' then Close(xml[nameStart..nameEnd])
                  else if xml[FinalCharacter(xml, nameEnd, end)] == '/' then Empty(xml[nameStart..nameEnd])
                  else Open(xml[nameStart..nameEnd]), end + 1)
  {
    hide NameEnd, TagEnd, FinalCharacter, IsSpace;
  }

  lemma BracketEnds(xml: string, at: nat)
    requires at < |xml| && xml[at] == '>'
    ensures TagEnd(xml, at, None) == at
  {
  }

  lemma SlashEndsName()
    ensures EndsName('/') && EndsName('>')
  {
  }

  lemma {:induction false} SpaceIsPassed(xml: string, from: nat, until: nat)
    requires from <= until <= |xml| && forall i :: from <= i < until ==> IsSpace(xml[i])
    ensures TagEnd(xml, from, None) == TagEnd(xml, until, None)
    decreases until - from
  {
    hide IsSpace;
    if from == until {
    } else {
      SpacesArePlain(xml[from]);
      PlainIsPassed(xml, from, xml[from]);
      SpaceIsPassed(xml, from + 1, until);
    }
  }

  lemma EndTagParts(xml: string, start: nat, name: string, pad: string)
    requires At(xml, start, WriteMark(EndTag(name, pad))) && IsMark(EndTag(name, pad))
    ensures At(xml, start, "</") && At(xml, start + 2, name)
    ensures At(xml, start + 2 + |name|, pad) && At(xml, start + 2 + |name| + |pad|, ">")
    ensures IsName(name) && (pad == "" || pad[0] in WHITE) && forall i :: 0 <= i < |pad| ==> IsSpace(pad[i])
  {
    hide IsName;
    AtSplit(xml, start, "</", name + (pad + ">"));
    AtSplit(xml, start + 2, name, pad + ">");
    AtSplit(xml, start + 2 + |name|, pad, ">");
  }

  lemma EndTagIsFound(xml: string, start: nat, name: string, pad: string)
    requires At(xml, start, WriteMark(EndTag(name, pad))) && IsMark(EndTag(name, pad))
    ensures start + 1 < |xml| && xml[start] == '<' && xml[start + 1] == '/'
    ensures TagFrom(xml, start) == Found(Close(name), start + |WriteMark(EndTag(name, pad))|)
  {
    hide *;
    var nameEnd := start + 2 + |name|;
    var end := nameEnd + |pad|;
    EndTagParts(xml, start, name, pad);
    AtChar(xml, start, "</", 0);
    AtChar(xml, start, "</", 1);
    AtChar(xml, end, ">", 0);
    NameStands(xml, start + 2, name);
    PadStands(xml, nameEnd, pad);
    SlashEndsName();
    NameIsRead(xml, start + 2, nameEnd);
    SpaceIsPassed(xml, nameEnd, end);
    BracketEnds(xml, end);
    TagConsistsOf(xml, start, start + 2, nameEnd, end);
    EndTagLength(name, pad);
  }

  lemma PadStands(xml: string, from: nat, pad: string)
    requires At(xml, from, pad) && (pad == "" || pad[0] in WHITE) && forall i :: 0 <= i < |pad| ==> IsSpace(pad[i])
    ensures from + |pad| <= |xml| && forall i :: from <= i < from + |pad| ==> IsSpace(xml[i])
    ensures pad != "" ==> EndsName(xml[from])
  {
    hide At, IsSpace, EndsName;
    AtFits(xml, from, pad);
    forall i | from <= i < from + |pad|
      ensures IsSpace(xml[i])
    {
      AtChar(xml, from, pad, i - from);
    }
    if pad != "" {
      AtChar(xml, from, pad, 0);
      SameCharacters(xml[from]);
    }
  }

  // ---------- Skipped marks ----------

  lemma AtThrough(xml: string, from: nat, whole: string, i: nat, piece: string)
    requires At(xml, from, whole) && At(xml, i, piece) && from <= i && i + |piece| <= from + |whole|
    ensures At(whole, i - from, piece)
  {
    forall k | 0 <= k < |piece|
      ensures piece[k] == whole[i - from + k]
    {
      assert piece[k] == xml[i + k];
    }
  }

  /** The terminator found is the written one. */
  lemma TerminatorIsFound(xml: string, from: nat, text: string, terminator: string)
    requires At(xml, from, text + terminator) && EndsFirst(text, terminator)
    ensures SkipPast(xml, terminator, from) == Skip(from + |text| + |terminator|)
  {
    AtSplit(xml, from, text, terminator);
    forall i | from <= i < from + |text|
      ensures !At(xml, i, terminator)
    {
      if At(xml, i, terminator) {
        AtThrough(xml, from, text + terminator, i, terminator);
        assert false;
      }
    }
    IndexIs(xml, terminator, from, from + |text|);
  }

  lemma MarkupStarts(xml: string, cursor: nat, head: string)
    requires At(xml, cursor, head) && head != "" && head[0] == '<'
    ensures IndexOf(xml, "<", cursor) == cursor
  {
    AtChar(xml, cursor, head, 0);
  }

  lemma CommentTurn(xml: string, cursor: nat, text: string)
    requires At(xml, cursor, "<!--" + (text + "-->")) && EndsFirst(text, "-->")
    ensures NextTurn(xml, cursor) == Skip(cursor + |"<!--" + (text + "-->")|)
  {
    MarkupStarts(xml, cursor, "<!--" + (text + "-->"));
    AtSplit(xml, cursor, "<!--", text + "-->");
    hide IndexOf, EndsFirst, SkipPast;
    TerminatorIsFound(xml, cursor + 4, text, "-->");
  }

  lemma CDataTurn(xml: string, cursor: nat, text: string)
    requires At(xml, cursor, "<![CDATA[" + (text + "]]>")) && EndsFirst(text, "]]>")
    ensures NextTurn(xml, cursor) == Skip(cursor + |"<![CDATA[" + (text + "]]>")|)
  {
    MarkupStarts(xml, cursor, "<![CDATA[" + (text + "]]>"));
    AtSplit(xml, cursor, "<![CDATA[", text + "]]>");
    AtChar(xml, cursor, "<![CDATA[", 2);
    assert "<!--"[2] != xml[cursor + 2];
    hide IndexOf, EndsFirst, SkipPast;
    TerminatorIsFound(xml, cursor + 9, text, "]]>");
  }

  lemma InstructionTurn(xml: string, cursor: nat, text: string)
    requires At(xml, cursor, "<?" + (text + "?>")) && EndsFirst(text, "?>")
    ensures NextTurn(xml, cursor) == Skip(cursor + |"<?" + (text + "?>")|)
  {
    MarkupStarts(xml, cursor, "<?" + (text + "?>"));
    AtSplit(xml, cursor, "<?", text + "?>");
    AtChar(xml, cursor, "<?", 1);
    assert "<!--"[1] != xml[cursor + 1] && "<![CDATA["[1] != xml[cursor + 1] && "<!"[1] != xml[cursor + 1];
    hide IndexOf, EndsFirst, SkipPast;
    TerminatorIsFound(xml, cursor + 2, text, "?>");
  }

  lemma TagTurn(xml: string, cursor: nat)
    requires cursor + 1 < |xml| && xml[cursor] == '<' && xml[cursor + 1] != '!' && xml[cursor + 1] != '?'
    ensures NextTurn(xml, cursor) == TagFrom(xml, cursor)
  {
    assert At(xml, cursor, "<");
    assert "<!--"[1] != xml[cursor + 1] && "<![CDATA["[1] != xml[cursor + 1] && "<!"[1] != xml[cursor + 1] &&
           "<?"[1] != xml[cursor + 1];
    hide TagFrom;
  }

  lemma {:induction false} SameNext(xml: string, from: nat, until: nat)
    requires from <= until <= |xml| && forall i :: from <= i < until ==> xml[i] != '<'
    ensures IndexOf(xml, "<", from) == IndexOf(xml, "<", until)
    decreases until - from
  {
    if from == until {
    } else {
      assert !At(xml, from, "<") by {
        if At(xml, from, "<") { AtChar(xml, from, "<", 0); }
      }
      SameNext(xml, from + 1, until);
    }
  }

  lemma SameTurn(xml: string, cursor: nat, text: string)
    requires At(xml, cursor, text) && '<' !in text
    ensures cursor + |text| <= |xml| && NextTurn(xml, cursor) == NextTurn(xml, cursor + |text|)
  {
    hide SkipPast, TagFrom, At;
    AtFits(xml, cursor, text);
    forall i | cursor <= i < cursor + |text|
      ensures xml[i] != '<'
    {
      AtChar(xml, cursor, text, i - cursor);
    }
    SameNext(xml, cursor, cursor + |text|);
  }

  // ---------- Reading on ----------

  /** The tokens read from `cursor` on are these, and then those from `next` on. */
  ghost predicate Reads(xml: string, cursor: nat, tags: seq<Tag>, next: nat) {
    cursor <= next <= |xml| &&
    Tokens(xml, cursor) ==
      match Tokens(xml, next)
      case None => None
      case Some(rest) => Some(tags + rest)
  }

  lemma ReadsJoin(xml: string, a: nat, left: seq<Tag>, b: nat, right: seq<Tag>, c: nat)
    requires Reads(xml, a, left, b) && Reads(xml, b, right, c)
    ensures Reads(xml, a, left + right, c)
  {
    hide Tokens;
    if Tokens(xml, c).Some? {
      assert left + (right + Tokens(xml, c).value) == (left + right) + Tokens(xml, c).value;
    }
  }

  lemma ReadsTurn(xml: string, cursor: nat)
    requires cursor <= |xml|
    ensures NextTurn(xml, cursor).Skip? ==> Reads(xml, cursor, [], NextTurn(xml, cursor).next)
    ensures NextTurn(xml, cursor).Found? ==> Reads(xml, cursor, [NextTurn(xml, cursor).tag], NextTurn(xml, cursor).next)
  {
    if NextTurn(xml, cursor).Skip? && Tokens(xml, NextTurn(xml, cursor).next).Some? {
      assert [] + Tokens(xml, NextTurn(xml, cursor).next).value == Tokens(xml, NextTurn(xml, cursor).next).value;
    }
  }

  lemma CharactersAreSkipped(xml: string, cursor: nat, text: string)
    requires At(xml, cursor, text) && '<' !in text
    ensures Reads(xml, cursor, [], cursor + |text|)
  {
    hide NextTurn;
    SameTurn(xml, cursor, text);
    if Tokens(xml, cursor + |text|).Some? {
      assert [] + Tokens(xml, cursor + |text|).value == Tokens(xml, cursor + |text|).value;
    }
  }

  lemma MarkIsRead(xml: string, cursor: nat, mark: Mark)
    requires At(xml, cursor, WriteMark(mark)) && IsMark(mark)
    ensures Reads(xml, cursor, TagOf(mark), cursor + |WriteMark(mark)|)
  {
    hide Tokens, NextTurn, Reads, At, EndsFirst, IsName, AreParts, TagFrom, ClosesItself, WriteParts, IsSpace;
    match mark
    case Characters(text) => CharactersAreSkipped(xml, cursor, text);
    case Comment(text) => CommentTurn(xml, cursor, text); ReadsTurn(xml, cursor);
    case CData(text) => CDataTurn(xml, cursor, text); ReadsTurn(xml, cursor);
    case Instruction(text) => InstructionTurn(xml, cursor, text); ReadsTurn(xml, cursor);
    case StartTag(name, parts) =>
      StartTagIsFound(xml, cursor, name, parts);
      TagTurn(xml, cursor);
      ReadsTurn(xml, cursor);
    case EndTag(name, pad) =>
      EndTagIsFound(xml, cursor, name, pad);
      TagTurn(xml, cursor);
      ReadsTurn(xml, cursor);
  }

  lemma FirstMark(xml: string, cursor: nat, marks: seq<Mark>)
    requires At(xml, cursor, Write(marks)) && AreMarks(marks) && marks != []
    ensures At(xml, cursor, WriteMark(marks[0])) && At(xml, cursor + |WriteMark(marks[0])|, Write(marks[1..]))
    ensures IsMark(marks[0]) && AreMarks(marks[1..])
    ensures |Write(marks)| == |WriteMark(marks[0])| + |Write(marks[1..])|
    ensures TagsOf(marks) == TagOf(marks[0]) + TagsOf(marks[1..])
  {
    hide At, WriteMark, IsMark, TagOf;
    AtSplit(xml, cursor, WriteMark(marks[0]), Write(marks[1..]));
  }

  lemma NothingIsRead(xml: string, cursor: nat)
    requires At(xml, cursor, Write([]))
    ensures Write([]) == "" && TagsOf([]) == [] && Reads(xml, cursor, [], cursor)
  {
    hide Tokens;
    if Tokens(xml, cursor).Some? {
      assert [] + Tokens(xml, cursor).value == Tokens(xml, cursor).value;
    }
  }

  lemma {:induction false} MarksAreRead(xml: string, cursor: nat, marks: seq<Mark>)
    requires At(xml, cursor, Write(marks)) && AreMarks(marks)
    ensures Reads(xml, cursor, TagsOf(marks), cursor + |Write(marks)|)
    decreases |marks|
  {
    hide *;
    if marks == [] {
      NothingIsRead(xml, cursor);
    } else {
      FirstMark(xml, cursor, marks);
      MarkIsRead(xml, cursor, marks[0]);
      MarksAreRead(xml, cursor + |WriteMark(marks[0])|, marks[1..]);
      ReadsJoin(xml, cursor, TagOf(marks[0]), cursor + |WriteMark(marks[0])|, TagsOf(marks[1..]),
          cursor + |Write(marks)|);
    }
  }

  // ---------- Backward: what is scanned was written ----------

  /** Where a quoted value ends. */
  lemma {:induction false} QuoteCloses(xml: string, from: nat, quote: char) returns (close: nat)
    requires from <= |xml| && TagEnd(xml, from, Some(quote)) >= 0
    ensures from <= close < |xml| && xml[close] == quote && forall i :: from <= i < close ==> xml[i] !in {quote, '<'}
    ensures TagEnd(xml, from, Some(quote)) == TagEnd(xml, close + 1, None)
    decreases |xml| - from
  {
    if xml[from] == quote {
      close := from;
    } else {
      close := QuoteCloses(xml, from + 1, quote);
    }
  }

  lemma QuotedBegins(xml: string, from: nat) returns (close: nat)
    requires from < |xml| && TagEnd(xml, from, None) >= 0 && IsQuote(xml[from])
    ensures from < close < |xml| && TagEnd(xml, from, None) == TagEnd(xml, close + 1, None)
    ensures IsPart(Quoted(xml[from], xml[from + 1..close]))
    ensures WritePart(Quoted(xml[from], xml[from + 1..close])) == xml[from..close + 1]
  {
    SameCharacters(xml[from]);
    close := QuoteCloses(xml, from + 1, xml[from]);
    assert xml[from..close + 1] == [xml[from]] + (xml[from + 1..close] + [xml[from]]);
  }

  lemma PlainBegins(xml: string, from: nat)
    requires from < |xml| && TagEnd(xml, from, None) >= 0 && !IsQuote(xml[from]) && xml[from] != '>'
    ensures IsPart(Plain(xml[from])) && TagEnd(xml, from, None) == TagEnd(xml, from + 1, None)
  {
    SameCharacters(xml[from]);
  }

  lemma TagEndBounds(xml: string, from: nat)
    requires from <= |xml| && TagEnd(xml, from, None) >= 0
    ensures from < |xml| && from <= TagEnd(xml, from, None) < |xml|
    ensures xml[from] == '>' ==> TagEnd(xml, from, None) == from
    ensures TagEnd(xml, from, None) == from ==> xml[from] == '>'
  {
  }

  /** What stands before the end of a tag, in parts. */
  lemma {:induction false} PartsOf(xml: string, from: nat) returns (parts: seq<Part>)
    requires from <= |xml| && TagEnd(xml, from, None) >= 0
    ensures from <= TagEnd(xml, from, None) < |xml|
    ensures AreParts(parts) && WriteParts(parts) == xml[from..TagEnd(xml, from, None)]
    ensures xml[TagEnd(xml, from, None)] == '>'
    ensures from < TagEnd(xml, from, None) && !IsQuote(xml[from]) ==> parts != [] && parts[0] == Plain(xml[from])
    decreases |xml| - from
  {
    hide *;
    TagEndBounds(xml, from);
    var end := TagEnd(xml, from, None);
    if xml[from] == '>' {
      parts := [];
      NoPartsNoText(parts);
    } else if IsQuote(xml[from]) {
      var close := QuotedBegins(xml, from);
      var rest := PartsOf(xml, close + 1);
      parts := [Quoted(xml[from], xml[from + 1..close])] + rest;
      PartsBegin(parts[0], rest);
      assert xml[from..end] == xml[from..close + 1] + xml[close + 1..end];
    } else {
      PlainBegins(xml, from);
      var rest := PartsOf(xml, from + 1);
      parts := [Plain(xml[from])] + rest;
      PartsBegin(parts[0], rest);
      PlainIsWritten(xml[from]);
      assert xml[from..end] == [xml[from]] + xml[from + 1..end];
    }
  }

  lemma PlainIsWritten(c: char)
    ensures WritePart(Plain(c)) == [c]
  {
  }

  lemma NameOf(xml: string, from: nat)
    requires from <= |xml| && from < NameEnd(xml, from)
    ensures IsName(xml[from..NameEnd(xml, from)])
  {
    hide EndsName, NameEnd;
    forall i | from <= i < NameEnd(xml, from)
      ensures xml[i] !in WHITE + {'/', '>'}
    {
      SameCharacters(xml[i]);
    }
  }

  /** A tag that is found was written as a mark. */
  lemma TagWasWritten(xml: string, start: nat) returns (mark: Mark)
    requires start < |xml| && xml[start] == '<' && TagFrom(xml, start).Found?
    requires start + 1 < |xml| ==> xml[start + 1] !in {'!', '?'}
    ensures IsMark(mark) && TagOf(mark) == [TagFrom(xml, start).tag]
    ensures WriteMark(mark) == xml[start..TagFrom(xml, start).next]
  {
    var closing := start + 1 < |xml| && xml[start + 1] == '/';
    if closing {
      mark := EndTagWasWritten(xml, start);
    } else {
      mark := StartTagWasWritten(xml, start);
    }
  }

  /** What a found tag consists of. */
  lemma FoundTag(xml: string, start: nat) returns (nameStart: nat, nameEnd: nat, end: nat)
    requires start < |xml| && TagFrom(xml, start).Found?
    ensures var closing := start + 1 < |xml| && xml[start + 1] == '/';
            start < nameStart == (if closing then start + 2 else start + 1) < nameEnd == NameEnd(xml, nameStart) &&
            nameEnd <= end == TagEnd(xml, nameEnd, None) < |xml| &&
            TagFrom(xml, start).next == end + 1 &&
            TagFrom(xml, start).tag ==
            (if closing then Close(xml[nameStart..nameEnd])
             else if xml[FinalCharacter(xml, nameEnd, end)] == '/' then Empty(xml[nameStart..nameEnd])
             else Open(xml[nameStart..nameEnd])) &&
            (closing ==> forall i :: nameEnd <= i < end ==> IsSpace(xml[i]))
  {
    hide IsSpace, NameEnd, TagEnd, FinalCharacter;
    nameStart := if start + 1 < |xml| && xml[start + 1] == '/' then start + 2 else start + 1;
    nameEnd := NameEnd(xml, nameStart);
    end := TagEnd(xml, nameEnd, None);
  }

  lemma TagIsCut(xml: string, start: nat, nameStart: nat, nameEnd: nat, end: nat)
    requires start <= nameStart <= nameEnd <= end < |xml|
    ensures xml[start..end + 1] ==
            xml[start..nameStart] + (xml[nameStart..nameEnd] + (xml[nameEnd..end] + xml[end..end + 1]))
  {
    assert xml[nameEnd..end + 1] == xml[nameEnd..end] + xml[end..end + 1];
    assert xml[nameStart..end + 1] == xml[nameStart..nameEnd] + xml[nameEnd..end + 1];
    assert xml[start..end + 1] == xml[start..nameStart] + xml[nameStart..end + 1];
  }

  lemma NameEndEnds(xml: string, from: nat)
    requires from <= |xml| && NameEnd(xml, from) < |xml|
    ensures EndsName(xml[NameEnd(xml, from)])
    ensures from < NameEnd(xml, from) ==> !EndsName(xml[NameEnd(xml, from) - 1])
  {
  }

  lemma EndTagWasWritten(xml: string, start: nat) returns (mark: Mark)
    requires start + 1 < |xml| && xml[start] == '<' && xml[start + 1] == '/' && TagFrom(xml, start).Found?
    ensures IsMark(mark) && TagOf(mark) == [TagFrom(xml, start).tag]
    ensures WriteMark(mark) == xml[start..TagFrom(xml, start).next]
  {
    hide *;
    var nameStart, nameEnd, end := FoundTag(xml, start);
    NameOf(xml, nameStart);
    NameEndEnds(xml, nameStart);
    var parts := PartsOf(xml, nameEnd);
    mark := EndTag(xml[nameStart..nameEnd], xml[nameEnd..end]);
    PadIsPad(xml, nameEnd, end);
    EndTagIsMark(xml[nameStart..nameEnd], xml[nameEnd..end]);
    TagIsCut(xml, start, nameStart, nameEnd, end);
    assert xml[start..nameStart] == "</" && xml[end..end + 1] == ">";
  }

  lemma PadIsPad(xml: string, from: nat, until: nat)
    requires from <= until < |xml| && EndsName(xml[from]) && forall i :: from <= i < until ==> IsSpace(xml[i])
    ensures var pad := xml[from..until];
            (pad == "" || pad[0] in WHITE) && forall i :: 0 <= i < |pad| ==> IsSpace(pad[i])
  {
    hide IsSpace, EndsName;
    SameCharacters(xml[from]);
    if from < until { SpacesArePlain(xml[from]); }
  }

  lemma EndTagIsMark(name: string, pad: string)
    requires IsName(name) && (pad == "" || pad[0] in WHITE) && forall i :: 0 <= i < |pad| ==> IsSpace(pad[i])
    ensures IsMark(EndTag(name, pad)) && TagOf(EndTag(name, pad)) == [Close(name)]
    ensures WriteMark(EndTag(name, pad)) == "</" + (name + (pad + ">"))
  {
    hide IsName, IsSpace;
  }

  lemma StartTagWasWritten(xml: string, start: nat) returns (mark: Mark)
    requires start < |xml| && xml[start] == '<' && TagFrom(xml, start).Found?
    requires start + 1 < |xml| ==> xml[start + 1] !in {'!', '?', '/'}
    ensures IsMark(mark) && TagOf(mark) == [TagFrom(xml, start).tag]
    ensures WriteMark(mark) == xml[start..TagFrom(xml, start).next]
  {
    hide IsSpace, EndsName, NameEnd, TagEnd, IsName, ClosesItself, AreParts, WriteParts, FinalCharacter, IsQuote,
        TagFrom;
    var nameStart, nameEnd, end := FoundTag(xml, start);
    NameOf(xml, nameStart);
    NameEndEnds(xml, nameStart);
    SameCharacters(xml[nameEnd]);
    SlashEndsName();
    var parts := PartsOf(xml, nameEnd);
    NoPartsNoText(parts);
    TagEndBounds(xml, nameEnd);
    assert At(xml, nameEnd, WriteParts(parts));
    LooksBack(xml, nameEnd, parts);
    var name := xml[nameStart..nameEnd];
    mark := StartTag(name, parts);
    TagIsCut(xml, start, nameStart, nameEnd, end);
    assert xml[start..nameStart] == "<" && xml[end..end + 1] == ">";
    if parts != [] { PartsNotEmpty(parts); }
  }

  lemma PartsNotEmpty(parts: seq<Part>)
    requires parts != []
    ensures WriteParts(parts) != ""
  {
    assert |WritePart(parts[0])| > 0;
  }

  lemma NoPartsNoText(parts: seq<Part>)
    ensures parts == [] ==> WriteParts(parts) == "" && AreParts(parts)
  {
  }

  /** What is skipped up to a terminator ends with it first. */
  lemma SkippedEndsFirst(xml: string, piece: string, from: nat) returns (text: string)
    requires from <= |xml| && piece != "" && SkipPast(xml, piece, from).Skip?
    ensures EndsFirst(text, piece) && text + piece == xml[from..SkipPast(xml, piece, from).next]
  {
    var end := IndexOf(xml, piece, from);
    text := xml[from..end];
    AtFits(xml, end, piece);
    assert text + piece == xml[from..end + |piece|];
    forall i | 0 <= i < |text|
      ensures !At(text + piece, i, piece)
    {
      AtWithin(xml, from, end + |piece|, i, piece);
    }
  }

  lemma AtWithin(xml: string, from: nat, until: nat, i: nat, piece: string)
    requires from <= until <= |xml|
    ensures At(xml[from..until], i, piece) ==> At(xml, from + i, piece)
  {
  }

  lemma SkippedWasWritten(xml: string, start: nat) returns (mark: Mark)
    requires start < |xml| && xml[start] == '<' && NextTurn(xml, start).Skip?
    ensures IsMark(mark) && TagOf(mark) == [] && WriteMark(mark) == xml[start..NextTurn(xml, start).next]
  {
    hide IsMark, WriteMark, TagOf, SkipPast, TagFrom, At;
    NextIsHere(xml, start);
    if At(xml, start, "<!--") {
      var text := SkippedBehind(xml, start, "<!--", "-->");
      mark := Comment(text);
    } else if At(xml, start, "<![CDATA[") {
      var text := SkippedBehind(xml, start, "<![CDATA[", "]]>");
      mark := CData(text);
    } else {
      var text := SkippedBehind(xml, start, "<?", "?>");
      mark := Instruction(text);
    }
    SkippedMark(mark);
  }

  lemma NextIsHere(xml: string, start: nat)
    requires start < |xml| && xml[start] == '<'
    ensures IndexOf(xml, "<", start) == start
  {
  }

  lemma SkippedMark(mark: Mark)
    ensures mark.Comment? ==>
              (IsMark(mark) <==> EndsFirst(mark.text, "-->")) && WriteMark(mark) == "<!--" + (mark.text + "-->")
    ensures mark.CData? ==>
              (IsMark(mark) <==> EndsFirst(mark.text, "]]>")) && WriteMark(mark) == "<![CDATA[" + (mark.text + "]]>")
    ensures mark.Instruction? ==>
              (IsMark(mark) <==> EndsFirst(mark.text, "?>")) && WriteMark(mark) == "<?" + (mark.text + "?>")
    ensures mark.Comment? || mark.CData? || mark.Instruction? ==> TagOf(mark) == []
  {
    hide EndsFirst;
  }

  lemma SkippedBehind(xml: string, start: nat, head: string, piece: string) returns (text: string)
    requires At(xml, start, head) && piece != "" && start + |head| <= |xml|
    requires SkipPast(xml, piece, start + |head|).Skip?
    ensures EndsFirst(text, piece) && head + (text + piece) == xml[start..SkipPast(xml, piece, start + |head|).next]
  {
    hide EndsFirst, SkipPast;
    var from, next := start + |head|, SkipPast(xml, piece, start + |head|).next;
    AtFits(xml, start, head);
    text := SkippedEndsFirst(xml, piece, from);
    assert xml[start..next] == xml[start..from] + xml[from..next];
  }

  lemma TwoStand(xml: string, start: nat)
    requires start < |xml| && xml[start] == '<'
    ensures start + 1 < |xml| && xml[start + 1] == '!' ==> At(xml, start, "<!")
    ensures start + 1 < |xml| && xml[start + 1] == '?' ==> At(xml, start, "<?")
  {
  }

  lemma BracketStands(xml: string, i: nat)
    requires i < |xml|
    ensures xml[i] == '<' <==> At(xml, i, "<")
  {
    assert "<"[0] == '<';
  }

  lemma FoundWasWritten(xml: string, start: nat) returns (mark: Mark)
    requires start < |xml| && xml[start] == '<' && NextTurn(xml, start).Found?
    ensures IsMark(mark) && TagOf(mark) == [NextTurn(xml, start).tag]
    ensures WriteMark(mark) == xml[start..NextTurn(xml, start).next]
  {
    hide SkipPast, TagFrom, IsMark, WriteMark, TagOf, At;
    NextIsHere(xml, start);
    TwoStand(xml, start);
    mark := TagWasWritten(xml, start);
  }

  /** Every text the scanner reads to its end was written in marks with the tags it found. */
  lemma {:induction false} MarksOf(xml: string, cursor: nat) returns (marks: seq<Mark>)
    requires cursor <= |xml| && Tokens(xml, cursor).Some?
    ensures AreMarks(marks) && Write(marks) == xml[cursor..] && TagsOf(marks) == Tokens(xml, cursor).value
    decreases |xml| - cursor
  {
    hide *;
    var start := IndexOf(xml, "<", cursor);
    if start == -1 {
      NoMarkup(xml, cursor);
      marks := [Characters(xml[cursor..])];
      OnlyCharacters(xml[cursor..]);
    } else {
      var mark, next, tags := TurnWasWritten(xml, cursor, start);
      var rest := MarksOf(xml, next);
      marks := [Characters(xml[cursor..start]), mark] + rest;
      TwoMarks(Characters(xml[cursor..start]), mark, rest);
      LeadingCharacters(xml[cursor..start]);
      RestIsCut(xml, cursor, start, next);
      assert [] + (tags + TagsOf(rest)) == tags + TagsOf(rest);
    }
  }

  lemma RestIsCut(xml: string, a: nat, b: nat, c: nat)
    requires a <= b <= c <= |xml|
    ensures xml[a..] == xml[a..b] + (xml[b..c] + xml[c..])
  {
    assert xml[b..] == xml[b..c] + xml[c..];
  }

  lemma NoMarkup(xml: string, cursor: nat)
    requires cursor <= |xml| && IndexOf(xml, "<", cursor) == -1
    ensures '<' !in xml[cursor..] && Tokens(xml, cursor) == Some([])
  {
    forall i | cursor <= i < |xml|
      ensures xml[i] != '<'
    {
      BracketStands(xml, i);
    }
  }

  lemma LeadingCharacters(text: string)
    ensures WriteMark(Characters(text)) == text && TagOf(Characters(text)) == []
    ensures IsMark(Characters(text)) <==> '<' !in text
  {
  }

  lemma OnlyCharacters(text: string)
    requires '<' !in text
    ensures AreMarks([Characters(text)]) && Write([Characters(text)]) == text && TagsOf([Characters(text)]) == []
  {
    assert [Characters(text)][1..] == [];
  }

  lemma TwoMarks(first: Mark, second: Mark, rest: seq<Mark>)
    ensures var marks := [first, second] + rest;
            Write(marks) == WriteMark(first) + (WriteMark(second) + Write(rest)) &&
            TagsOf(marks) == TagOf(first) + (TagOf(second) + TagsOf(rest)) &&
            (AreMarks(marks) <==> IsMark(first) && IsMark(second) && AreMarks(rest))
  {
    hide WriteMark, TagOf, IsMark;
    var marks := [first, second] + rest;
    assert marks[1..] == [second] + rest && marks[1..][1..] == rest;
    assert marks[0] == first && marks[1] == second && forall i :: 0 <= i < |rest| ==> rest[i] == marks[i + 2];
  }

  lemma TurnWasWritten(xml: string, cursor: nat, start: nat) returns (mark: Mark, next: nat, tags: seq<Tag>)
    requires cursor <= |xml| && IndexOf(xml, "<", cursor) == start && Tokens(xml, cursor).Some?
    ensures cursor <= start < |xml|
    ensures cursor < next <= |xml| && start < next && '<' !in xml[cursor..start]
    ensures IsMark(mark) && TagOf(mark) == tags && WriteMark(mark) == xml[start..next]
    ensures Tokens(xml, next).Some? && Tokens(xml, cursor).value == tags + Tokens(xml, next).value
  {
    hide IsMark, WriteMark, TagOf, SkipPast, TagFrom;
    assert xml[start] == '<' by { AtChar(xml, start, "<", 0); }
    forall i | cursor <= i < start
      ensures xml[i] != '<'
    {
      BracketStands(xml, i);
    }
    assert IndexOf(xml, "<", start) == start;
    assert NextTurn(xml, cursor) == NextTurn(xml, start);
    next := NextTurn(xml, start).next;
    ReadsTurn(xml, cursor);
    if NextTurn(xml, start).Skip? {
      mark := SkippedWasWritten(xml, start);
      tags := [];
    } else {
      mark := FoundWasWritten(xml, start);
      tags := [NextTurn(xml, start).tag];
    }
  }

  // ---------- Main results ----------

  /** The tokens of a text are the tags of the marks it is written in, and no other text has
      tokens. */
  lemma TokensAreTags(xml: string, tags: seq<Tag>)
    ensures Tokens(xml, 0) == Some(tags) <==> exists marks ::
            AreMarks(marks) && Write(marks) == xml && TagsOf(marks) == tags
  {
    if Tokens(xml, 0) == Some(tags) {
      var marks := MarksOf(xml, 0);
      assert xml[0..] == xml;
    }
    forall marks | AreMarks(marks) && Write(marks) == xml && TagsOf(marks) == tags
      ensures Tokens(xml, 0) == Some(tags)
    {
      WrittenIsRead(marks);
    }
  }

  lemma WrittenIsRead(marks: seq<Mark>)
    requires AreMarks(marks)
    ensures Tokens(Write(marks), 0) == Some(TagsOf(marks))
  {
    hide *;
    var xml := Write(marks);
    StandsAtStart(xml);
    MarksAreRead(xml, 0, marks);
    ReadToTheEnd(xml, TagsOf(marks));
  }

  lemma StandsAtStart(xml: string)
    ensures At(xml, 0, xml)
  {
  }

  lemma ReadToTheEnd(xml: string, tags: seq<Tag>)
    requires Reads(xml, 0, tags, |xml|)
    ensures Tokens(xml, 0) == Some(tags)
  {
    assert Tokens(xml, |xml|) == Some([]) && tags + [] == tags;
  }

  lemma ForestIsAccepted(xml: string, forest: seq<Element>)
    requires Tokens(xml, 0) == Some(Flatten(forest)) && 1 <= Size(forest) <= 20_000 && Height(forest) <= 64
    ensures Accepts(xml)
  {
    hide Accepts, Tokens, Flatten, Size, Height;
    AcceptsExactlyForests(xml);
  }

  /** Written in marks whose tags are those of a forest of 1 to 20,000 elements with never more
      than 64 of them open. */
  ghost predicate IsDocument(xml: string) {
    exists marks, forest :: DocumentIs(xml, marks, forest)
  }

  ghost predicate DocumentIs(xml: string, marks: seq<Mark>, forest: seq<Element>) {
    AreMarks(marks) && Write(marks) == xml && TagsOf(marks) == Flatten(forest) &&
    1 <= Size(forest) <= 20_000 && Height(forest) <= 64
  }

  /** The scanner accepts exactly the documents of the grammar. */
  lemma AcceptsExactlyDocuments(xml: string)
    ensures Accepts(xml) <==> IsDocument(xml)
  {
    hide Accepts, Tokens, AreMarks, Write, TagsOf, Flatten, Size, Height;
    AcceptsExactlyForests(xml);
    if Accepts(xml) {
      var forest :| Tokens(xml, 0) == Some(Flatten(forest)) && 1 <= Size(forest) <= 20_000 && Height(forest) <= 64;
      TokensAreTags(xml, Flatten(forest));
      var marks :| AreMarks(marks) && Write(marks) == xml && TagsOf(marks) == Flatten(forest);
      assert DocumentIs(xml, marks, forest);
    }
    forall marks, forest | DocumentIs(xml, marks, forest)
      ensures Accepts(xml)
    {
      TokensAreTags(xml, Flatten(forest));
      ForestIsAccepted(xml, forest);
    }
  }
}
