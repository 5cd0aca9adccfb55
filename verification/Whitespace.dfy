/** White space as regular expressions (\s) and String.prototype.trim see it. */
module Whitespace {
  predicate IsSpace(c: char) {
    c == ' ' || '\U{09}' <= c <= '\U{0D}' || c == '\U{A0}' || c == '\U{1680}' || '\U{2000}' <= c <= '\U{200A}' ||
    c == '\U{2028}' || c == '\U{2029}' || c == '\U{202F}' || c == '\U{205F}' || c == '\U{3000}' || c == '\U{FEFF}'
  }

  /** WhiteSpace and LineTerminator of ECMAScript, sections 12.2 and 12.3. */
  const WHITE_SPACE: set<char> := {
    '\t', '\U{0B}', '\U{0C}', ' ', '\U{A0}', '\U{FEFF}', '\U{1680}', '\U{2000}', '\U{2001}', '\U{2002}', '\U{2003}',
    '\U{2004}', '\U{2005}', '\U{2006}', '\U{2007}', '\U{2008}', '\U{2009}', '\U{200A}', '\U{202F}', '\U{205F}',
    '\U{3000}'}

  const LINE_TERMINATORS: set<char> := {'\n', '\r', '\U{2028}', '\U{2029}'}

  lemma SpacesAreListed(c: char)
    ensures IsSpace(c) <==> c in WHITE_SPACE + LINE_TERMINATORS
  {
    CodePoints(c);
  }

  /** Between the first and the last of a range lie the listed ones. */
  lemma CodePoints(c: char)
    ensures '\U{09}' <= c <= '\U{0D}' <==> c in {'\t', '\n', '\U{0B}', '\U{0C}', '\r'}
    ensures '\U{2000}' <= c <= '\U{200A}' <==>
            c in {'\U{2000}', '\U{2001}', '\U{2002}', '\U{2003}', '\U{2004}', '\U{2005}', '\U{2006}', '\U{2007}',
                  '\U{2008}', '\U{2009}', '\U{200A}'}
  {
  }

  predicate AllSpace(s: string) {
    forall i :: 0 <= i < |s| ==> IsSpace(s[i])
  }

  /** String.prototype.trimEnd. */
  function TrimEnd(s: string): (r: string)
    ensures r <= s && (r == "" || !IsSpace(r[|r| - 1])) && forall i :: |r| <= i < |s| ==> IsSpace(s[i])
  {
    if s != "" && IsSpace(s[|s| - 1]) then TrimEnd(s[..|s| - 1]) else s
  }

  lemma TrimEndIs(s: string, end: string)
    requires AllSpace(end) && (s == "" || !IsSpace(s[|s| - 1]))
    ensures TrimEnd(s + end) == s
  {
    hide IsSpace;
    var r := TrimEnd(s + end);
    assert forall k :: |s| <= k < |s + end| ==> IsSpace((s + end)[k]);
    assert s != "" ==> (s + end)[|s| - 1] == s[|s| - 1];
    assert r == (s + end)[..|r|];
  }

  lemma TrimEndSplits(s: string)
    ensures s == TrimEnd(s) + s[|TrimEnd(s)|..] && AllSpace(s[|TrimEnd(s)|..])
  {
  }
}
