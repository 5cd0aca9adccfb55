/** The fiscal payload of an imported file, plain or signed (src/aruba.ts). */
module FiscalPayload {
  import opened Options
  import opened Ber
  import opened BerEncoding
  import opened SignedData
  import opened Envelope
  import XmlScanner
  import XmlGrammar

  const ARUBA_UPLOAD_MAX_BYTES := 4_900_000

  datatype Kind = ArubaXml | ArubaP7m

  /** What the model takes from outside: the UTF-8 decoder and the XML parser's verdict. */
  datatype Platform = Platform(decode: seq<Octet> -> string, parses: string -> bool)

  function UpperCase(c: char): char {
    if 'a' <= c <= 'z' then (c as int - 32) as char else c
  }

  predicate AtAnyCase(s: string, at: nat, piece: string) {
    at + |piece| <= |s| && forall i :: 0 <= i < |piece| ==> piece[i] == UpperCase(s[at + i])
  }

  predicate Untrusted(bytes: seq<Octet>, platform: Platform) {
    |bytes| <= ARUBA_UPLOAD_MAX_BYTES &&
    var xml := platform.decode(bytes);
    '\0' !in xml &&
    (forall at :: 0 <= at < |xml| ==> !AtAnyCase(xml, at, "<!DOCTYPE") && !AtAnyCase(xml, at, "<!ENTITY")) &&
    XmlScanner.Accepts(xml) && platform.parses(xml)
  }

  function ArubaFiscalPayload(kind: Kind, bytes: seq<Octet>, platform: Platform): Option<seq<Octet>> {
    var payload :- if kind.ArubaP7m? then SignedContent(bytes) else Some(Some(bytes));
    var octets :- payload;
    if Untrusted(octets, platform) then Some(octets) else None
  }

  // ---------- What a plain file may hold ----------

  /** Letter by letter in either case. */
  predicate SpelledAs(word: string, lower: string, upper: string) {
    |word| == |lower| == |upper| && forall i :: 0 <= i < |word| ==> word[i] in {lower[i], upper[i]}
  }

  predicate DeclaresAnything(word: string) {
    SpelledAs(word, "<!doctype", "<!DOCTYPE") || SpelledAs(word, "<!entity", "<!ENTITY")
  }

  /** Somewhere, be it in a comment, a document type or an entity is declared. */
  ghost predicate Declares(xml: string) {
    exists before, word, after :: xml == before + word + after && DeclaresAnything(word)
  }

  /** A mark, or a letter in its two cases. */
  predicate Cases(lower: char, upper: char) {
    (upper in {'<', '!'} && lower == upper) || ('A' <= upper <= 'Z' && lower == (upper as int + 32) as char)
  }

  predicate AllCases(lower: string, upper: string) {
    |lower| == |upper| && forall i :: 0 <= i < |upper| ==> Cases(lower[i], upper[i])
  }

  lemma UpperIsEitherCase(c: char, lower: char, upper: char)
    requires Cases(lower, upper)
    ensures UpperCase(c) == upper <==> c in {lower, upper}
  {
  }

  lemma AnyCaseStands(xml: string, at: nat, lower: string, upper: string)
    requires AllCases(lower, upper)
    ensures AtAnyCase(xml, at, upper) <==>
            at + |upper| <= |xml| && SpelledAs(xml[at..at + |upper|], lower, upper)
  {
    hide UpperCase, Cases;
    if at + |upper| <= |xml| {
      forall i | 0 <= i < |upper|
        ensures upper[i] == UpperCase(xml[at + i]) <==> xml[at..at + |upper|][i] in {lower[i], upper[i]}
      {
        UpperIsEitherCase(xml[at + i], lower[i], upper[i]);
      }
    }
  }

  lemma DeclarationStands(xml: string, at: nat)
    ensures AtAnyCase(xml, at, "<!DOCTYPE") <==>
            at + 9 <= |xml| && SpelledAs(xml[at..at + 9], "<!doctype", "<!DOCTYPE")
    ensures AtAnyCase(xml, at, "<!ENTITY") <==> at + 8 <= |xml| && SpelledAs(xml[at..at + 8], "<!entity", "<!ENTITY")
  {
    hide AtAnyCase, SpelledAs, AllCases;
    DoctypeLetters();
    EntityLetters();
    AnyCaseStands(xml, at, "<!doctype", "<!DOCTYPE");
    AnyCaseStands(xml, at, "<!entity", "<!ENTITY");
  }

  lemma DoctypeLetters()
    ensures AllCases("<!doctype", "<!DOCTYPE")
  {
  }

  lemma EntityLetters()
    ensures AllCases("<!entity", "<!ENTITY")
  {
  }

  lemma DeclaresSomewhere(xml: string)
    ensures Declares(xml) <==>
            exists at :: 0 <= at < |xml| && (AtAnyCase(xml, at, "<!DOCTYPE") || AtAnyCase(xml, at, "<!ENTITY"))
  {
    hide AtAnyCase, SpelledAs;
    if Declares(xml) {
      var before, word, after :| xml == before + word + after && DeclaresAnything(word);
      DeclarationStands(xml, |before|);
      WordLengths(word);
      assert xml[|before|..|before| + |word|] == word;
    }
    if exists at :: 0 <= at < |xml| && (AtAnyCase(xml, at, "<!DOCTYPE") || AtAnyCase(xml, at, "<!ENTITY")) {
      var at :| 0 <= at < |xml| && (AtAnyCase(xml, at, "<!DOCTYPE") || AtAnyCase(xml, at, "<!ENTITY"));
      DeclarationStands(xml, at);
      var n := if AtAnyCase(xml, at, "<!DOCTYPE") then 9 else 8;
      assert xml == xml[..at] + xml[at..at + n] + xml[at + n..];
      assert DeclaresAnything(xml[at..at + n]);
    }
  }

  lemma WordLengths(word: string)
    ensures SpelledAs(word, "<!doctype", "<!DOCTYPE") ==> |word| == 9
    ensures SpelledAs(word, "<!entity", "<!ENTITY") ==> |word| == 8
  {
  }

  /** A plain file is its own payload exactly when it is no longer than 4.9 MB, holds neither a
      NUL nor a declaration in any case, is a document within the bounds, and parses. */
  lemma PlainFileIsPayloadIff(bytes: seq<Octet>, platform: Platform)
    ensures ArubaFiscalPayload(ArubaXml, bytes, platform) in {None, Some(bytes)}
    ensures ArubaFiscalPayload(ArubaXml, bytes, platform) == Some(bytes) <==>
            var xml := platform.decode(bytes);
            |bytes| <= 4_900_000 && (forall i :: 0 <= i < |xml| ==> xml[i] != '\U{0}') && !Declares(xml) &&
            XmlGrammar.IsDocument(xml) && platform.parses(xml)
  {
    hide AtAnyCase, Declares, XmlGrammar.IsDocument;
    var xml := platform.decode(bytes);
    DeclaresSomewhere(xml);
    XmlGrammar.AcceptsExactlyDocuments(xml);
    assert '\0' in xml <==> exists i :: 0 <= i < |xml| && xml[i] == '\0';
  }

  // ---------- Signed and plain files ----------

  /** A signed copy, however its envelope is written and its payload cut up, has the same
      fiscal payload as the plain file, or is refused together with it. */
  lemma SignedCopyIsThePlainFile(w: Wrapping, octets: Node, bytes: seq<Octet>, platform: Platform)
    requires w.version.tag == 0x02 && w.algorithms.tag == 0x31 && w.signers.tag == 0x31
    requires Segments(octets) == Some(bytes) && bytes != []
    requires WellFormed(Wrap(w, octets))
    requires Height(Wrap(w, octets)) <= 64 && NodeSize(Wrap(w, octets)) <= 20_001
    ensures ArubaFiscalPayload(ArubaP7m, Encode(Wrap(w, octets)), platform) ==
            ArubaFiscalPayload(ArubaXml, bytes, platform)
  {
    hide SignedContent, Encode, WellFormed, Height, NodeSize, Segments, Untrusted, Wrap;
    WrappedPayloadIsReturned(w, octets, bytes);
  }

  /** A signed file has a payload exactly when it is the encoding of a signed message that
      carries this payload, and the payload is accepted as a plain file. */
  lemma SignedPayloadIsEnveloped(bytes: seq<Octet>, payload: seq<Octet>, platform: Platform)
    ensures ArubaFiscalPayload(ArubaP7m, bytes, platform) == Some(payload) <==>
            ArubaFiscalPayload(ArubaXml, payload, platform) == Some(payload) &&
            exists root :: SignedMessage(root, Some(payload)) && Encode(root) == bytes
  {
    hide SignedContent, Encode, SignedMessage, Untrusted;
    AcceptsExactlyMessages(bytes, Some(payload));
  }
}
