/** Looking for an order number in the text of an invoice (src/historical-order-reconciliation.ts). */
module OrderReferences {
  import opened Text

  /** Taken from outside: toLowerCase, and the letters and digits of Unicode. */
  datatype Script = Script(lower: string -> string, alphanumeric: char -> bool)

  /** Whether an occurrence at a position counts. */
  type Acceptance = (string, nat) -> bool

  function Bounded(script: Script, length: nat): Acceptance {
    (value: string, index: nat) =>
      !(0 < index <= |value| && script.alphanumeric(value[index - 1])) &&
      !(index + length < |value| && script.alphanumeric(value[index + length]))
  }

  /** The search of the source: after each occurrence it goes on behind it. On an empty number
      it ends only if the first position counts. */
  function SkippingSearch(value: string, number: string, from: nat, accept: Acceptance): bool
    requires from <= |value| && (number != "" || accept(value, from))
    decreases |value| - from
  {
    var index := IndexOf(value, number, from);
    assert number == "" ==> At(value, from, number);
    index >= 0 && (accept(value, index) || SkippingSearch(value, number, index + |number|, accept))
  }

  /** What the search is for: some occurrence counts. */
  ghost predicate Occurs(value: string, number: string, accept: Acceptance) {
    exists index: nat :: At(value, index, number) && accept(value, index)
  }

  // ---------- The same, said by what stands around the number ----------

  /** Neither side touches a letter or digit. */
  predicate StandsFree(script: Script, before: string, after: string) {
    (before == "" || !script.alphanumeric(before[|before| - 1])) && (after == "" || !script.alphanumeric(after[0]))
  }

  ghost predicate Holds(value: string, piece: string) {
    exists before, after :: value == before + piece + after
  }

  /** The number stands by itself somewhere in the text. */
  ghost predicate Mentions(script: Script, value: string, number: string) {
    exists before, after :: value == before + number + after && StandsFree(script, before, after)
  }

  lemma AtParts(value: string, index: nat, piece: string)
    requires At(value, index, piece)
    ensures value == value[..index] + piece + value[index + |piece|..]
  {
    assert value[index..index + |piece|] == piece;
  }

  lemma PartsAt(before: string, piece: string, after: string)
    ensures At(before + piece + after, |before|, piece)
    ensures (before + piece + after)[..|before|] == before && (before + piece + after)[|before| + |piece|..] == after
  {
  }

  lemma BoundedIsFree(script: Script, value: string, index: nat, number: string)
    requires At(value, index, number)
    ensures Bounded(script, |number|)(value, index) <==>
            StandsFree(script, value[..index], value[index + |number|..])
  {
  }

  lemma OccursIsMention(script: Script, value: string, number: string)
    ensures Occurs(value, number, Bounded(script, |number|)) <==> Mentions(script, value, number)
  {
    hide StandsFree;
    if Occurs(value, number, Bounded(script, |number|)) {
      var index: nat :| At(value, index, number) && Bounded(script, |number|)(value, index);
      BoundedIsFree(script, value, index, number);
      AtParts(value, index, number);
    }
    if Mentions(script, value, number) {
      var before, after :| value == before + number + after && StandsFree(script, before, after);
      PartsAt(before, number, after);
      assert value[..|before|] == before && value[|before| + |number|..] == after && At(value, |before|, number);
      BoundedIsFree(script, value, |before|, number);
    }
  }

  lemma ContainsIsHolds(value: string, piece: string)
    ensures Contains(value, piece) <==> Holds(value, piece)
  {
    if Contains(value, piece) { AtParts(value, IndexOf(value, piece, 0), piece); }
    if Holds(value, piece) {
      var before, after :| value == before + piece + after;
      PartsAt(before, piece, after);
      assert At(value, |before|, piece);
    }
  }

  method SearchReference(value: string, number: string, accept: Acceptance) returns (found: bool)
    requires number != "" || accept(value, 0)
    ensures found == SkippingSearch(value, number, 0, accept)
  {
    EmptyStandsAnywhere(value, number);
    hide At;
    var index := IndexOf(value, number, 0);
    while index >= 0
      invariant number != "" || index == 0
      invariant -1 <= index && (index >= 0 ==> index + |number| <= |value|)
      invariant SkippingSearch(value, number, 0, accept) ==
                (index >= 0 && (accept(value, index) || SkippingSearch(value, number, index + |number|, accept)))
      decreases if index >= 0 then |value| - index + 1 else 0
    {
      if accept(value, index) { return true; }
      index := IndexOf(value, number, index + |number|);
    }
    return false;
  }

  /** Where the loop stands before each turn, as long as nothing counts. */
  function IndexAt(value: string, number: string, turn: nat): int {
    if turn == 0 then IndexOf(value, number, 0)
    else
      var index := IndexAt(value, number, turn - 1);
      if 0 <= index && index + |number| <= |value| then IndexOf(value, number, index + |number|) else -1
  }

  /** Otherwise it stays at the first position for ever. */
  lemma {:induction false} EmptyNumberNeverEnds(value: string, turn: nat)
    ensures IndexAt(value, "", turn) == 0
  {
    if turn == 0 {
    } else {
      EmptyNumberNeverEnds(value, turn - 1);
    }
  }

  lemma EmptyStandsAnywhere(value: string, number: string)
    ensures number == "" ==> At(value, 0, number)
    ensures forall at: nat :: At(value, at, number) ==> at + |number| <= |value|
  {
  }

  predicate Contains(value: string, piece: string) {
    IndexOf(value, piece, 0) >= 0
  }

  predicate Refers(script: Script, value: string, provider: string, number: string)
    requires number != ""
  {
    Contains(value, provider) && SkippingSearch(value, number, 0, Bounded(script, |number|))
  }

  predicate HasOrderReference(script: Script, references: seq<string>, provider: string, displayNumber: string)
    requires script.lower(displayNumber) != ""
  {
    exists reference :: reference in references &&
      Refers(script, script.lower(reference), script.lower(provider), script.lower(displayNumber))
  }

  // ---------- When skipping loses nothing ----------

  /** The number overlaps itself when shifted by `d`. */
  predicate Overlaps(number: string, d: nat) {
    0 < d < |number| && number[d..] == number[..|number| - d]
  }

  /** Before each overlapping copy stands a letter or digit, so that copy is not bounded. */
  predicate SafeOverlaps(script: Script, number: string) {
    forall d :: 0 < d < |number| && Overlaps(number, d) ==> script.alphanumeric(number[d - 1])
  }

  lemma OverlapBetween(value: string, number: string, i: nat, j: nat)
    requires At(value, i, number) && At(value, j, number) && i < j < i + |number|
    ensures Overlaps(number, j - i) && value[j - 1] == number[j - i - 1]
  {
    var d := j - i;
    forall k | 0 <= k < |number| - d
      ensures number[d..][k] == number[..|number| - d][k]
    {
      AtChar(value, i, number, d + k);
      AtChar(value, j, number, k);
    }
    assert number[d..] == number[..|number| - d];
  }

  /** No copy that overlaps an earlier one counts. */
  ghost predicate MaskedRefused(value: string, number: string, accept: Acceptance) {
    forall i: nat, j: nat :: At(value, i, number) && At(value, j, number) && i < j < i + |number| ==> !accept(value, j)
  }

  lemma MaskedIsUnbounded(script: Script, value: string, number: string)
    requires SafeOverlaps(script, number)
    ensures MaskedRefused(value, number, Bounded(script, |number|))
  {
    forall i: nat, j: nat | At(value, i, number) && At(value, j, number) && i < j < i + |number|
      ensures !Bounded(script, |number|)(value, j)
    {
      OverlapBetween(value, number, i, j);
    }
  }

  /** Occurrences from `from` on. */
  ghost predicate OccursFrom(value: string, number: string, from: nat, accept: Acceptance) {
    exists index: nat :: from <= index && At(value, index, number) && accept(value, index)
  }

  lemma {:induction false} SkippingFinds(value: string, number: string, from: nat, accept: Acceptance)
    requires number != "" && from <= |value| && MaskedRefused(value, number, accept)
    ensures SkippingSearch(value, number, from, accept) <==> OccursFrom(value, number, from, accept)
    decreases |value| - from
  {
    var first := IndexOf(value, number, from);
    if first >= 0 {
      SkippingFinds(value, number, first + |number|, accept);
      forall index: nat | from <= index < first + |number| && At(value, index, number) && accept(value, index)
        ensures index == first
      {
        assert first < index ==> !accept(value, index);
      }
    }
  }

  lemma SearchIsComplete(value: string, number: string, accept: Acceptance)
    requires number != "" && MaskedRefused(value, number, accept)
    ensures SkippingSearch(value, number, 0, accept) <==> Occurs(value, number, accept)
  {
    SkippingFinds(value, number, 0, accept);
  }

  /** Then the search finds a reference iff some bounded occurrence exists. */
  lemma ReferencesAreFound(script: Script, references: seq<string>, provider: string, displayNumber: string)
    requires script.lower(displayNumber) != "" && SafeOverlaps(script, script.lower(displayNumber))
    ensures HasOrderReference(script, references, provider, displayNumber) <==>
            exists reference :: reference in references && Holds(script.lower(reference), script.lower(provider)) &&
              Mentions(script, script.lower(reference), script.lower(displayNumber))
  {
    hide Holds, Mentions;
    var number := script.lower(displayNumber);
    forall reference | reference in references
      ensures SkippingSearch(script.lower(reference), number, 0, Bounded(script, |number|)) <==>
              Mentions(script, script.lower(reference), number)
      ensures Contains(script.lower(reference), script.lower(provider)) <==>
              Holds(script.lower(reference), script.lower(provider))
    {
      ContainsIsHolds(script.lower(reference), script.lower(provider));
      OccursIsMention(script, script.lower(reference), number);
      MaskedIsUnbounded(script, script.lower(reference), number);
      SearchIsComplete(script.lower(reference), number, Bounded(script, |number|));
    }
  }

  // ---------- When it does ----------

  /** A text in which the only bounded occurrence hides behind an unbounded one. */
  function Hidden(provider: string, c: char, number: string, d: nat): string
    requires d <= |number|
  {
    provider + [c] + number[..d] + number
  }

  lemma HiddenOccurs(script: Script, provider: string, c: char, number: string, d: nat)
    requires Overlaps(number, d) && !script.alphanumeric(number[d - 1])
    ensures Contains(Hidden(provider, c, number, d), provider)
    ensures Occurs(Hidden(provider, c, number, d), number, Bounded(script, |number|))
  {
    var value := Hidden(provider, c, number, d);
    var j := |provider| + 1 + d;
    assert At(value, 0, provider);
    assert At(value, j, number);
    assert value[j - 1] == number[d - 1];
    assert Bounded(script, |number|)(value, j);
  }

  lemma NoneBefore(script: Script, provider: string, c: char, number: string, d: nat, i: nat)
    requires Overlaps(number, d) && !script.alphanumeric(number[d - 1]) && c !in number && i <= |provider|
    requires forall k :: 0 <= k < |provider| ==> script.alphanumeric(provider[k])
    ensures !At(Hidden(provider, c, number, d), i, number)
  {
    var value := Hidden(provider, c, number, d);
    if i + |number| <= |provider| {
      assert value[i + (d - 1)] == provider[i + d - 1] != number[d - 1];
    } else {
      var k := |provider| - i;
      assert value[i + k] == c;
      if k < |number| { assert number[k] != value[i + k]; }
    }
  }

  lemma HiddenIsMissed(script: Script, provider: string, c: char, number: string, d: nat)
    requires Overlaps(number, d) && !script.alphanumeric(number[d - 1])
    requires script.alphanumeric(c) && c !in number
    requires forall k :: 0 <= k < |provider| ==> script.alphanumeric(provider[k])
    ensures !SkippingSearch(Hidden(provider, c, number, d), number, 0, Bounded(script, |number|))
  {
    hide Hidden, At, Overlaps;
    OverlapIsProper(number, d);
    var value := Hidden(provider, c, number, d);
    var first := |provider| + 1;
    forall i | 0 <= i < first
      ensures !At(value, i, number)
    {
      NoneBefore(script, provider, c, number, d, i);
    }
    FirstIsHiding(provider, c, number, d);
    IndexIs(value, number, 0, first);
    NoneInTail(value, number, first + |number|);
  }

  lemma OverlapIsProper(number: string, d: nat)
    requires Overlaps(number, d)
    ensures 0 < d < |number|
  {
  }

  /** The first occurrence starts right after the character that makes it unbounded. */
  lemma FirstIsHiding(provider: string, c: char, number: string, d: nat)
    requires Overlaps(number, d)
    ensures var value, first := Hidden(provider, c, number, d), |provider| + 1;
            At(value, first, number) && value[first - 1] == c && |value| == first + d + |number|
  {
    var value, first := Hidden(provider, c, number, d), |provider| + 1;
    assert forall k :: 0 <= k < |number| - d ==> number[d..][k] == number[..|number| - d][k];
    forall k | 0 <= k < |number|
      ensures number[k] == value[first + k]
    {
      if k >= d { assert number[k] == number[d..][k - d]; }
    }
  }

  lemma NoneInTail(value: string, number: string, from: nat)
    requires from <= |value| < from + |number|
    ensures IndexOf(value, number, from) == -1
  {
  }

  /** With letters and digits only in the provider's name, the search finds exactly the
      bounded occurrences in every text iff every overlap of the number is safe. */
  lemma CompleteIffSafe(script: Script, provider: string, number: string, c: char)
    requires number != "" && script.alphanumeric(c) && c !in number
    requires forall k :: 0 <= k < |provider| ==> script.alphanumeric(provider[k])
    ensures (forall value :: Refers(script, value, provider, number) <==>
               Holds(value, provider) && Mentions(script, value, number)) <==>
            SafeOverlaps(script, number)
  {
    hide Holds, Mentions, SkippingSearch, IndexOf;
    if SafeOverlaps(script, number) {
      forall value
        ensures Refers(script, value, provider, number) <==>
                Holds(value, provider) && Mentions(script, value, number)
      {
        ContainsIsHolds(value, provider);
        OccursIsMention(script, value, number);
        MaskedIsUnbounded(script, value, number);
        SearchIsComplete(value, number, Bounded(script, |number|));
      }
    } else {
      var d :| 0 < d < |number| && Overlaps(number, d) && !script.alphanumeric(number[d - 1]);
      HiddenOccurs(script, provider, c, number, d);
      HiddenIsMissed(script, provider, c, number, d);
      ContainsIsHolds(Hidden(provider, c, number, d), provider);
      OccursIsMention(script, Hidden(provider, c, number, d), number);
      assert !Refers(script, Hidden(provider, c, number, d), provider, number);
    }
  }

  /** "1-1" stands by itself at the end of "ebayx1-1-1" and is not found there. */
  lemma MissedReference(script: Script)
    requires script.alphanumeric('x') && !script.alphanumeric('-')
    requires forall k :: 0 <= k < 4 ==> script.alphanumeric("ebay"[k])
    ensures !Refers(script, "ebayx1-1-1", "ebay", "1-1")
    ensures Mentions(script, "ebayx1-1-1", "1-1")
  {
    hide Mentions, Occurs, SkippingSearch, IndexOf, Overlaps, Hidden;
    HiddenText();
    OccursIsMention(script, "ebayx1-1-1", "1-1");
    HiddenOccurs(script, "ebay", 'x', "1-1", 2);
    HiddenIsMissed(script, "ebay", 'x', "1-1", 2);
  }

  lemma HiddenText()
    ensures Overlaps("1-1", 2) && Hidden("ebay", 'x', "1-1", 2) == "ebayx1-1-1"
  {
    assert "1-1"[2..] == "1" == "1-1"[..1];
    assert "1-1"[..2] == "1-";
  }
}
