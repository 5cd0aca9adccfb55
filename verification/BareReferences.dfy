/**
 Looking for a bare order number, which counts only behind the words that introduce one
 (src/historical-order-reconciliation.ts).
 */
module BareReferences {
  import opened Text
  import opened Whitespace
  import opened OrderReferences

  const PREFIX_LENGTH := 32

  // ---------- The words before a number ----------

  /** slice(Math.max(0, index - 32), index): the end of what stands before an occurrence. */
  function Tail(prefix: string): string {
    prefix[if |prefix| > PREFIX_LENGTH then |prefix| - PREFIX_LENGTH else 0..]
  }

  predicate EndsWith(s: string, end: string) {
    |end| <= |s| && s[|s| - |end|..] == end
  }

  function Drop(s: string, n: nat): string
    requires n <= |s|
  {
    s[..|s| - n]
  }

  /** (?:^|[^\p{L}\p{N}])ordine$ */
  predicate EndsInOrder(script: Script, s: string) {
    EndsWith(s, "ordine") && (|s| == 6 || !script.alphanumeric(s[|s| - 7]))
  }

  /** What stands before n or numero and an optional dot, if the text ends so. */
  function BeforeNumberWord(s: string): (r: string)
    ensures r <= s
  {
    var bare := if EndsWith(s, ".") then Drop(s, 1) else s;
    if EndsWith(bare, "numero") then Drop(bare, 6) else if EndsWith(bare, "n") then Drop(bare, 1) else ""
  }

  /** /(?:^|[^\p{L}\p{N}])ordine(?:\s+n(?:umero)?\.?)?\s*$/ */
  predicate Introduces(script: Script, prefix: string) {
    var s := TrimEnd(prefix);
    EndsInOrder(script, s) ||
    var word := BeforeNumberWord(s);
    TrimEnd(word) != word && EndsInOrder(script, TrimEnd(word))
  }

  function Introduced(script: Script, length: nat): Acceptance {
    (value: string, index: nat) =>
      Bounded(script, length)(value, index) && index <= |value| && Introduces(script, Tail(value[..index]))
  }

  predicate HasBareOrderReference(script: Script, references: seq<string>, displayNumber: string)
    requires script.lower(displayNumber) != ""
  {
    var number := script.lower(displayNumber);
    exists reference :: reference in references &&
      SkippingSearch(script.lower(reference), number, 0, Introduced(script, |number|))
  }

  // ---------- The texts that introduce a number ----------

  /** The words after "ordine": nothing, or white space, n or numero and perhaps a dot. */
  predicate NumberWord(gap: string, word: string, dot: string) {
    (gap == word == dot == "") || (gap != "" && AllSpace(gap) && word in {"n", "numero"} && dot in {"", "."})
  }

  ghost predicate IsIntroduction(script: Script, prefix: string, before: string, gap: string, word: string,
      dot: string, end: string) {
    prefix == before + "ordine" + gap + word + dot + end && NumberWord(gap, word, dot) && AllSpace(end) &&
    (before == "" || !script.alphanumeric(before[|before| - 1]))
  }

  lemma OrderEnds(script: Script, before: string)
    requires before == "" || !script.alphanumeric(before[|before| - 1])
    ensures EndsInOrder(script, before + "ordine") && !IsSpace((before + "ordine")[|before| + 5])
  {
    var s := before + "ordine";
    assert s[|s| - 6..] == "ordine";
    if |s| > 6 { assert s[|s| - 7] == before[|before| - 1]; }
  }

  lemma EndsWithIts(s: string, end: string)
    ensures EndsWith(s + end, end) && Drop(s + end, |end|) == s
  {
  }

  lemma EndsWithLast(s: string, end: string)
    requires EndsWith(s, end) && end != ""
    ensures s[|s| - 1] == end[|end| - 1]
  {
    assert s[|s| - |end|..][|end| - 1] == s[|s| - 1];
  }

  lemma BareWordIsDropped(s: string, word: string)
    requires word in {"n", "numero"}
    ensures if word == "numero" then EndsWith(s + word, "numero")
            else !EndsWith(s + word, "numero") && EndsWith(s + word, "n")
    ensures !EndsWith(s + word, ".") && Drop(s + word, |word|) == s && IsWordChar((s + word)[|s + word| - 1])
  {
    var bare := s + word;
    EndsWithIts(s, word);
    EndsWithLast(bare, word);
    if EndsWith(bare, "numero") { EndsWithLast(bare, "numero"); }
    if EndsWith(bare, ".") { EndsWithLast(bare, "."); }
  }

  predicate IsWordChar(c: char) {
    c == 'n' || c == 'o'
  }

  lemma WordIsDropped(s: string, word: string, dot: string)
    requires word in {"n", "numero"} && dot in {"", "."}
    ensures BeforeNumberWord(s + word + dot) == s && !IsSpace((s + word + dot)[|s + word + dot| - 1])
  {
    hide EndsWith, Drop;
    BareWordIsDropped(s, word);
    if dot == "." {
      EndsWithIts(s + word, ".");
    } else {
      assert s + word + dot == s + word;
    }
  }

  lemma IntroductionIsRead(script: Script, prefix: string, before: string, gap: string, word: string, dot: string,
      end: string)
    requires IsIntroduction(script, prefix, before, gap, word, dot, end)
    ensures Introduces(script, prefix)
  {
    hide EndsInOrder, BeforeNumberWord, IsSpace, TrimEnd;
    var order := before + "ordine";
    OrderEnds(script, before);
    if gap == "" {
      assert prefix == order + end;
      TrimEndIs(order, end);
    } else {
      var s := order + gap;
      assert (order + gap)[|s| - 1] == gap[|gap| - 1];
      WordIsDropped(s, word, dot);
      assert prefix == s + word + dot + end;
      TrimEndIs(s + word + dot, end);
      TrimEndIs(order, gap);
    }
  }

  lemma OrderSplits(script: Script, s: string) returns (before: string)
    requires EndsInOrder(script, s)
    ensures s == before + "ordine" && (before == "" || !script.alphanumeric(before[|before| - 1]))
  {
    before := s[..|s| - 6];
  }

  lemma WordSplits(s: string) returns (word: string, dot: string)
    requires BeforeNumberWord(s) != ""
    ensures word in {"n", "numero"} && dot in {"", "."} && s == BeforeNumberWord(s) + word + dot
  {
    dot := if EndsWith(s, ".") then "." else "";
    var bare := if EndsWith(s, ".") then Drop(s, 1) else s;
    word := if EndsWith(bare, "numero") then "numero" else "n";
    assert bare == BeforeNumberWord(s) + word;
  }

  lemma IntroductionSplits(script: Script, prefix: string)
      returns (before: string, gap: string, word: string, dot: string, end: string)
    requires Introduces(script, prefix)
    ensures IsIntroduction(script, prefix, before, gap, word, dot, end)
  {
    hide EndsInOrder, BeforeNumberWord, IsSpace, TrimEnd;
    var s := TrimEnd(prefix);
    TrimEndSplits(prefix);
    end := prefix[|s|..];
    if EndsInOrder(script, s) {
      before := OrderSplits(script, s);
      gap, word, dot := "", "", "";
      assert before + "ordine" + gap + word + dot + end == s + end;
    } else {
      var t := BeforeNumberWord(s);
      word, dot := WordSplits(s);
      TrimEndSplits(t);
      gap := t[|TrimEnd(t)|..];
      before := OrderSplits(script, TrimEnd(t));
      assert before + "ordine" + gap == t;
    }
  }

  /** The test accepts exactly the texts of the pattern. */
  lemma IntroducesIsPattern(script: Script, prefix: string)
    ensures Introduces(script, prefix) <==>
            exists before, gap, word, dot, end :: IsIntroduction(script, prefix, before, gap, word, dot, end)
  {
    if Introduces(script, prefix) {
      var before, gap, word, dot, end := IntroductionSplits(script, prefix);
    }
    if exists before, gap, word, dot, end :: IsIntroduction(script, prefix, before, gap, word, dot, end) {
      var before, gap, word, dot, end :| IsIntroduction(script, prefix, before, gap, word, dot, end);
      IntroductionIsRead(script, prefix, before, gap, word, dot, end);
    }
  }

  // ---------- What stands before and after a bare number ----------

  /** The last 32 characters before a number, or all of them, are an introduction. */
  ghost predicate IsIntroduced(script: Script, before: string) {
    exists far, near, start, gap, word, dot, end ::
      before == far + near && |near| <= 32 && (far == "" || |near| == 32) &&
      IsIntroduction(script, near, start, gap, word, dot, end)
  }

  /** The number stands by itself somewhere behind the words that introduce it. */
  ghost predicate MentionsBare(script: Script, value: string, number: string) {
    exists before, after ::
      value == before + number + after && StandsFree(script, before, after) && IsIntroduced(script, before)
  }

  lemma IntroducedIsSaid(script: Script, before: string)
    ensures Introduces(script, Tail(before)) <==> IsIntroduced(script, before)
  {
    hide Introduces, IsIntroduction;
    var near := Tail(before);
    IntroducesIsPattern(script, near);
    if Introduces(script, near) {
      var start, gap, word, dot, end :| IsIntroduction(script, near, start, gap, word, dot, end);
      var far := before[..|before| - |near|];
      assert before == far + near;
    }
    if IsIntroduced(script, before) {
      var far, near', start, gap, word, dot, end :|
        before == far + near' && |near'| <= 32 && (far == "" || |near'| == 32) &&
        IsIntroduction(script, near', start, gap, word, dot, end);
      assert near' == near;
    }
  }

  lemma OccursIsBareMention(script: Script, value: string, number: string)
    ensures Occurs(value, number, Introduced(script, |number|)) <==> MentionsBare(script, value, number)
  {
    hide At, StandsFree, Introduces, Tail, IsIntroduced;
    if Occurs(value, number, Introduced(script, |number|)) {
      var index: nat :| At(value, index, number) && Introduced(script, |number|)(value, index);
      BoundedIsFree(script, value, index, number);
      AtParts(value, index, number);
      IntroducedIsSaid(script, value[..index]);
    }
    if MentionsBare(script, value, number) {
      var before, after :|
        value == before + number + after && StandsFree(script, before, after) && IsIntroduced(script, before);
      PartsAt(before, number, after);
      BoundedIsFree(script, value, |before|, number);
      IntroducedIsSaid(script, before);
      assert value[..|before|] == before;
    }
  }

  // ---------- When skipping loses nothing ----------

  /** No overlapping copy of the number is introduced by what it overlaps. */
  ghost predicate SafeIntroductions(script: Script, number: string) {
    forall d, before :: 0 < d < |number| && Overlaps(number, d) ==>
      script.alphanumeric(number[d - 1]) || !Introduces(script, Tail(before + number[..d]))
  }

  lemma PrefixSplits(value: string, number: string, i: nat, j: nat)
    requires At(value, i, number) && At(value, j, number) && i < j < i + |number|
    ensures value[..j] == value[..i] + number[..j - i]
  {
    assert forall k :: 0 <= k < j - i ==> number[k] == value[i + k];
  }

  lemma MaskedIsNotIntroduced(script: Script, value: string, number: string)
    requires SafeIntroductions(script, number)
    ensures MaskedRefused(value, number, Introduced(script, |number|))
  {
    hide Introduces, Tail;
    forall i: nat, j: nat | At(value, i, number) && At(value, j, number) && i < j < i + |number|
      ensures !Introduced(script, |number|)(value, j)
    {
      OverlapBetween(value, number, i, j);
      PrefixSplits(value, number, i, j);
      var d, before := j - i, value[..i];
      if script.alphanumeric(number[d - 1]) {
        assert !Bounded(script, |number|)(value, j);
      } else {
        assert !Introduces(script, Tail(before + number[..d]));
      }
    }
  }

  lemma BareReferencesAreFound(script: Script, references: seq<string>, displayNumber: string)
    requires script.lower(displayNumber) != "" && SafeIntroductions(script, script.lower(displayNumber))
    ensures HasBareOrderReference(script, references, displayNumber) <==>
            exists reference :: reference in references &&
              MentionsBare(script, script.lower(reference), script.lower(displayNumber))
  {
    hide MentionsBare;
    var number := script.lower(displayNumber);
    forall reference | reference in references
      ensures SkippingSearch(script.lower(reference), number, 0, Introduced(script, |number|)) <==>
              MentionsBare(script, script.lower(reference), number)
    {
      OccursIsBareMention(script, script.lower(reference), number);
      MaskedIsNotIntroduced(script, script.lower(reference), number);
      SearchIsComplete(script.lower(reference), number, Introduced(script, |number|));
    }
  }

  lemma SafeIsSafeIntroduced(script: Script, number: string)
    requires SafeOverlaps(script, number)
    ensures SafeIntroductions(script, number)
  {
  }

  /** Where the first search is complete, the bare one is. */
  lemma SafeBareReferencesAreFound(script: Script, references: seq<string>, displayNumber: string)
    requires script.lower(displayNumber) != "" && SafeOverlaps(script, script.lower(displayNumber))
    ensures HasBareOrderReference(script, references, displayNumber) <==>
            exists reference :: reference in references &&
              MentionsBare(script, script.lower(reference), script.lower(displayNumber))
  {
    SafeIsSafeIntroduced(script, script.lower(displayNumber));
    BareReferencesAreFound(script, references, displayNumber);
  }
}
