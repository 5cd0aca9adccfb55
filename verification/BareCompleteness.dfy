/**
 Where the search for a bare order number that goes on behind each occurrence misses one
 (src/historical-order-reconciliation.ts): exactly for the numbers whose own start, behind the
 words it may stand behind, introduces the copy that overlaps there.
 */
module BareCompleteness {
  import opened Text
  import opened Whitespace
  import opened OrderReferences
  import opened BareReferences

  const WORDS := "ordine numero"

  /** The letters of the introducing words. */
  predicate IsWordLetter(c: char) {
    c in "ordine" || c in "numero"
  }

  /** What Unicode says of them. */
  ghost predicate Lawful(script: Script) {
    forall c :: IsWordLetter(c) ==> script.alphanumeric(c)
  }

  /** Behind the first `k` characters of the words, the first `d` of the number introduce the
      copy of it that overlaps there. */
  predicate IntroducesCopy(script: Script, number: string, d: nat, k: nat)
    requires 0 < d < |number| && k < |WORDS|
  {
    Overlaps(number, d) && !script.alphanumeric(number[d - 1]) && Introduces(script, Tail(WORDS[..k] + number[..d]))
  }

  predicate IntroducesItself(script: Script, number: string) {
    exists d, k :: 0 < d < |number| && 0 <= k < |WORDS| && IntroducesCopy(script, number, d, k)
  }

  // ---------- Where an introduction may be cut ----------

  /** What may follow "ordine" or "ordine n": white space, behind a dot or not. */
  predicate IsTrail(s: string) {
    s != "" && (s[0] == '.' || IsSpace(s[0])) && AllSpace(s[1..])
  }

  function WordsBefore(s: string): string
    requires s != ""
  {
    if s[0] == '.' then "ordine n" else "ordine"
  }

  /** Behind the last letter of an introduction stand its dot and white space. */
  lemma LastLetter(script: Script, prefix: string, before: string, gap: string, word: string, dot: string, end: string)
    requires IsIntroduction(script, prefix, before, gap, word, dot, end)
    ensures var rest := dot + end;
            |prefix| >= |rest| + (if dot == "." then 8 else 6) && prefix[|prefix| - |rest|..] == rest &&
            IsWordLetter(prefix[|prefix| - |rest| - 1]) && dot in {"", "."} && AllSpace(end)
  {
    var words := before + "ordine" + gap + word;
    assert prefix == words + (dot + end);
    if gap == "" {
      assert words == before + "ordine";
      assert words[|before| + 5] == "ordine"[5] == 'e';
    } else {
      assert words[|words| - 1] == word[|word| - 1];
      assert "numero"[5] == 'o';
    }
  }

  lemma TailKeepsEnd(before: string, x: string)
    ensures var p := Tail(before + x);
            |p| <= PREFIX_LENGTH && (if |x| <= |p| then p[|p| - |x|..] == x else p == x[|x| - |p|..])
  {
    var all := before + x;
    var p := Tail(all);
    assert p == all[|all| - |p|..];
  }

  /** How a text that ends an introduction begins: with all of it, within "ordine" or behind it,
      or within the word behind that. */
  datatype Cut =
    | Whole
    | InOrder(k: nat, gap: string, word: string, dot: string, end: string)
    | InWord(word: string, m: nat, trail: string)

  ghost predicate Fits(script: Script, x: string, cut: Cut) {
    match cut
    case Whole => Introduces(script, Tail(x))
    case InOrder(k, gap, word, dot, end) =>
      1 <= k <= 6 && NumberWord(gap, word, dot) && AllSpace(end) && gap + end != "" &&
      x == "ordine"[k..] + (gap + word + dot + end) && k + |x| <= PREFIX_LENGTH
    case InWord(word, m, trail) =>
      word in {"n", "numero"} && m <= |word| && (m == |word| ==> word == "n" && trail != "" && trail[0] == '.') &&
      IsTrail(trail) && x == word[m..] + trail && 7 + m + |x| <= PREFIX_LENGTH
  }

  /** What the cut leaves out, with a single blank as white space. */
  ghost function Lead(script: Script, x: string, cut: Cut): string
    requires Fits(script, x, cut)
  {
    match cut
    case Whole => ""
    case InOrder(k, gap, word, dot, end) => "ordine"[..k]
    case InWord(word, m, trail) => "ordine " + word[..m]
  }

  lemma LeadIsStart(script: Script, x: string, cut: Cut) returns (k: nat)
    requires Fits(script, x, cut)
    ensures k < |WORDS| && Lead(script, x, cut) == WORDS[..k]
  {
    hide Introduces, IsTrail;
    k := match cut
      case Whole => 0
      case InOrder(k, _, _, _, _) => k
      case InWord(_, m, _) => 7 + m;
  }

  lemma DotAndEnd(dot: string, end: string)
    requires dot in {"", "."} && AllSpace(end) && dot + end != ""
    ensures IsTrail(dot + end) && (dot == "." ==> (dot + end)[0] == '.')
  {
    hide IsSpace;
    if dot == "." { assert (dot + end)[1..] == end; } else { assert dot + end == end; }
  }

  lemma TrailSplits(trail: string) returns (dot: string, end: string)
    requires IsTrail(trail)
    ensures dot in {"", "."} && AllSpace(end) && trail == dot + end
  {
    hide IsSpace;
    if trail[0] == '.' {
      dot, end := ".", trail[1..];
    } else {
      dot, end := "", trail;
      assert trail == [trail[0]] + trail[1..];
    }
  }

  lemma ShortIsItsTail(s: string)
    requires |s| <= PREFIX_LENGTH
    ensures Tail(s) == s
  {
  }

  lemma OrderIntroduces(script: Script, k: nat, gap: string, word: string, dot: string, end: string)
    requires k <= 6 && NumberWord(gap, word, dot) && AllSpace(end)
    ensures Introduces(script, "ordine"[..k] + ("ordine"[k..] + (gap + word + dot + end)))
  {
    hide Introduces, NumberWord, AllSpace;
    var prefix := "ordine"[..k] + ("ordine"[k..] + (gap + word + dot + end));
    assert prefix == "" + "ordine" + gap + word + dot + end;
    IntroductionIsRead(script, prefix, "", gap, word, dot, end);
  }

  lemma WordIntroduces(script: Script, gap: string, word: string, m: nat, trail: string)
    requires gap != "" && AllSpace(gap) && word in {"n", "numero"} && m <= |word| && IsTrail(trail)
    ensures Introduces(script, "ordine" + gap + word[..m] + (word[m..] + trail))
  {
    hide *;
    var dot, end := TrailSplits(trail);
    var order := "ordine" + gap;
    assert "" + "ordine" == "ordine";
    Regroup(order, word[..m], word[m..] + trail);
    Regroup(word[..m], word[m..], trail);
    assert word[..m] + word[m..] == word;
    Regroup(order, word, trail);
    Regroup(order + word, dot, end);
    WordsIntroduce(script, order + word + dot + end, gap, word, dot, end);
  }

  lemma WordsIntroduce(script: Script, prefix: string, gap: string, word: string, dot: string, end: string)
    requires prefix == "" + "ordine" + gap + word + dot + end && gap != "" && AllSpace(gap)
    requires word in {"n", "numero"} && dot in {"", "."} && AllSpace(end)
    ensures Introduces(script, prefix)
  {
    hide Introduces, AllSpace;
    IntroductionIsRead(script, prefix, "", gap, word, dot, end);
  }

  /** The lead and the rest of an introduction are one. */
  lemma LeadIntroduces(script: Script, x: string, cut: Cut)
    requires Fits(script, x, cut)
    ensures Introduces(script, Tail(Lead(script, x, cut) + x))
  {
    hide Introduces, IsTrail, AllSpace, Tail, NumberWord;
    ShortestIsItself(x);
    match cut
    case Whole =>
    case InOrder(k, gap, word, dot, end) =>
      OrderIntroduces(script, k, gap, word, dot, end);
      ShortIsItsTail("ordine"[..k] + x);
    case InWord(word, m, trail) =>
      SpaceIsSpace();
      WordIntroduces(script, " ", word, m, trail);
      assert "ordine" + " " + word[..m] == "ordine " + word[..m];
      ShortIsItsTail("ordine " + word[..m] + x);
  }

  lemma ShortestIsItself(x: string)
    ensures "" + x == x
  {
  }

  lemma SpaceIsSpace()
    ensures AllSpace(" ")
  {
  }

  lemma BehindFirst(left: string, right: string, n: nat)
    requires n <= |left + right|
    ensures (left + right)[n..] == if n <= |left| then left[n..] + right else right[n - |left|..]
  {
  }

  lemma CutBefore(script: Script, n: nat, before: string, gap: string, word: string, dot: string, end: string)
      returns (cut: Cut)
    requires n <= |before| && NumberWord(gap, word, dot) && AllSpace(end)
    requires before == "" || !script.alphanumeric(before[|before| - 1])
    requires |before[n..] + "ordine" + gap + word + dot + end| <= PREFIX_LENGTH
    ensures Fits(script, before[n..] + "ordine" + gap + word + dot + end, cut)
  {
    hide Introduces, NumberWord, AllSpace;
    var x := before[n..] + "ordine" + gap + word + dot + end;
    cut := Whole;
    IntroductionIsRead(script, x, before[n..], gap, word, dot, end);
    ShortIsItsTail(x);
  }

  lemma FitsOrder(script: Script, k: nat, gap: string, word: string, dot: string, end: string)
    requires 1 <= k <= 6 && NumberWord(gap, word, dot) && AllSpace(end) && gap + end != ""
    requires k + |"ordine"[k..] + (gap + word + dot + end)| <= PREFIX_LENGTH
    ensures Fits(script, "ordine"[k..] + (gap + word + dot + end), InOrder(k, gap, word, dot, end))
  {
    hide NumberWord, AllSpace;
  }

  lemma FitsGap(script: Script, gap: string, word: string, dot: string, end: string)
    requires NumberWord(gap, word, dot) && AllSpace(end) && gap + end != ""
    requires 6 + |gap + word + dot + end| <= PREFIX_LENGTH
    ensures Fits(script, gap + word + dot + end, InOrder(6, gap, word, dot, end))
  {
    hide NumberWord, AllSpace, Fits;
    FitsOrder(script, 6, gap, word, dot, end);
    assert "ordine"[6..] + (gap + word + dot + end) == gap + word + dot + end;
  }

  lemma FitsEnd(script: Script, end: string)
    requires AllSpace(end) && end != "" && 6 + |end| <= PREFIX_LENGTH
    ensures Fits(script, end, InOrder(6, "", "", "", end))
  {
    hide AllSpace, Fits;
    assert "" + "" + "" + end == end && "" + end == end;
    FitsGap(script, "", "", "", end);
  }

  lemma FitsWord(script: Script, word: string, m: nat, dot: string, end: string)
    requires word in {"n", "numero"} && m <= |word| && (m == |word| ==> word == "n" && dot == ".")
    requires dot in {"", "."} && AllSpace(end) && dot + end != "" && 7 + m + |word[m..] + (dot + end)| <= PREFIX_LENGTH
    ensures Fits(script, word[m..] + (dot + end), InWord(word, m, dot + end))
  {
    hide AllSpace, IsTrail;
    DotAndEnd(dot, end);
  }

  lemma GapMeans(gap: string, word: string, dot: string)
    requires NumberWord(gap, word, dot)
    ensures dot in {"", "."} && (gap == "" ==> word == dot == "") && (gap != "" ==> word in {"n", "numero"})
    ensures forall r :: 0 <= r < |gap| ==> NumberWord(gap[r..], word, dot)
  {
  }

  lemma EndOfSpace(end: string, r: nat)
    requires AllSpace(end) && r <= |end|
    ensures AllSpace(end[r..])
  {
  }

  /** A cut behind "ordine", within what follows it. */
  lemma CutBehind(script: Script, r: nat, gap: string, word: string, dot: string, end: string) returns (cut: Cut)
    requires NumberWord(gap, word, dot) && AllSpace(end) && dot + end != ""
    requires r < |gap + word + dot + end| && 6 + |gap + word + dot + end| <= PREFIX_LENGTH
    ensures Fits(script, (gap + word + dot + end)[r..], cut)
  {
    hide *;
    GapMeans(gap, word, dot);
    assert gap + word + dot + end == gap + (word + (dot + end));
    BehindFirst(gap, word + (dot + end), r);
    if r < |gap| {
      cut := InOrder(6, gap[r..], word, dot, end);
      assert gap[r..] + (word + (dot + end)) == gap[r..] + word + dot + end;
      FitsGap(script, gap[r..], word, dot, end);
    } else {
      BehindFirst(word, dot + end, r - |gap|);
      cut := CutInWord(script, r - |gap|, gap, word, dot, end);
    }
  }

  lemma CutInWord(script: Script, m: nat, gap: string, word: string, dot: string, end: string) returns (cut: Cut)
    requires NumberWord(gap, word, dot) && AllSpace(end) && dot + end != ""
    requires m < |word + (dot + end)| && 6 + |gap + (word + (dot + end))| <= PREFIX_LENGTH
    ensures Fits(script, (word + (dot + end))[m..], cut)
  {
    hide *;
    GapMeans(gap, word, dot);
    BehindFirst(word, dot + end, m);
    if m < |word| {
      cut := InWord(word, m, dot + end);
      FitsWord(script, word, m, dot, end);
    } else if m == |word| && dot == "." {
      cut := InWord("n", 1, dot + end);
      assert "n"[1..] + (dot + end) == dot + end == (dot + end)[0..];
      FitsWord(script, "n", 1, dot, end);
    } else {
      BehindFirst(dot, end, m - |word|);
      var rest := end[m - |word| - |dot|..];
      if m == |word| { assert rest == end == dot + end == (dot + end)[0..]; }
      EndOfSpace(end, m - |word| - |dot|);
      cut := InOrder(6, "", "", "", rest);
      FitsEnd(script, rest);
    }
  }

  /** Wherever an introduction is cut, one of the three cases fits what follows. */
  lemma CutFits(script: Script, p: string, n: nat, before: string, gap: string, word: string, dot: string, end: string)
      returns (cut: Cut)
    requires IsIntroduction(script, p, before, gap, word, dot, end) && dot + end != ""
    requires 0 < n < |p| <= PREFIX_LENGTH
    ensures Fits(script, p[n..], cut)
  {
    hide *;
    IntroductionMeans(script, p, before, gap, word, dot, end);
    var y := gap + word + dot + end;
    BehindFirst(before, "ordine" + y, n);
    if n <= |before| {
      assert before[n..] + ("ordine" + y) == before[n..] + "ordine" + gap + word + dot + end;
      cut := CutBefore(script, n, before, gap, word, dot, end);
    } else {
      BehindFirst("ordine", y, n - |before|);
      if n - |before| < 6 {
        cut := InOrder(n - |before|, gap, word, dot, end);
        GapOrEnd(gap, word, dot, end);
        FitsOrder(script, n - |before|, gap, word, dot, end);
      } else {
        cut := CutBehind(script, n - |before| - 6, gap, word, dot, end);
      }
    }
  }

  lemma IntroductionMeans(script: Script, p: string, before: string, gap: string, word: string, dot: string,
      end: string)
    requires IsIntroduction(script, p, before, gap, word, dot, end)
    ensures p == before + ("ordine" + (gap + word + dot + end)) && |p| == |before| + 6 + |gap + word + dot + end|
    ensures NumberWord(gap, word, dot) && AllSpace(end)
    ensures before == "" || !script.alphanumeric(before[|before| - 1])
  {
    hide NumberWord, AllSpace;
  }

  lemma GapOrEnd(gap: string, word: string, dot: string, end: string)
    requires NumberWord(gap, word, dot) && dot + end != ""
    ensures gap + end != ""
  {
  }

  /** A text that ends a text introducing a number fits one of the cases, unless its last
      character is a letter or digit. */
  lemma FindCut(script: Script, before: string, x: string) returns (cut: Cut)
    requires Lawful(script) && x != "" && !script.alphanumeric(x[|x| - 1]) && Introduces(script, Tail(before + x))
    ensures Fits(script, x, cut)
  {
    hide *;
    var p := Tail(before + x);
    if |x| >= |p| {
      cut := Whole;
      LongIsWhole(script, before, x);
    } else {
      TailKeepsEnd(before, x);
      var b, gap, word, dot, end := IntroductionSplits(script, p);
      LastLetter(script, p, b, gap, word, dot, end);
      LastIsNoLetter(script, p, x, dot + end);
      cut := CutFits(script, p, |p| - |x|, b, gap, word, dot, end);
    }
  }

  lemma LongIsWhole(script: Script, before: string, x: string)
    requires |x| >= |Tail(before + x)| && Introduces(script, Tail(before + x))
    ensures Fits(script, x, Whole)
  {
    hide Introduces;
    assert Tail(before + x) == Tail(x);
  }

  lemma LastIsNoLetter(script: Script, p: string, x: string, rest: string)
    requires Lawful(script) && 0 < |x| <= |p| && p[|p| - |x|..] == x && !script.alphanumeric(x[|x| - 1])
    requires |rest| < |p| && IsWordLetter(p[|p| - |rest| - 1])
    ensures rest != ""
  {
    assert p[|p| - 1] == p[|p| - |x|..][|x| - 1];
  }

  /** The words and the number itself are all that has to be looked at. */
  lemma SafeIffNotItself(script: Script, number: string)
    requires Lawful(script)
    ensures SafeIntroductions(script, number) <==> !IntroducesItself(script, number)
  {
    hide Introduces, Tail, Fits, Lead, Lawful;
    if IntroducesItself(script, number) {
      var d, k :| 0 < d < |number| && 0 <= k < |WORDS| && IntroducesCopy(script, number, d, k);
      assert Introduces(script, Tail(WORDS[..k] + number[..d]));
    }
    if !SafeIntroductions(script, number) {
      var d, before :| 0 < d < |number| && Overlaps(number, d) && !script.alphanumeric(number[d - 1]) &&
          Introduces(script, Tail(before + number[..d]));
      var cut := FindCut(script, before, number[..d]);
      LeadIntroduces(script, number[..d], cut);
      var k := LeadIsStart(script, number[..d], cut);
      assert IntroducesCopy(script, number, d, k);
    }
  }

  // ---------- A text in which the number is missed ----------

  function Spaces(n: nat): (r: string)
    ensures |r| == n && AllSpace(r) && forall i :: 0 <= i < n ==> r[i] == ' '
  {
    seq(n, _ => ' ')
  }

  /** What to put before the number: where only white space parts the words from it, a letter
      before them, so far away that the prefix of the overlapping copy no longer shows it. */
  ghost function Screen(script: Script, x: string, cut: Cut): string
    requires Fits(script, x, cut)
  {
    if cut.InWord? && cut.m == 0 then "eordine" + Spaces(PREFIX_LENGTH - 6 - |x|) else Lead(script, x, cut)
  }

  /** Behind the screen the overlapping copy is introduced. */
  lemma ScreenIntroduces(script: Script, x: string, cut: Cut)
    requires Fits(script, x, cut)
    ensures Introduces(script, Tail(Screen(script, x, cut) + x))
  {
    hide Introduces, IsTrail, AllSpace, Tail;
    if cut.InWord? && cut.m == 0 {
      var gap := Spaces(PREFIX_LENGTH - 6 - |x|);
      WordIntroduces(script, gap, cut.word, 0, cut.trail);
      assert "ordine" + gap + cut.word[..0] + x == "ordine" + gap + x;
      LetterIsCutOff("ordine" + gap + x);
      assert "eordine" + gap + x == "e" + ("ordine" + gap + x);
    } else {
      LeadIntroduces(script, x, cut);
    }
  }

  lemma LetterIsCutOff(prefix: string)
    requires |prefix| == PREFIX_LENGTH
    ensures Tail("e" + prefix) == prefix
  {
  }

  /** Right behind the screen nothing counts. */
  lemma ScreenRefuses(script: Script, x: string, cut: Cut)
    requires Fits(script, x, cut) && Lawful(script)
    ensures var u := Screen(script, x, cut);
            !Introduces(script, Tail(u)) || (u != "" && script.alphanumeric(u[|u| - 1]))
  {
    hide Introduces, IsTrail, AllSpace;
    match cut
    case Whole => NothingIntroducesNothing(script);
    case InOrder(k, gap, word, dot, end) =>
      assert IsWordLetter("ordine"[k - 1]);
    case InWord(word, m, trail) =>
      if m == 0 {
        LetterBeforeOrder(script, Spaces(PREFIX_LENGTH - 6 - |x|));
      } else {
        assert IsWordLetter(word[m - 1]);
      }
  }

  lemma NothingIntroducesNothing(script: Script)
    ensures !Introduces(script, "") && Tail("") == ""
  {
  }

  lemma LetterBeforeOrder(script: Script, gap: string)
    requires Lawful(script) && AllSpace(gap) && 7 + |gap| <= PREFIX_LENGTH
    ensures !Introduces(script, Tail("eordine" + gap))
  {
    assert Tail("eordine" + gap) == "eordine" + gap;
    NoSpaceInWords();
    TrimEndIs("eordine", gap);
    assert IsWordLetter("eordine"[0]);
    assert BeforeNumberWord("eordine") == "";
  }

  lemma NoSpaceInWords()
    ensures !IsSpace('e') && !IsSpace('n') && !IsSpace('.')
    ensures forall i :: 0 <= i < 6 ==> !IsSpace("ordine"[i])
    ensures forall i :: 0 <= i < 6 ==> !IsSpace("numero"[i])
  {
  }

  lemma NoneInOrder(k: nat, x: string, rest: string, i: nat)
    requires i < k <= 6 && x == "ordine"[k..] + rest && rest != "" && IsSpace(rest[0])
    ensures !At("ordine"[..k] + x, i, x)
  {
    hide IsSpace;
    NoSpaceInWords();
    assert "ordine"[..k] + x == "ordine" + rest;
    assert x[6 - k] == rest[0] && ("ordine" + rest)[i + 6 - k] == "ordine"[i + 6 - k];
  }

  lemma NoneInWord(word: string, m: nat, x: string, trail: string, i: nat)
    requires word in {"n", "numero"} && 0 < m <= |word| && IsTrail(trail) && x == word[m..] + trail
    requires m == |word| ==> word == "n" && trail[0] == '.'
    requires i < 7 + m
    ensures !At("ordine " + word[..m] + x, i, x)
  {
    hide *;
    Regroup("ordine ", word[..m], word[m..] + trail);
    Regroup(word[..m], word[m..], trail);
    assert word[..m] + word[m..] == word;
    TrailBegins(trail);
    if m == |word| {
      assert word[m..] + trail == trail && "ordine " + (word + trail) == "ordine n" + trail;
      NoneBeforeDot(trail, i);
    } else {
      assert "ordine " + (word + trail) == "ordine numero" + trail;
      NoneInNumero(m, trail, i);
    }
  }

  lemma TrailBegins(trail: string)
    requires IsTrail(trail)
    ensures trail != "" && (trail[0] == '.' || IsSpace(trail[0]))
  {
  }

  lemma NoneBeforeDot(trail: string, i: nat)
    requires trail != "" && trail[0] == '.' && i < 8
    ensures !At("ordine n" + trail, i, trail)
  {
    assert ("ordine n" + trail)[i] == "ordine n"[i] != '.';
  }

  lemma NoneInNumero(m: nat, trail: string, i: nat)
    requires 0 < m < 6 && trail != "" && (trail[0] == '.' || IsSpace(trail[0])) && i < 7 + m
    ensures !At("ordine numero" + trail, i, "numero"[m..] + trail)
  {
    hide IsSpace;
    NoSpaceInWords();
    var value, x, rest := "ordine numero" + trail, "numero"[m..] + trail, 6 - m;
    assert x[rest] == trail[0] && x[rest - 1] == "numero"[5];
    assert value[i + rest] == "ordine numero"[i + rest] && value[i + rest - 1] == "ordine numero"[i + rest - 1];
    assert i + rest == 6 || i + rest < 6 || "ordine numero"[i + rest] == "numero"[i + rest - 7];
  }

  lemma NoneInScreen(word: string, gap: string, x: string, trail: string, i: nat)
    requires word in {"n", "numero"} && IsTrail(trail) && x == word + trail
    requires (forall j :: 0 <= j < |gap| ==> gap[j] == ' ') && i < 7 + |gap|
    ensures !At("eordine" + gap + x, i, x)
  {
    hide IsSpace;
    NoSpaceInWords();
    var value := "eordine" + gap + x;
    assert x[0] == 'n' && (x[1] == 'u' || x[1] == trail[0]);
    assert value[i] == if i < 7 then "eordine"[i] else gap[i - 7];
    assert value[6] == 'e';
  }

  /** And the number begins nowhere within the screen. */
  lemma ScreenHoldsNone(script: Script, x: string, cut: Cut, i: nat)
    requires Fits(script, x, cut) && i < |Screen(script, x, cut)|
    ensures !At(Screen(script, x, cut) + x, i, x)
  {
    hide Introduces, IsTrail, IsSpace, At;
    match cut
    case Whole =>
    case InOrder(k, gap, word, dot, end) =>
      assert (gap + word + dot + end)[0] == (gap + end)[0];
      NoneInOrder(k, x, gap + word + dot + end, i);
    case InWord(word, m, trail) =>
      if m == 0 {
        NoneInScreen(word, Spaces(PREFIX_LENGTH - 6 - |x|), x, trail, i);
      } else {
        NoneInWord(word, m, x, trail, i);
      }
  }

  /** A number that overlaps itself, with its start before it, stands twice. */
  lemma StandsTwice(number: string, d: nat, before: string)
    requires Overlaps(number, d)
    ensures var value := before + number[..d] + number;
            At(value, |before|, number) && At(value, |before| + d, number)
    ensures forall i :: 0 <= i < |before| && At(before + number[..d] + number, i, number) ==>
              At(before + number[..d], i, number[..d])
  {
    var value := before + number[..d] + number;
    forall k | 0 <= k < |number|
      ensures number[k] == value[|before| + k]
    {
      if k >= d { assert number[k] == number[d..][k - d]; }
    }
    forall i | 0 <= i < |before| && At(value, i, number)
      ensures At(before + number[..d], i, number[..d])
    {
      forall k | 0 <= k < d
        ensures number[..d][k] == (before + number[..d])[i + k]
      {
        assert number[k] == value[i + k];
      }
    }
  }

  /** The first copy is found and does not count, and the one that overlaps it is passed over. */
  lemma OverlapIsMissed(script: Script, number: string, d: nat, before: string)
    requires Overlaps(number, d) && !script.alphanumeric(number[d - 1])
    requires Introduces(script, Tail(before + number[..d]))
    requires !Introduces(script, Tail(before)) || (before != "" && script.alphanumeric(before[|before| - 1]))
    requires forall i :: 0 <= i < |before| ==> !At(before + number[..d], i, number[..d])
    ensures var value := before + number[..d] + number;
            Occurs(value, number, Introduced(script, |number|)) &&
            !SkippingSearch(value, number, 0, Introduced(script, |number|))
  {
    hide *;
    OverlapIsProper(number, d);
    StandsTwice(number, d, before);
    TwiceParts(number, d, before);
    CoveredIsMissed(script, number, d, before + number[..d] + number, |before|);
  }

  lemma TwiceParts(number: string, d: nat, before: string)
    requires 0 < d < |number|
    ensures var value, first := before + number[..d] + number, |before|;
            |value| == first + d + |number| && value[..first] == before && value[..first + d] == before + number[..d] &&
            value[first + d - 1] == number[d - 1] && (before != "" ==> value[first - 1] == before[first - 1])
  {
  }

  /** A copy that counts, at the end of the text, overlaps the first one, which does not. */
  lemma CoveredIsMissed(script: Script, number: string, d: nat, value: string, first: nat)
    requires 0 < d < |number| && |value| == first + d + |number|
    requires At(value, first, number) && At(value, first + d, number)
    requires !script.alphanumeric(value[first + d - 1]) && Introduces(script, Tail(value[..first + d]))
    requires !Introduces(script, Tail(value[..first])) || (0 < first && script.alphanumeric(value[first - 1]))
    requires forall i :: 0 <= i < first ==> !At(value, i, number)
    ensures Occurs(value, number, Introduced(script, |number|)) &&
            !SkippingSearch(value, number, 0, Introduced(script, |number|))
  {
    hide *;
    LastCounts(script, value, |number|, first + d);
    RefusedAt(script, value, |number|, first);
    IndexIs(value, number, 0, first);
    NoneInTail(value, number, first + |number|);
    CountsSomewhere(value, number, first + d, Introduced(script, |number|));
    RefusedOnce(value, number, first, Introduced(script, |number|));
  }

  lemma LastCounts(script: Script, value: string, length: nat, i: nat)
    requires 0 < i && i + length == |value| && !script.alphanumeric(value[i - 1])
    requires Introduces(script, Tail(value[..i]))
    ensures Introduced(script, length)(value, i)
  {
    hide Introduces, Tail;
    assert Bounded(script, length)(value, i);
  }

  lemma RefusedAt(script: Script, value: string, length: nat, i: nat)
    requires i <= |value|
    requires !Introduces(script, Tail(value[..i])) || (0 < i && script.alphanumeric(value[i - 1]))
    ensures !Introduced(script, length)(value, i)
  {
    hide Introduces, Tail;
    assert Introduces(script, Tail(value[..i])) ==> !Bounded(script, length)(value, i);
  }

  lemma CountsSomewhere(value: string, number: string, i: nat, accept: Acceptance)
    requires At(value, i, number) && accept(value, i)
    ensures Occurs(value, number, accept)
  {
  }

  lemma RefusedOnce(value: string, number: string, first: nat, accept: Acceptance)
    requires number != "" && IndexOf(value, number, 0) == first && !accept(value, first)
    requires first + |number| <= |value| && IndexOf(value, number, first + |number|) == -1
    ensures !SkippingSearch(value, number, 0, accept)
  {
    hide At;
  }

  // ---------- Exactly then ----------

  lemma UnsafeIsMissed(script: Script, number: string) returns (value: string)
    requires Lawful(script) && !SafeIntroductions(script, number)
    ensures number != "" && Occurs(value, number, Introduced(script, |number|)) &&
            !SkippingSearch(value, number, 0, Introduced(script, |number|))
  {
    hide Introduces, Tail, Fits, Screen, Lawful, At, Overlaps;
    var d, before :| 0 < d < |number| && Overlaps(number, d) && !script.alphanumeric(number[d - 1]) &&
        Introduces(script, Tail(before + number[..d]));
    var x := number[..d];
    var cut := FindCut(script, before, x);
    var screen := Screen(script, x, cut);
    ScreenIntroduces(script, x, cut);
    ScreenRefuses(script, x, cut);
    forall i | 0 <= i < |screen|
      ensures !At(screen + x, i, x)
    {
      ScreenHoldsNone(script, x, cut, i);
    }
    OverlapIsMissed(script, number, d, screen);
    value := screen + x + number;
  }

  /** For every number: the bare search finds exactly the introduced occurrences in every text
      iff the number does not introduce itself. */
  lemma BareCompleteIff(script: Script, number: string)
    requires number != "" && Lawful(script)
    ensures (forall value :: SkippingSearch(value, number, 0, Introduced(script, |number|)) <==>
                             MentionsBare(script, value, number)) <==>
            !IntroducesItself(script, number)
  {
    hide MentionsBare, Introduced, IntroducesItself, SafeIntroductions, Lawful;
    SafeIffNotItself(script, number);
    if SafeIntroductions(script, number) {
      forall value
        ensures SkippingSearch(value, number, 0, Introduced(script, |number|)) <==>
                MentionsBare(script, value, number)
      {
        OccursIsBareMention(script, value, number);
        MaskedIsNotIntroduced(script, value, number);
        SearchIsComplete(value, number, Introduced(script, |number|));
      }
    } else {
      var value := UnsafeIsMissed(script, number);
      OccursIsBareMention(script, value, number);
    }
  }

  // ---------- Numbers without letters ----------

  predicate Letterless(number: string) {
    forall i :: 0 <= i < |number| ==> !IsWordLetter(number[i])
  }

  /** The number repeats a trail that leaves room for the words in the prefix looked at. */
  predicate RepeatsTrail(number: string) {
    exists d :: 0 < d < |number| &&
      Overlaps(number, d) && IsTrail(number[..d]) && d + |WordsBefore(number[..d])| <= PREFIX_LENGTH
  }

  /** A text without letters does not reach back to the last letter. */
  lemma EndsBehindLetter(p: string, x: string, rest: string)
    requires Letterless(x) && |rest| < |p| && IsWordLetter(p[|p| - |rest| - 1])
    requires if |x| <= |p| then p[|p| - |x|..] == x else p == x[|x| - |p|..]
    ensures |x| <= |rest|
  {
    hide IsWordLetter;
    var m := if |x| <= |p| then |x| else |p|;
    forall k | |p| - m <= k < |p|
      ensures !IsWordLetter(p[k])
    {
      assert p[k] == (if |x| <= |p| then p[|p| - |x|..] else p)[k - (|p| - m)];
      assert p[k] == x[|x| - |p| + k];
    }
  }

  lemma EndIsTrail(x: string, dot: string, end: string)
    requires x != "" && |x| <= |dot + end| && x == (dot + end)[|dot + end| - |x|..] && dot in {"", "."} && AllSpace(end)
    ensures IsTrail(x) && (x[0] == '.' && !IsSpace('.') ==> dot == ".")
  {
    hide IsSpace;
    var rest := dot + end;
    forall i | 0 <= i < |x|
      ensures IsSpace(x[i]) || (i == 0 && x[i] == '.' && dot == ".")
    {
      assert x[i] == rest[|rest| - |x| + i];
    }
  }

  /** A text without letters that ends a text introducing a number is a trail with the words
      before it. */
  lemma IntroducedEndIsTrail(script: Script, before: string, x: string)
    requires x != "" && Letterless(x) && Introduces(script, Tail(before + x))
    ensures IsTrail(x) && |x| + |WordsBefore(x)| <= PREFIX_LENGTH
  {
    hide Introduces, Tail, IsWordLetter, IsSpace, AllSpace, Letterless, IsTrail, IsIntroduction;
    var p := Tail(before + x);
    var b, gap, word, dot, end := IntroductionSplits(script, p);
    LastLetter(script, p, b, gap, word, dot, end);
    TailKeepsEnd(before, x);
    EndsBehindLetter(p, x, dot + end);
    assert x == (dot + end)[|dot + end| - |x|..];
    EndIsTrail(x, dot, end);
    DotIsNoSpace();
  }

  lemma DotIsNoSpace()
    ensures !IsSpace('.')
  {
  }

  lemma LetterlessIsSafe(script: Script, number: string)
    requires Letterless(number) && !RepeatsTrail(number)
    ensures SafeIntroductions(script, number)
  {
    forall d, before | 0 < d < |number| && Overlaps(number, d)
      ensures !Introduces(script, Tail(before + number[..d]))
    {
      if Introduces(script, Tail(before + number[..d])) {
        IntroducedEndIsTrail(script, before, number[..d]);
      }
    }
  }

  lemma TrailIntroduces(script: Script, x: string)
    requires IsTrail(x)
    ensures Introduces(script, WordsBefore(x) + x)
  {
    hide Introduces, IsSpace;
    if x[0] == '.' {
      assert x == "." + x[1..];
      SpaceIsSpace();
      assert WordsBefore(x) + x == "" + "ordine" + " " + "n" + "." + x[1..];
      assert IsIntroduction(script, WordsBefore(x) + x, "", " ", "n", ".", x[1..]);
      IntroductionIsRead(script, WordsBefore(x) + x, "", " ", "n", ".", x[1..]);
    } else {
      assert WordsBefore(x) + x == "" + "ordine" + "" + "" + "" + x;
      assert IsIntroduction(script, WordsBefore(x) + x, "", "", "", "", x);
      IntroductionIsRead(script, WordsBefore(x) + x, "", "", "", "", x);
    }
  }

  lemma TrailEndsInSpace(x: string)
    requires IsTrail(x)
    ensures x[|x| - 1] == '.' || IsSpace(x[|x| - 1])
  {
    hide IsSpace;
    assert |x| == 1 || x[|x| - 1] == x[1..][|x| - 2];
  }

  /** A number without letters introduces itself iff it repeats a trail. */
  lemma LetterlessIffTrail(script: Script, number: string)
    requires Lawful(script) && Letterless(number)
    requires forall c :: IsSpace(c) || c == '.' ==> !script.alphanumeric(c)
    ensures IntroducesItself(script, number) <==> RepeatsTrail(number)
  {
    hide Introduces, IsWordLetter, AllSpace, Tail, Overlaps;
    SafeIffNotItself(script, number);
    if RepeatsTrail(number) {
      var d :| 0 < d < |number| &&
          Overlaps(number, d) && IsTrail(number[..d]) && d + |WordsBefore(number[..d])| <= PREFIX_LENGTH;
      var x := number[..d];
      TrailIntroduces(script, x);
      TrailEndsInSpace(x);
      ShortIsItsTail(WordsBefore(x) + x);
      assert WordsBefore(x) == WORDS[..|WordsBefore(x)|];
      assert IntroducesCopy(script, number, d, |WordsBefore(x)|);
    } else {
      LetterlessIsSafe(script, number);
    }
  }

  /** So it is for every number that starts with neither a dot nor white space, such as "1-1". */
  lemma PlainNumbersAreFound(script: Script, references: seq<string>, displayNumber: string)
    requires script.lower(displayNumber) != "" && Letterless(script.lower(displayNumber))
    requires script.lower(displayNumber)[0] != '.' && !IsSpace(script.lower(displayNumber)[0])
    ensures HasBareOrderReference(script, references, displayNumber) <==>
            exists reference :: reference in references &&
              MentionsBare(script, script.lower(reference), script.lower(displayNumber))
  {
    LetterlessIsSafe(script, script.lower(displayNumber));
    BareReferencesAreFound(script, references, displayNumber);
  }

  // ---------- Two numbers that are missed ----------

  /** Its first word and the blank introduce the second copy. */
  lemma WordsAreMissed(script: Script)
    requires Lawful(script) && !script.alphanumeric(' ')
    ensures !SkippingSearch("ordine ordine ordine", "ordine ordine", 0, Introduced(script, 13))
    ensures MentionsBare(script, "ordine ordine ordine", "ordine ordine")
  {
    OccursIsBareMention(script, "ordine ordine ordine", "ordine ordine");
    hide Introduces, Tail, At, IsSpace, Occurs, SkippingSearch;
    var number := "ordine ordine";
    WordsOverlap();
    SpaceIsSpace();
    IntroductionIsRead(script, "ordine ", "", "", "", "", " ");
    ShortIsItsTail("ordine ");
    NothingIntroducesNothing(script);
    OverlapIsMissed(script, number, 7, "");
  }

  lemma WordsOverlap()
    ensures Overlaps("ordine ordine", 7) && "" + "ordine ordine"[..7] == "ordine "
    ensures "" + "ordine ordine"[..7] + "ordine ordine" == "ordine ordine ordine"
    ensures "ordine " == "" + "ordine" + "" + "" + "" + " "
  {
  }
}
