/** Searching in strings, as String.prototype.indexOf and startsWith do it. */
module Text {
  /** `piece` stands in `s` at position `at`. */
  predicate At(s: string, at: nat, piece: string) {
    at + |piece| <= |s| && forall i :: 0 <= i < |piece| ==> piece[i] == s[at + i]
  }

  /** Position of the first occurrence of `piece` at or after `from`, or -1. */
  function IndexOf(s: string, piece: string, from: nat): (r: int)
    requires from <= |s|
    ensures -1 <= r && (r >= 0 ==> from <= r && At(s, r, piece))
    ensures forall i :: from <= i && (r == -1 || i < r) ==> !At(s, i, piece)
    decreases |s| - from
  {
    if At(s, from, piece) then from
    else if from == |s| then -1
    else IndexOf(s, piece, from + 1)
  }

  lemma IndexIs(s: string, piece: string, from: nat, at: nat)
    requires from <= at <= |s| && At(s, at, piece)
    requires forall i :: from <= i < at ==> !At(s, i, piece)
    ensures IndexOf(s, piece, from) == at
  {
  }

  lemma AtSplit(s: string, at: nat, left: string, right: string)
    requires At(s, at, left + right)
    ensures At(s, at, left) && At(s, at + |left|, right)
  {
    forall i | 0 <= i < |left|
      ensures left[i] == s[at + i]
    {
      assert (left + right)[i] == left[i];
    }
    forall i | 0 <= i < |right|
      ensures right[i] == s[at + |left| + i]
    {
      assert (left + right)[|left| + i] == right[i];
    }
  }

  lemma AtChar(s: string, at: nat, piece: string, i: nat)
    requires At(s, at, piece) && i < |piece|
    ensures at + i < |s| && s[at + i] == piece[i]
  {
  }

  lemma Regroup(a: string, b: string, c: string)
    ensures a + b + c == a + (b + c)
  {
  }
}
