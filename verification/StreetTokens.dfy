/** The longest common subsequence of street tokens (src/historical-order-reconciliation.ts). */
module StreetTokens {
  import opened Integers

  /** `positions` picks `s` out of `t`, in order. */
  ghost predicate Embeds(s: seq<string>, t: seq<string>, positions: seq<nat>) {
    |positions| == |s| &&
    (forall i :: 0 <= i < |s| ==> positions[i] < |t| && t[positions[i]] == s[i]) &&
    forall i, j :: 0 <= i < j < |s| ==> positions[i] < positions[j]
  }

  ghost predicate Subsequence(s: seq<string>, t: seq<string>) {
    exists positions :: Embeds(s, t, positions)
  }

  ghost predicate Common(s: seq<string>, left: seq<string>, right: seq<string>) {
    Subsequence(s, left) && Subsequence(s, right)
  }

  /** The cell the table gets for two prefixes: a match takes the diagonal without comparing. */
  function Cell(left: seq<string>, right: seq<string>): nat
    decreases |left| + |right|
  {
    if left == [] || right == [] then 0
    else
      var l, r := left[..|left| - 1], right[..|right| - 1];
      if left[|left| - 1] == right[|right| - 1] then Cell(l, r) + 1 else Max(Cell(l, right), Cell(left, r))
  }

  method OrderedCommonTokenCount(left: seq<string>, right: seq<string>) returns (count: nat)
    ensures count == Cell(left, right)
  {
    var counts := new nat[|left| + 1, |right| + 1]((i, j) => 0);
    for leftIndex := 1 to |left| + 1
      invariant forall i, j :: 0 <= i < leftIndex && 0 <= j <= |right| ==> counts[i, j] == Cell(left[..i], right[..j])
      invariant forall i :: 0 <= i <= |left| ==> counts[i, 0] == 0
    {
      assert left[..leftIndex][..leftIndex - 1] == left[..leftIndex - 1];
      for rightIndex := 1 to |right| + 1
        invariant forall i, j :: 0 <= i < leftIndex && 0 <= j <= |right| ==> counts[i, j] == Cell(left[..i], right[..j])
        invariant forall j :: 0 <= j < rightIndex ==> counts[leftIndex, j] == Cell(left[..leftIndex], right[..j])
        invariant forall i :: 0 <= i <= |left| ==> counts[i, 0] == 0
      {
        assert right[..rightIndex][..rightIndex - 1] == right[..rightIndex - 1];
        counts[leftIndex, rightIndex] :=
          if left[leftIndex - 1] == right[rightIndex - 1]
          then counts[leftIndex - 1, rightIndex - 1] + 1
          else Max(counts[leftIndex - 1, rightIndex], counts[leftIndex, rightIndex - 1]);
      }
    }
    assert left[..|left|] == left && right[..|right|] == right;
    return counts[|left|, |right|];
  }

  // ---------- The cell is the length of a longest common subsequence ----------

  lemma DropLast(s: seq<string>, t: seq<string>, positions: seq<nat>)
    requires Embeds(s, t, positions) && s != []
    ensures t != [] && Embeds(s[..|s| - 1], t[..|t| - 1], positions[..|s| - 1])
    ensures s[|s| - 1] != t[|t| - 1] ==> Embeds(s, t[..|t| - 1], positions)
  {
    var n := |s| - 1;
    assert positions[n] < |t|;
    forall i | 0 <= i < n
      ensures positions[i] < |t| - 1
    {
      assert positions[i] < positions[n];
    }
    if s[n] != t[|t| - 1] {
      assert positions[n] < |t| - 1;
    }
  }

  lemma Longer(s: seq<string>, t: seq<string>)
    requires t != [] && Subsequence(s, t[..|t| - 1])
    ensures Subsequence(s, t) && Subsequence(s + [t[|t| - 1]], t)
  {
    var last: nat := |t| - 1;
    var positions :| Embeds(s, t[..last], positions);
    assert Embeds(s, t, positions);
    assert Embeds(s + [t[last]], t, positions + [last]);
  }

  lemma {:induction false} SomeCommonHasLength(left: seq<string>, right: seq<string>) returns (s: seq<string>)
    ensures Common(s, left, right) && |s| == Cell(left, right)
    decreases |left| + |right|
  {
    if left == [] || right == [] {
      s := [];
      assert Embeds(s, left, []) && Embeds(s, right, []);
    } else {
      var l, r := left[..|left| - 1], right[..|right| - 1];
      if left[|left| - 1] == right[|right| - 1] {
        s := SomeCommonHasLength(l, r);
        Longer(s, left);
        Longer(s, right);
        s := s + [left[|left| - 1]];
      } else if Cell(l, right) > Cell(left, r) {
        s := SomeCommonHasLength(l, right);
        Longer(s, left);
      } else {
        s := SomeCommonHasLength(left, r);
        Longer(s, right);
      }
    }
  }

  /** Taking the diagonal on a match loses nothing: no common subsequence is longer. */
  lemma {:induction false} NoCommonIsLonger(left: seq<string>, right: seq<string>, s: seq<string>)
    requires Common(s, left, right)
    ensures |s| <= Cell(left, right)
    decreases |left| + |right|
  {
    if s == [] {
    } else {
      var p :| Embeds(s, left, p);
      var q :| Embeds(s, right, q);
      DropLast(s, left, p);
      DropLast(s, right, q);
      var l, r := left[..|left| - 1], right[..|right| - 1];
      if left[|left| - 1] == right[|right| - 1] {
        NoCommonIsLonger(l, r, s[..|s| - 1]);
      } else if s[|s| - 1] != left[|left| - 1] {
        NoCommonIsLonger(l, right, s);
      } else {
        NoCommonIsLonger(left, r, s);
      }
    }
  }

  /** The count is the length of a longest common subsequence. */
  lemma CellIsLongest(left: seq<string>, right: seq<string>, n: nat)
    ensures n == Cell(left, right) <==>
            (exists s :: Common(s, left, right) && |s| == n) && forall s :: Common(s, left, right) ==> |s| <= n
  {
    var longest := SomeCommonHasLength(left, right);
    forall s | Common(s, left, right)
      ensures |s| <= Cell(left, right)
    {
      NoCommonIsLonger(left, right, s);
    }
  }
}
