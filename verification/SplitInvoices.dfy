/** Deposit and balance invoices of one order: the subset search of src/aruba-inbound.ts. */
module SplitInvoices {
  const SPLIT_INVOICE_MAX_PARTS := 3

  /** Sum of the chosen amounts. */
  function Total(amounts: seq<nat>, chosen: seq<nat>): nat
    requires forall i :: 0 <= i < |chosen| ==> chosen[i] < |amounts|
  {
    if chosen == [] then 0 else Total(amounts, chosen[..|chosen| - 1]) + amounts[chosen[|chosen| - 1]]
  }

  ghost predicate Increasing(chosen: seq<nat>, from: nat, count: nat) {
    (forall i :: 0 <= i < |chosen| ==> from <= chosen[i] < count) &&
    forall i, j :: 0 <= i < j < |chosen| ==> chosen[i] < chosen[j]
  }

  /** Two or three parts, in listing order, whose amounts make up the target. */
  ghost predicate Solution(amounts: seq<nat>, target: int, chosen: seq<nat>) {
    2 <= |chosen| <= 3 && Increasing(chosen, 0, |amounts|) && Total(amounts, chosen) == target
  }

  /** The subsets the search pushes from one call of `visit`, in that order. */
  function Search(amounts: seq<nat>, target: int, start: nat, selected: seq<nat>, sum: nat): (r: seq<seq<nat>>)
    requires start <= |amounts| && |selected| <= SPLIT_INVOICE_MAX_PARTS
    decreases SPLIT_INVOICE_MAX_PARTS - |selected|, 1, 0
  {
    (if |selected| >= 2 && sum == target then [selected] else []) +
    if |selected| == SPLIT_INVOICE_MAX_PARTS || sum >= target then []
    else SearchFrom(amounts, target, start, selected, sum)
  }

  function SearchFrom(amounts: seq<nat>, target: int, index: nat, selected: seq<nat>, sum: nat): seq<seq<nat>>
    requires index <= |amounts| && |selected| < SPLIT_INVOICE_MAX_PARTS
    decreases SPLIT_INVOICE_MAX_PARTS - |selected|, 0, |amounts| - index
  {
    if index == |amounts| then []
    else
      Search(amounts, target, index + 1, selected + [index], sum + amounts[index]) +
      SearchFrom(amounts, target, index + 1, selected, sum)
  }

  /** The search as written: a recursive visitor that pushes onto `subsets`. */
  class SubsetSearch {
    var subsets: seq<seq<nat>>
    const amounts: seq<nat>
    const target: int

    constructor (amounts: seq<nat>, target: int)
      ensures this.amounts == amounts && this.target == target && subsets == []
    {
      this.amounts := amounts;
      this.target := target;
      subsets := [];
    }

    method Visit(start: nat, selected: seq<nat>, sum: nat)
      requires start <= |amounts| && |selected| <= SPLIT_INVOICE_MAX_PARTS
      modifies this`subsets
      ensures subsets == old(subsets) + Search(amounts, target, start, selected, sum)
      decreases SPLIT_INVOICE_MAX_PARTS - |selected|
    {
      if |selected| >= 2 && sum == target { subsets := subsets + [selected]; }
      if |selected| == SPLIT_INVOICE_MAX_PARTS || sum >= target { return; }
      ghost var pushed := subsets;
      var index := start;
      while index < |amounts|
        invariant start <= index <= |amounts|
        invariant subsets + SearchFrom(amounts, target, index, selected, sum) ==
                  pushed + SearchFrom(amounts, target, start, selected, sum)
      {
        Visit(index + 1, selected + [index], sum + amounts[index]);
        index := index + 1;
      }
      assert subsets + [] == subsets;
    }
  }

  method SplitInvoiceSubsets(amounts: seq<nat>, target: int) returns (subsets: seq<seq<nat>>)
    ensures subsets == Search(amounts, target, 0, [], 0)
  {
    var search := new SubsetSearch(amounts, target);
    search.Visit(0, [], 0);
    subsets := search.subsets;
  }

  // ---------- Every solution is found, once ----------

  /** Solutions that extend `selected` by parts from `start` on. */
  ghost predicate Extends(amounts: seq<nat>, target: int, start: nat, selected: seq<nat>, chosen: seq<nat>) {
    Solution(amounts, target, chosen) && |selected| <= |chosen| && chosen[..|selected|] == selected &&
    forall i :: |selected| <= i < |chosen| ==> start <= chosen[i]
  }

  ghost predicate Selected(amounts: seq<nat>, start: nat, selected: seq<nat>, sum: nat) {
    start <= |amounts| && |selected| <= SPLIT_INVOICE_MAX_PARTS && Increasing(selected, 0, start) &&
    sum == Total(amounts, selected)
  }

  lemma {:induction false} TotalGrows(amounts: seq<nat>, chosen: seq<nat>, n: nat)
    requires Positive(amounts) && n <= |chosen| && forall i :: 0 <= i < |chosen| ==> chosen[i] < |amounts|
    ensures Total(amounts, chosen) >= Total(amounts, chosen[..n]) + (|chosen| - n)
    decreases |chosen|
  {
    if n == |chosen| {
      assert chosen[..n] == chosen;
    } else {
      var init := chosen[..|chosen| - 1];
      assert init[..n] == chosen[..n];
      TotalGrows(amounts, init, n);
    }
  }

  predicate Positive(amounts: seq<nat>) {
    forall i :: 0 <= i < |amounts| ==> amounts[i] > 0
  }

  lemma SelectedGrows(amounts: seq<nat>, index: nat, selected: seq<nat>, sum: nat)
    requires Selected(amounts, index, selected, sum) && index < |amounts| && |selected| < SPLIT_INVOICE_MAX_PARTS
    ensures Selected(amounts, index + 1, selected + [index], sum + amounts[index])
  {
    assert (selected + [index])[..|selected|] == selected;
  }

  /** Each solution that extends the selection is returned exactly once, and nothing else is. */
  lemma {:induction false} SearchCounts(amounts: seq<nat>, target: int, start: nat, selected: seq<nat>, sum: nat,
      chosen: seq<nat>)
    requires Positive(amounts) && Selected(amounts, start, selected, sum)
    ensures multiset(Search(amounts, target, start, selected, sum))[chosen] ==
              if Extends(amounts, target, start, selected, chosen) then 1 else 0
    decreases SPLIT_INVOICE_MAX_PARTS - |selected|, 1, 0
  {
    var deeper := !(|selected| == SPLIT_INVOICE_MAX_PARTS || sum >= target);
    if deeper {
      SearchFromCounts(amounts, target, start, selected, sum, chosen);
    }
    if Extends(amounts, target, start, selected, chosen) {
      TotalGrows(amounts, chosen, |selected|);
      if |chosen| == |selected| { assert chosen == selected; }
    }
    if chosen == selected {
      assert chosen[..|selected|] == selected;
    }
  }

  /** The next part of a longer solution is `index`, or one after it. */
  lemma ExtensionSplits(amounts: seq<nat>, target: int, index: nat, selected: seq<nat>, chosen: seq<nat>)
    requires index < |amounts| && Increasing(selected, 0, index)
    ensures Extends(amounts, target, index, selected, chosen) && |chosen| > |selected| <==>
            Extends(amounts, target, index + 1, selected + [index], chosen) ||
            (Extends(amounts, target, index + 1, selected, chosen) && |chosen| > |selected|)
    ensures !(Extends(amounts, target, index + 1, selected + [index], chosen) &&
            Extends(amounts, target, index + 1, selected, chosen))
  {
    hide Solution;
    var n := |selected|;
    if |chosen| > n {
      assert chosen[..n + 1] == chosen[..n] + [chosen[n]];
      assert chosen[..n + 1] == selected + [index] <==> chosen[..n] == selected && chosen[n] == index;
      if Extends(amounts, target, index, selected, chosen) {
        LaterAreLarger(amounts, target, chosen, n);
      }
    }
  }

  lemma LaterAreLarger(amounts: seq<nat>, target: int, chosen: seq<nat>, n: nat)
    requires Solution(amounts, target, chosen) && n < |chosen|
    ensures forall i :: n < i < |chosen| ==> chosen[n] < chosen[i]
  {
  }

  lemma {:induction false} SearchFromCounts(amounts: seq<nat>, target: int, index: nat, selected: seq<nat>,
      sum: nat, chosen: seq<nat>)
    requires index <= |amounts| && |selected| < SPLIT_INVOICE_MAX_PARTS
    requires Positive(amounts) && Selected(amounts, index, selected, sum)
    ensures multiset(SearchFrom(amounts, target, index, selected, sum))[chosen] ==
              if Extends(amounts, target, index, selected, chosen) && |chosen| > |selected| then 1 else 0
    decreases SPLIT_INVOICE_MAX_PARTS - |selected|, 0, |amounts| - index
  {
    hide Extends, Total, Search, Selected;
    if index < |amounts| {
      SelectedGrows(amounts, index, selected, sum);
      SelectedStays(amounts, index, selected, sum);
      SearchCounts(amounts, target, index + 1, selected + [index], sum + amounts[index], chosen);
      SearchFromCounts(amounts, target, index + 1, selected, sum, chosen);
      ExtensionSplits(amounts, target, index, selected, chosen);
    } else {
      NoExtension(amounts, target, selected, chosen);
    }
  }

  lemma SelectedStays(amounts: seq<nat>, index: nat, selected: seq<nat>, sum: nat)
    requires Selected(amounts, index, selected, sum) && index < |amounts|
    ensures Selected(amounts, index + 1, selected, sum) && Increasing(selected, 0, index)
  {
  }

  lemma NoExtension(amounts: seq<nat>, target: int, selected: seq<nat>, chosen: seq<nat>)
    ensures !(Extends(amounts, target, |amounts|, selected, chosen) && |chosen| > |selected|)
  {
  }

  /** The pruned search returns every solution exactly once, and nothing else. */
  lemma SearchIsExact(amounts: seq<nat>, target: int, chosen: seq<nat>)
    requires Positive(amounts)
    ensures multiset(Search(amounts, target, 0, [], 0))[chosen] == if Solution(amounts, target, chosen) then 1 else 0
  {
    SearchCounts(amounts, target, 0, [], 0, chosen);
    if Solution(amounts, target, chosen) {
      assert chosen[..0] == [];
    }
  }

  predicate InRange(subsets: seq<seq<nat>>, count: nat) {
    forall k :: 0 <= k < |subsets| ==> forall i :: 0 <= i < |subsets[k]| ==> subsets[k][i] < count
  }

  lemma SearchIsInRange(amounts: seq<nat>, target: int)
    requires Positive(amounts)
    ensures InRange(Search(amounts, target, 0, [], 0), |amounts|)
    ensures forall chosen :: chosen in Search(amounts, target, 0, [], 0) ==> Solution(amounts, target, chosen)
  {
    var subsets := Search(amounts, target, 0, [], 0);
    forall chosen | chosen in subsets
      ensures Solution(amounts, target, chosen)
    {
      SearchIsExact(amounts, target, chosen);
      assert chosen in multiset(subsets);
    }
    forall k | 0 <= k < |subsets|
      ensures forall i :: 0 <= i < |subsets[k]| ==> subsets[k][i] < |amounts|
    {
      assert subsets[k] in subsets;
    }
  }
}
