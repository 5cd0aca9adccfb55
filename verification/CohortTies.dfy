/** Where the cohort resolver does depend on listing order: invoices whose numbers tie. */
module CohortTies {
  import opened Sorting
  import opened Numerals
  import opened NumericText
  import opened Cohorts
  import opened CohortOrder

  ghost predicate RemoteIdsDiffer(group: seq<Entry>) {
    forall i, j :: 0 <= i < j < |group| ==> group[i].remoteId != group[j].remoteId
  }

  /** A cohort that resolves, in an order its collations can tell. */
  ghost predicate Resolves(c: Collation, group: seq<Entry>) {
    |group| >= 2 && CandidatesAgree(group) && Collates(c, RanksOf(group)) &&
    NumbersCollate(c, group) && RemoteIdsDiffer(group) &&
    ResolveGroup(c, group) != []
  }

  lemma Permuted(a: seq<Entry>, b: seq<Entry>)
    requires multiset(a) == multiset(b)
    ensures SameUpToOrder(a, b)
  {
    MapBag(ShapeOf, a, b);
  }

  lemma RemoteIdsCarry(a: seq<Entry>, b: seq<Entry>)
    requires multiset(a) == multiset(b) && RemoteIdsDiffer(a)
    ensures RemoteIdsDiffer(b)
  {
    SameMembers(a, b);
    forall i, j | 0 <= i < j < |b|
      ensures b[i].remoteId != b[j].remoteId
    {
      if b[i] == b[j] {
        TwoPlaces(b, i, j);
        OnceIsOnce(a, b[i]);
      } else {
        assert b[i] in a && b[j] in a;
      }
    }
  }

  lemma OnceIsOnce(s: seq<Entry>, x: Entry)
    requires RemoteIdsDiffer(s)
    ensures multiset(s)[x] <= 1
  {
    if x in multiset(s) {
      var i :| 0 <= i < |s| && s[i] == x;
      assert s == s[..i] + [x] + s[i + 1..];
      assert x !in s[..i] && x !in s[i + 1..];
    }
  }

  lemma AgreementCarries(a: seq<Entry>, b: seq<Entry>)
    requires (forall x :: x in a <==> x in b) && CandidatesAgree(a)
    ensures CandidatesAgree(b) && RanksOf(a) == RanksOf(b)
  {
    hide Strong, CanonicalIds;
  }

  lemma ResolvesCarries(c: Collation, a: seq<Entry>, b: seq<Entry>)
    requires multiset(a) == multiset(b) && Resolves(c, a)
    ensures Resolves(c, b)
  {
    hide CandidatesAgree, Collates, Consistent, RemoteIdsDiffer, SharesCandidates, HasExplicitReference,
      SameUpToOrder, Numbers, RanksOf, ToSorted, Strong;
    Permuted(a, b);
    SameMembers(a, b);
    AgreementCarries(a, b);
    RemoteIdsCarry(a, b);
    NumbersAgree(a, b);
    CohortIsPaired(c, a);
    AgreeingIsCanonical(a);
    SharingCarries(c, a, b);
    SameSize(a, b);
    if HasExplicitReference(b) {
      ExplicitReferenceCarries(b, a);
    }
    SharedIsResolved(c, b);
  }

  lemma AgreeingIsCanonical(a: seq<Entry>)
    requires CandidatesAgree(a)
    ensures AllCanonical(a)
  {
  }

  ghost predicate Tied(c: Collation, x: Entry, y: Entry) {
    CompareNumericText(c.numbers, x.fiscalNumber, y.fiscalNumber) == 0
  }

  function Swapped(s: seq<Entry>, p: nat): (r: seq<Entry>)
    requires p + 1 < |s|
    ensures |r| == |s| && r[p] == s[p + 1] && r[p + 1] == s[p]
    ensures forall i :: 0 <= i < |s| && i != p && i != p + 1 ==> r[i] == s[i]
  {
    s[p := s[p + 1]][p + 1 := s[p]]
  }

  lemma SwapKeeps(s: seq<Entry>, p: nat)
    requires p + 1 < |s|
    ensures multiset(Swapped(s, p)) == multiset(s)
  {
    assert s == s[..p] + [s[p], s[p + 1]] + s[p + 2..];
    assert Swapped(s, p) == s[..p] + [s[p + 1], s[p]] + s[p + 2..];
  }

  lemma SwapKeepsSorted(c: Collation, s: seq<Entry>, p: nat)
    requires p + 1 < |s| && Sorted(s, ByFiscalNumber(c)) && Tied(c, s[p + 1], s[p])
    ensures Sorted(Swapped(s, p), ByFiscalNumber(c))
  {
    var t, le := Swapped(s, p), ByFiscalNumber(c);
    forall i, j | 0 <= i < j < |t|
      ensures le(t[i], t[j])
    {
      var i' := if i == p then p + 1 else if i == p + 1 then p else i;
      var j' := if j == p then p + 1 else if j == p + 1 then p else j;
      assert i' < j' || (i == p && j == p + 1);
      if i' < j' { assert le(s[i'], s[j']); }
    }
  }

  lemma SortedCohort(c: Collation, s: seq<Entry>)
    requires Resolves(c, s) && Sorted(s, ByFiscalNumber(c))
    ensures |Assigned(c, s)| == |s| && ResolveGroup(c, s) == Pair(s, Assigned(c, s))
    ensures forall i, j :: 0 <= i < j < |s| ==> Assigned(c, s)[i].id != Assigned(c, s)[j].id
    ensures SharesCandidates(c, s) && RemoteIdsDiffer(s) && AllCanonical(s)
  {
    hide ResolveGroup, ToSorted, SharesCandidates, Strong;
    CohortIsPaired(c, s);
    AssignedIds(c, s);
    SortedIsFixed(s, ByFiscalNumber(c));
  }

  lemma AssignedAgree(c: Collation, s: seq<Entry>, t: seq<Entry>)
    requires multiset(s) == multiset(t) && s != [] && t != [] && Resolves(c, s)
    ensures Map(RankOf, Assigned(c, s)) == Map(RankOf, Assigned(c, t))
  {
    hide ResolveGroup, ToSorted, SharesCandidates, Strong;
    CohortIsPaired(c, s);
    Permuted(s, t);
    SharingCarries(c, s, t);
    CandidateOrderAgrees(c, s, t);
  }

  /** The match of the first of two tied invoices depends on which of them comes first. */
  lemma SwapChangesMatches(c: Collation, s: seq<Entry>, p: nat)
    requires p + 1 < |s| && Resolves(c, s) && Sorted(s, ByFiscalNumber(c)) && Tied(c, s[p + 1], s[p])
    ensures Distinct(ResolveGroup(c, s)) != Distinct(ResolveGroup(c, Swapped(s, p)))
  {
    hide *;
    var t := Swapped(s, p);
    SwapKeeps(s, p);
    SwapKeepsSorted(c, s, p);
    ResolvesCarries(c, s, t);
    SortedCohort(c, s);
    SortedCohort(c, t);
    AssignedAgree(c, s, t);
    PairsDiffer(s, t, Assigned(c, s), Assigned(c, t), p);
  }

  lemma RanksTellIds(a: seq<Candidate>, b: seq<Candidate>)
    requires Map(RankOf, a) == Map(RankOf, b)
    ensures |a| == |b| && forall i :: 0 <= i < |a| ==> a[i].id == b[i].id
  {
    assert |Map(RankOf, a)| == |Map(RankOf, b)|;
    forall i | 0 <= i < |a|
      ensures a[i].id == b[i].id
    {
      assert Map(RankOf, a)[i] == Map(RankOf, b)[i];
    }
  }

  lemma PairsDiffer(s: seq<Entry>, t: seq<Entry>, a: seq<Candidate>, b: seq<Candidate>, p: nat)
    requires |s| == |t| == |a| == |b| && p + 1 < |s| && t == Swapped(s, p) && RemoteIdsDiffer(s)
    requires Map(RankOf, a) == Map(RankOf, b)
    requires forall i, j :: 0 <= i < j < |a| ==> a[i].id != a[j].id
    ensures Distinct(Pair(s, a)) != Distinct(Pair(t, b))
  {
    hide Map, Pair, Swapped;
    var m := Match(s[p].remoteId, a[p].id);
    RanksTellIds(a, b);
    assert Pair(s, a)[p] == m;
    forall i | 0 <= i < |t|
      ensures Pair(t, b)[i] != m
    {
      if i == p {
        assert t[i] == s[p + 1];
      } else if i != p + 1 {
        assert t[i] == s[i];
      }
    }
    assert m in Distinct(Pair(s, a)) && m !in Distinct(Pair(t, b));
  }

  /** Two tied invoices of a sorted cohort have tied neighbours between them. */
  lemma TiedNeighbours(c: Collation, s: seq<Entry>, i: nat, j: nat)
    requires i < j < |s| && Sorted(s, ByFiscalNumber(c)) && Tied(c, s[i], s[j])
    requires NumbersCollate(c, s)
    ensures Tied(c, s[i + 1], s[i])
  {
    var compare := NumericComparer(c.numbers);
    var x, y, z := s[i].fiscalNumber, s[i + 1].fiscalNumber, s[j].fiscalNumber;
    assert x == Numbers(s)[i] && y == Numbers(s)[i + 1] && z == Numbers(s)[j];
    assert ByFiscalNumber(c)(s[i], s[i + 1]);
    assert j == i + 1 || ByFiscalNumber(c)(s[i + 1], s[j]);
    assert compare(x, z) < 0 <==> compare(z, x) > 0;
    assert compare(z, x) < 0 <==> compare(x, z) > 0;
    assert compare(x, y) < 0 <==> compare(y, x) > 0;
    assert compare(y, x) < 0 <==> compare(x, y) > 0;
    assert compare(z, x) <= 0;
    if j == i + 1 {
      assert compare(y, x) == 0;
    } else {
      assert compare(y, z) <= 0;
      assert compare(y, x) <= 0;
    }
  }

  lemma TieMoves(c: Collation, a: seq<Entry>, b: seq<Entry>, i: nat, j: nat) returns (k: nat, m: nat)
    requires multiset(a) == multiset(b) && RemoteIdsDiffer(a) && i < j < |a| && Tied(c, a[i], a[j]) &&
             Tied(c, a[j], a[i])
    ensures k < m < |b| && Tied(c, b[k], b[m])
  {
    SameMembers(a, b);
    assert a[i] in b && a[j] in b;
    k :| 0 <= k < |b| && b[k] == a[i];
    m :| 0 <= m < |b| && b[m] == a[j];
    if m < k {
      k, m := m, k;
    }
  }

  lemma TieIsMutual(c: Collation, s: seq<Entry>, i: nat, j: nat)
    requires i < |s| && j < |s| && Tied(c, s[i], s[j]) && NumbersCollate(c, s)
    ensures Tied(c, s[j], s[i])
  {
    var compare := NumericComparer(c.numbers);
    var x, y := s[i].fiscalNumber, s[j].fiscalNumber;
    assert x == Numbers(s)[i] && y == Numbers(s)[j];
    assert compare(x, y) < 0 <==> compare(y, x) > 0;
    assert compare(y, x) < 0 <==> compare(x, y) > 0;
  }

  lemma TiesDependOnOrder(c: Collation, group: seq<Entry>) returns (s: seq<Entry>, t: seq<Entry>)
    requires Resolves(c, group) && !NumericallyDistinct(c, group)
    ensures multiset(s) == multiset(group) && multiset(t) == multiset(group)
    ensures s != [] && t != [] && Distinct(ResolveGroup(c, s)) != Distinct(ResolveGroup(c, t))
  {
    var i, j :| 0 <= i < j < |group| && Tied(c, group[i], group[j]);
    TieIsMutual(c, group, i, j);
    s := ToSorted(group, ByFiscalNumber(c));
    SortKeeps(group, ByFiscalNumber(c));
    EntriesAreOrdered(c, group);
    SortSorts(group, ByFiscalNumber(c));
    ResolvesCarries(c, group, s);
    var k, m := TieMoves(c, group, s, i, j);
    TiedNeighbours(c, s, k, m);
    t := Swapped(s, k);
    SwapKeeps(s, k);
    SwapChangesMatches(c, s, k);
  }

  /** A cohort that resolves does so in one way for every listing of its invoices exactly
      when no two of them tie by number; the source checks only that their texts differ. */
  lemma OrderFreeIffDistinct(c: Collation, group: seq<Entry>)
    requires Resolves(c, group)
    ensures (forall b :: multiset(b) == multiset(group) && b != [] ==>
               Distinct(ResolveGroup(c, b)) == Distinct(ResolveGroup(c, group))) <==>
            NumericallyDistinct(c, group)
  {
    if NumericallyDistinct(c, group) {
      forall b | multiset(b) == multiset(group) && b != []
        ensures Distinct(ResolveGroup(c, b)) == Distinct(ResolveGroup(c, group))
      {
        Permuted(group, b);
        GroupIsOrderFree(c, group, b);
      }
    } else {
      var s, t := TiesDependOnOrder(c, group);
    }
  }

  /** "1" and "01" are different texts, so they pass the source's check, and they tie. */
  lemma LeadingZeroTies(c: Collation, one: Entry, other: Entry)
    requires one.fiscalNumber == "1" && other.fiscalNumber == "01"
    ensures Numbers([one, other]) == ["1", "01"] && |Distinct(Numbers([one, other]))| == 2
    ensures Tied(c, one, other) && Tied(c, other, one) && IsNumeral("1") && IsNumeral("01")
  {
    var numbers := Numbers([one, other]);
    assert numbers[0] == "1" && numbers[1] == "01" && "1"[..0] == "" && "01"[..1] == "0" && "0"[..0] == "";
    assert |numbers[0]| != |numbers[1]|;
    assert Distinct(numbers) == {"1", "01"};
    assert Value("1") == 1 && Value("0") == 0 && Value("01") == 1;
  }

  function NoCollation(left: string, right: string): int {
    0
  }

  const INDIFFERENT := Collation(NoCollation, NoCollation)

  /** A strong candidate for every invoice of its day. */
  function StrongCandidate(id: string): Candidate {
    Candidate(id, [id], "", "", true, true, true, true, false, true, true)
  }

  function CohortEntry(remoteId: string, fiscalNumber: string): Entry {
    Entry("", remoteId, fiscalNumber, [StrongCandidate("1"), StrongCandidate("2")])
  }

  lemma EntryIsStrong(remoteId: string, fiscalNumber: string)
    ensures var e := CohortEntry(remoteId, fiscalNumber);
            Strong(e) == e.candidates && AllNear(e) && Ids(Strong(e)) == ["1", "2"] && CanonicalIds(e)
  {
    var e := CohortEntry(remoteId, fiscalNumber);
    assert e.candidates[1..] == [StrongCandidate("2")] && e.candidates[1..][1..] == [];
    assert Strong(e) == e.candidates;
    assert Ids(e.candidates)[0] == "1" && Ids(e.candidates)[1] == "2";
  }

  lemma WitnessCandidates(e: Entry, x: Candidate)
    requires e in [CohortEntry("a", "1"), CohortEntry("b", "01")] && (x in e.candidates || x in Strong(e))
    ensures (x == StrongCandidate("1") || x == StrongCandidate("2")) && IsCanonical(x.id)
  {
    EntryIsStrong(e.remoteId, e.fiscalNumber);
  }

  lemma WitnessAgrees(group: seq<Entry>)
    requires group == [CohortEntry("a", "1"), CohortEntry("b", "01")]
    ensures CandidatesAgree(group) && Collates(INDIFFERENT, RanksOf(group)) && !HasExplicitReference(group)
  {
    hide IsCanonical, Strong, Consistent, CompareNumericText, CohortEntry;
    forall e, x | e in group && x in Strong(e)
      ensures IsCanonical(x.id) && RankOf(x) == Rank("", "", x.id)
    {
      WitnessCandidates(e, x);
    }
    forall e, x | e in group && x in e.candidates
      ensures !x.explicitReference
    {
      WitnessCandidates(e, x);
    }
    BlankRanksCollate(RanksOf(group));
  }

  lemma BlankRanksCollate(ranks: set<Rank>)
    requires forall r <- ranks :: r.localOrderDate == "" && r.displayNumber == ""
    ensures Collates(INDIFFERENT, ranks)
  {
    assert CompareNumericText(NoCollation, "", "") == 0;
  }

  lemma WitnessShares(group: seq<Entry>)
    requires group == [CohortEntry("a", "1"), CohortEntry("b", "01")]
    ensures SharesCandidates(INDIFFERENT, group)
  {
    hide ToSorted, Join;
    EntryIsStrong("a", "1");
    EntryIsStrong("b", "01");
    assert "1" != "2";
    assert Distinct(["1", "2"]) == {"1", "2"};
  }

  /** Two invoices numbered "1" and "01" with the same two candidates are resolved, each to the
      other's order when they are listed the other way round. */
  lemma ListingDecides() returns (c: Collation, one: Entry, other: Entry)
    ensures one.fiscalNumber == "1" && other.fiscalNumber == "01"
    ensures Resolves(c, [one, other]) && !NumericallyDistinct(c, [one, other])
    ensures Distinct(ResolveGroup(c, [one, other])) != Distinct(ResolveGroup(c, [other, one]))
  {
    hide ResolveGroup, SharesCandidates, CandidatesAgree, RanksOf, HasExplicitReference, ToSorted, CompareNumericText;
    c, one, other := INDIFFERENT, CohortEntry("a", "1"), CohortEntry("b", "01");
    var s := [one, other];
    LeadingZeroTies(c, one, other);
    WitnessAgrees(s);
    WitnessShares(s);
    SharedIsResolved(c, s);
    NumeralsAreConsistent(c.numbers, Distinct(Numbers(s)));
    assert Resolves(c, s);
    SwapChangesMatches(c, s, 0);
    assert Swapped(s, 0) == [other, one];
    assert Tied(c, s[0], s[1]);
  }
}
