/** The cohort resolver does not depend on the order in which invoices and candidates are listed. */
module CohortOrder {
  import opened Sorting
  import opened Numerals
  import opened NumericText
  import opened Cohorts

  /** An entry up to the order of its candidates. */
  datatype Shape = Shape(key: string, remoteId: string, fiscalNumber: string, candidates: multiset<Candidate>)

  ghost function ShapeOf(e: Entry): Shape {
    Shape(e.key, e.remoteId, e.fiscalNumber, multiset(e.candidates))
  }

  ghost predicate SameUpToOrder(a: seq<Entry>, b: seq<Entry>) {
    multiset(Map(ShapeOf, a)) == multiset(Map(ShapeOf, b))
  }

  /** Every entry of one listing has its like in the other. */
  lemma Twin(a: seq<Entry>, b: seq<Entry>, e: Entry) returns (twin: Entry)
    requires SameUpToOrder(a, b) && e in a
    ensures twin in b && ShapeOf(twin) == ShapeOf(e)
  {
    var i :| 0 <= i < |a| && a[i] == e;
    SameMembers(Map(ShapeOf, a), Map(ShapeOf, b));
    assert Map(ShapeOf, a)[i] in Map(ShapeOf, b);
    var j :| 0 <= j < |b| && Map(ShapeOf, b)[j] == ShapeOf(e);
    twin := b[j];
  }

  ghost predicate CanonicalIds(e: Entry) {
    forall x :: x in Strong(e) ==> IsCanonical(x.id)
  }

  lemma ShapeDecides(c: Collation, e: Entry, e': Entry)
    requires ShapeOf(e) == ShapeOf(e')
    ensures multiset(Strong(e)) == multiset(Strong(e')) && |Strong(e)| == |Strong(e')|
    ensures forall x :: x in Strong(e) <==> x in Strong(e')
    ensures multiset(Ids(Strong(e))) == multiset(Ids(Strong(e')))
    ensures CanonicalIds(e) ==> IdKey(c, e) == IdKey(c, e')
  {
    FilterBag(CandidateIsStrong, e.candidates, e'.candidates);
    SameMembers(Strong(e), Strong(e'));
    MapBag(IdOf, Strong(e), Strong(e'));
    if CanonicalIds(e) {
      SortedIdsAgree(c, Strong(e), Strong(e'));
    }
  }

  lemma IdsAreOrdered(c: Collation, ids: seq<string>)
    requires forall x :: x in ids ==> IsCanonical(x)
    ensures TotalPreorderOn(ByNumber(c), ids) && AntisymmetricOn(ByNumber(c), ids)
  {
    forall x, y | x in ids && y in ids
      ensures ByNumber(c)(x, y) || ByNumber(c)(y, x)
      ensures ByNumber(c)(x, y) && ByNumber(c)(y, x) ==> x == y
    {
      NumeralsTie(c.numbers, x, y);
    }
  }

  lemma SortedIdsAgree(c: Collation, a: seq<Candidate>, b: seq<Candidate>)
    requires multiset(Ids(a)) == multiset(Ids(b)) && forall x :: x in a ==> IsCanonical(x.id)
    ensures ToSorted(Ids(a), ByNumber(c)) == ToSorted(Ids(b), ByNumber(c))
  {
    IdsAreOrdered(c, Ids(a));
    SortForgetsOrder(Ids(a), Ids(b), ByNumber(c));
  }

  // ---------- The joined key tells the ids ----------

  lemma {:induction false} JoinIsInjective(a: seq<string>, b: seq<string>)
    requires |a| == |b|
    requires forall i :: 0 <= i < |a| ==> IsNumeral(a[i]) && IsNumeral(b[i])
    requires Join(a) == Join(b)
    ensures a == b
    decreases |a|
  {
    if |a| <= 1 {
    } else {
      var s := Join(a);
      FirstColon(a);
      FirstColon(b);
      var k, m := |a[0]|, |b[0]|;
      assert s[k] == ':' && s[m] == ':';
      assert a[0] == s[..k] == b[0];
      assert Join(a[1..]) == s[k + 1..] == Join(b[1..]);
      JoinIsInjective(a[1..], b[1..]);
      assert a == [a[0]] + a[1..] && b == [b[0]] + b[1..];
    }
  }

  lemma FirstColon(a: seq<string>)
    requires |a| > 1 && IsNumeral(a[0])
    ensures |Join(a)| > |a[0]| && Join(a)[..|a[0]|] == a[0] && Join(a)[|a[0]|] == ':' &&
            Join(a)[|a[0]| + 1..] == Join(a[1..])
    ensures forall i :: 0 <= i < |a[0]| ==> Join(a)[i] != ':'
  {
  }

  // ---------- What the resolver asks of a group depends on its shapes ----------

  ghost predicate AllCanonical(group: seq<Entry>) {
    forall e :: e in group ==> CanonicalIds(e)
  }

  lemma SameSize(a: seq<Entry>, b: seq<Entry>)
    requires SameUpToOrder(a, b)
    ensures |a| == |b| && SameUpToOrder(b, a)
  {
    SameMembers(Map(ShapeOf, a), Map(ShapeOf, b));
  }

  lemma ExplicitReferenceCarries(a: seq<Entry>, b: seq<Entry>)
    requires SameUpToOrder(a, b) && HasExplicitReference(a)
    ensures HasExplicitReference(b)
  {
    var e :| e in a && exists c :: c in e.candidates && c.compatible && c.explicitReference;
    var twin := Twin(a, b, e);
    SameMembers(e.candidates, twin.candidates);
  }

  lemma CanonicalCarries(a: seq<Entry>, b: seq<Entry>)
    requires SameUpToOrder(a, b) && AllCanonical(a)
    ensures AllCanonical(b)
  {
    SameSize(a, b);
    forall e | e in b
      ensures CanonicalIds(e)
    {
      var twin := Twin(b, a, e);
      FilterBag(CandidateIsStrong, e.candidates, twin.candidates);
      SameMembers(Strong(e), Strong(twin));
    }
  }

  lemma SortedKeyTells(a: seq<string>, b: seq<string>, le: (string, string) -> bool)
    requires |a| == |b| && (forall x :: x in a || x in b ==> IsNumeral(x)) &&
             Join(ToSorted(a, le)) == Join(ToSorted(b, le))
    ensures multiset(a) == multiset(b)
  {
    hide ToSorted, Join, IsNumeral;
    var s, t := ToSorted(a, le), ToSorted(b, le);
    SortKeeps(a, le);
    SortKeeps(b, le);
    SameMembers(a, s);
    SameMembers(b, t);
    forall i | 0 <= i < |s|
      ensures IsNumeral(s[i]) && IsNumeral(t[i])
    {
      assert s[i] in s && t[i] in t;
    }
    JoinIsInjective(s, t);
  }

  lemma IdsAreNumerals(e: Entry)
    requires CanonicalIds(e)
    ensures forall x :: x in Ids(Strong(e)) ==> IsNumeral(x)
  {
    hide Strong;
    var strong := Strong(e);
    forall x | x in Ids(strong)
      ensures IsNumeral(x)
    {
      var i :| 0 <= i < |strong| && Ids(strong)[i] == x;
      assert strong[i] in strong;
    }
  }

  lemma KeyTellsIds(c: Collation, e: Entry, e': Entry)
    requires CanonicalIds(e) && CanonicalIds(e') && |Strong(e)| == |Strong(e')|
    requires IdKey(c, e) == IdKey(c, e')
    ensures multiset(Ids(Strong(e))) == multiset(Ids(Strong(e')))
  {
    hide Strong, CanonicalIds, Join, ToSorted, ByNumber, IsNumeral;
    IdsAreNumerals(e);
    IdsAreNumerals(e');
    SortedKeyTells(Ids(Strong(e)), Ids(Strong(e')), ByNumber(c));
  }

  lemma SharingCarries(c: Collation, a: seq<Entry>, b: seq<Entry>)
    requires SameUpToOrder(a, b) && a != [] && b != [] && AllCanonical(a) && SharesCandidates(c, a)
    ensures SharesCandidates(c, b)
    ensures multiset(Ids(Strong(a[0]))) == multiset(Ids(Strong(b[0])))
  {
    SameSize(a, b);
    CanonicalCarries(a, b);
    forall e | e in b
      ensures AllNear(e) && |Strong(e)| == |b| && IdKey(c, e) == IdKey(c, a[0])
    {
      var twin := Twin(b, a, e);
      ShapeDecides(c, twin, e);
    }
    assert a[0] in a && b[0] in b;
    KeyTellsIds(c, a[0], b[0]);
    SameMembers(Ids(Strong(a[0])), Ids(Strong(b[0])));
    assert Distinct(Ids(Strong(a[0]))) == Distinct(Ids(Strong(b[0])));
  }

  /** The part of an entry that shows in the remote order. */
  datatype Remote = Remote(remoteId: string, fiscalNumber: string)

  function RemoteOf(e: Entry): Remote {
    Remote(e.remoteId, e.fiscalNumber)
  }

  function ByRemoteNumber(c: Collation): (Remote, Remote) -> bool {
    (a: Remote, b: Remote) => CompareNumericText(c.numbers, a.fiscalNumber, b.fiscalNumber) <= 0
  }

  function RemoteOfShape(s: Shape): Remote {
    Remote(s.remoteId, s.fiscalNumber)
  }

  function NumberOfRemote(r: Remote): string {
    r.fiscalNumber
  }

  lemma RemotesAgree(a: seq<Entry>, b: seq<Entry>)
    requires SameUpToOrder(a, b)
    ensures multiset(Map(RemoteOf, a)) == multiset(Map(RemoteOf, b))
  {
    MapComposes(a, ShapeOf, RemoteOfShape, RemoteOf);
    MapComposes(b, ShapeOf, RemoteOfShape, RemoteOf);
    MapBag(RemoteOfShape, Map(ShapeOf, a), Map(ShapeOf, b));
  }

  lemma NumbersAgree(a: seq<Entry>, b: seq<Entry>)
    requires SameUpToOrder(a, b)
    ensures Distinct(Numbers(a)) == Distinct(Numbers(b))
  {
    RemotesAgree(a, b);
    MapComposes(a, RemoteOf, NumberOfRemote, FiscalNumberOf);
    MapComposes(b, RemoteOf, NumberOfRemote, FiscalNumberOf);
    MapBag(NumberOfRemote, Map(RemoteOf, a), Map(RemoteOf, b));
    SameMembers(Numbers(a), Numbers(b));
  }

  /** The collation orders the fiscal numbers that occur, with or without ties. */
  ghost predicate NumbersCollate(c: Collation, group: seq<Entry>) {
    Consistent(NumericComparer(c.numbers), Distinct(Numbers(group)))
  }

  /** No two invoices of the group tie by number: "1" and "01" would. */
  ghost predicate NumericallyDistinct(c: Collation, group: seq<Entry>) {
    NumbersCollate(c, group) &&
    forall i, j :: 0 <= i < j < |group| ==>
      CompareNumericText(c.numbers, group[i].fiscalNumber, group[j].fiscalNumber) != 0
  }

  lemma RemotesAreOrdered(c: Collation, group: seq<Entry>)
    requires NumericallyDistinct(c, group)
    ensures TotalPreorderOn(ByRemoteNumber(c), Map(RemoteOf, group))
    ensures AntisymmetricOn(ByRemoteNumber(c), Map(RemoteOf, group))
  {
    hide NumericallyDistinct, CompareNumericText, Numbers;
    var remotes := Map(RemoteOf, group);
    forall x, y | x in remotes && y in remotes
      ensures ByRemoteNumber(c)(x, y) || ByRemoteNumber(c)(y, x)
      ensures ByRemoteNumber(c)(x, y) && ByRemoteNumber(c)(y, x) ==> x == y
    {
      RemotesCompare(c, group, x, y);
    }
    forall x, y, z | x in remotes && y in remotes && z in remotes && ByRemoteNumber(c)(x, y) && ByRemoteNumber(c)(y, z)
      ensures ByRemoteNumber(c)(x, z)
    {
      RemotesChain(c, group, x, y, z);
    }
  }

  lemma RemoteIsListed(group: seq<Entry>, x: Remote) returns (i: nat)
    requires x in Map(RemoteOf, group)
    ensures i < |group| && RemoteOf(group[i]) == x && x.fiscalNumber in Distinct(Numbers(group))
  {
    i :| i < |group| && Map(RemoteOf, group)[i] == x;
    assert Numbers(group)[i] == x.fiscalNumber;
  }

  lemma RemotesCompare(c: Collation, group: seq<Entry>, x: Remote, y: Remote)
    requires NumericallyDistinct(c, group) && x in Map(RemoteOf, group) && y in Map(RemoteOf, group)
    ensures ByRemoteNumber(c)(x, y) || ByRemoteNumber(c)(y, x)
    ensures ByRemoteNumber(c)(x, y) && ByRemoteNumber(c)(y, x) ==> x == y
  {
    hide CompareNumericText, Numbers;
    var compare := NumericComparer(c.numbers);
    var i := RemoteIsListed(group, x);
    var j := RemoteIsListed(group, y);
    assert compare(x.fiscalNumber, y.fiscalNumber) < 0 <==> compare(y.fiscalNumber, x.fiscalNumber) > 0;
    assert compare(y.fiscalNumber, x.fiscalNumber) < 0 <==> compare(x.fiscalNumber, y.fiscalNumber) > 0;
  }

  lemma RemotesChain(c: Collation, group: seq<Entry>, x: Remote, y: Remote, z: Remote)
    requires NumericallyDistinct(c, group) && x in Map(RemoteOf, group) && y in Map(RemoteOf, group) &&
             z in Map(RemoteOf, group)
    requires ByRemoteNumber(c)(x, y) && ByRemoteNumber(c)(y, z)
    ensures ByRemoteNumber(c)(x, z)
  {
    hide CompareNumericText, Numbers;
    var compare := NumericComparer(c.numbers);
    var i := RemoteIsListed(group, x);
    var j := RemoteIsListed(group, y);
    var k := RemoteIsListed(group, z);
    assert compare(x.fiscalNumber, y.fiscalNumber) <= 0 && compare(y.fiscalNumber, z.fiscalNumber) <= 0;
  }

  lemma RemoteOrderAgrees(c: Collation, a: seq<Entry>, b: seq<Entry>)
    requires SameUpToOrder(a, b) && NumericallyDistinct(c, a)
    ensures Map(RemoteOf, ToSorted(a, ByFiscalNumber(c))) == Map(RemoteOf, ToSorted(b, ByFiscalNumber(c)))
  {
    RemotesAgree(a, b);
    RemotesAreOrdered(c, a);
    SortForgetsOrder(Map(RemoteOf, a), Map(RemoteOf, b), ByRemoteNumber(c));
    SortProjects(a, RemoteOf, ByFiscalNumber(c), ByRemoteNumber(c));
    SortProjects(b, RemoteOf, ByFiscalNumber(c), ByRemoteNumber(c));
  }

  // ---------- Candidates ----------

  /** What the entries of a group say of one order agrees, and its ids are plain numerals. */
  ghost predicate CandidatesAgree(group: seq<Entry>) {
    AllCanonical(group) &&
    forall e, e', x, y :: e in group && e' in group && x in Strong(e) && y in Strong(e') && x.id == y.id ==>
      RankOf(x) == RankOf(y)
  }

  function DateComparer(c: Collation): (Rank, Rank) -> int {
    (a: Rank, b: Rank) => c.dates(a.localOrderDate, b.localOrderDate)
  }

  function DisplayComparer(c: Collation): (Rank, Rank) -> int {
    (a: Rank, b: Rank) => CompareNumericText(c.numbers, a.displayNumber, b.displayNumber)
  }

  function ByRankOrder(c: Collation): (Rank, Rank) -> bool {
    (a: Rank, b: Rank) => CompareRanks(c, a, b) <= 0
  }

  ghost function RanksOf(group: seq<Entry>): set<Rank> {
    set e, x | e in group && x in Strong(e) :: RankOf(x)
  }

  /** The collations order the dates and display numbers that occur. */
  ghost predicate Collates(c: Collation, ranks: set<Rank>) {
    Consistent(DateComparer(c), ranks) && Consistent(DisplayComparer(c), ranks)
  }

  lemma RankFlips(c: Collation, ranks: set<Rank>, x: Rank, y: Rank)
    requires Collates(c, ranks) && x in ranks && y in ranks && IsCanonical(x.id) && IsCanonical(y.id)
    ensures CompareRanks(c, x, y) < 0 <==> CompareRanks(c, y, x) > 0
  {
    var dates, displays := DateComparer(c), DisplayComparer(c);
    assert dates(x, y) < 0 <==> dates(y, x) > 0;
    assert dates(y, x) < 0 <==> dates(x, y) > 0;
    assert displays(x, y) < 0 <==> displays(y, x) > 0;
    assert displays(y, x) < 0 <==> displays(x, y) > 0;
  }

  lemma RankChains(c: Collation, ranks: set<Rank>, x: Rank, y: Rank, z: Rank)
    requires Collates(c, ranks) && x in ranks && y in ranks && z in ranks
    requires IsCanonical(x.id) && IsCanonical(y.id) && IsCanonical(z.id)
    requires CompareRanks(c, x, y) <= 0 && CompareRanks(c, y, z) <= 0
    ensures CompareRanks(c, x, z) <= 0
  {
    ComparesChain(DateComparer(c), ranks, x, y, z);
    ComparesChain(DisplayComparer(c), ranks, x, y, z);
  }

  /** In a consistent order, x <= y <= z gives x <= z, with a tie only if both were ties. */
  lemma ComparesChain(compare: (Rank, Rank) -> int, ranks: set<Rank>, x: Rank, y: Rank, z: Rank)
    requires Consistent(compare, ranks) && x in ranks && y in ranks && z in ranks
    ensures compare(x, y) <= 0 && compare(y, z) <= 0 ==> compare(x, z) <= 0
    ensures compare(x, y) <= 0 && compare(y, z) <= 0 && compare(x, z) == 0 ==> compare(x, y) == 0 && compare(y, z) == 0
  {
    if compare(x, y) <= 0 && compare(y, z) <= 0 && compare(x, z) == 0 {
      assert compare(z, x) <= 0 by {
        assert compare(x, z) < 0 <==> compare(z, x) > 0;
      }
      assert compare(z, y) <= 0;
      assert compare(y, x) <= 0;
      assert compare(y, z) < 0 <==> compare(z, y) > 0;
      assert compare(x, y) < 0 <==> compare(y, x) > 0;
    }
  }

  lemma RankOrderIsTotal(c: Collation, ranks: seq<Rank>, all: set<Rank>)
    requires Collates(c, all) && forall r :: r in ranks ==> r in all && IsCanonical(r.id)
    requires forall r, r' :: r in ranks && r' in ranks && r.id == r'.id ==> r == r'
    ensures TotalPreorderOn(ByRankOrder(c), ranks) && AntisymmetricOn(ByRankOrder(c), ranks)
  {
    forall x, y | x in ranks && y in ranks
      ensures ByRankOrder(c)(x, y) || ByRankOrder(c)(y, x)
      ensures ByRankOrder(c)(x, y) && ByRankOrder(c)(y, x) ==> x == y
    {
      RankFlips(c, all, x, y);
      RankFlips(c, all, y, x);
      NumeralsTie(c.numbers, x.id, y.id);
    }
    forall x, y, z | x in ranks && y in ranks && z in ranks && ByRankOrder(c)(x, y) && ByRankOrder(c)(y, z)
      ensures ByRankOrder(c)(x, z)
    {
      RankChains(c, all, x, y, z);
    }
  }

  ghost function RankFor(a: seq<Candidate>, id: string): Rank {
    if exists x :: x in a && x.id == id then (var x :| x in a && x.id == id; RankOf(x)) else Rank("", "", id)
  }

  ghost predicate RanksAgree(a: seq<Candidate>, b: seq<Candidate>) {
    forall x, y :: (x in a || x in b) && (y in a || y in b) && x.id == y.id ==> RankOf(x) == RankOf(y)
  }

  ghost function RankTable(a: seq<Candidate>): string -> Rank {
    (id: string) => RankFor(a, id)
  }

  lemma IdIsListed(a: seq<Candidate>, id: string)
    requires id in Ids(a)
    ensures exists x :: x in a && x.id == id
  {
    var k :| 0 <= k < |a| && Ids(a)[k] == id;
    assert a[k] in a;
  }

  lemma TableTellsRank(a: seq<Candidate>, b: seq<Candidate>, x: Candidate)
    requires RanksAgree(a, b) && (x in a || x in b) && x.id in Ids(a)
    ensures RankTable(a)(x.id) == RankOf(x)
  {
    IdIsListed(a, x.id);
  }

  /** Equal ids carry equal ranks, so candidates with the same ids have the same ranks. */
  lemma RanksFollowIds(a: seq<Candidate>, b: seq<Candidate>)
    requires multiset(Ids(a)) == multiset(Ids(b)) && RanksAgree(a, b)
    ensures multiset(Map(RankOf, a)) == multiset(Map(RankOf, b))
  {
    SameMembers(Ids(a), Ids(b));
    IdsAreListed(a);
    IdsAreListed(b);
    forall x | x in a || x in b
      ensures RankOf(x) == RankTable(a)(IdOf(x))
    {
      TableTellsRank(a, b, x);
    }
    MapBag(RankTable(a), Ids(a), Ids(b));
    hide RanksAgree, RankTable, RankFor;
    MapComposes(a, IdOf, RankTable(a), RankOf);
    MapComposes(b, IdOf, RankTable(a), RankOf);
  }

  lemma IdsAreListed(a: seq<Candidate>)
    ensures forall x :: x in a ==> x.id in Ids(a)
  {
    forall x | x in a
      ensures x.id in Ids(a)
    {
      var i :| 0 <= i < |a| && a[i] == x;
      assert Ids(a)[i] == x.id;
    }
  }

  // ---------- One group ----------

  /** The groups that are resolved by sorting: a single invoice is not, nor one of several that
      names its order. */
  predicate IsCohort(group: seq<Entry>) {
    |group| >= 2 && !HasExplicitReference(group)
  }

  /** What the resolver needs of a cohort to be independent of listing order. */
  ghost predicate Orderly(c: Collation, group: seq<Entry>) {
    NumericallyDistinct(c, group) && CandidatesAgree(group) && Collates(c, RanksOf(group))
  }

  lemma StrongCarries(a: seq<Entry>, b: seq<Entry>, e: Entry, x: Candidate)
    requires SameUpToOrder(a, b) && e in b && x in Strong(e)
    ensures exists e' :: e' in a && x in Strong(e')
  {
    SameSize(a, b);
    var twin := Twin(b, a, e);
    FilterBag(CandidateIsStrong, e.candidates, twin.candidates);
    SameMembers(Strong(e), Strong(twin));
  }

  lemma FirstRanksAgree(c: Collation, a: seq<Entry>, b: seq<Entry>)
    requires SameUpToOrder(a, b) && a != [] && b != [] && CandidatesAgree(a)
    ensures RanksAgree(Strong(a[0]), Strong(b[0]))
    ensures forall x :: x in Strong(a[0]) || x in Strong(b[0]) ==> RankOf(x) in RanksOf(a) && IsCanonical(x.id)
  {
    assert a[0] in a && b[0] in b;
    forall x | x in Strong(a[0]) || x in Strong(b[0])
      ensures exists e :: e in a && x in Strong(e)
    {
      if x in Strong(b[0]) {
        StrongCarries(a, b, b[0], x);
      }
    }
  }

  lemma RanksAreDistinct(candidates: seq<Candidate>)
    requires RanksAgree(candidates, candidates)
    ensures forall r, r' :: r in Map(RankOf, candidates) && r' in Map(RankOf, candidates) && r.id == r'.id ==> r == r'
    ensures forall r :: r in Map(RankOf, candidates) ==> exists x :: x in candidates && RankOf(x) == r
  {
    forall r | r in Map(RankOf, candidates)
      ensures exists x :: x in candidates && RankOf(x) == r
    {
      var i :| 0 <= i < |candidates| && Map(RankOf, candidates)[i] == r;
      assert candidates[i] in candidates;
    }
  }

  lemma CandidateOrderAgrees(c: Collation, a: seq<Entry>, b: seq<Entry>)
    requires SameUpToOrder(a, b) && a != [] && b != [] && CandidatesAgree(a) && Collates(c, RanksOf(a))
    requires multiset(Ids(Strong(a[0]))) == multiset(Ids(Strong(b[0])))
    ensures Map(RankOf, ToSorted(Strong(a[0]), ByRank(c))) == Map(RankOf, ToSorted(Strong(b[0]), ByRank(c)))
  {
    var x, y := Strong(a[0]), Strong(b[0]);
    FirstRanksAgree(c, a, b);
    RanksFollowIds(x, y);
    RanksAreDistinct(x);
    RankOrderIsTotal(c, Map(RankOf, x), RanksOf(a));
    SortForgetsOrder(Map(RankOf, x), Map(RankOf, y), ByRankOrder(c));
    SortProjects(x, RankOf, ByRank(c), ByRankOrder(c));
    SortProjects(y, RankOf, ByRank(c), ByRankOrder(c));
  }

  lemma PairAgrees(remotes: seq<Entry>, remotes': seq<Entry>, candidates: seq<Candidate>, candidates': seq<Candidate>)
    requires |remotes| == |candidates| && Map(RemoteOf, remotes) == Map(RemoteOf, remotes')
    requires Map(RankOf, candidates) == Map(RankOf, candidates')
    ensures |remotes'| == |candidates'| && Pair(remotes, candidates) == Pair(remotes', candidates')
  {
    assert |remotes| == |Map(RemoteOf, remotes)| == |remotes'| &&
           |candidates| == |Map(RankOf, candidates)| == |candidates'|;
    forall i | 0 <= i < |remotes|
      ensures Pair(remotes, candidates)[i] == Pair(remotes', candidates')[i]
    {
      assert Map(RemoteOf, remotes)[i] == Map(RemoteOf, remotes')[i];
      assert Map(RankOf, candidates)[i] == Map(RankOf, candidates')[i];
    }
  }

  lemma SingleMatchAgrees(c: Collation, e: Entry, e': Entry)
    requires ShapeOf(e) == ShapeOf(e')
    ensures SingleMatch(e) == SingleMatch(e')
  {
    hide CandidateIsStrong, SameDay, Filter;
    FilterBag(CandidateIsStrong, e.candidates, e'.candidates);
    FilterBag(SameDay, Strong(e), Strong(e'));
    OnlyOneAgrees(Filter(SameDay, Strong(e)), Filter(SameDay, Strong(e')));
  }

  lemma OnlyOneAgrees(a: seq<Candidate>, b: seq<Candidate>)
    requires multiset(a) == multiset(b)
    ensures |a| == |b| && (|a| == 1 ==> a[0] == b[0])
  {
    SameMembers(a, b);
    if |a| == 1 {
      assert a[0] in b;
    }
  }

  lemma SingleIsOrderFree(c: Collation, a: seq<Entry>, b: seq<Entry>)
    requires SameUpToOrder(a, b) && |a| == 1
    ensures |b| == 1 && ResolveGroup(c, a) == ResolveGroup(c, b)
  {
    hide SameUpToOrder, HasExplicitReference, SingleMatch, SharesCandidates, ShapeOf;
    SameSize(a, b);
    var twin := Twin(a, b, a[0]);
    SingleMatchAgrees(c, a[0], b[0]);
    if HasExplicitReference(a) { ExplicitReferenceCarries(a, b); }
    if HasExplicitReference(b) { ExplicitReferenceCarries(b, a); }
  }

  lemma OrderlyIsOrderFree(c: Collation, a: seq<Entry>, b: seq<Entry>)
    requires SameUpToOrder(a, b) && a != [] && b != [] && (IsCohort(a) ==> Orderly(c, a))
    ensures ResolveGroup(c, a) == ResolveGroup(c, b)
  {
    hide ToSorted, Strong, Pair, IdKey, Collates, NumericallyDistinct, SameUpToOrder;
    SameSize(a, b);
    if |a| == 1 {
      SingleIsOrderFree(c, a, b);
    } else if HasExplicitReference(a) {
      ExplicitReferenceCarries(a, b);
    } else if HasExplicitReference(b) {
      ExplicitReferenceCarries(b, a);
    } else {
      CanonicalCarries(a, b);
      NumbersAgree(a, b);
      if SharesCandidates(c, a) {
        SharingCarries(c, a, b);
        assert a[0] in a && b[0] in b;
        RemoteOrderAgrees(c, a, b);
        CandidateOrderAgrees(c, a, b);
        PairAgrees(ToSorted(a, ByFiscalNumber(c)), ToSorted(b, ByFiscalNumber(c)),
                   ToSorted(Strong(a[0]), ByRank(c)), ToSorted(Strong(b[0]), ByRank(c)));
      } else if SharesCandidates(c, b) {
        SharingCarries(c, b, a);
      }
    }
  }

  lemma SharedIsResolved(c: Collation, group: seq<Entry>)
    requires |group| >= 2
    ensures ResolveGroup(c, group) != [] <==>
            SharesCandidates(c, group) && !HasExplicitReference(group) && |Distinct(Numbers(group))| == |group|
  {
    hide SharesCandidates, HasExplicitReference;
    if SharesCandidates(c, group) { SharedAreAsMany(c, group); }
  }

  lemma SharedAreAsMany(c: Collation, group: seq<Entry>)
    requires group != [] && SharesCandidates(c, group)
    ensures |Strong(group[0])| == |group|
  {
    hide Strong;
    assert group[0] in group;
  }

  /** Whether a cohort with plain numeric ids is resolved does not depend on the listing. */
  lemma ResolvingCarries(c: Collation, a: seq<Entry>, b: seq<Entry>)
    requires SameUpToOrder(a, b) && IsCohort(a) && AllCanonical(a) && ResolveGroup(c, a) != []
    ensures |b| >= 2 && ResolveGroup(c, b) != []
  {
    hide *;
    SameSize(a, b);
    CohortMeans(a);
    SharedIsResolved(c, a);
    SharingCarries(c, a, b);
    NumbersAgree(a, b);
    if HasExplicitReference(b) { ExplicitReferenceCarries(b, a); }
    SharedIsResolved(c, b);
  }

  lemma CohortMeans(group: seq<Entry>)
    ensures IsCohort(group) <==> |group| >= 2 && !HasExplicitReference(group)
  {
  }

  /** What a group has to be for its matches not to depend on the listing: of a cohort that is
      not resolved only the ids have to be plain numerals. */
  ghost predicate OrderlyIfResolved(c: Collation, group: seq<Entry>)
    requires group != []
  {
    IsCohort(group) ==> AllCanonical(group) && (ResolveGroup(c, group) != [] ==> Orderly(c, group))
  }

  lemma GroupIsOrderFree(c: Collation, a: seq<Entry>, b: seq<Entry>)
    requires SameUpToOrder(a, b) && a != [] && b != [] && OrderlyIfResolved(c, a)
    ensures ResolveGroup(c, a) == ResolveGroup(c, b)
  {
    if !IsCohort(a) || Orderly(c, a) {
      OrderlyIsOrderFree(c, a, b);
    } else {
      hide ResolveGroup, Orderly, SameUpToOrder, AllCanonical, HasExplicitReference;
      if ResolveGroup(c, b) != [] {
        SameSize(a, b);
        CanonicalCarries(a, b);
        if HasExplicitReference(b) { ExplicitReferenceCarries(b, a); }
        ResolvingCarries(c, b, a);
      }
    }
  }

  // ---------- The whole run ----------

  lemma {:induction false} ResolvedOnce(c: Collation, entries: seq<Entry>, keys: seq<string>, m: Match)
    requires forall k :: k in keys ==> GroupOf(entries, k) != []
    ensures m in ResolveAll(c, entries, keys) <==> exists k :: k in keys && m in ResolveGroup(c, GroupOf(entries, k))
  {
    if keys == [] {
    } else {
      var n := |keys| - 1;
      assert keys == keys[..n] + [keys[n]];
      ResolvedOnce(c, entries, keys[..n], m);
    }
  }

  function ShapeKeyIs(key: string): Shape -> bool {
    (s: Shape) => s.key == key
  }

  lemma {:induction false} ShapesOfGroup(entries: seq<Entry>, key: string)
    ensures Map(ShapeOf, GroupOf(entries, key)) == Filter(ShapeKeyIs(key), Map(ShapeOf, entries))
  {
    if entries == [] {
    } else {
      ShapesOfGroup(entries[1..], key);
    }
  }

  lemma GroupsAgree(a: seq<Entry>, b: seq<Entry>, key: string)
    requires SameUpToOrder(a, b)
    ensures SameUpToOrder(GroupOf(a, key), GroupOf(b, key))
  {
    ShapesOfGroup(a, key);
    ShapesOfGroup(b, key);
    FilterBag(ShapeKeyIs(key), Map(ShapeOf, a), Map(ShapeOf, b));
  }

  ghost predicate AllOrderly(c: Collation, entries: seq<Entry>) {
    KeysHaveEntries(entries);
    forall k :: k in GroupKeys(entries) ==> OrderlyIfResolved(c, GroupOf(entries, k))
  }

  lemma MatchCarries(c: Collation, a: seq<Entry>, b: seq<Entry>, m: Match)
    requires SameUpToOrder(a, b) && AllOrderly(c, a)
    ensures m in Resolve(c, a) <==> m in Resolve(c, b)
  {
    KeysHaveEntries(a);
    KeysHaveEntries(b);
    ResolvedOnce(c, a, GroupKeys(a), m);
    ResolvedOnce(c, b, GroupKeys(b), m);
    SameSize(a, b);
    forall k | k in GroupKeys(a) || k in GroupKeys(b)
      ensures k in GroupKeys(a) && k in GroupKeys(b)
      ensures ResolveGroup(c, GroupOf(a, k)) == ResolveGroup(c, GroupOf(b, k))
    {
      GroupsAgree(a, b, k);
      SameSize(GroupOf(a, k), GroupOf(b, k));
      assert GroupOf(a, k)[0] in GroupOf(a, k) && GroupOf(b, k)[0] in GroupOf(b, k);
      GroupIsOrderFree(c, GroupOf(a, k), GroupOf(b, k));
    }
  }

  /** Listing the entries, or any entry's candidates, in another order changes no match. */
  lemma ResolutionIsOrderFree(c: Collation, a: seq<Entry>, b: seq<Entry>)
    requires SameUpToOrder(a, b) && AllOrderly(c, a)
    ensures Distinct(Resolve(c, a)) == Distinct(Resolve(c, b))
  {
    forall m
      ensures m in Resolve(c, a) <==> m in Resolve(c, b)
    {
      MatchCarries(c, a, b, m);
    }
  }

  /** Fiscal numbers of digits, no two of them one number. */
  ghost predicate NumeralsDiffer(group: seq<Entry>) {
    (forall e <- group :: IsNumeral(e.fiscalNumber)) &&
    forall i, j :: 0 <= i < j < |group| ==> Value(group[i].fiscalNumber) != Value(group[j].fiscalNumber)
  }

  lemma NumeralsAreNumericallyDistinct(c: Collation, group: seq<Entry>)
    requires NumeralsDiffer(group)
    ensures NumericallyDistinct(c, group)
  {
    hide Value, CompareNumericText;
    forall x | x in Distinct(Numbers(group))
      ensures IsNumeral(x)
    {
      var i :| 0 <= i < |group| && Numbers(group)[i] == x;
      assert group[i] in group;
    }
    NumeralsAreConsistent(c.numbers, Distinct(Numbers(group)));
    forall i, j | 0 <= i < j < |group|
      ensures CompareNumericText(c.numbers, group[i].fiscalNumber, group[j].fiscalNumber) != 0
    {
      assert group[i] in group && group[j] in group;
      NumeralsTie(c.numbers, group[i].fiscalNumber, group[j].fiscalNumber);
    }
  }

  /** A cohort that is resolved has such numbers, and is orderly otherwise. */
  ghost predicate NumberedIfResolved(c: Collation, group: seq<Entry>)
    requires group != []
  {
    IsCohort(group) ==>
      AllCanonical(group) &&
      (ResolveGroup(c, group) != [] ==>
         NumeralsDiffer(group) && CandidatesAgree(group) && Collates(c, RanksOf(group)))
  }

  ghost predicate CohortsAreNumbered(c: Collation, entries: seq<Entry>) {
    KeysHaveEntries(entries);
    forall k :: k in GroupKeys(entries) ==> NumberedIfResolved(c, GroupOf(entries, k))
  }

  /** Where fiscal numbers are digits nothing is asked of how the collation orders them. */
  lemma NumeralsResolveOrderFree(c: Collation, a: seq<Entry>, b: seq<Entry>)
    requires SameUpToOrder(a, b) && CohortsAreNumbered(c, a)
    ensures Distinct(Resolve(c, a)) == Distinct(Resolve(c, b))
  {
    hide SameUpToOrder, NumberedIfResolved, OrderlyIfResolved, GroupOf, GroupKeys, Resolve;
    KeysHaveEntries(a);
    forall k | k in GroupKeys(a)
      ensures OrderlyIfResolved(c, GroupOf(a, k))
    {
      NumberedIsOrderly(c, GroupOf(a, k));
    }
    ResolutionIsOrderFree(c, a, b);
  }

  lemma NumberedIsOrderly(c: Collation, group: seq<Entry>)
    requires group != [] && NumberedIfResolved(c, group)
    ensures OrderlyIfResolved(c, group)
  {
    hide NumeralsDiffer, CandidatesAgree, AllCanonical, Collates, NumericallyDistinct, IsCohort, ResolveGroup;
    if NumeralsDiffer(group) { NumeralsAreNumericallyDistinct(c, group); }
  }

  // ---------- What a resolved cohort looks like ----------

  ghost function Remotes(c: Collation, group: seq<Entry>): (r: seq<Entry>)
    ensures |r| == |group|
  {
    ToSorted(group, ByFiscalNumber(c))
  }

  ghost function Assigned(c: Collation, group: seq<Entry>): seq<Candidate>
    requires group != []
  {
    ToSorted(Strong(group[0]), ByRank(c))
  }

  lemma CohortIsPaired(c: Collation, group: seq<Entry>)
    requires |group| >= 2 && ResolveGroup(c, group) != []
    ensures SharesCandidates(c, group) && |Assigned(c, group)| == |group|
    ensures ResolveGroup(c, group) == Pair(Remotes(c, group), Assigned(c, group))
  {
    hide Strong, Pair, IdKey;
    assert group[0] in group;
  }

  /** A resolved cohort of two or more pairs all its invoices with all the candidates they
      have in common, each once. */
  lemma CohortIsBijection(c: Collation, group: seq<Entry>)
    requires |group| >= 2 && AllCanonical(group) && ResolveGroup(c, group) != []
    ensures |Assigned(c, group)| == |group| && ResolveGroup(c, group) == Pair(Remotes(c, group), Assigned(c, group))
    ensures multiset(Remotes(c, group)) == multiset(group)
    ensures forall e :: e in group ==> multiset(Ids(Assigned(c, group))) == multiset(Ids(Strong(e)))
    ensures forall i, j :: 0 <= i < j < |group| ==> Assigned(c, group)[i].id != Assigned(c, group)[j].id
  {
    CohortIsPaired(c, group);
    SortKeeps(group, ByFiscalNumber(c));
    AssignedIds(c, group);
    hide ResolveGroup, Remotes, Assigned, Strong, IdKey;
    assert group[0] in group;
    forall e | e in group
      ensures multiset(Ids(Assigned(c, group))) == multiset(Ids(Strong(e)))
    {
      KeyTellsIds(c, e, group[0]);
    }
  }

  lemma AssignedIds(c: Collation, group: seq<Entry>)
    requires group != [] && SharesCandidates(c, group)
    ensures |Assigned(c, group)| == |group|
    ensures multiset(Ids(Assigned(c, group))) == multiset(Ids(Strong(group[0])))
    ensures forall i, j :: 0 <= i < j < |group| ==> Assigned(c, group)[i].id != Assigned(c, group)[j].id
  {
    hide Strong, ByRank, ToSorted, IdKey, AllNear;
    assert group[0] in group;
    var strong, orders := Strong(group[0]), Assigned(c, group);
    SortKeeps(strong, ByRank(c));
    MapBag(IdOf, orders, strong);
    SameMembers(Ids(orders), Ids(strong));
    assert Distinct(Ids(orders)) == Distinct(Ids(strong));
    FullSetIsInjective(Ids(orders));
    forall i, j | 0 <= i < j < |group|
      ensures orders[i].id != orders[j].id
    {
      assert Ids(orders)[i] != Ids(orders)[j];
    }
  }

  /** By date, then by display number, then by id. */
  ghost predicate NotLater(c: Collation, x: Candidate, y: Candidate) {
    var date := c.dates(x.localOrderDate, y.localOrderDate);
    date < 0 ||
    (date == 0 &&
     var display := Apart(c.numbers, x.displayNumber, y.displayNumber);
     display < 0 || (display == 0 && Apart(c.numbers, x.id, y.id) <= 0))
  }

  lemma RanksAreNotLater(c: Collation, x: Candidate, y: Candidate)
    ensures ByRank(c)(x, y) <==> NotLater(c, x, y)
  {
    hide CompareNumericText, Apart;
    ComparesAsApart(c.numbers, x.displayNumber, y.displayNumber);
    ComparesAsApart(c.numbers, x.id, y.id);
  }

  /** In a resolved cohort the invoice of a smaller fiscal number never gets a later candidate,
      also where other numbers tie; the collations need only order what occurs. */
  lemma CohortIsMonotone(c: Collation, group: seq<Entry>, i: nat, j: nat)
    requires |group| >= 2 && ResolveGroup(c, group) != [] && i < |group| && j < |group|
    requires AllCanonical(group) && Collates(c, RanksOf(group)) && NumbersCollate(c, group)
    requires Apart(c.numbers, Remotes(c, group)[i].fiscalNumber, Remotes(c, group)[j].fiscalNumber) < 0
    ensures |Assigned(c, group)| == |group| && NotLater(c, Assigned(c, group)[i], Assigned(c, group)[j])
  {
    CohortIsPaired(c, group);
    hide ResolveGroup, SharesCandidates, NotLater, Apart, CompareNumericText;
    ComparesAsApart(c.numbers, Remotes(c, group)[i].fiscalNumber, Remotes(c, group)[j].fiscalNumber);
    CandidatesAreSorted(c, group);
    NumberDecides(c, group, Remotes(c, group), i, j);
    RanksAreNotLater(c, Assigned(c, group)[i], Assigned(c, group)[j]);
    assert ByRank(c)(Assigned(c, group)[i], Assigned(c, group)[j]);
  }

  /** With fiscal numbers of digits: the smaller the number, the earlier the date. */
  lemma NumbersFollowDates(c: Collation, group: seq<Entry>, i: nat, j: nat)
    requires |group| >= 2 && ResolveGroup(c, group) != [] && i < |group| && j < |group|
    requires AllCanonical(group) && Collates(c, RanksOf(group)) && forall e <- group :: IsNumeral(e.fiscalNumber)
    requires IsNumeral(Remotes(c, group)[i].fiscalNumber) && IsNumeral(Remotes(c, group)[j].fiscalNumber)
    requires Value(Remotes(c, group)[i].fiscalNumber) < Value(Remotes(c, group)[j].fiscalNumber)
    ensures |Assigned(c, group)| == |group|
    ensures c.dates(Assigned(c, group)[i].localOrderDate, Assigned(c, group)[j].localOrderDate) <= 0
  {
    hide ResolveGroup, Remotes, Assigned, Collates, AllCanonical, RanksOf, Value;
    NumeralsCollate(c, group);
    CohortIsMonotone(c, group, i, j);
  }

  lemma RemotesAreEntries(c: Collation, group: seq<Entry>, i: nat)
    requires i < |group|
    ensures Remotes(c, group)[i] in group
  {
    SortKeeps(group, ByFiscalNumber(c));
    SameMembers(Remotes(c, group), group);
  }

  lemma NumeralsCollate(c: Collation, group: seq<Entry>)
    requires forall e <- group :: IsNumeral(e.fiscalNumber)
    ensures NumbersCollate(c, group)
  {
    hide Value, CompareNumericText;
    forall x | x in Distinct(Numbers(group))
      ensures IsNumeral(x)
    {
      var i :| 0 <= i < |group| && Numbers(group)[i] == x;
      assert group[i] in group;
    }
    NumeralsAreConsistent(c.numbers, Distinct(Numbers(group)));
  }

  // ---------- Exactly which groups are resolved ----------

  /** What makes a candidate's order one the invoice may be for: compatible, a single order, of
      the same total and recipient, matched by tax identifier, and not named by the invoice. */
  predicate MayBeMeant(x: Candidate) {
    !x.explicitReference && x.taxId && x.recipient && x.total && x.compatible && x.orderIds != [] &&
    x.orderIds[1..] == []
  }

  function Meant(e: Entry): seq<Candidate> {
    Filter(MayBeMeant, e.candidates)
  }

  lemma MeantAreStrong(e: Entry)
    ensures Strong(e) == Meant(e)
  {
    FilterAgrees(CandidateIsStrong, MayBeMeant, e.candidates);
  }

  /** No invoice names a compatible order. */
  predicate NamesNone(group: seq<Entry>) {
    forall e <- group :: forall x <- e.candidates :: !(x.explicitReference && x.compatible)
  }

  /** Each invoice has as many near candidates as there are invoices, with different ids and the
      same ids as every other invoice. */
  ghost predicate ShareTheirOrders(group: seq<Entry>) {
    (forall e <- group :: HasItsShare(e, |group|)) && forall e, e' :: e in group && e' in group ==> SameOrders(e, e')
  }

  predicate HasItsShare(e: Entry, size: nat) {
    |Meant(e)| == size && (forall x <- Meant(e) :: x.nearDate) &&
    forall i, j :: 0 <= i < j < |Meant(e)| ==> Meant(e)[i].id != Meant(e)[j].id
  }

  ghost predicate SameOrders(e: Entry, e': Entry) {
    forall x <- Meant(e) :: exists x' <- Meant(e') :: x'.id == x.id
  }

  predicate NumbersDiffer(group: seq<Entry>) {
    forall i, j :: 0 <= i < j < |group| ==> group[i].fiscalNumber != group[j].fiscalNumber
  }

  lemma {:induction false} DistinctIsFull(s: seq<string>)
    requires forall i, j :: 0 <= i < j < |s| ==> s[i] != s[j]
    ensures |Distinct(s)| == |s|
  {
    if s == [] {
      assert Distinct(s) == {};
    } else {
      var n := |s| - 1;
      DistinctIsFull(s[..n]);
      assert s == s[..n] + [s[n]];
      assert Distinct(s) == Distinct(s[..n]) + {s[n]};
    }
  }

  lemma DistinctIffFull(s: seq<string>)
    ensures |Distinct(s)| == |s| <==> forall i, j :: 0 <= i < j < |s| ==> s[i] != s[j]
  {
    if |Distinct(s)| == |s| {
      FullSetIsInjective(s);
    } else if forall i, j :: 0 <= i < j < |s| ==> s[i] != s[j] {
      DistinctIsFull(s);
    }
  }

  lemma SameIdsSameBag(a: seq<string>, b: seq<string>)
    requires |Distinct(a)| == |a| && |Distinct(b)| == |b| && forall x :: x in a <==> x in b
    ensures multiset(a) == multiset(b)
  {
    OnceEach(a);
    OnceEach(b);
  }

  lemma {:induction false} OnceEach(s: seq<string>)
    requires |Distinct(s)| == |s|
    ensures forall x :: multiset(s)[x] == if x in s then 1 else 0
  {
    FullSetIsInjective(s);
    if s == [] {
    } else {
      var n := |s| - 1;
      assert s == s[..n] + [s[n]];
      DistinctIsFull(s[..n]);
      OnceEach(s[..n]);
      assert s[n] !in s[..n];
    }
  }

  lemma SharingIsSaid(c: Collation, group: seq<Entry>)
    requires group != [] && AllCanonical(group) && SharesCandidates(c, group)
    ensures ShareTheirOrders(group)
  {
    hide SharesCandidates, AllCanonical, HasItsShare, SameOrders;
    forall e | e in group
      ensures HasItsShare(e, |group|)
    {
      SharedEntry(c, group, e);
    }
    forall e, e' | e in group && e' in group
      ensures SameOrders(e, e')
    {
      SharedEntry(c, group, e);
      SharedEntry(c, group, e');
      SameBagSameOrders(e, e');
    }
  }

  lemma SameBagSameOrders(e: Entry, e': Entry)
    requires multiset(Ids(Meant(e))) == multiset(Ids(Meant(e')))
    ensures SameOrders(e, e')
  {
    hide Meant, Ids;
    SameMembers(Ids(Meant(e)), Ids(Meant(e')));
    forall x | x in Meant(e)
      ensures exists x' <- Meant(e') :: x'.id == x.id
    {
      IdsAreListed(Meant(e));
      IdIsListed(Meant(e'), x.id);
    }
  }

  lemma SharedEntry(c: Collation, group: seq<Entry>, e: Entry)
    requires e in group && AllCanonical(group) && SharesCandidates(c, group)
    ensures HasItsShare(e, |group|) && multiset(Ids(Meant(e))) == multiset(Ids(Meant(group[0])))
  {
    hide Strong, Meant, CanonicalIds, IdKey, HasItsShare, Distinct, Ids;
    assert group[0] in group;
    MeantAreStrong(e);
    MeantAreStrong(group[0]);
    KeyTellsIds(c, e, group[0]);
    SameMembers(Ids(Meant(e)), Ids(Meant(group[0])));
    SameDistinct(Ids(Meant(e)), Ids(Meant(group[0])));
    StrongShare(e, |group|);
  }

  lemma SameDistinct(a: seq<string>, b: seq<string>)
    requires forall x :: x in a <==> x in b
    ensures Distinct(a) == Distinct(b)
  {
  }

  lemma StrongShare(e: Entry, size: nat)
    requires AllNear(e) && |Strong(e)| == |Distinct(Ids(Meant(e)))| == size
    ensures HasItsShare(e, size)
  {
    hide Strong, Meant;
    MeantAreStrong(e);
    DistinctIffFull(Ids(Meant(e)));
  }

  lemma SaidIsSharing(c: Collation, group: seq<Entry>)
    requires group != [] && AllCanonical(group) && ShareTheirOrders(group)
    ensures SharesCandidates(c, group)
  {
    hide AllNear, HasItsShare, SameOrders, Strong, IdKey, CanonicalIds;
    assert group[0] in group;
    forall e | e in group
      ensures AllNear(e) && |Strong(e)| == |group| && IdKey(c, e) == IdKey(c, group[0])
      ensures |Distinct(Ids(Strong(e)))| == |group|
    {
      SaidOfEntry(c, e, group[0], |group|);
    }
  }

  lemma SaidOfEntry(c: Collation, e: Entry, first: Entry, size: nat)
    requires HasItsShare(e, size) && HasItsShare(first, size) && SameOrders(e, first) && SameOrders(first, e)
    requires CanonicalIds(e)
    ensures AllNear(e) && |Strong(e)| == size && |Distinct(Ids(Strong(e)))| == size && IdKey(c, e) == IdKey(c, first)
  {
    hide Strong, Meant, IsCanonical, Ids, ToSorted, Join, ByNumber;
    MeantAreStrong(e);
    MeantAreStrong(first);
    ShareIsDistinct(e, size);
    ShareIsDistinct(first, size);
    OrdersWithin(e, first);
    OrdersWithin(first, e);
    SameIdsSameBag(Ids(Meant(e)), Ids(Meant(first)));
    SortedIdsAgree(c, Strong(e), Strong(first));
  }

  lemma ShareIsDistinct(e: Entry, size: nat)
    requires HasItsShare(e, size)
    ensures |Ids(Meant(e))| == |Distinct(Ids(Meant(e)))| == size
  {
    hide Meant;
    DistinctIffFull(Ids(Meant(e)));
  }

  lemma OrdersWithin(e: Entry, e': Entry)
    requires SameOrders(e, e')
    ensures forall id :: id in Ids(Meant(e)) ==> id in Ids(Meant(e'))
  {
    hide Meant, Ids;
    forall id | id in Ids(Meant(e))
      ensures id in Ids(Meant(e'))
    {
      IdIsListed(Meant(e), id);
      var x :| x in Meant(e) && x.id == id;
      IdsAreListed(Meant(e'));
    }
  }

  /** A group of two or more is resolved exactly when no invoice names a compatible order, the
      fiscal numbers differ, and the invoices share as many orders as they are. */
  lemma CohortResolvesIff(c: Collation, group: seq<Entry>)
    requires |group| >= 2 && AllCanonical(group)
    ensures ResolveGroup(c, group) != [] <==> NamesNone(group) && NumbersDiffer(group) && ShareTheirOrders(group)
  {
    hide ResolveGroup, SharesCandidates, ShareTheirOrders, AllCanonical;
    SharedIsResolved(c, group);
    DistinctIffFull(Numbers(group));
    if SharesCandidates(c, group) { SharingIsSaid(c, group); }
    if ShareTheirOrders(group) { SaidIsSharing(c, group); }
  }

  predicate MeantAndSameDay(x: Candidate) {
    MayBeMeant(x) && x.sameDay
  }

  /** An invoice on its own is matched exactly when it names no compatible order and a single one
      of the orders it may be for was placed on its day. */
  lemma SingleResolvesIff(c: Collation, e: Entry, m: Match)
    ensures ResolveGroup(c, [e]) == [m] <==>
            NamesNone([e]) && m.remoteId == e.remoteId &&
            exists x :: Filter(MeantAndSameDay, e.candidates) == [x] && x.id == m.candidateId
    ensures |ResolveGroup(c, [e])| <= 1
  {
    MeantAreStrong(e);
    FilterTwice(MayBeMeant, SameDay, MeantAndSameDay, e.candidates);
    assert [e][0] == e && forall e' <- [e] :: e' == e;
    hide Filter, MayBeMeant;
  }

  lemma SingleMatchIsMeant(e: Entry, m: Match) returns (x: Candidate)
    requires m in SingleMatch(e)
    ensures x in e.candidates && MayBeMeant(x) && m == Match(e.remoteId, x.id)
  {
    hide MayBeMeant, Strong;
    MeantAreStrong(e);
    x := Filter(SameDay, Strong(e))[0];
    assert x in Filter(SameDay, Strong(e));
  }

  lemma CohortMatchIsMeant(c: Collation, group: seq<Entry>, i: nat, m: Match) returns (e: Entry, x: Candidate)
    requires |group| >= 2 && AllCanonical(group) && ResolveGroup(c, group) != []
    requires i < |group| == |Remotes(c, group)| == |Assigned(c, group)|
    requires m == Match(Remotes(c, group)[i].remoteId, Assigned(c, group)[i].id)
    ensures e in group && x in e.candidates && MayBeMeant(x) && m == Match(e.remoteId, x.id)
  {
    hide AllCanonical, ResolveGroup, MayBeMeant, Strong, Remotes, Assigned, Ids;
    RemotesAreEntries(c, group, i);
    e := Remotes(c, group)[i];
    CohortIsBijection(c, group);
    IdsAreListed(Assigned(c, group));
    SameMembers(Ids(Assigned(c, group)), Ids(Strong(e)));
    IdIsListed(Strong(e), m.candidateId);
    x :| x in Strong(e) && x.id == m.candidateId;
    MeantAreStrong(e);
  }

  lemma GroupMatchIsMeant(c: Collation, group: seq<Entry>, m: Match) returns (e: Entry, x: Candidate)
    requires group != [] && AllCanonical(group) && m in ResolveGroup(c, group)
    ensures e in group && x in e.candidates && MayBeMeant(x) && m == Match(e.remoteId, x.id)
  {
    hide AllCanonical, SharesCandidates, MayBeMeant, SingleMatch, Remotes, Assigned;
    if |group| == 1 {
      e := group[0];
      x := SingleMatchIsMeant(e, m);
    } else {
      CohortIsPaired(c, group);
      var i :| 0 <= i < |group| && Pair(Remotes(c, group), Assigned(c, group))[i] == m;
      e, x := CohortMatchIsMeant(c, group, i, m);
    }
  }

  /** Every match of a whole run pairs an invoice with an order it may be for. */
  lemma MatchIsMeant(c: Collation, entries: seq<Entry>, m: Match) returns (e: Entry, x: Candidate)
    requires m in Resolve(c, entries) && AllCanonical(entries)
    ensures e in entries && x in e.candidates && MayBeMeant(x) && m == Match(e.remoteId, x.id)
  {
    hide ResolveGroup, GroupOf, GroupKeys, CanonicalIds;
    KeysHaveEntries(entries);
    ResolvedOnce(c, entries, GroupKeys(entries), m);
    var k :| k in GroupKeys(entries) && m in ResolveGroup(c, GroupOf(entries, k));
    e, x := GroupMatchIsMeant(c, GroupOf(entries, k), m);
  }

  lemma {:induction false} FullSetIsInjective(s: seq<string>)
    requires |Distinct(s)| == |s|
    ensures forall i, j :: 0 <= i < j < |s| ==> s[i] != s[j]
  {
    if s == [] {
    } else {
      var n := |s| - 1;
      var init := s[..n];
      assert s == init + [s[n]];
      assert Distinct(s) == Distinct(init) + {s[n]};
      DistinctIsSmall(init);
      FullSetIsInjective(init);
    }
  }

  lemma {:induction false} DistinctIsSmall(s: seq<string>)
    ensures |Distinct(s)| <= |s|
  {
    if s == [] {
    } else {
      var n := |s| - 1;
      assert s == s[..n] + [s[n]];
      assert Distinct(s) == Distinct(s[..n]) + {s[n]};
      DistinctIsSmall(s[..n]);
    }
  }

  lemma EntriesAreOrdered(c: Collation, group: seq<Entry>)
    requires NumbersCollate(c, group)
    ensures TotalPreorderOn(ByFiscalNumber(c), group)
  {
    var numbers, compare := Distinct(Numbers(group)), NumericComparer(c.numbers);
    forall e | e in group
      ensures e.fiscalNumber in numbers
    {
      var i :| 0 <= i < |group| && group[i] == e;
      assert Numbers(group)[i] == e.fiscalNumber;
    }
    forall x, y | x in group && y in group
      ensures ByFiscalNumber(c)(x, y) == (compare(x.fiscalNumber, y.fiscalNumber) <= 0)
      ensures ByFiscalNumber(c)(x, y) || ByFiscalNumber(c)(y, x)
    {
      assert compare(x.fiscalNumber, y.fiscalNumber) < 0 <==> compare(y.fiscalNumber, x.fiscalNumber) > 0;
    }
  }

  lemma StrongIsRanked(group: seq<Entry>, x: Candidate)
    requires group != [] && AllCanonical(group) && x in Strong(group[0])
    ensures RankOf(x) in RanksOf(group) && IsCanonical(x.id)
  {
    assert group[0] in group;
  }

  lemma CandidatesAreSorted(c: Collation, group: seq<Entry>)
    requires group != [] && AllCanonical(group) && Collates(c, RanksOf(group))
    ensures Sorted(ToSorted(Strong(group[0]), ByRank(c)), ByRank(c))
  {
    hide AllCanonical, RanksOf, Collates, CompareRanks, Strong, ToSorted, Sorted, IsCanonical;
    var strong := Strong(group[0]);
    forall x, y | x in strong && y in strong
      ensures ByRank(c)(x, y) || ByRank(c)(y, x)
    {
      StrongIsRanked(group, x);
      StrongIsRanked(group, y);
      RankFlips(c, RanksOf(group), RankOf(x), RankOf(y));
      RankFlips(c, RanksOf(group), RankOf(y), RankOf(x));
    }
    forall x, y, z | x in strong && y in strong && z in strong && ByRank(c)(x, y) && ByRank(c)(y, z)
      ensures ByRank(c)(x, z)
    {
      StrongIsRanked(group, x);
      StrongIsRanked(group, y);
      StrongIsRanked(group, z);
      RankChains(c, RanksOf(group), RankOf(x), RankOf(y), RankOf(z));
    }
    SortSorts(strong, ByRank(c));
  }

  /** In the sorted invoices a strictly smaller number stands earlier. */
  lemma NumberDecides(c: Collation, group: seq<Entry>, remotes: seq<Entry>, i: nat, j: nat)
    requires NumbersCollate(c, group) && remotes == ToSorted(group, ByFiscalNumber(c)) && i < |group| && j < |group|
    requires CompareNumericText(c.numbers, remotes[i].fiscalNumber, remotes[j].fiscalNumber) < 0
    ensures i < j
  {
    EntriesAreOrdered(c, group);
    SortSorts(group, ByFiscalNumber(c));
    SortKeeps(group, ByFiscalNumber(c));
    SameMembers(remotes, group);
    if j < i {
      assert ByFiscalNumber(c)(remotes[j], remotes[i]);
      NumberFlips(c, group, remotes[i], remotes[j]);
    } else if j == i {
      NumberFlips(c, group, remotes[i], remotes[j]);
    }
  }

  lemma NumberFlips(c: Collation, group: seq<Entry>, x: Entry, y: Entry)
    requires NumbersCollate(c, group) && x in group && y in group
    ensures CompareNumericText(c.numbers, x.fiscalNumber, y.fiscalNumber) < 0 <==>
            CompareNumericText(c.numbers, y.fiscalNumber, x.fiscalNumber) > 0
  {
    var i :| 0 <= i < |group| && group[i] == x;
    var j :| 0 <= j < |group| && group[j] == y;
    assert Numbers(group)[i] == x.fiscalNumber && Numbers(group)[j] == y.fiscalNumber;
    var compare := NumericComparer(c.numbers);
    assert compare(x.fiscalNumber, y.fiscalNumber) < 0 <==> compare(y.fiscalNumber, x.fiscalNumber) > 0;
  }
}
