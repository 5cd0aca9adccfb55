/**
 The resolver of ambiguous invoice cohorts in src/aruba-inbound.ts: invoices of one recipient,
 day and amount are paired with as many orders, in the order of their numbers.
 */
module Cohorts {
  import opened Sorting
  import opened NumericText

  datatype Candidate = Candidate(
    id: string, orderIds: seq<string>, displayNumber: string, localOrderDate: string, compatible: bool,
    total: bool, recipient: bool, taxId: bool, explicitReference: bool, sameDay: bool, nearDate: bool)

  /** `key` is the JSON text of the fields the source groups by. */
  datatype Entry = Entry(key: string, remoteId: string, fiscalNumber: string, candidates: seq<Candidate>)

  datatype Match = Match(remoteId: string, candidateId: string)

  /** The two collations used: plain for dates, Italian and numeric for numbers. */
  datatype Collation = Collation(dates: Collator, numbers: Collator)

  predicate CandidateIsStrong(c: Candidate) {
    c.compatible && |c.orderIds| == 1 && c.total && c.recipient && c.taxId && !c.explicitReference
  }

  function Strong(e: Entry): seq<Candidate> {
    Filter(CandidateIsStrong, e.candidates)
  }

  /** What candidates are sorted by. */
  datatype Rank = Rank(localOrderDate: string, displayNumber: string, id: string)

  function RankOf(c: Candidate): Rank {
    Rank(c.localOrderDate, c.displayNumber, c.id)
  }

  function CompareRanks(c: Collation, a: Rank, b: Rank): int {
    var date := c.dates(a.localOrderDate, b.localOrderDate);
    if date != 0 then date
    else
      var number := CompareNumericText(c.numbers, a.displayNumber, b.displayNumber);
      if number != 0 then number else CompareNumericText(c.numbers, a.id, b.id)
  }

  function ByRank(c: Collation): (Candidate, Candidate) -> bool {
    (a: Candidate, b: Candidate) => CompareRanks(c, RankOf(a), RankOf(b)) <= 0
  }

  function ByNumber(c: Collation): (string, string) -> bool {
    (a: string, b: string) => CompareNumericText(c.numbers, a, b) <= 0
  }

  function ByFiscalNumber(c: Collation): (Entry, Entry) -> bool {
    (a: Entry, b: Entry) => CompareNumericText(c.numbers, a.fiscalNumber, b.fiscalNumber) <= 0
  }

  function IdOf(c: Candidate): string {
    c.id
  }

  function Ids(candidates: seq<Candidate>): seq<string> {
    Map(IdOf, candidates)
  }

  function FiscalNumberOf(e: Entry): string {
    e.fiscalNumber
  }

  function Numbers(group: seq<Entry>): seq<string> {
    Map(FiscalNumberOf, group)
  }

  function Distinct<T(==)>(s: seq<T>): set<T> {
    set x | x in s
  }

  /** Array.prototype.join(":"). */
  function Join(s: seq<string>): string {
    if s == [] then "" else if |s| == 1 then s[0] else s[0] + ":" + Join(s[1..])
  }

  function IdKey(c: Collation, e: Entry): string {
    Join(ToSorted(Ids(Strong(e)), ByNumber(c)))
  }

  predicate HasExplicitReference(group: seq<Entry>) {
    exists e :: e in group && exists c :: c in e.candidates && c.compatible && c.explicitReference
  }

  predicate AllNear(e: Entry) {
    forall c :: c in Strong(e) ==> c.nearDate
  }

  /** Every invoice has as many strong candidates as there are invoices, all of them the same. */
  predicate SharesCandidates(c: Collation, group: seq<Entry>)
    requires group != []
  {
    (forall e :: e in group ==> AllNear(e) && |Strong(e)| == |group|) &&
    |Distinct(Ids(Strong(group[0])))| == |group| &&
    forall e :: e in group ==> IdKey(c, e) == IdKey(c, group[0])
  }

  function Pair(remotes: seq<Entry>, candidates: seq<Candidate>): (r: seq<Match>)
    requires |remotes| == |candidates|
    ensures |r| == |remotes|
    ensures forall i :: 0 <= i < |r| ==> r[i] == Match(remotes[i].remoteId, candidates[i].id)
  {
    if remotes == [] then [] else [Match(remotes[0].remoteId, candidates[0].id)] + Pair(remotes[1..], candidates[1..])
  }

  predicate SameDay(c: Candidate) {
    c.sameDay
  }

  /** An invoice on its own takes its one strong candidate of the same day. */
  function SingleMatch(e: Entry): seq<Match> {
    var sameDay := Filter(SameDay, Strong(e));
    if |sameDay| == 1 then [Match(e.remoteId, sameDay[0].id)] else []
  }

  function ResolveGroup(c: Collation, group: seq<Entry>): seq<Match>
    requires group != []
  {
    if HasExplicitReference(group) then []
    else if |group| == 1 then SingleMatch(group[0])
    else if !SharesCandidates(c, group) || |Distinct(Numbers(group))| != |group| then []
    else
      assert group[0] in group;
      Pair(ToSorted(group, ByFiscalNumber(c)), ToSorted(Strong(group[0]), ByRank(c)))
  }

  // ---------- The whole run ----------

  /** Group keys in the order of their first entry. */
  function GroupKeys(entries: seq<Entry>): (r: seq<string>)
    ensures forall k :: k in r <==> exists e :: e in entries && e.key == k
    ensures forall i, j :: 0 <= i < j < |r| ==> r[i] != r[j]
  {
    if entries == [] then []
    else
      var n := |entries| - 1;
      var keys := GroupKeys(entries[..n]);
      assert entries == entries[..n] + [entries[n]];
      if entries[n].key in keys then keys else keys + [entries[n].key]
  }

  function KeyIs(key: string): Entry -> bool {
    (e: Entry) => e.key == key
  }

  function GroupOf(entries: seq<Entry>, key: string): (r: seq<Entry>)
    ensures forall e :: e in r <==> e in entries && e.key == key
  {
    Filter(KeyIs(key), entries)
  }

  function ResolveAll(c: Collation, entries: seq<Entry>, keys: seq<string>): seq<Match>
    requires forall k :: k in keys ==> GroupOf(entries, k) != []
  {
    if keys == [] then []
    else ResolveAll(c, entries, keys[..|keys| - 1]) + ResolveGroup(c, GroupOf(entries, keys[|keys| - 1]))
  }

  lemma KeysHaveEntries(entries: seq<Entry>)
    ensures forall k :: k in GroupKeys(entries) ==> GroupOf(entries, k) != []
  {
    forall k | k in GroupKeys(entries)
      ensures GroupOf(entries, k) != []
    {
      var e :| e in entries && e.key == k;
      assert e in GroupOf(entries, k);
    }
  }

  function Resolve(c: Collation, entries: seq<Entry>): seq<Match> {
    KeysHaveEntries(entries);
    ResolveAll(c, entries, GroupKeys(entries))
  }

  lemma EntryAppends(entries: seq<Entry>, entry: Entry)
    ensures GroupKeys(entries + [entry]) ==
            if entry.key in GroupKeys(entries) then GroupKeys(entries) else GroupKeys(entries) + [entry.key]
    ensures forall k :: GroupOf(entries + [entry], k) == GroupOf(entries, k) + if entry.key == k then [entry] else []
    ensures entry.key !in GroupKeys(entries) ==> GroupOf(entries, entry.key) == []
  {
    assert (entries + [entry])[..|entries|] == entries;
    forall k
      ensures GroupOf(entries + [entry], k) == GroupOf(entries, k) + if entry.key == k then [entry] else []
    {
      FilterAppends(KeyIs(k), entries, entry);
    }
    if GroupOf(entries, entry.key) != [] {
      assert GroupOf(entries, entry.key)[0] in GroupOf(entries, entry.key);
    }
  }

  /** Keys and groups are those of these entries. */
  ghost predicate Grouped(entries: seq<Entry>, keys: seq<string>, groups: map<string, seq<Entry>>) {
    keys == GroupKeys(entries) && (forall k :: k in groups <==> k in keys) &&
    forall k :: k in groups ==> groups[k] == GroupOf(entries, k)
  }

  /** Where the entry joins: its group if there is one, and a new last one otherwise. */
  function Joined(groups: map<string, seq<Entry>>, entry: Entry): map<string, seq<Entry>> {
    groups[entry.key := (if entry.key in groups then groups[entry.key] else []) + [entry]]
  }

  lemma GroupedGrows(entries: seq<Entry>, keys: seq<string>, groups: map<string, seq<Entry>>, entry: Entry)
    requires Grouped(entries, keys, groups)
    ensures Grouped(entries + [entry], if entry.key in groups then keys else keys + [entry.key], Joined(groups, entry))
  {
    hide GroupOf, GroupKeys;
    EntryAppends(entries, entry);
  }

  method GroupEntries(entries: seq<Entry>) returns (keys: seq<string>, groups: map<string, seq<Entry>>)
    ensures Grouped(entries, keys, groups)
  {
    groups := map[];
    keys := [];
    assert Grouped(entries[..0], keys, groups);
    hide Grouped;
    for i := 0 to |entries|
      invariant Grouped(entries[..i], keys, groups)
    {
      var entry := entries[i];
      assert entries[..i + 1] == entries[..i] + [entry];
      GroupedGrows(entries[..i], keys, groups, entry);
      if entry.key in groups {
        groups := groups[entry.key := groups[entry.key] + [entry]];
      } else {
        keys := keys + [entry.key];
        groups := groups[entry.key := [] + [entry]];
      }
    }
    assert entries[..|entries|] == entries;
  }

  method SelectAutomaticAmbiguousInvoiceMatches(c: Collation, entries: seq<Entry>) returns (resolved: seq<Match>)
    ensures resolved == Resolve(c, entries)
  {
    var keys, groups := GroupEntries(entries);
    KeysHaveEntries(entries);
    hide GroupOf, GroupKeys, ResolveGroup;
    resolved := [];
    for i := 0 to |keys|
      invariant forall k :: k in keys[..i] ==> GroupOf(entries, k) != []
      invariant resolved == ResolveAll(c, entries, keys[..i])
    {
      assert keys[..i + 1][..i] == keys[..i];
      resolved := resolved + ResolveGroup(c, groups[keys[i]]);
    }
    assert keys[..|keys|] == keys;
  }
}
