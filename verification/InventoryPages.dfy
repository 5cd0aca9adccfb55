/**
 Committing inventory pages of an Aruba read (src/db/aruba-api-canonical-page.server.ts) and
 moving its window (src/db/aruba-api-inbound.server.ts), as atomic transactions over one run
 row and its page rows. Times are milliseconds.
 */
module InventoryPages {
  import opened Integers
  import opened Options
  import opened Numerals

  const WINDOW_MS: nat := 48 * 60 * 60 * 1000

  const POSTGRES_BIGINT_MAX := 9_223_372_036_854_775_807

  /** The source compares lengths, then texts: the same order on numerals without leading zeros. */
  predicate IsDatabaseId(id: string) {
    IsNumeral(id) && id[0] != '0' && Value(id) <= POSTGRES_BIGINT_MAX
  }

  datatype Error =
    | ARUBA_INVENTORY_INVALID
    | ARUBA_READ_SESSION_INVALID
    | ARUBA_INVENTORY_CONFLICT
    | ARUBA_INVENTORY_BLOCKED
    | CONFLICT_REVISION

  datatype Response = Done(repeated: bool) | Advanced(moved: bool) | Thrown(error: Error)

  /** A page that inventoryPageSchema accepts, with the digest of each document's metadata and
      of the page itself. */
  datatype Page = Page(ordinal: nat, terminal: bool, documents: seq<string>, digest: string)

  datatype Evidence = Evidence(remoteDocumentId: string, payloadDigest: string)

  /** What the staged observations are asked, and what they answer. */
  datatype Query = Query(ordinal: nat, ids: seq<string>, evidence: seq<Evidence>)

  datatype Staged = Staged(uniqueCount: nat, observationCount: nat, incompleteFiles: nat, conflictedDuplicates: nat)

  /** The arguments of commitArubaApiInventoryPage, and the staged observations it meets. */
  datatype Request = Request(runIsUuid: bool, rawPage: Option<Page>, groupCount: int, ids: seq<string>,
      stage: Query -> Staged)

  datatype Slot = Slot(start: int, end: int, ordinal: nat)

  datatype Row = Row(slot: Slot, terminal: bool, groupCount: nat, documentCount: nat, digest: string)

  /** The run row, and its rows of aruba_sync_run_pages. */
  datatype State = State(running: bool, canonical: bool, start: int, end: int, windowEnd: int, checkpointPage: nat,
                         pageCount: nat, groupCount: nat, documentCount: nat, rows: seq<Row>)

  // ---------- Counting the documents of a page ----------

  /** The distinct ids, in the order of their first occurrence. */
  function Distinct(ids: seq<string>): seq<string> {
    if ids == [] then []
    else
      var before := Distinct(ids[..|ids| - 1]);
      if ids[|ids| - 1] in before then before else before + [ids[|ids| - 1]]
  }

  /** The members of `some` that occur more than once in `ids`. */
  function Repeated(some: seq<string>, ids: seq<string>): seq<string> {
    if some == [] then []
    else
      var before := Repeated(some[..|some| - 1], ids);
      if multiset(ids)[some[|some| - 1]] > 1 then before + [some[|some| - 1]] else before
  }

  /** One piece of evidence for each document whose id is not its own alone. */
  function EvidenceOf(some: seq<string>, documents: seq<string>, ids: seq<string>): seq<Evidence>
    requires |some| <= |documents|
  {
    if some == [] then []
    else
      var last := |some| - 1;
      var before := EvidenceOf(some[..last], documents, ids);
      if multiset(ids)[some[last]] > 1 then before + [Evidence(some[last], documents[last])] else before
  }

  lemma {:induction false} DistinctIsASet(ids: seq<string>)
    ensures forall x :: x in Distinct(ids) <==> x in ids
    ensures forall i, j :: 0 <= i < j < |Distinct(ids)| ==> Distinct(ids)[i] != Distinct(ids)[j]
  {
    if ids == [] {
    } else {
      DistinctIsASet(ids[..|ids| - 1]);
      assert ids == ids[..|ids| - 1] + [ids[|ids| - 1]];
    }
  }

  lemma {:induction false} RepeatedAre(some: seq<string>, ids: seq<string>)
    ensures forall x :: x in Repeated(some, ids) <==> x in some && multiset(ids)[x] > 1
  {
    if some == [] {
    } else {
      RepeatedAre(some[..|some| - 1], ids);
      assert some == some[..|some| - 1] + [some[|some| - 1]];
    }
  }

  lemma SeenBeforeRepeats(ids: seq<string>, n: nat)
    requires n < |ids| && ids[n] in ids[..n]
    ensures multiset(ids)[ids[n]] > 1
  {
    assert ids == ids[..n] + [ids[n]] + ids[n + 1..];
    assert ids[n] in multiset(ids[..n]);
  }

  lemma NoEvidence(ids: seq<string>, documents: seq<string>)
    ensures Distinct(ids[..0]) == [] && EvidenceOf(ids[..0], documents, ids) == [] && Repeated([], ids) == []
  {
  }

  lemma CountsGrowByOne(ids: seq<string>, documents: seq<string>, n: nat)
    requires 0 < n <= |ids| == |documents|
    ensures var before, twice := Distinct(ids[..n - 1]), multiset(ids)[ids[n - 1]] > 1;
            |EvidenceOf(ids[..n], documents, ids)| ==
              |EvidenceOf(ids[..n - 1], documents, ids)| + (if twice then 1 else 0) &&
            |Distinct(ids[..n])| == |before| + (if ids[n - 1] in before then 0 else 1) &&
            |Repeated(Distinct(ids[..n]), ids)| ==
            |Repeated(before, ids)| + (if ids[n - 1] !in before && twice then 1 else 0)
  {
    assert ids[..n][..n - 1] == ids[..n - 1];
    var before := Distinct(ids[..n - 1]);
    if ids[n - 1] !in before {
      assert (before + [ids[n - 1]])[..|before|] == before;
    }
  }

  /** Evidence beyond one piece for each repeated id stands for the surplus documents, those
      whose id was seen before. */
  lemma {:induction false} EvidenceIsSurplus(ids: seq<string>, documents: seq<string>, n: nat)
    requires |documents| == |ids| && n <= |ids|
    ensures |EvidenceOf(ids[..n], documents, ids)| - |Repeated(Distinct(ids[..n]), ids)| == n - |Distinct(ids[..n])|
  {
    hide *;
    if n == 0 {
      NoEvidence(ids, documents);
    } else {
      EvidenceIsSurplus(ids, documents, n - 1);
      DistinctIsASet(ids[..n - 1]);
      CountsGrowByOne(ids, documents, n);
      if ids[n - 1] in Distinct(ids[..n - 1]) { SeenBeforeRepeats(ids, n - 1); }
    }
  }

  ghost predicate Counts(counts: map<string, nat>, ids: seq<string>) {
    (forall x :: x in counts <==> x in ids) && forall x :: x in counts ==> counts[x] == multiset(ids)[x]
  }

  function Count(counts: map<string, nat>, id: string): map<string, nat> {
    counts[id := (if id in counts then counts[id] else 0) + 1]
  }

  lemma CountsGrow(counts: map<string, nat>, ids: seq<string>, n: nat)
    requires n < |ids| && Counts(counts, ids[..n])
    ensures Counts(Count(counts, ids[n]), ids[..n + 1])
    ensures ids[n] in counts <==> ids[n] in Distinct(ids[..n])
  {
    DistinctIsASet(ids[..n]);
    assert ids[..n + 1] == ids[..n] + [ids[n]];
    assert forall x :: x in ids[..n] <==> x in multiset(ids[..n]);
  }

  /** The Map of counts, filled and then read as the source does it. */
  method CountDocuments(ids: seq<string>) returns (counts: map<string, nat>, unique: seq<string>)
    ensures unique == Distinct(ids) && Counts(counts, ids)
  {
    hide Counts;
    counts, unique := map[], [];
    NothingCounted();
    for i := 0 to |ids|
      invariant Counts(counts, ids[..i])
      invariant unique == Distinct(ids[..i])
    {
      CountsGrow(counts, ids, i);
      assert ids[..i + 1][..i] == ids[..i];
      if ids[i] !in counts { unique := unique + [ids[i]]; }
      counts := Count(counts, ids[i]);
    }
    assert ids[..|ids|] == ids;
  }

  lemma NothingCounted()
    ensures Counts(map[], [])
  {
  }

  method FindDuplicates(ids: seq<string>, counts: map<string, nat>, unique: seq<string>)
    returns (duplicates: seq<string>)
    requires unique == Distinct(ids) && Counts(counts, ids)
    ensures duplicates == Repeated(Distinct(ids), ids)
    ensures forall x :: x in duplicates <==> multiset(ids)[x] > 1
  {
    DistinctIsASet(ids);
    RepeatedAre(Distinct(ids), ids);
    duplicates := [];
    for i := 0 to |unique|
      invariant duplicates == Repeated(unique[..i], ids)
    {
      assert unique[..i + 1][..i] == unique[..i];
      if counts[unique[i]] > 1 { duplicates := duplicates + [unique[i]]; }
    }
    assert unique[..|unique|] == unique;
  }

  method CollectEvidence(ids: seq<string>, documents: seq<string>, counts: map<string, nat>)
    returns (evidence: seq<Evidence>)
    requires |ids| == |documents| && Counts(counts, ids)
    ensures evidence == EvidenceOf(ids, documents, ids)
  {
    evidence := [];
    for i := 0 to |documents|
      invariant evidence == EvidenceOf(ids[..i], documents, ids)
    {
      assert ids[..i + 1][..i] == ids[..i];
      if counts[ids[i]] > 1 { evidence := evidence + [Evidence(ids[i], documents[i])]; }
    }
    assert ids[..|ids|] == ids;
  }

  // ---------- The two transactions ----------

  predicate Valid(r: Request) {
    r.runIsUuid && r.rawPage.Some? && r.groupCount >= 0 && (forall id <- r.ids :: IsDatabaseId(id)) &&
    |r.ids| == |r.rawPage.value.documents|
  }

  function SlotOf(s: State, ordinal: nat): Slot {
    Slot(s.start, s.end, ordinal)
  }

  /** The row with this key, which no two rows share. */
  function Find(rows: seq<Row>, slot: Slot): (r: Option<Row>)
    ensures r.Some? ==> r.value in rows && r.value.slot == slot
    ensures r.None? ==> forall row <- rows :: row.slot != slot
  {
    if rows == [] then None else if rows[0].slot == slot then Some(rows[0]) else Find(rows[1..], slot)
  }

  /** Every document of the page is staged, with its files, and every repetition is on record. */
  predicate FullyStaged(r: Request)
    requires Valid(r)
  {
    var page := r.rawPage.value;
    r.stage(Query(page.ordinal, Distinct(r.ids), EvidenceOf(r.ids, page.documents, r.ids))) ==
    Staged(|Distinct(r.ids)|, |page.documents|, 0, |Repeated(Distinct(r.ids), r.ids)|)
  }

  function RowOf(s: State, r: Request): Row
    requires Valid(r)
  {
    var page := r.rawPage.value;
    Row(SlotOf(s, page.ordinal), page.terminal, r.groupCount, |page.documents|, page.digest)
  }

  function Insert(s: State, row: Row): State {
    s.(pageCount := s.pageCount + 1,
       groupCount := s.groupCount + row.groupCount,
       documentCount := s.documentCount + row.documentCount,
       checkpointPage := if row.terminal then 1 else row.slot.ordinal + 1,
       rows := s.rows + [row])
  }

  function Answer(s: State, r: Request): Response {
    if !Valid(r) then Thrown(ARUBA_INVENTORY_INVALID)
    else if !s.running || !s.canonical then Thrown(ARUBA_READ_SESSION_INVALID)
    else
      var existing := Find(s.rows, SlotOf(s, r.rawPage.value.ordinal));
      if existing.Some? then
        if existing.value.digest != r.rawPage.value.digest then Thrown(ARUBA_INVENTORY_CONFLICT) else Done(true)
      else if !FullyStaged(r) then Thrown(ARUBA_INVENTORY_BLOCKED)
      else Done(false)
  }

  function Commit(s: State, r: Request): State {
    if Answer(s, r) == Done(false) then Insert(s, RowOf(s, r)) else s
  }

  predicate Moves(s: State) {
    s.running && s.end < s.windowEnd
  }

  function Advance(s: State): State {
    if Moves(s) then s.(start := s.end, end := Min(s.windowEnd, s.end + WINDOW_MS), checkpointPage := 1) else s
  }

  class Run {
    var running: bool
    var canonical: bool
    var start: int
    var end: int
    var windowEnd: int
    var checkpointPage: nat
    var pageCount: nat
    var groupCount: nat
    var documentCount: nat
    var rows: seq<Row>

    ghost function Current(): State
      reads this
    {
      State(running, canonical, start, end, windowEnd, checkpointPage, pageCount, groupCount, documentCount, rows)
    }

    constructor (canonical: bool, start: int, end: int, windowEnd: int)
      ensures Current() == State(true, canonical, start, end, windowEnd, 1, 0, 0, 0, [])
      ensures Invariant(Current())
    {
      this.running, this.canonical := true, canonical;
      this.start, this.end, this.windowEnd, this.checkpointPage := start, end, windowEnd, 1;
      pageCount, groupCount, documentCount, rows := 0, 0, 0, [];
    }

    method SelectPage(slot: Slot) returns (row: Option<Row>)
      ensures row == Find(rows, slot)
    {
      for i := 0 to |rows|
        invariant Find(rows, slot) == Find(rows[i..], slot)
      {
        if rows[i].slot == slot { return Some(rows[i]); }
      }
      return None;
    }

    method CommitArubaApiInventoryPage(r: Request) returns (response: Response)
      modifies this
      ensures response == Answer(old(Current()), r) && Current() == Commit(old(Current()), r)
    {
      hide Distinct, Repeated, EvidenceOf, Find, IsDatabaseId;
      if !Valid(r) { return Thrown(ARUBA_INVENTORY_INVALID); }
      var page := r.rawPage.value;
      var counts, unique := CountDocuments(r.ids);
      var duplicates := FindDuplicates(r.ids, counts, unique);
      var evidence := CollectEvidence(r.ids, page.documents, counts);
      if !running || !canonical { return Thrown(ARUBA_READ_SESSION_INVALID); }
      var existing := SelectPage(Slot(start, end, page.ordinal));
      if existing.Some? {
        if existing.value.digest != page.digest { return Thrown(ARUBA_INVENTORY_CONFLICT); }
        return Done(true);
      }
      var staged := r.stage(Query(page.ordinal, unique, evidence));
      if staged.uniqueCount != |unique| || staged.observationCount != |page.documents| ||
         staged.incompleteFiles != 0 || staged.conflictedDuplicates != |duplicates| {
        return Thrown(ARUBA_INVENTORY_BLOCKED);
      }
      rows := rows + [Row(Slot(start, end, page.ordinal), page.terminal, r.groupCount, |page.documents|, page.digest)];
      pageCount := pageCount + 1;
      groupCount := groupCount + r.groupCount;
      documentCount := documentCount + |page.documents|;
      checkpointPage := if page.terminal then 1 else page.ordinal + 1;
      return Done(false);
    }

    method AdvanceWindow() returns (response: Response)
      modifies this
      ensures Current() == Advance(old(Current()))
      ensures response == if old(running) then Advanced(old(Moves(Current()))) else Thrown(CONFLICT_REVISION)
    {
      if !running { return Thrown(CONFLICT_REVISION); }
      if end >= windowEnd { return Advanced(false); }
      start := end;
      end := Min(windowEnd, end + WINDOW_MS);
      checkpointPage := 1;
      return Advanced(true);
    }

    /** The end of the run, whatever its final status: no transaction touches it any more. */
    method Finish()
      modifies this
      ensures Current() == old(Current()).(running := false)
    {
      running := false;
    }
  }

  // ---------- Every run of transactions ----------

  datatype Event = PageCommit(request: Request) | WindowAdvance | RunEnds

  function Step(s: State, e: Event): State {
    match e
    case PageCommit(r) => Commit(s, r)
    case WindowAdvance => Advance(s)
    case RunEnds => s.(running := false)
  }

  function After(s: State, events: seq<Event>): State
    decreases |events|
  {
    if events == [] then s else After(Step(s, events[0]), events[1..])
  }

  function GroupTotal(rows: seq<Row>): nat {
    if rows == [] then 0 else GroupTotal(rows[..|rows| - 1]) + rows[|rows| - 1].groupCount
  }

  function DocumentTotal(rows: seq<Row>): nat {
    if rows == [] then 0 else DocumentTotal(rows[..|rows| - 1]) + rows[|rows| - 1].documentCount
  }

  /** The counters are those of the stored pages. */
  predicate Counted(s: State) {
    s.pageCount == |s.rows| && s.groupCount == GroupTotal(s.rows) && s.documentCount == DocumentTotal(s.rows)
  }

  /** The primary key of aruba_sync_run_pages. */
  predicate KeysDiffer(rows: seq<Row>) {
    forall i, j :: 0 <= i < j < |rows| ==> rows[i].slot != rows[j].slot
  }

  /** Where the read is resumed: after the last page stored in this window, and at the first
      page where there is none or it was terminal. */
  predicate Resumes(s: State) {
    var last := |s.rows| - 1;
    if last >= 0 && s.rows[last].slot.start == s.start && s.rows[last].slot.end == s.end && !s.rows[last].terminal
    then s.checkpointPage == s.rows[last].slot.ordinal + 1
    else s.checkpointPage == 1
  }

  /** No page lies ahead of the window. */
  predicate NoneAhead(s: State) {
    forall row <- s.rows :: row.slot.end <= s.end
  }

  predicate Invariant(s: State) {
    Counted(s) && KeysDiffer(s.rows) && NoneAhead(s) && Resumes(s)
  }

  lemma InsertCounts(s: State, row: Row)
    requires Counted(s)
    ensures Counted(Insert(s, row))
  {
    assert (s.rows + [row])[..|s.rows|] == s.rows;
  }

  lemma InsertKeeps(s: State, row: Row)
    requires Invariant(s) && Find(s.rows, row.slot) == None && row.slot.start == s.start && row.slot.end == s.end
    ensures Invariant(Insert(s, row))
  {
    hide Counted;
    InsertCounts(s, row);
  }

  lemma AdvanceKeeps(s: State)
    requires Invariant(s)
    ensures Invariant(Advance(s))
  {
    hide GroupTotal, DocumentTotal, KeysDiffer;
  }

  lemma StepKeeps(s: State, e: Event)
    requires Invariant(s)
    ensures Invariant(Step(s, e))
  {
    hide Invariant, FullyStaged, Insert, Advance, Valid;
    match e
    case PageCommit(r) =>
      if Answer(s, r) == Done(false) { InsertKeeps(s, RowOf(s, r)); }
    case WindowAdvance =>
      AdvanceKeeps(s);
    case RunEnds =>
      EndKeeps(s);
  }

  lemma EndKeeps(s: State)
    requires Invariant(s)
    ensures Invariant(s.(running := false))
  {
  }

  /** Over every run the counters are the count and sums of the stored pages, and no key is
      stored twice. */
  lemma {:induction false} PagesAreCountedOnce(s: State, events: seq<Event>)
    requires Invariant(s)
    ensures Invariant(After(s, events))
    decreases |events|
  {
    if events == [] {
    } else {
      StepKeeps(s, events[0]);
      PagesAreCountedOnce(Step(s, events[0]), events[1..]);
    }
  }

  // ---------- Which commit is answered how ----------

  /** A decimal number from 1 to 2^63 - 1, written without leading zeros. */
  ghost predicate IsId(id: string) {
    exists n :: 1 <= n <= 9_223_372_036_854_775_807 && id == Decimal(n)
  }

  lemma DatabaseIdIs(id: string)
    ensures IsDatabaseId(id) <==> IsId(id)
  {
    hide Value, Decimal;
    if IsDatabaseId(id) {
      CanonicalDecimal(id);
      CanonicalIsPositive(id);
    }
    if IsId(id) {
      var n :| 1 <= n <= 9_223_372_036_854_775_807 && id == Decimal(n);
      DecimalValue(n);
      NoughtIsZero(id);
    }
  }

  lemma NoughtIsZero(id: string)
    requires IsCanonical(id) && Value(id) > 0
    ensures id[0] != '0'
  {
    assert id[..0] == "";
    assert |id| == 1 ==> Value(id) == DigitValue(id[0]);
  }

  /** The arguments are of their types, and there is an id for each document. */
  ghost predicate IsRequest(r: Request) {
    r.rawPage.Some? && |r.rawPage.value.documents| == |r.ids| && r.groupCount > -1 && r.runIsUuid &&
    forall i :: 0 <= i < |r.ids| ==> IsId(r.ids[i])
  }

  lemma ValidIsRequest(r: Request)
    ensures Valid(r) <==> IsRequest(r)
  {
    hide IsDatabaseId, IsId;
    forall i | 0 <= i < |r.ids|
      ensures IsDatabaseId(r.ids[i]) <==> IsId(r.ids[i])
    {
      DatabaseIdIs(r.ids[i]);
    }
    assert forall i :: 0 <= i < |r.ids| ==> r.ids[i] in r.ids;
  }

  /** The page that is stored in the present window under this ordinal. */
  ghost predicate Holds(s: State, row: Row, ordinal: nat) {
    row in s.rows && row.slot.start == s.start && row.slot.end == s.end && row.slot.ordinal == ordinal
  }

  /** The observations staged for the page are all of its documents, each with its files, and each
      repeated id has evidence on record. */
  ghost predicate AllStaged(r: Request)
    requires IsRequest(r)
  {
    var page := r.rawPage.value;
    var staged := r.stage(Query(page.ordinal, Distinct(r.ids), EvidenceOf(r.ids, page.documents, r.ids)));
    staged.uniqueCount == |Distinct(r.ids)| && staged.observationCount == |r.ids| && staged.incompleteFiles == 0 &&
    staged.conflictedDuplicates == |Repeated(Distinct(r.ids), r.ids)|
  }

  /** A request is invalid, or the run takes none, or the page is there with the same digest or
      with another one, or it is not all staged, or it is new; in this order. */
  lemma AnswerIs(s: State, r: Request)
    requires KeysDiffer(s.rows)
    ensures Answer(s, r) == Thrown(ARUBA_INVENTORY_INVALID) <==> !IsRequest(r)
    ensures IsRequest(r) ==>
              (Answer(s, r) == Thrown(ARUBA_READ_SESSION_INVALID) <==> !(s.running && s.canonical)) &&
              (s.running && s.canonical ==>
                 (Answer(s, r) == Done(true) <==>
                  exists row :: Holds(s, row, r.rawPage.value.ordinal) && row.digest == r.rawPage.value.digest) &&
                 (Answer(s, r) == Thrown(ARUBA_INVENTORY_CONFLICT) <==>
                  exists row :: Holds(s, row, r.rawPage.value.ordinal) && row.digest != r.rawPage.value.digest) &&
                 ((forall row :: !Holds(s, row, r.rawPage.value.ordinal)) ==>
                    Answer(s, r) == if AllStaged(r) then Done(false) else Thrown(ARUBA_INVENTORY_BLOCKED)))
  {
    hide IsRequest, Distinct, Repeated, EvidenceOf;
    ValidIsRequest(r);
    if IsRequest(r) {
      FoundIffHeld(s, r.rawPage.value.ordinal);
      hide Valid, Find, KeysDiffer;
    }
  }

  lemma FoundIffHeld(s: State, ordinal: nat)
    requires KeysDiffer(s.rows)
    ensures forall row :: Holds(s, row, ordinal) <==> Find(s.rows, SlotOf(s, ordinal)) == Some(row)
  {
    forall row | Holds(s, row, ordinal)
      ensures Find(s.rows, SlotOf(s, ordinal)) == Some(row)
    {
      FindIsTheRow(s.rows, row);
    }
  }

  // ---------- Replays ----------

  lemma {:induction false} RowsStay(s: State, events: seq<Event>, row: Row)
    requires row in s.rows
    ensures row in After(s, events).rows
    decreases |events|
  {
    if events == [] {
    } else {
      RowsStay(Step(s, events[0]), events[1..], row);
    }
  }

  lemma FindIsTheRow(rows: seq<Row>, row: Row)
    requires KeysDiffer(rows) && row in rows
    ensures Find(rows, row.slot) == Some(row)
  {
    var found := Find(rows, row.slot);
    assert found.Some?;
    var i :| 0 <= i < |rows| && rows[i] == row;
    var j :| 0 <= j < |rows| && rows[j] == found.value;
  }

  lemma CommitStores(s: State, r: Request)
    requires Answer(s, r) == Done(false)
    ensures Valid(r) && RowOf(s, r) in Commit(s, r).rows && RowOf(s, r).digest == r.rawPage.value.digest
  {
    hide FullyStaged, Find;
  }

  lemma StoredPageIsFound(t: State, row: Row, later: Request)
    requires Invariant(t) && row in t.rows && t.running && t.canonical
    requires Valid(later) && SlotOf(t, later.rawPage.value.ordinal) == row.slot
    ensures Commit(t, later) == t
    ensures Answer(t, later) ==
            if later.rawPage.value.digest == row.digest then Done(true) else Thrown(ARUBA_INVENTORY_CONFLICT)
  {
    hide Find, Valid, KeysDiffer, Counted, NoneAhead, Resumes;
    FindIsTheRow(t.rows, row);
  }

  /** A page once stored settles every later commit to its key: the same digest is answered as
      repeated, another one is refused, and nothing changes either way. */
  lemma StoredPageSettles(s: State, stored: Request, between: seq<Event>, later: Request)
    requires Invariant(s) && Answer(s, stored) == Done(false) && Valid(later)
    requires var t := After(Commit(s, stored), between);
             t.running && t.canonical && SlotOf(t, later.rawPage.value.ordinal) == RowOf(s, stored).slot
    ensures var t := After(Commit(s, stored), between);
            Commit(t, later) == t &&
            Answer(t, later) == (if later.rawPage.value.digest == stored.rawPage.value.digest then Done(true)
                                 else Thrown(ARUBA_INVENTORY_CONFLICT))
  {
    hide *;
    CommitStores(s, stored);
    var row := RowOf(s, stored);
    RowsStay(Commit(s, stored), between, row);
    CommitKeeps(s, stored);
    PagesAreCountedOnce(Commit(s, stored), between);
    StoredPageIsFound(After(Commit(s, stored), between), row, later);
  }

  lemma CommitKeeps(s: State, r: Request)
    requires Invariant(s)
    ensures Invariant(Commit(s, r))
  {
    hide Invariant, Commit;
    StepKeeps(s, PageCommit(r));
  }

  /** The same request sent again counts twice exactly when the run goes on in a window that has
      no page of that ordinal yet; in the window of the first answer it never does. */
  lemma ReplayCountsTwiceIff(s: State, r: Request, between: seq<Event>)
    requires Invariant(s) && Answer(s, r) == Done(false)
    ensures var t := After(Commit(s, r), between);
            Commit(t, r) != t <==>
            t.running && t.canonical && forall row <- t.rows :: row.slot != SlotOf(t, r.rawPage.value.ordinal)
    ensures var t := After(Commit(s, r), between);
            t.start == s.start && t.end == s.end ==> Commit(t, r) == t
  {
    var t := After(Commit(s, r), between);
    if t.start == s.start && t.end == s.end && t.running && t.canonical {
      StoredPageSettles(s, r, between, r);
    }
    if Answer(t, r) == Done(false) {
      assert |Commit(t, r).rows| == |t.rows| + 1;
    }
  }

  /** And it can: a request repeated after the window has moved is stored again, since the
      staged observations are asked for the run and the ordinal, not for the window. */
  lemma ReplayAfterAdvance() returns (s: State, r: Request)
    ensures Invariant(s) && Answer(s, r) == Done(false)
    ensures Commit(Advance(Commit(s, r)), r).documentCount == 2 * Commit(s, r).documentCount == 2
  {
    s := State(true, true, 0, 1, 2, 1, 0, 0, 0, []);
    r := Request(true, Some(Page(1, true, ["d"], "p")), 1, ["7"], (q: Query) => Staged(1, 1, 0, 0));
    assert Distinct(["7"][..0]) == [];
    assert Distinct(["7"]) == ["7"];
    assert multiset(["7"])["7"] == 1;
    assert Repeated(["7"], ["7"]) == Repeated(["7"][..0], ["7"]) == [];
    assert Value("7"[..0]) == 0 && Value("7") == 7;
    assert FullyStaged(r);
    var first := Commit(s, r);
    assert first == Insert(s, RowOf(s, r));
    var moved := Advance(first);
    assert moved.rows == [RowOf(s, r)] && moved.start == 1 && moved.end == 2;
    assert Find(moved.rows, SlotOf(moved, 1)).None?;
  }

  // ---------- Only first accepted commits matter ----------

  /** The events that did something: accepted commits, window moves and the end of the run. */
  function Effective(s: State, events: seq<Event>): seq<Event>
    decreases |events|
  {
    if events == [] then []
    else
      var rest := Effective(Step(s, events[0]), events[1..]);
      if Step(s, events[0]) == s then rest else [events[0]] + rest
  }

  predicate Accepted(s: State, e: Event) {
    match e
    case PageCommit(r) => Answer(s, r) == Done(false)
    case WindowAdvance => Moves(s)
    case RunEnds => s.running
  }

  /** Each is accepted in its turn. */
  predicate AllAccepted(s: State, events: seq<Event>)
    decreases |events|
  {
    events == [] || (Accepted(s, events[0]) && AllAccepted(Step(s, events[0]), events[1..]))
  }

  /** The rows that a run of accepted events stores, one for each commit. */
  function Stored(s: State, events: seq<Event>): seq<Row>
    decreases |events|
  {
    if events == [] then []
    else
      (if events[0].PageCommit? && Valid(events[0].request) then [RowOf(s, events[0].request)] else []) +
      Stored(Step(s, events[0]), events[1..])
  }

  lemma StepEffect(s: State, e: Event)
    ensures Step(s, e) != s <==> Accepted(s, e)
    ensures Accepted(s, e) && e.PageCommit? ==> Valid(e.request) && Step(s, e).rows == s.rows + [RowOf(s, e.request)]
    ensures !(Accepted(s, e) && e.PageCommit?) ==> Step(s, e).rows == s.rows
  {
    if e.PageCommit? && Accepted(s, e) {
      assert |Step(s, e).rows| == |s.rows| + 1;
    }
  }

  /** The final state is that of the accepted events alone, and the stored pages are those of
      the accepted commits, in their order. */
  lemma {:induction false} OnlyAcceptedMatter(s: State, events: seq<Event>)
    ensures After(s, Effective(s, events)) == After(s, events)
    ensures AllAccepted(s, Effective(s, events))
    ensures After(s, events).rows == s.rows + Stored(s, Effective(s, events))
    decreases |events|
  {
    hide Step, Accepted, RowOf, Valid;
    if events == [] {
    } else {
      var next := Step(s, events[0]);
      OnlyAcceptedMatter(next, events[1..]);
      StepEffect(s, events[0]);
      var rest := Effective(next, events[1..]);
      if next != s {
        assert ([events[0]] + rest)[1..] == rest;
      }
    }
  }

  function DocumentsOf(events: seq<Event>): nat {
    if events == [] then 0
    else
      (if events[0].PageCommit? && events[0].request.rawPage.Some? then
         |events[0].request.rawPage.value.documents|
       else 0) +
      DocumentsOf(events[1..])
  }

  function GroupsOf(events: seq<Event>): int {
    if events == [] then 0
    else (if events[0].PageCommit? then events[0].request.groupCount else 0) + GroupsOf(events[1..])
  }

  function CommitsOf(events: seq<Event>): nat {
    if events == [] then 0 else (if events[0].PageCommit? then 1 else 0) + CommitsOf(events[1..])
  }

  lemma StepTotals(s: State, e: Event)
    ensures Step(s, e) != s ==>
              Step(s, e).pageCount == s.pageCount + CommitsOf([e]) &&
              Step(s, e).documentCount == s.documentCount + DocumentsOf([e]) &&
              Step(s, e).groupCount == s.groupCount + GroupsOf([e])
  {
    StepEffect(s, e);
    hide Answer, RowOf;
    assert [e][1..] == [];
    if e.PageCommit? && Accepted(s, e) { CommitTotals(s, e.request); }
  }

  lemma CommitTotals(s: State, r: Request)
    requires Answer(s, r) == Done(false)
    ensures Valid(r) && Commit(s, r).pageCount == s.pageCount + 1
    ensures Commit(s, r).documentCount == s.documentCount + |r.rawPage.value.documents|
    ensures Commit(s, r).groupCount == s.groupCount + r.groupCount
  {
  }

  /** What the counters gain over a run is what its accepted commits bring, each once. */
  lemma {:induction false} TotalsAreAccepted(s: State, events: seq<Event>)
    ensures After(s, events).pageCount == s.pageCount + CommitsOf(Effective(s, events))
    ensures After(s, events).documentCount == s.documentCount + DocumentsOf(Effective(s, events))
    ensures After(s, events).groupCount == s.groupCount + GroupsOf(Effective(s, events))
    decreases |events|
  {
    hide Step;
    if events == [] {
    } else {
      var next := Step(s, events[0]);
      TotalsAreAccepted(next, events[1..]);
      StepTotals(s, events[0]);
      var rest := Effective(next, events[1..]);
      if next != s {
        assert ([events[0]] + rest)[1..] == rest && [events[0]][1..] == [];
      }
    }
  }

  // ---------- The windows of a run ----------

  /** The windows the run has stood in. */
  function Windows(s: State, events: seq<Event>): seq<(int, int)>
    decreases |events|
  {
    if events == [] then [(s.start, s.end)]
    else
      var rest := Windows(Step(s, events[0]), events[1..]);
      if events[0].WindowAdvance? && Moves(s) then [(s.start, s.end)] + rest else rest
  }

  /** 48 hours on, or at the end of the range if that comes first. */
  ghost predicate Reaches(end: int, start: int, windowEnd: int) {
    end <= start + 172_800_000 && end <= windowEnd && (end == start + 172_800_000 || end == windowEnd)
  }

  /** They follow one another without a gap or an overlap, each 48 hours long unless the end of the
      run's range cuts it. */
  ghost predicate Tiled(w: seq<(int, int)>, windowEnd: int) {
    forall i :: 0 < i < |w| ==> w[i].0 == w[i - 1].1 < w[i].1 && Reaches(w[i].1, w[i].0, windowEnd)
  }

  lemma StepMoves(s: State, e: Event)
    ensures Step(s, e).windowEnd == s.windowEnd
    ensures if e.WindowAdvance? && Moves(s)
            then Step(s, e).start == s.end < Step(s, e).end && Reaches(Step(s, e).end, s.end, s.windowEnd)
            else Step(s, e).start == s.start && Step(s, e).end == s.end
  {
  }

  lemma TiledGrows(first: (int, int), rest: seq<(int, int)>, windowEnd: int)
    requires rest != [] && Tiled(rest, windowEnd)
    requires rest[0].0 == first.1 < rest[0].1 && Reaches(rest[0].1, rest[0].0, windowEnd)
    ensures Tiled([first] + rest, windowEnd)
  {
    var w := [first] + rest;
    forall i | 0 < i < |w|
      ensures w[i].0 == w[i - 1].1 < w[i].1 && Reaches(w[i].1, w[i].0, windowEnd)
    {
      if i > 1 { assert w[i] == rest[i - 1] && w[i - 1] == rest[i - 2]; }
    }
  }

  lemma {:induction false} WindowsTile(s: State, events: seq<Event>)
    ensures Windows(s, events) != [] && Windows(s, events)[0] == (s.start, s.end)
    ensures Windows(s, events)[|Windows(s, events)| - 1] == (After(s, events).start, After(s, events).end)
    ensures Tiled(Windows(s, events), s.windowEnd)
    decreases |events|
  {
    hide Step, Moves;
    if events == [] {
    } else {
      var next := Step(s, events[0]);
      StepMoves(s, events[0]);
      WindowsTile(next, events[1..]);
      if events[0].WindowAdvance? && Moves(s) {
        TiledGrows((s.start, s.end), Windows(next, events[1..]), s.windowEnd);
      }
    }
  }
}
