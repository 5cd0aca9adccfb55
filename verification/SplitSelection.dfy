/**
 selectSplitInvoiceMatches of src/aruba-inbound.ts: which orders are invoiced in two or three
 parts, when that can be told without doubt.
 */
module SplitSelection {
  import opened Sorting
  import opened NumericText
  import opened SplitInvoices

  const ARUBA_SPLIT_INVOICE_WINDOW_DAYS := 62
  const SPLIT_INVOICE_MAX_ELIGIBLE_PARTS := 12

  /** Dates are day numbers; `official` tells that an XML digest is stored. */
  datatype Part = Part(
    remoteDocumentId: string, isInvoice: bool, documentDate: int, totalAmount: nat,
    fiscalNumber: string, official: bool, splitMarker: bool)

  datatype Order = Order(id: string, orderCount: nat, refundTimingAmbiguous: bool, localOrderDate: int,
      billableAmount: int)

  /** The signals of evaluateOrderCandidate that the identity test reads; taken from outside. */
  datatype Signals = Signals(provider: bool, fiscalCode: bool, exactRecipient: bool, city: bool, country: bool)

  datatype Matcher = Matcher(evaluate: (Part, Order) -> Signals, collate: Collator)

  datatype Identity = Official | Inventory | Unknown

  datatype Proposal = Proposal(order: Order, subset: seq<Part>)

  datatype Selection = Selection(orderId: string, remoteDocumentIds: seq<string>, complete: bool)

  function SplitInvoicePartIdentity(m: Matcher, part: Part, order: Order): Identity {
    var signals := m.evaluate(part, order);
    if !signals.provider then Unknown
    else if part.official then
      if signals.fiscalCode || (signals.exactRecipient && signals.city && signals.country) then Official else Unknown
    else if signals.exactRecipient then Inventory else Unknown
  }

  predicate Eligible(m: Matcher, order: Order, part: Part) {
    var elapsedDays := part.documentDate - order.localOrderDate;
    part.isInvoice && 0 <= elapsedDays <= ARUBA_SPLIT_INVOICE_WINDOW_DAYS &&
    0 < part.totalAmount < order.billableAmount && SplitInvoicePartIdentity(m, part, order) != Unknown
  }

  function EligibleFor(m: Matcher, order: Order): Part -> bool {
    (part: Part) => Eligible(m, order, part)
  }

  function EligibleParts(m: Matcher, order: Order, parts: seq<Part>): (r: seq<Part>)
    ensures forall p :: p in r <==> p in parts && Eligible(m, order, p)
  {
    Filter(EligibleFor(m, order), parts)
  }

  function AmountOf(p: Part): nat {
    p.totalAmount
  }

  function DocumentId(p: Part): string {
    p.remoteDocumentId
  }

  function Choose(eligible: seq<Part>, chosen: seq<nat>): (r: seq<Part>)
    requires forall i :: 0 <= i < |chosen| ==> chosen[i] < |eligible|
    ensures |r| == |chosen| && forall i :: 0 <= i < |r| ==> r[i] == eligible[chosen[i]]
  {
    seq(|chosen|, i requires 0 <= i < |chosen| => eligible[chosen[i]])
  }

  /** Eligibility makes every amount positive, which is what the pruned search relies on. */
  lemma EligibleAmounts(m: Matcher, order: Order, parts: seq<Part>)
    ensures Positive(Map(AmountOf, EligibleParts(m, order, parts)))
  {
    var eligible := EligibleParts(m, order, parts);
    forall i | 0 <= i < |eligible|
      ensures Map(AmountOf, eligible)[i] > 0
    {
      assert eligible[i] in eligible;
    }
  }

  /** The proposals an order makes. */
  function ProposalsOf(m: Matcher, order: Order, parts: seq<Part>): seq<Proposal> {
    if order.orderCount != 1 || order.refundTimingAmbiguous then []
    else
      var eligible := EligibleParts(m, order, parts);
      if |eligible| > SPLIT_INVOICE_MAX_ELIGIBLE_PARTS then []
      else
        EligibleAmounts(m, order, parts);
        SearchIsInRange(Map(AmountOf, eligible), order.billableAmount);
        Propose(order, eligible, Search(Map(AmountOf, eligible), order.billableAmount, 0, [], 0))
  }

  function Propose(order: Order, eligible: seq<Part>, subsets: seq<seq<nat>>): (r: seq<Proposal>)
    requires InRange(subsets, |eligible|)
    ensures |r| == |subsets| && forall k :: 0 <= k < |r| ==> r[k] == Proposal(order, Choose(eligible, subsets[k]))
  {
    if subsets == [] then []
    else
      assert forall k :: 0 <= k < |subsets[1..]| ==> subsets[1..][k] == subsets[k + 1];
      [Proposal(order, Choose(eligible, subsets[0]))] + Propose(order, eligible, subsets[1..])
  }

  function AllProposals(m: Matcher, orders: seq<Order>, parts: seq<Part>): seq<Proposal> {
    if orders == [] then []
    else AllProposals(m, orders[..|orders| - 1], parts) + ProposalsOf(m, orders[|orders| - 1], parts)
  }

  // ---------- The uniqueness filter ----------

  function OrderIds(proposals: seq<Proposal>): (r: seq<string>)
    ensures |r| == |proposals| && forall i :: 0 <= i < |r| ==> r[i] == proposals[i].order.id
  {
    seq(|proposals|, i requires 0 <= i < |proposals| => proposals[i].order.id)
  }

  function DocumentIds(parts: seq<Part>): seq<string> {
    Map(DocumentId, parts)
  }

  /** The documents of all proposals, one after another. */
  function AllDocumentIds(proposals: seq<Proposal>): seq<string> {
    if proposals == [] then []
    else AllDocumentIds(proposals[..|proposals| - 1]) + DocumentIds(proposals[|proposals| - 1].subset)
  }

  /** The only proposal of its order, none of whose documents occurs twice among all proposals. */
  predicate Sole(proposals: seq<Proposal>, p: Proposal) {
    multiset(OrderIds(proposals))[p.order.id] == 1 &&
    forall part :: part in p.subset ==> multiset(AllDocumentIds(proposals))[part.remoteDocumentId] == 1
  }

  predicate AllOfficial(p: Proposal) {
    forall part :: part in p.subset ==> part.official
  }

  predicate Kept(m: Matcher, proposals: seq<Proposal>, p: Proposal) {
    Sole(proposals, p) &&
    (forall part :: part in p.subset && part.official ==> SplitInvoicePartIdentity(m, part, p.order) == Official) &&
    (AllOfficial(p) ==> exists part :: part in p.subset && part.splitMarker)
  }

  function ByDocument(m: Matcher): (Part, Part) -> bool {
    (a: Part, b: Part) =>
      if a.documentDate != b.documentDate then a.documentDate < b.documentDate
      else CompareNumericText(m.collate, a.fiscalNumber, b.fiscalNumber) <= 0
  }

  function SelectionOf(m: Matcher, p: Proposal): Selection {
    Selection(p.order.id, DocumentIds(ToSorted(p.subset, ByDocument(m))), AllOfficial(p))
  }

  /** The selections made of the first `n` proposals. */
  function SelectFirst(m: Matcher, proposals: seq<Proposal>, n: nat): seq<Selection>
    requires n <= |proposals|
  {
    if n == 0 then []
    else
      SelectFirst(m, proposals, n - 1) +
      if Kept(m, proposals, proposals[n - 1]) then [SelectionOf(m, proposals[n - 1])] else []
  }

  function Select(m: Matcher, orders: seq<Order>, parts: seq<Part>): seq<Selection> {
    var proposals := AllProposals(m, orders, parts);
    SelectFirst(m, proposals, |proposals|)
  }

  // ---------- The selection as written ----------

  function Count(counts: map<string, nat>, id: string): nat {
    if id in counts then counts[id] else 0
  }

  ghost predicate Tallies(counts: map<string, nat>, ids: seq<string>) {
    forall id :: Count(counts, id) == multiset(ids)[id]
  }

  method CollectProposals(m: Matcher, orders: seq<Order>, parts: seq<Part>) returns (proposals: seq<Proposal>)
    ensures proposals == AllProposals(m, orders, parts)
  {
    proposals := [];
    for k := 0 to |orders|
      invariant proposals == AllProposals(m, orders[..k], parts)
    {
      assert orders[..k + 1][..k] == orders[..k];
      proposals := proposals + ProposalsOf(m, orders[k], parts);
    }
    assert orders[..|orders|] == orders;
  }

  method Tally(counts: map<string, nat>, id: string, ghost ids: seq<string>) returns (r: map<string, nat>)
    requires Tallies(counts, ids)
    ensures Tallies(r, ids + [id])
  {
    r := counts[id := Count(counts, id) + 1];
    forall x
      ensures Count(r, x) == multiset(ids + [id])[x]
    {
      assert Count(counts, x) == multiset(ids)[x];
    }
  }

  lemma NothingTallied()
    ensures Tallies(map[], OrderIds([])) && Tallies(map[], AllDocumentIds([]))
  {
  }

  lemma NextIds(proposals: seq<Proposal>, k: nat)
    requires k < |proposals|
    ensures OrderIds(proposals[..k + 1]) == OrderIds(proposals[..k]) + [proposals[k].order.id]
    ensures AllDocumentIds(proposals[..k + 1]) == AllDocumentIds(proposals[..k]) + DocumentIds(proposals[k].subset)
  {
    hide DocumentIds;
    assert proposals[..k + 1][..k] == proposals[..k];
  }

  lemma NextDocument(before: seq<string>, subset: seq<Part>, i: nat)
    requires i < |subset| == |DocumentIds(subset)|
    ensures before + DocumentIds(subset)[..i + 1] == before + DocumentIds(subset)[..i] + [subset[i].remoteDocumentId]
  {
  }

  lemma AllOrNone(before: seq<string>, subset: seq<Part>)
    ensures |DocumentIds(subset)| == |subset|
    ensures before + DocumentIds(subset)[..0] == before && DocumentIds(subset)[..|subset|] == DocumentIds(subset)
  {
  }

  method CountProposals(proposals: seq<Proposal>) returns (orderCounts: map<string, nat>, partCounts: map<string, nat>)
    ensures Tallies(orderCounts, OrderIds(proposals)) && Tallies(partCounts, AllDocumentIds(proposals))
  {
    hide *;
    orderCounts, partCounts := map[], map[];
    NothingTallied();
    assert proposals[..0] == [];
    for k := 0 to |proposals|
      invariant Tallies(orderCounts, OrderIds(proposals[..k])) && Tallies(partCounts, AllDocumentIds(proposals[..k]))
    {
      var p := proposals[k];
      ghost var before := AllDocumentIds(proposals[..k]);
      NextIds(proposals, k);
      AllOrNone(before, p.subset);
      orderCounts := Tally(orderCounts, p.order.id, OrderIds(proposals[..k]));
      for i := 0 to |p.subset|
        invariant Tallies(partCounts, before + DocumentIds(p.subset)[..i])
      {
        NextDocument(before, p.subset, i);
        partCounts := Tally(partCounts, p.subset[i].remoteDocumentId, before + DocumentIds(p.subset)[..i]);
      }
    }
    assert proposals[..|proposals|] == proposals;
  }

  method SelectSplitInvoiceMatches(m: Matcher, orders: seq<Order>, parts: seq<Part>) returns (r: seq<Selection>)
    ensures r == Select(m, orders, parts)
  {
    hide Kept, SelectionOf, AllProposals, Tallies, OrderIds, AllDocumentIds;
    var proposals := CollectProposals(m, orders, parts);
    var orderCounts, partCounts := CountProposals(proposals);
    r := [];
    for k := 0 to |proposals|
      invariant r == SelectFirst(m, proposals, k)
    {
      var keep := IsKept(m, proposals, proposals[k], orderCounts, partCounts);
      if keep {
        r := r + [SelectionOf(m, proposals[k])];
      }
    }
  }

  method IsKept(m: Matcher, ghost proposals: seq<Proposal>, p: Proposal, orderCounts: map<string, nat>,
      partCounts: map<string, nat>)
    returns (keep: bool)
    requires Tallies(orderCounts, OrderIds(proposals)) && Tallies(partCounts, AllDocumentIds(proposals))
    ensures keep == Kept(m, proposals, p)
  {
    assert Count(orderCounts, p.order.id) == multiset(OrderIds(proposals))[p.order.id];
    assert forall part :: part in p.subset ==>
        Count(partCounts, part.remoteDocumentId) == multiset(AllDocumentIds(proposals))[part.remoteDocumentId];
    if Count(orderCounts, p.order.id) != 1 ||
       exists part :: part in p.subset && Count(partCounts, part.remoteDocumentId) != 1 {
      return false;
    }
    if exists part :: part in p.subset && part.official && SplitInvoicePartIdentity(m, part, p.order) != Official {
      return false;
    }
    return !(AllOfficial(p) && !exists part :: part in p.subset && part.splitMarker);
  }

  // ---------- Safety of what is selected ----------

  lemma {:induction false} SelectionHasProposal(m: Matcher, proposals: seq<Proposal>, n: nat, i: nat) returns (k: nat)
    requires n <= |proposals| && i < |SelectFirst(m, proposals, n)|
    ensures k < n && Kept(m, proposals, proposals[k]) && SelectFirst(m, proposals, n)[i] == SelectionOf(m, proposals[k])
    ensures |SelectFirst(m, proposals, k)| == i
  {
    hide Kept, SelectionOf;
    if i < |SelectFirst(m, proposals, n - 1)| {
      k := SelectionHasProposal(m, proposals, n - 1, i);
    } else {
      k := n - 1;
    }
  }

  lemma {:induction false} SelectFirstGrows(m: Matcher, proposals: seq<Proposal>, k: nat, n: nat)
    requires k <= n <= |proposals|
    ensures |SelectFirst(m, proposals, k)| <= |SelectFirst(m, proposals, n)|
    ensures k < n && Kept(m, proposals, proposals[k]) ==> SelectionOf(m, proposals[k]) in SelectFirst(m, proposals, n)
    decreases n - k
  {
    hide Kept, SelectionOf;
    if k == n {
    } else {
      SelectFirstGrows(m, proposals, k, n - 1);
    }
  }

  lemma LastDocuments(proposals: seq<Proposal>)
    requires proposals != []
    ensures multiset(AllDocumentIds(proposals)) ==
              multiset(AllDocumentIds(proposals[..|proposals| - 1])) +
                multiset(DocumentIds(proposals[|proposals| - 1].subset))
  {
  }

  lemma {:induction false} DocumentsAreCounted(proposals: seq<Proposal>, k: nat)
    requires k < |proposals|
    ensures multiset(DocumentIds(proposals[k].subset)) <= multiset(AllDocumentIds(proposals))
    decreases |proposals|
  {
    hide *;
    var n := |proposals| - 1;
    LastDocuments(proposals);
    if k == n {
    } else {
      DocumentsAreCounted(proposals[..n], k);
    }
  }

  lemma {:induction false} DocumentsAddUp(proposals: seq<Proposal>, j: nat, k: nat)
    requires j < k < |proposals|
    ensures multiset(DocumentIds(proposals[j].subset)) +
            multiset(DocumentIds(proposals[k].subset)) <= multiset(AllDocumentIds(proposals))
    decreases |proposals|
  {
    hide *;
    var n := |proposals| - 1;
    LastDocuments(proposals);
    if k < n {
      DocumentsAddUp(proposals[..n], j, k);
    } else {
      DocumentsAreCounted(proposals[..n], j);
    }
  }

  lemma SelectedIds(m: Matcher, p: Proposal)
    ensures multiset(SelectionOf(m, p).remoteDocumentIds) == multiset(DocumentIds(p.subset))
  {
    SortKeeps(p.subset, ByDocument(m));
    MapBag(DocumentId, ToSorted(p.subset, ByDocument(m)), p.subset);
  }

  /** The collation orders the fiscal numbers that occur, with or without ties. */
  ghost predicate NumbersAreOrdered(m: Matcher, parts: seq<Part>) {
    Consistent(NumericComparer(m.collate), set part | part in parts :: part.fiscalNumber)
  }

  lemma DocumentsAreOrdered(m: Matcher, parts: seq<Part>)
    requires NumbersAreOrdered(m, parts)
    ensures TotalPreorderOn(ByDocument(m), parts)
  {
    hide CompareNumericText;
    var numbers, compare := (set part | part in parts :: part.fiscalNumber), NumericComparer(m.collate);
    forall x, y | x in parts && y in parts
      ensures x.fiscalNumber in numbers && y.fiscalNumber in numbers
      ensures ByDocument(m)(x, y) <==>
              (x.documentDate < y.documentDate ||
               (x.documentDate == y.documentDate && compare(x.fiscalNumber, y.fiscalNumber) <= 0))
    {
    }
    forall x, y | x in parts && y in parts
      ensures ByDocument(m)(x, y) || ByDocument(m)(y, x)
    {
      assert compare(x.fiscalNumber, y.fiscalNumber) < 0 <==> compare(y.fiscalNumber, x.fiscalNumber) > 0;
    }
  }

  /** The documents of a selection are listed by date, and by number within a date. */
  lemma SelectionIsListedInOrder(m: Matcher, p: Proposal) returns (listed: seq<Part>)
    requires NumbersAreOrdered(m, p.subset)
    ensures SelectionOf(m, p).remoteDocumentIds == DocumentIds(listed) && multiset(listed) == multiset(p.subset)
    ensures forall i, j :: 0 <= i < j < |listed| ==>
              listed[i].documentDate < listed[j].documentDate ||
              (listed[i].documentDate == listed[j].documentDate &&
               Apart(m.collate, listed[i].fiscalNumber, listed[j].fiscalNumber) <= 0)
  {
    hide ToSorted, CompareNumericText, Apart, NumbersAreOrdered;
    DocumentsAreOrdered(m, p.subset);
    listed := ToSorted(p.subset, ByDocument(m));
    SortKeeps(p.subset, ByDocument(m));
    SortSorts(p.subset, ByDocument(m));
    forall i, j | 0 <= i < j < |listed|
      ensures listed[i].documentDate < listed[j].documentDate ||
              (listed[i].documentDate == listed[j].documentDate &&
               Apart(m.collate, listed[i].fiscalNumber, listed[j].fiscalNumber) <= 0)
    {
      ComparesAsApart(m.collate, listed[i].fiscalNumber, listed[j].fiscalNumber);
      assert ByDocument(m)(listed[i], listed[j]);
    }
  }

  lemma MemberId(p: Proposal, id: string) returns (part: Part)
    requires id in DocumentIds(p.subset)
    ensures part in p.subset && part.remoteDocumentId == id
  {
    var i :| 0 <= i < |p.subset| && DocumentIds(p.subset)[i] == id;
    part := p.subset[i];
  }

  /** No order and no document occurs in two selections. */
  lemma SelectionsAreDisjoint(m: Matcher, orders: seq<Order>, parts: seq<Part>, i: nat, j: nat)
    requires i < j < |Select(m, orders, parts)|
    ensures Select(m, orders, parts)[i].orderId != Select(m, orders, parts)[j].orderId
    ensures forall id :: id in Select(m, orders, parts)[i].remoteDocumentIds ==>
            id !in Select(m, orders, parts)[j].remoteDocumentIds
  {
    var proposals := AllProposals(m, orders, parts);
    var a := SelectionHasProposal(m, proposals, |proposals|, i);
    var b := SelectionHasProposal(m, proposals, |proposals|, j);
    if b <= a { SelectFirstGrows(m, proposals, b, a); }
    TwoPlaces(OrderIds(proposals), a, b);
    ProposalsAreApart(m, proposals, a, b);
  }

  lemma ProposalsAreApart(m: Matcher, proposals: seq<Proposal>, a: nat, b: nat)
    requires a < b < |proposals| && Kept(m, proposals, proposals[a])
    ensures forall id :: id in SelectionOf(m, proposals[a]).remoteDocumentIds ==>
            id !in SelectionOf(m, proposals[b]).remoteDocumentIds
  {
    DocumentsAddUp(proposals, a, b);
    SelectedIds(m, proposals[a]);
    SelectedIds(m, proposals[b]);
    var x, y := SelectionOf(m, proposals[a]).remoteDocumentIds, SelectionOf(m, proposals[b]).remoteDocumentIds;
    forall id | id in x
      ensures id !in y
    {
      assert id in multiset(x) && (id in y ==> id in multiset(y));
      assert id in multiset(DocumentIds(proposals[a].subset));
      var part := MemberId(proposals[a], id);
      assert multiset(AllDocumentIds(proposals))[id] == 1;
    }
  }

  lemma DocumentsAreDistinct(m: Matcher, orders: seq<Order>, parts: seq<Part>, i: nat)
    requires i < |Select(m, orders, parts)|
    ensures forall k, n :: 0 <= k < n < |Select(m, orders, parts)[i].remoteDocumentIds| ==>
              Select(m, orders, parts)[i].remoteDocumentIds[k] != Select(m, orders, parts)[i].remoteDocumentIds[n]
  {
    var proposals := AllProposals(m, orders, parts);
    var a := SelectionHasProposal(m, proposals, |proposals|, i);
    DocumentsAreCounted(proposals, a);
    SelectedIds(m, proposals[a]);
    var ids := SelectionOf(m, proposals[a]).remoteDocumentIds;
    forall k, n | 0 <= k < n < |ids|
      ensures ids[k] != ids[n]
    {
      TwoPlaces(ids, k, n);
      assert ids[k] in multiset(ids);
      assert ids[k] in multiset(DocumentIds(proposals[a].subset));
      var part := MemberId(proposals[a], ids[k]);
      assert multiset(AllDocumentIds(proposals))[ids[k]] == 1;
    }
  }

  // ---------- What is proposed ----------

  /** An official part needs the customer's fiscal code or the full address, another one the
      recipient; both need the provider. */
  predicate IsIdentified(signals: Signals, official: bool) {
    signals.provider &&
    if official then signals.fiscalCode || (signals.exactRecipient && signals.city && signals.country)
    else signals.exactRecipient
  }

  /** An invoice for some of the order's amount, from the order's day to 62 days after, that is
      identified as the customer's. */
  predicate Qualifies(m: Matcher, order: Order, part: Part) {
    part.isInvoice && order.localOrderDate <= part.documentDate <= order.localOrderDate + 62 &&
    0 < part.totalAmount && part.totalAmount < order.billableAmount &&
    IsIdentified(m.evaluate(part, order), part.official)
  }

  function QualifiesFor(m: Matcher, order: Order): Part -> bool {
    (part: Part) => Qualifies(m, order, part)
  }

  function Qualifying(m: Matcher, order: Order, parts: seq<Part>): seq<Part> {
    Filter(QualifiesFor(m, order), parts)
  }

  lemma IdentityIs(m: Matcher, part: Part, order: Order)
    ensures SplitInvoicePartIdentity(m, part, order) ==
            if !IsIdentified(m.evaluate(part, order), part.official) then Unknown
            else if part.official then Official else Inventory
  {
  }

  lemma EligibleIffQualifies(m: Matcher, order: Order, part: Part)
    ensures Eligible(m, order, part) <==> Qualifies(m, order, part)
  {
    hide SplitInvoicePartIdentity, IsIdentified;
    IdentityIs(m, part, order);
  }

  /** The parts looked at are those that qualify. */
  lemma EligibleAreQualifying(m: Matcher, order: Order, parts: seq<Part>)
    ensures EligibleParts(m, order, parts) == Qualifying(m, order, parts)
  {
    hide Eligible, Qualifies;
    forall part | part in parts
      ensures EligibleFor(m, order)(part) == QualifiesFor(m, order)(part)
    {
      EligibleIffQualifies(m, order, part);
    }
    FilterAgrees(EligibleFor(m, order), QualifiesFor(m, order), parts);
  }

  /** Two or three of at most twelve qualifying parts, in listing order, whose amounts make up
      the order's. */
  ghost predicate Invoices(m: Matcher, parts: seq<Part>, p: Proposal, chosen: seq<nat>) {
    var qualifying := Qualifying(m, p.order, parts);
    p.order.orderCount == 1 && !p.order.refundTimingAmbiguous && |qualifying| <= 12 &&
    Solution(Map(AmountOf, qualifying), p.order.billableAmount, chosen) && p.subset == Choose(qualifying, chosen)
  }

  lemma ProposalInvoices(m: Matcher, order: Order, parts: seq<Part>, k: nat) returns (chosen: seq<nat>)
    requires k < |ProposalsOf(m, order, parts)|
    ensures ProposalsOf(m, order, parts)[k].order == order &&
            Invoices(m, parts, ProposalsOf(m, order, parts)[k], chosen)
  {
    var eligible := EligibleParts(m, order, parts);
    EligibleAreQualifying(m, order, parts);
    EligibleAmounts(m, order, parts);
    SearchIsInRange(Map(AmountOf, eligible), order.billableAmount);
    chosen := Search(Map(AmountOf, eligible), order.billableAmount, 0, [], 0)[k];
  }

  lemma {:induction false} EveryProposalInvoices(m: Matcher, orders: seq<Order>, parts: seq<Part>, k: nat)
    returns (chosen: seq<nat>)
    requires k < |AllProposals(m, orders, parts)|
    ensures AllProposals(m, orders, parts)[k].order in orders &&
            Invoices(m, parts, AllProposals(m, orders, parts)[k], chosen)
    decreases |orders|
  {
    var n := |orders| - 1;
    if k < |AllProposals(m, orders[..n], parts)| {
      chosen := EveryProposalInvoices(m, orders[..n], parts, k);
    } else {
      chosen := ProposalInvoices(m, orders[n], parts, k - |AllProposals(m, orders[..n], parts)|);
    }
  }

  /** What two or three parts add up to. */
  function SumOf(subset: seq<Part>): nat {
    if subset == [] then 0 else SumOf(subset[..|subset| - 1]) + subset[|subset| - 1].totalAmount
  }

  lemma {:induction false} ChosenSum(eligible: seq<Part>, chosen: seq<nat>)
    requires forall i :: 0 <= i < |chosen| ==> chosen[i] < |eligible|
    ensures SumOf(Choose(eligible, chosen)) == Total(Map(AmountOf, eligible), chosen)
  {
    if chosen == [] {
    } else {
      var init := chosen[..|chosen| - 1];
      ChosenSum(eligible, init);
      assert Choose(eligible, chosen)[..|chosen| - 1] == Choose(eligible, init);
    }
  }

  /** No other exact set of qualifying parts is for an order of this id or takes a document of
      this proposal. */
  ghost predicate Unrivalled(m: Matcher, orders: seq<Order>, parts: seq<Part>, p: Proposal) {
    forall q: Proposal, chosen: seq<nat> ::
      q.order in orders && Invoices(m, parts, q, chosen) && Rivals(p, q) ==> q == p
  }

  predicate Rivals(p: Proposal, q: Proposal) {
    q.order.id == p.order.id || exists part <- q.subset :: part.remoteDocumentId in DocumentIds(p.subset)
  }

  /** A selection's parts qualify for its order and add up to the order's amount exactly; it has
      no rival; and it is complete when all its parts are official, one of which then declares
      itself an instalment. */
  lemma SelectionIsExact(m: Matcher, orders: seq<Order>, parts: seq<Part>, i: nat)
    returns (p: Proposal, chosen: seq<nat>)
    requires i < |Select(m, orders, parts)|
    ensures Select(m, orders, parts)[i].orderId == p.order.id
    ensures multiset(Select(m, orders, parts)[i].remoteDocumentIds) == multiset(DocumentIds(p.subset))
    ensures Select(m, orders, parts)[i] == SelectionOf(m, p) && Sole(AllProposals(m, orders, parts), p)
    ensures p.order in orders && Invoices(m, parts, p, chosen) && SumOf(p.subset) == p.order.billableAmount
    ensures forall part <- p.subset :: part in parts && Qualifies(m, p.order, part)
    ensures Unrivalled(m, orders, parts, p)
    ensures Select(m, orders, parts)[i].complete <==> forall part <- p.subset :: part.official
    ensures Select(m, orders, parts)[i].complete ==> exists part :: part in p.subset && part.splitMarker
  {
    var proposals := AllProposals(m, orders, parts);
    var k := SelectionHasProposal(m, proposals, |proposals|, i);
    p := proposals[k];
    chosen := EveryProposalInvoices(m, orders, parts, k);
    ChosenSum(Qualifying(m, p.order, parts), chosen);
    SelectedIds(m, p);
    ChosenQualify(m, parts, p, chosen);
    SoleIsUnrivalled(m, orders, parts, k);
  }

  lemma ChosenQualify(m: Matcher, parts: seq<Part>, p: Proposal, chosen: seq<nat>)
    requires Invoices(m, parts, p, chosen)
    ensures forall part <- p.subset :: part in parts && Qualifies(m, p.order, part)
  {
    hide Qualifies;
    forall part | part in p.subset
      ensures part in parts && Qualifies(m, p.order, part)
    {
      var i :| 0 <= i < |p.subset| && p.subset[i] == part;
      assert p.subset[i] in Qualifying(m, p.order, parts);
    }
  }

  lemma SoleIsUnrivalled(m: Matcher, orders: seq<Order>, parts: seq<Part>, k: nat)
    requires k < |AllProposals(m, orders, parts)|
    requires Sole(AllProposals(m, orders, parts), AllProposals(m, orders, parts)[k])
    ensures Unrivalled(m, orders, parts, AllProposals(m, orders, parts)[k])
  {
    hide AllProposals, Invoices, Rivals;
    var proposals := AllProposals(m, orders, parts);
    forall q: Proposal, chosen: seq<nat> | q.order in orders && Invoices(m, parts, q, chosen) && Rivals(proposals[k], q)
      ensures q == proposals[k]
    {
      var j := ProposalIsMade(m, orders, parts, q, chosen);
      if j != k { SoleHasNoRival(proposals, k, j); }
    }
  }

  lemma SoleHasNoRival(proposals: seq<Proposal>, k: nat, j: nat)
    requires k < |proposals| && j < |proposals| && j != k && Sole(proposals, proposals[k])
    ensures !Rivals(proposals[k], proposals[j])
  {
    var p, q := proposals[k], proposals[j];
    if j < k {
      TwoPlaces(OrderIds(proposals), j, k);
      DocumentsAddUp(proposals, j, k);
    } else {
      TwoPlaces(OrderIds(proposals), k, j);
      DocumentsAddUp(proposals, k, j);
    }
    TakenOnce(p, q, multiset(AllDocumentIds(proposals)));
  }

  lemma TakenOnce(p: Proposal, q: Proposal, all: multiset<string>)
    requires multiset(DocumentIds(p.subset)) + multiset(DocumentIds(q.subset)) <= all
    requires forall part <- p.subset :: all[part.remoteDocumentId] == 1
    ensures forall part <- q.subset :: part.remoteDocumentId !in DocumentIds(p.subset)
  {
    var own, other := DocumentIds(p.subset), DocumentIds(q.subset);
    forall id | id in own
      ensures id !in other
    {
      var part := MemberId(p, id);
      assert all[id] == 1 && id in multiset(own);
    }
    forall i | 0 <= i < |q.subset|
      ensures q.subset[i].remoteDocumentId in other
    {
      assert other[i] == q.subset[i].remoteDocumentId;
    }
  }

  lemma ProposalIsMade(m: Matcher, orders: seq<Order>, parts: seq<Part>, p: Proposal, chosen: seq<nat>) returns (k: nat)
    requires p.order in orders && Invoices(m, parts, p, chosen)
    ensures k < |AllProposals(m, orders, parts)| && AllProposals(m, orders, parts)[k] == p
    decreases |orders|
  {
    hide Invoices, ProposalsOf;
    var n := |orders| - 1;
    if p.order in orders[..n] {
      k := ProposalIsMade(m, orders[..n], parts, p, chosen);
    } else {
      assert orders == orders[..n] + [orders[n]];
      var j := ProposedOnce(m, parts, p, chosen);
      k := |AllProposals(m, orders[..n], parts)| + j;
    }
  }

  lemma ProposedOnce(m: Matcher, parts: seq<Part>, p: Proposal, chosen: seq<nat>) returns (j: nat)
    requires Invoices(m, parts, p, chosen)
    ensures j < |ProposalsOf(m, p.order, parts)| && ProposalsOf(m, p.order, parts)[j] == p
  {
    var eligible := EligibleParts(m, p.order, parts);
    EligibleAreQualifying(m, p.order, parts);
    var amounts, target := Map(AmountOf, eligible), p.order.billableAmount;
    EligibleAmounts(m, p.order, parts);
    SearchIsInRange(amounts, target);
    SearchIsExact(amounts, target, chosen);
    assert chosen in multiset(Search(amounts, target, 0, [], 0));
    j :| 0 <= j < |Search(amounts, target, 0, [], 0)| && Search(amounts, target, 0, [], 0)[j] == chosen;
  }

  /** Conversely, every exact set of qualifying parts that is beyond doubt is selected: the sole
      proposal of its order and its parts, which declares itself once all its XML is there. */
  lemma CertainProposalIsSelected(m: Matcher, orders: seq<Order>, parts: seq<Part>, p: Proposal, chosen: seq<nat>)
    requires p.order in orders && Invoices(m, parts, p, chosen) && Sole(AllProposals(m, orders, parts), p)
    requires AllOfficial(p) ==> exists part :: part in p.subset && part.splitMarker
    ensures SelectionOf(m, p) in Select(m, orders, parts)
  {
    hide Invoices, AllProposals, SelectionOf, SelectFirst, Sole;
    var proposals := AllProposals(m, orders, parts);
    var k := ProposalIsMade(m, orders, parts, p, chosen);
    forall part | part in p.subset && part.official
      ensures SplitInvoicePartIdentity(m, part, p.order) == Official
    {
      ChosenQualify(m, parts, p, chosen);
      IdentityIs(m, part, p.order);
    }
    SelectFirstGrows(m, proposals, k, |proposals|);
  }
}
