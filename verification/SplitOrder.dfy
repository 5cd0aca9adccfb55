/** The split selection does not depend on the order in which orders and parts are listed. */
module SplitOrder {
  import opened NumericText
  import opened Sorting
  import opened SplitInvoices
  import opened SplitSelection

  // ---------- Some parts, whatever their order ----------

  datatype Pick = Pick(parts: multiset<Part>, documents: multiset<string>, total: nat, size: nat)

  const NONE := Pick(multiset{}, multiset{}, 0, 0)

  function Add(pick: Pick, p: Part): Pick {
    Pick(pick.parts + multiset{p}, pick.documents + multiset{p.remoteDocumentId}, pick.total + p.totalAmount,
      pick.size + 1)
  }

  function PickOf(parts: seq<Part>): Pick {
    if parts == [] then NONE else Add(PickOf(parts[..|parts| - 1]), parts[|parts| - 1])
  }

  lemma LastPicked(parts: seq<Part>)
    requires parts != []
    ensures multiset(parts) == multiset(parts[..|parts| - 1]) + multiset{parts[|parts| - 1]}
    ensures DocumentIds(parts) == DocumentIds(parts[..|parts| - 1]) + [parts[|parts| - 1].remoteDocumentId]
  {
    hide Map;
    var init, last := parts[..|parts| - 1], parts[|parts| - 1];
    assert parts == init + [last];
    MapJoins(DocumentId, init, [last]);
    assert Map(DocumentId, [last]) == [last.remoteDocumentId];
  }

  lemma {:induction false} PickIsBag(parts: seq<Part>)
    ensures PickOf(parts).parts == multiset(parts) && PickOf(parts).documents == multiset(DocumentIds(parts))
    ensures PickOf(parts).size == |parts|
  {
    if parts == [] {
    } else {
      hide DocumentIds;
      PickIsBag(parts[..|parts| - 1]);
      LastPicked(parts);
    }
  }

  // ---------- Every way to add up to three parts ----------

  /** All picks that add at least one and at most `room` of the parts. */
  function Grow(rest: seq<Part>, pick: Pick, room: nat): seq<Pick>
    decreases |rest|
  {
    if rest == [] || room == 0 then []
    else
      var taken := Add(pick, rest[0]);
      [taken] + Grow(rest[1..], taken, room - 1) + Grow(rest[1..], pick, room)
  }

  ghost function Grown(rest: seq<Part>, pick: Pick, room: nat): multiset<Pick> {
    multiset(Grow(rest, pick, room))
  }

  lemma GrowFirst(p: Part, rest: seq<Part>, pick: Pick, room: nat)
    requires room > 0
    ensures Grown([p] + rest, pick, room) ==
            multiset{Add(pick, p)} + Grown(rest, Add(pick, p), room - 1) + Grown(rest, pick, room)
  {
    assert ([p] + rest)[1..] == rest;
  }

  lemma GrowNothing(rest: seq<Part>, pick: Pick)
    ensures Grown(rest, pick, 0) == multiset{}
  {
  }

  lemma AddCommutes(pick: Pick, p: Part, q: Part)
    ensures Add(Add(pick, p), q) == Add(Add(pick, q), p)
  {
  }

  lemma GrowSwaps(p: Part, q: Part, rest: seq<Part>, pick: Pick, room: nat)
    ensures Grown([p] + ([q] + rest), pick, room) == Grown([q] + ([p] + rest), pick, room)
  {
    hide *;
    if room == 0 {
      GrowNothing([p] + ([q] + rest), pick);
      GrowNothing([q] + ([p] + rest), pick);
    } else {
      GrowFirst(p, [q] + rest, pick, room);
      GrowFirst(q, [p] + rest, pick, room);
      GrowFirst(q, rest, pick, room);
      GrowFirst(p, rest, pick, room);
      if room == 1 {
        GrowNothing([q] + rest, Add(pick, p));
        GrowNothing([p] + rest, Add(pick, q));
        GrowNothing(rest, Add(pick, p));
        GrowNothing(rest, Add(pick, q));
      } else {
        GrowFirst(q, rest, Add(pick, p), room - 1);
        GrowFirst(p, rest, Add(pick, q), room - 1);
        AddCommutes(pick, p, q);
      }
    }
  }

  lemma {:induction false} GrowMoves(left: seq<Part>, x: Part, right: seq<Part>, pick: Pick, room: nat)
    ensures Grown(left + [x] + right, pick, room) == Grown([x] + (left + right), pick, room)
    decreases |left|
  {
    hide *;
    if left == [] {
      assert left + [x] + right == [x] + (left + right);
    } else if room == 0 {
      GrowNothing(left + [x] + right, pick);
      GrowNothing([x] + (left + right), pick);
    } else {
      var p, init := left[0], left[1..];
      assert left + [x] + right == [p] + (init + [x] + right);
      GrowFirst(p, init + [x] + right, pick, room);
      GrowMoves(init, x, right, Add(pick, p), room - 1);
      GrowMoves(init, x, right, pick, room);
      GrowFirst(p, [x] + (init + right), pick, room);
      GrowSwaps(p, x, init + right, pick, room);
      assert [x] + ([p] + (init + right)) == [x] + (left + right);
    }
  }

  /** Listing the parts in another order grows the same picks. */
  lemma {:induction false} GrowBag(a: seq<Part>, b: seq<Part>, pick: Pick, room: nat)
    requires multiset(a) == multiset(b)
    ensures Grown(a, pick, room) == Grown(b, pick, room)
    decreases |a|
  {
    hide *;
    if a == [] {
      SameMembers(a, b);
      assert b == [];
    } else if room == 0 {
      GrowNothing(a, pick);
      GrowNothing(b, pick);
    } else {
      var left, right := ExtractFirst(a, b);
      GrowBag(a[1..], left + right, Add(pick, a[0]), room - 1);
      GrowBag(a[1..], left + right, pick, room);
      GrowMoves(left, a[0], right, pick, room);
      GrowFirst(a[0], left + right, pick, room);
      GrowFirst(a[0], a[1..], pick, room);
      assert a == [a[0]] + a[1..];
    }
  }

  // ---------- The pruned search finds the picks that hit the target ----------

  function Hits(target: int): Pick -> bool {
    (pick: Pick) => pick.size >= 2 && pick.total == target
  }

  predicate AllPositive(parts: seq<Part>) {
    forall p <- parts :: p.totalAmount > 0
  }

  /** Past the target nothing hits it, which is why the search may be cut there. */
  lemma {:induction false} GrowAddsUp(rest: seq<Part>, pick: Pick, room: nat)
    requires AllPositive(rest)
    ensures forall x <- Grow(rest, pick, room) :: x.total > pick.total && x.size > pick.size
    decreases |rest|
  {
    if rest == [] || room == 0 {
    } else {
      GrowAddsUp(rest[1..], Add(pick, rest[0]), room - 1);
      GrowAddsUp(rest[1..], pick, room);
    }
  }

  lemma NoneBeyond(rest: seq<Part>, pick: Pick, room: nat, target: int)
    requires AllPositive(rest) && pick.total >= target
    ensures HitsOf(target, Grow(rest, pick, room)) == multiset{}
  {
    GrowAddsUp(rest, pick, room);
    NoneIn(Hits(target), Grow(rest, pick, room));
  }

  lemma {:induction false} NoneIn(f: Pick -> bool, s: seq<Pick>)
    requires forall x <- s :: !f(x)
    ensures Filter(f, s) == []
  {
    if s == [] {
    } else {
      NoneIn(f, s[1..]);
    }
  }

  /** The pick of chosen positions. */
  function PickAt(eligible: seq<Part>): seq<nat> -> Pick {
    (chosen: seq<nat>) => PickChosen(eligible, chosen)
  }

  function PickChosen(eligible: seq<Part>, chosen: seq<nat>): Pick {
    if chosen == [] then NONE
    else
      var before := PickChosen(eligible, chosen[..|chosen| - 1]);
      if chosen[|chosen| - 1] < |eligible| then Add(before, eligible[chosen[|chosen| - 1]]) else before
  }

  lemma LastChosen(eligible: seq<Part>, chosen: seq<nat>)
    requires chosen != [] && forall i :: 0 <= i < |chosen| ==> chosen[i] < |eligible|
    ensures var last := |chosen| - 1;
            PickOf(Choose(eligible, chosen)) == Add(PickOf(Choose(eligible, chosen[..last])), eligible[chosen[last]])
  {
    hide Add;
    assert Choose(eligible, chosen)[..|chosen| - 1] == Choose(eligible, chosen[..|chosen| - 1]);
  }

  lemma {:induction false} ChosenIsPicked(eligible: seq<Part>, chosen: seq<nat>)
    requires forall i :: 0 <= i < |chosen| ==> chosen[i] < |eligible|
    ensures PickChosen(eligible, chosen) == PickOf(Choose(eligible, chosen))
  {
    if chosen == [] {
    } else {
      hide PickOf, Add, Choose;
      ChosenIsPicked(eligible, chosen[..|chosen| - 1]);
      LastChosen(eligible, chosen);
    }
  }

  lemma PickGrows(eligible: seq<Part>, selected: seq<nat>, index: nat)
    requires index < |eligible|
    ensures PickChosen(eligible, selected + [index]) == Add(PickChosen(eligible, selected), eligible[index])
  {
    assert (selected + [index])[..|selected|] == selected;
  }

  /** The picks of the subsets found after the current selection. */
  ghost function Found(eligible: seq<Part>, subsets: seq<seq<nat>>): multiset<Pick> {
    multiset(Map(PickAt(eligible), subsets))
  }

  lemma FoundJoins(eligible: seq<Part>, a: seq<seq<nat>>, b: seq<seq<nat>>)
    ensures Found(eligible, a + b) == Found(eligible, a) + Found(eligible, b)
    ensures Found(eligible, []) == multiset{}
  {
    MapJoins(PickAt(eligible), a, b);
  }

  lemma FoundOne(eligible: seq<Part>, chosen: seq<nat>)
    ensures Found(eligible, [chosen]) == multiset{PickChosen(eligible, chosen)}
  {
    assert Map(PickAt(eligible), [chosen]) == [PickChosen(eligible, chosen)];
  }

  ghost function HitsOf(target: int, picks: seq<Pick>): multiset<Pick> {
    multiset(Filter(Hits(target), picks))
  }

  lemma HitsJoin(target: int, taken: Pick, a: seq<Pick>, b: seq<Pick>)
    ensures HitsOf(target, [taken] + a + b) ==
            (if Hits(target)(taken) then multiset{taken} else multiset{}) + HitsOf(target, a) + HitsOf(target, b)
  {
    FilterJoins(Hits(target), [taken] + a, b);
    FilterJoins(Hits(target), [taken], a);
    assert [taken][1..] == [];
  }

  /** Where the search stands: the amounts of the eligible parts, and the pick selected so far. */
  ghost predicate Stands(eligible: seq<Part>, amounts: seq<nat>, selected: seq<nat>, sum: nat, index: nat) {
    amounts == Map(AmountOf, eligible) && AllPositive(eligible) && index <= |eligible| &&
    |selected| <= SPLIT_INVOICE_MAX_PARTS &&
    PickChosen(eligible, selected).total == sum && PickChosen(eligible, selected).size == |selected|
  }

  lemma StandsNext(eligible: seq<Part>, amounts: seq<nat>, selected: seq<nat>, sum: nat, index: nat)
    requires Stands(eligible, amounts, selected, sum, index) && index < |eligible| &&
             |selected| < SPLIT_INVOICE_MAX_PARTS
    ensures |amounts| == |eligible| && amounts[index] == eligible[index].totalAmount
    ensures Stands(eligible, amounts, selected + [index], sum + amounts[index], index + 1)
    ensures Stands(eligible, amounts, selected, sum, index + 1)
  {
    PickGrows(eligible, selected, index);
  }

  /** One call of the visitor finds its own selection, if it hits the target, and what grows
      from it. */
  lemma {:induction false} SearchFindsHits(eligible: seq<Part>, amounts: seq<nat>, target: int, start: nat,
      selected: seq<nat>, sum: nat)
    requires Stands(eligible, amounts, selected, sum, start) && |amounts| == |eligible|
    ensures var pick := PickChosen(eligible, selected);
            Found(eligible, Search(amounts, target, start, selected, sum)) ==
            (if Hits(target)(pick) then multiset{pick} else multiset{}) +
            HitsOf(target, Grow(eligible[start..], pick, SPLIT_INVOICE_MAX_PARTS - |selected|))
    decreases SPLIT_INVOICE_MAX_PARTS - |selected|, 1, 0
  {
    hide PickChosen, Grow, HitsOf, PickAt, Found;
    var pick := PickChosen(eligible, selected);
    var own := if |selected| >= 2 && sum == target then [selected] else [];
    FoundOne(eligible, selected);
    FoundJoins(eligible, own, []);
    if |selected| == SPLIT_INVOICE_MAX_PARTS {
      GrowNothing(eligible[start..], pick);
      assert own + [] == own;
      NothingHits(target);
    } else if sum >= target {
      assert own + [] == own;
      NoneBeyond(eligible[start..], pick, SPLIT_INVOICE_MAX_PARTS - |selected|, target);
    } else {
      SearchFromFindsHits(eligible, amounts, target, start, selected, sum);
      assert own + SearchFrom(amounts, target, start, selected, sum) ==
             SearchFrom(amounts, target, start, selected, sum);
    }
  }

  lemma NothingHits(target: int)
    ensures HitsOf(target, []) == multiset{}
  {
  }

  lemma SearchNext(eligible: seq<Part>, amounts: seq<nat>, target: int, index: nat, selected: seq<nat>, sum: nat)
    requires index < |amounts| && |selected| < SPLIT_INVOICE_MAX_PARTS
    ensures Found(eligible, SearchFrom(amounts, target, index, selected, sum)) ==
            Found(eligible, Search(amounts, target, index + 1, selected + [index], sum + amounts[index])) +
            Found(eligible, SearchFrom(amounts, target, index + 1, selected, sum))
  {
    hide Found, Search;
    FoundJoins(eligible, Search(amounts, target, index + 1, selected + [index], sum + amounts[index]),
               SearchFrom(amounts, target, index + 1, selected, sum));
  }

  lemma GrowNext(eligible: seq<Part>, index: nat, pick: Pick, room: nat, target: int)
    requires index < |eligible| && room > 0
    ensures var taken := Add(pick, eligible[index]);
            HitsOf(target, Grow(eligible[index..], pick, room)) ==
            (if Hits(target)(taken) then multiset{taken} else multiset{}) +
            HitsOf(target, Grow(eligible[index + 1..], taken, room - 1)) +
            HitsOf(target, Grow(eligible[index + 1..], pick, room))
  {
    hide HitsOf, Hits, Add;
    var taken := Add(pick, eligible[index]);
    assert eligible[index..][1..] == eligible[index + 1..];
    HitsJoin(target, taken, Grow(eligible[index + 1..], taken, room - 1), Grow(eligible[index + 1..], pick, room));
  }

  lemma NothingLeft(eligible: seq<Part>, amounts: seq<nat>, target: int, selected: seq<nat>, sum: nat, pick: Pick,
      room: nat)
    requires |amounts| == |eligible| && |selected| < SPLIT_INVOICE_MAX_PARTS
    ensures Found(eligible, SearchFrom(amounts, target, |amounts|, selected, sum)) == multiset{}
    ensures HitsOf(target, Grow(eligible[|amounts|..], pick, room)) == multiset{}
  {
  }

  lemma {:induction false} SearchFromFindsHits(eligible: seq<Part>, amounts: seq<nat>, target: int, index: nat,
      selected: seq<nat>, sum: nat)
    requires Stands(eligible, amounts, selected, sum, index) && |amounts| == |eligible| &&
             |selected| < SPLIT_INVOICE_MAX_PARTS
    ensures Found(eligible, SearchFrom(amounts, target, index, selected, sum)) ==
            HitsOf(target, Grow(eligible[index..], PickChosen(eligible, selected),
              SPLIT_INVOICE_MAX_PARTS - |selected|))
    decreases SPLIT_INVOICE_MAX_PARTS - |selected|, 0, |amounts| - index
  {
    hide PickChosen, Grow, Found, Hits, HitsOf, Search, SearchFrom, Add, AllPositive, Map;
    var pick, room := PickChosen(eligible, selected), SPLIT_INVOICE_MAX_PARTS - |selected|;
    if index == |amounts| {
      NothingLeft(eligible, amounts, target, selected, sum, pick, room);
    } else {
      StandsNext(eligible, amounts, selected, sum, index);
      PickGrows(eligible, selected, index);
      SearchNext(eligible, amounts, target, index, selected, sum);
      GrowNext(eligible, index, pick, room, target);
      SearchFindsHits(eligible, amounts, target, index + 1, selected + [index], sum + amounts[index]);
      SearchFromFindsHits(eligible, amounts, target, index + 1, selected, sum);
    }
  }

  // ---------- The proposals of one order ----------

  datatype Shape = Shape(order: Order, pick: Pick)

  function ShapeOf(p: Proposal): Shape {
    Shape(p.order, PickOf(p.subset))
  }

  function Shaped(order: Order): Pick -> Shape {
    (pick: Pick) => Shape(order, pick)
  }

  lemma EligibleBag(m: Matcher, order: Order, a: seq<Part>, b: seq<Part>)
    requires multiset(a) == multiset(b)
    ensures multiset(EligibleParts(m, order, a)) == multiset(EligibleParts(m, order, b))
    ensures |EligibleParts(m, order, a)| == |EligibleParts(m, order, b)|
  {
    FilterBag(EligibleFor(m, order), a, b);
    SameMembers(EligibleParts(m, order, a), EligibleParts(m, order, b));
  }

  lemma {:induction false} ProposedShapes(order: Order, eligible: seq<Part>, subsets: seq<seq<nat>>)
    requires InRange(subsets, |eligible|)
    ensures Map(ShapeOf, Propose(order, eligible, subsets)) == Map(Shaped(order), Map(PickAt(eligible), subsets))
  {
    if subsets == [] {
    } else {
      assert forall k :: 0 <= k < |subsets[1..]| ==> subsets[1..][k] == subsets[k + 1];
      ChosenIsPicked(eligible, subsets[0]);
      ProposedShapes(order, eligible, subsets[1..]);
    }
  }

  /** What an order proposes is what grows from nothing to hit its amount. */
  lemma ShapesAreHits(order: Order, eligible: seq<Part>) returns (hits: seq<Pick>)
    requires Positive(Map(AmountOf, eligible)) && AllPositive(eligible)
    requires InRange(Search(Map(AmountOf, eligible), order.billableAmount, 0, [], 0), |eligible|)
    ensures multiset(hits) == HitsOf(order.billableAmount, Grow(eligible, NONE, SPLIT_INVOICE_MAX_PARTS))
    ensures Map(ShapeOf, Propose(order, eligible, Search(Map(AmountOf, eligible), order.billableAmount, 0, [], 0)))
         == Map(Shaped(order), hits)
  {
    hide Search, Grow, Propose, Choose, Filter, Hits, PickChosen, Found, HitsOf, PickAt, Map, AllPositive, InRange,
        Stands;
    var amounts, target := Map(AmountOf, eligible), order.billableAmount;
    var subsets := Search(amounts, target, 0, [], 0);
    hits := Map(PickAt(eligible), subsets);
    ProposedShapes(order, eligible, subsets);
    StandsAtStart(eligible, target);
    SearchFindsHits(eligible, amounts, target, 0, [], 0);
    FoundIs(eligible, subsets);
  }

  lemma StandsAtStart(eligible: seq<Part>, target: int)
    requires AllPositive(eligible)
    ensures Stands(eligible, Map(AmountOf, eligible), [], 0, 0) && |Map(AmountOf, eligible)| == |eligible|
    ensures PickChosen(eligible, []) == NONE && !Hits(target)(NONE) && eligible[0..] == eligible
  {
  }

  lemma FoundIs(eligible: seq<Part>, subsets: seq<seq<nat>>)
    ensures Found(eligible, subsets) == multiset(Map(PickAt(eligible), subsets))
  {
  }

  lemma ProposalShapesAgree(m: Matcher, order: Order, a: seq<Part>, b: seq<Part>)
    requires multiset(a) == multiset(b)
    ensures multiset(Map(ShapeOf, ProposalsOf(m, order, a))) == multiset(Map(ShapeOf, ProposalsOf(m, order, b)))
  {
    hide Search, Grow, Filter, EligibleParts, Propose, Hits;
    var x, y := EligibleParts(m, order, a), EligibleParts(m, order, b);
    EligibleBag(m, order, a, b);
    if order.orderCount == 1 && !order.refundTimingAmbiguous && |x| <= SPLIT_INVOICE_MAX_ELIGIBLE_PARTS {
      EligibleAmounts(m, order, a);
      EligibleAmounts(m, order, b);
      SearchIsInRange(Map(AmountOf, x), order.billableAmount);
      SearchIsInRange(Map(AmountOf, y), order.billableAmount);
      var hits := ShapesAreHits(order, x);
      var hits' := ShapesAreHits(order, y);
      GrowBag(x, y, NONE, SPLIT_INVOICE_MAX_PARTS);
      FilterBag(Hits(order.billableAmount), Grow(x, NONE, SPLIT_INVOICE_MAX_PARTS),
          Grow(y, NONE, SPLIT_INVOICE_MAX_PARTS));
      MapBag(Shaped(order), hits, hits');
    }
  }

  // ---------- All proposals ----------

  ghost function ShapesOfOrder(m: Matcher, order: Order, parts: seq<Part>): multiset<Shape> {
    multiset(Map(ShapeOf, ProposalsOf(m, order, parts)))
  }

  ghost function AllShapes(m: Matcher, orders: seq<Order>, parts: seq<Part>): multiset<Shape> {
    multiset(Map(ShapeOf, AllProposals(m, orders, parts)))
  }

  lemma ShapesAppend(m: Matcher, orders: seq<Order>, order: Order, parts: seq<Part>)
    ensures AllShapes(m, orders + [order], parts) == AllShapes(m, orders, parts) + ShapesOfOrder(m, order, parts)
    ensures AllShapes(m, [], parts) == multiset{}
  {
    assert (orders + [order])[..|orders|] == orders;
    MapJoins(ShapeOf, AllProposals(m, orders, parts), ProposalsOf(m, order, parts));
  }

  lemma {:induction false} ShapesMove(m: Matcher, left: seq<Order>, x: Order, right: seq<Order>, parts: seq<Part>)
    ensures AllShapes(m, left + [x] + right, parts) == AllShapes(m, left + right, parts) + ShapesOfOrder(m, x, parts)
    decreases |right|
  {
    hide *;
    if right == [] {
      assert left + [x] + right == left + [x] && left + right == left;
      ShapesAppend(m, left, x, parts);
    } else {
      var init, last := right[..|right| - 1], right[|right| - 1];
      assert left + [x] + right == (left + [x] + init) + [last] && left + right == (left + init) + [last];
      ShapesAppend(m, left + [x] + init, last, parts);
      ShapesAppend(m, left + init, last, parts);
      ShapesMove(m, left, x, init, parts);
    }
  }

  lemma {:induction false} ShapesAgree(m: Matcher, orders: seq<Order>, orders': seq<Order>, parts: seq<Part>,
      parts': seq<Part>)
    requires multiset(orders) == multiset(orders') && multiset(parts) == multiset(parts')
    ensures AllShapes(m, orders, parts) == AllShapes(m, orders', parts')
    decreases |orders|
  {
    hide *;
    SameMembers(orders, orders');
    if orders == [] {
      assert orders' == [];
      ShapesAppendNothing(m, parts);
      ShapesAppendNothing(m, parts');
    } else {
      var init, last := orders[..|orders| - 1], orders[|orders| - 1];
      assert orders == init + [last];
      var left, right := Extract(last, orders');
      ShapesAgree(m, init, left + right, parts, parts');
      ShapesAppend(m, init, last, parts);
      ShapesMove(m, left, last, right, parts');
      OrderShapesAgree(m, last, parts, parts');
    }
  }

  lemma ShapesAppendNothing(m: Matcher, parts: seq<Part>)
    ensures AllShapes(m, [], parts) == multiset{}
  {
  }

  lemma OrderShapesAgree(m: Matcher, order: Order, a: seq<Part>, b: seq<Part>)
    requires multiset(a) == multiset(b)
    ensures ShapesOfOrder(m, order, a) == ShapesOfOrder(m, order, b)
  {
    ProposalShapesAgree(m, order, a, b);
  }

  // ---------- The filter sees shapes only ----------

  function OrderIdOf(s: Shape): string {
    s.order.id
  }

  function DocumentsOf(shapes: seq<Shape>): multiset<string> {
    if shapes == [] then multiset{} else DocumentsOf(shapes[..|shapes| - 1]) + shapes[|shapes| - 1].pick.documents
  }

  lemma {:induction false} DocumentsMove(left: seq<Shape>, x: Shape, right: seq<Shape>)
    ensures DocumentsOf(left + [x] + right) == DocumentsOf(left + right) + x.pick.documents
    decreases |right|
  {
    if right == [] {
      assert left + [x] + right == left + [x] && (left + [x])[..|left|] == left && left + right == left;
    } else {
      var init, last := right[..|right| - 1], right[|right| - 1];
      assert (left + [x] + right)[..|left| + |right|] == left + [x] + init;
      assert (left + right)[..|left| + |right| - 1] == left + init;
      DocumentsMove(left, x, init);
    }
  }

  lemma {:induction false} DocumentsBag(a: seq<Shape>, b: seq<Shape>)
    requires multiset(a) == multiset(b)
    ensures DocumentsOf(a) == DocumentsOf(b)
    decreases |a|
  {
    SameMembers(a, b);
    if a == [] {
    } else {
      var init, last := a[..|a| - 1], a[|a| - 1];
      assert a == init + [last];
      var left, right := Extract(last, b);
      DocumentsBag(init, left + right);
      DocumentsMove(left, last, right);
    }
  }

  lemma ProposalIds(proposals: seq<Proposal>)
    ensures OrderIds(proposals) == Map(OrderIdOf, Map(ShapeOf, proposals))
  {
  }

  lemma LastShape(proposals: seq<Proposal>)
    requires proposals != []
    ensures var init, last := proposals[..|proposals| - 1], proposals[|proposals| - 1];
            DocumentsOf(Map(ShapeOf, proposals)) == DocumentsOf(Map(ShapeOf, init)) + PickOf(last.subset).documents
  {
    hide PickOf;
    var init := proposals[..|proposals| - 1];
    assert Map(ShapeOf, proposals)[..|proposals| - 1] == Map(ShapeOf, init);
  }

  lemma {:induction false} ProposalDocuments(proposals: seq<Proposal>)
    ensures multiset(AllDocumentIds(proposals)) == DocumentsOf(Map(ShapeOf, proposals))
    decreases |proposals|
  {
    if proposals == [] {
    } else {
      hide *;
      ProposalDocuments(proposals[..|proposals| - 1]);
      PickIsBag(proposals[|proposals| - 1].subset);
      LastDocuments(proposals);
      LastShape(proposals);
    }
  }

  /** Kept, as far as it depends on the counts and the shape. */
  ghost predicate KeptShape(m: Matcher, orderIds: multiset<string>, documents: multiset<string>, s: Shape) {
    orderIds[s.order.id] == 1 &&
    (forall part <- s.pick.parts :: documents[part.remoteDocumentId] == 1) &&
    (forall part <- s.pick.parts :: part.official ==> SplitInvoicePartIdentity(m, part, s.order) == Official) &&
    ((forall part <- s.pick.parts :: part.official) ==> exists part :: part in s.pick.parts && part.splitMarker)
  }

  ghost function Keeps(m: Matcher, orderIds: multiset<string>, documents: multiset<string>): Shape -> bool {
    (s: Shape) => KeptShape(m, orderIds, documents, s)
  }

  lemma KeptByShape(m: Matcher, proposals: seq<Proposal>, p: Proposal)
    ensures Kept(m, proposals, p) <==>
            KeptShape(m, multiset(OrderIds(proposals)), multiset(AllDocumentIds(proposals)), ShapeOf(p))
  {
    hide SplitInvoicePartIdentity, OrderIds, AllDocumentIds, PickOf;
    PickMembers(p.subset);
    assert AllOfficial(p) <==> forall part <- ShapeOf(p).pick.parts :: part.official;
  }

  lemma PickMembers(parts: seq<Part>)
    ensures forall part :: part in parts <==> part in PickOf(parts).parts
  {
    PickIsBag(parts);
    assert forall part :: part in parts <==> part in multiset(parts);
  }

  // ---------- The selections, read off the shapes ----------

  /** `g` of a selection is told by the shape of its proposal, through `f`. */
  ghost predicate ToldByShape<U>(m: Matcher, proposals: seq<Proposal>, g: Selection -> U, f: Shape -> U) {
    forall k :: 0 <= k < |proposals| ==> g(SelectionOf(m, proposals[k])) == f(ShapeOf(proposals[k]))
  }

  lemma ToldAt<U>(m: Matcher, proposals: seq<Proposal>, k: nat, g: Selection -> U, f: Shape -> U)
    requires ToldByShape(m, proposals, g, f) && k < |proposals|
    ensures g(SelectionOf(m, proposals[k])) == f(ShapeOf(proposals[k]))
  {
  }

  /** If `g` of a proposal's selection is `f` of its shape, then `g` of all selections is `f` of
      the shapes the filter keeps. */
  lemma {:induction false} SelectedShapes<U>(m: Matcher, proposals: seq<Proposal>, n: nat, g: Selection -> U,
      f: Shape -> U)
    requires n <= |proposals| && ToldByShape(m, proposals, g, f)
    ensures Map(g, SelectFirst(m, proposals, n)) ==
            Map(f, Filter(KeepsAmong(m, proposals), Map(ShapeOf, proposals[..n])))
  {
    hide *;
    if n == 0 {
      SelectNone(m, proposals, g, f);
    } else {
      var p := proposals[n - 1];
      SelectedShapes(m, proposals, n - 1, g, f);
      ToldAt(m, proposals, n - 1, g, f);
      SelectNext(m, proposals, n, g);
      KeptByShape(m, proposals, p);
      KeepsIsKeptShape(m, proposals, ShapeOf(p));
      assert proposals[..n] == proposals[..n - 1] + [p];
      FilterNext(KeepsAmong(m, proposals), proposals[..n - 1], p, f);
    }
  }

  ghost function KeepsAmong(m: Matcher, proposals: seq<Proposal>): Shape -> bool {
    Keeps(m, multiset(OrderIds(proposals)), multiset(AllDocumentIds(proposals)))
  }

  lemma KeepsIsKeptShape(m: Matcher, proposals: seq<Proposal>, s: Shape)
    ensures KeepsAmong(m, proposals)(s) <==>
            KeptShape(m, multiset(OrderIds(proposals)), multiset(AllDocumentIds(proposals)), s)
  {
    hide KeptShape;
  }

  lemma SelectNone<U>(m: Matcher, proposals: seq<Proposal>, g: Selection -> U, f: Shape -> U)
    ensures Map(g, SelectFirst(m, proposals, 0)) ==
            Map(f, Filter(KeepsAmong(m, proposals), Map(ShapeOf, proposals[..0])))
  {
  }

  lemma SelectNext<U>(m: Matcher, proposals: seq<Proposal>, n: nat, g: Selection -> U)
    requires 0 < n <= |proposals|
    ensures Map(g, SelectFirst(m, proposals, n)) == Map(g, SelectFirst(m, proposals, n - 1)) +
            if Kept(m, proposals, proposals[n - 1]) then [g(SelectionOf(m, proposals[n - 1]))] else []
  {
    hide Kept, SelectionOf, Map;
    var before, selection := SelectFirst(m, proposals, n - 1), SelectionOf(m, proposals[n - 1]);
    MapJoins(g, before, [selection]);
    assert before + [] == before && Map(g, before) + [] == Map(g, before);
    assert Map(g, [selection]) == [g(selection)];
  }

  lemma FilterNext<U>(keeps: Shape -> bool, before: seq<Proposal>, p: Proposal, f: Shape -> U)
    ensures Map(f, Filter(keeps, Map(ShapeOf, before + [p]))) ==
            Map(f, Filter(keeps, Map(ShapeOf, before))) + if keeps(ShapeOf(p)) then [f(ShapeOf(p))] else []
  {
    hide Map, Filter, ShapeOf;
    MapJoins(ShapeOf, before, [p]);
    assert Map(ShapeOf, [p]) == [ShapeOf(p)];
    FilterAppends(keeps, Map(ShapeOf, before), ShapeOf(p));
    var kept := Filter(keeps, Map(ShapeOf, before));
    MapJoins(f, kept, [ShapeOf(p)]);
    assert Map(f, [ShapeOf(p)]) == [f(ShapeOf(p))];
    assert kept + [] == kept && Map(f, kept) + [] == Map(f, kept);
  }

  lemma SelectedBag<U>(m: Matcher, a: seq<Proposal>, b: seq<Proposal>, g: Selection -> U, f: Shape -> U)
    requires multiset(Map(ShapeOf, a)) == multiset(Map(ShapeOf, b))
    requires ToldByShape(m, a, g, f) && ToldByShape(m, b, g, f)
    ensures multiset(Map(g, SelectFirst(m, a, |a|))) == multiset(Map(g, SelectFirst(m, b, |b|)))
  {
    hide Map, Filter, ShapeOf, SelectFirst, SelectionOf, OrderIds, AllDocumentIds, DocumentsOf, OrderIdOf, Keeps;
    assert a[..|a|] == a && b[..|b|] == b;
    SelectedShapes(m, a, |a|, g, f);
    SelectedShapes(m, b, |b|, g, f);
    ProposalIds(a);
    ProposalIds(b);
    MapBag(OrderIdOf, Map(ShapeOf, a), Map(ShapeOf, b));
    ProposalDocuments(a);
    ProposalDocuments(b);
    DocumentsBag(Map(ShapeOf, a), Map(ShapeOf, b));
    FilterBag(KeepsAmong(m, a), Map(ShapeOf, a), Map(ShapeOf, b));
    MapBag(f, Filter(KeepsAmong(m, a), Map(ShapeOf, a)), Filter(KeepsAmong(m, b), Map(ShapeOf, b)));
  }

  // ---------- Main results ----------

  /** A selection up to the order of its documents. */
  datatype Choice = Choice(orderId: string, documents: multiset<string>, complete: bool)

  function ChoiceOf(s: Selection): Choice {
    Choice(s.orderId, multiset(s.remoteDocumentIds), s.complete)
  }

  ghost function ChoiceOfShape(s: Shape): Choice {
    Choice(s.order.id, s.pick.documents, forall part <- s.pick.parts :: part.official)
  }

  lemma ChoiceIsTold(m: Matcher, p: Proposal)
    ensures ChoiceOf(SelectionOf(m, p)) == ChoiceOfShape(ShapeOf(p))
  {
    hide PickOf;
    SelectedIds(m, p);
    PickIsBag(p.subset);
    PickMembers(p.subset);
  }

  /** Listing the orders or the parts in another order selects the same documents for the same
      orders. */
  lemma SelectionForgetsOrder(m: Matcher, orders: seq<Order>, orders': seq<Order>, parts: seq<Part>, parts': seq<Part>)
    requires multiset(orders) == multiset(orders') && multiset(parts) == multiset(parts')
    ensures multiset(Map(ChoiceOf, Select(m, orders, parts))) == multiset(Map(ChoiceOf, Select(m, orders', parts')))
  {
    hide Map, ChoiceOf, ChoiceOfShape, SelectionOf, AllProposals;
    var a, b := AllProposals(m, orders, parts), AllProposals(m, orders', parts');
    ShapesAgree(m, orders, orders', parts, parts');
    forall k | 0 <= k < |a|
      ensures ChoiceOf(SelectionOf(m, a[k])) == ChoiceOfShape(ShapeOf(a[k]))
    {
      ChoiceIsTold(m, a[k]);
    }
    forall k | 0 <= k < |b|
      ensures ChoiceOf(SelectionOf(m, b[k])) == ChoiceOfShape(ShapeOf(b[k]))
    {
      ChoiceIsTold(m, b[k]);
    }
    SelectedBag(m, a, b, ChoiceOf, ChoiceOfShape);
  }

  // ---------- Without ties ----------

  /** Some listing of a bag of parts. */
  ghost function SomeListing(bag: multiset<Part>): (r: seq<Part>)
    ensures multiset(r) == bag
    decreases |bag|
  {
    if bag == multiset{} then []
    else
      var p :| p in bag;
      [p] + SomeListing(bag - multiset{p})
  }

  ghost function SelectionByShape(m: Matcher): Shape -> Selection {
    (s: Shape) => Selection(s.order.id, DocumentIds(ToSorted(SomeListing(s.pick.parts), ByDocument(m))),
                            forall part <- s.pick.parts :: part.official)
  }

  predicate SharePlace(m: Matcher, x: Part, y: Part) {
    x.documentDate == y.documentDate && Apart(m.collate, x.fiscalNumber, y.fiscalNumber) == 0
  }

  /** The collation orders the fiscal numbers, and no two parts share a date and tie in them. */
  ghost predicate Untied(m: Matcher, parts: seq<Part>) {
    NumbersAreOrdered(m, parts) &&
    forall x, y :: x in parts && y in parts && SharePlace(m, x, y) ==> x == y
  }

  lemma UntiedHasOneOrder(m: Matcher, parts: seq<Part>)
    requires Untied(m, parts)
    ensures TotalPreorderOn(ByDocument(m), parts) && AntisymmetricOn(ByDocument(m), parts)
  {
    hide CompareNumericText, Apart;
    DocumentsAreOrdered(m, parts);
    var numbers, compare := (set part | part in parts :: part.fiscalNumber), NumericComparer(m.collate);
    forall x, y | x in parts && y in parts && ByDocument(m)(x, y) && ByDocument(m)(y, x)
      ensures x == y
    {
      assert x.fiscalNumber in numbers && y.fiscalNumber in numbers;
      assert compare(x.fiscalNumber, y.fiscalNumber) < 0 <==> compare(y.fiscalNumber, x.fiscalNumber) > 0;
      ComparesAsApart(m.collate, x.fiscalNumber, y.fiscalNumber);
      assert compare(x.fiscalNumber, y.fiscalNumber) == CompareNumericText(m.collate, x.fiscalNumber, y.fiscalNumber);
    }
  }

  lemma LawsOfPart(le: (Part, Part) -> bool, some: seq<Part>, all: seq<Part>)
    requires TotalPreorderOn(le, all) && AntisymmetricOn(le, all) && forall part <- some :: part in all
    ensures TotalPreorderOn(le, some) && AntisymmetricOn(le, some)
  {
  }

  lemma SelectionIsTold(m: Matcher, parts: seq<Part>, p: Proposal)
    requires Untied(m, parts) && forall part <- p.subset :: part in parts
    ensures SelectionOf(m, p) == SelectionByShape(m)(ShapeOf(p))
  {
    hide PickOf, ToSorted, ByDocument, TotalPreorderOn, AntisymmetricOn, SomeListing, DocumentIds, Untied;
    UntiedHasOneOrder(m, parts);
    PickIsBag(p.subset);
    PickMembers(p.subset);
    LawsOfPart(ByDocument(m), p.subset, parts);
    SortForgetsOrder(p.subset, SomeListing(multiset(p.subset)), ByDocument(m));
  }

  lemma SelectionsAreTold(m: Matcher, orders: seq<Order>, parts: seq<Part>, all: seq<Part>)
    requires Untied(m, all) && forall part <- parts :: part in all
    ensures ToldByShape(m, AllProposals(m, orders, parts), Itself, SelectionByShape(m))
  {
    hide SelectionOf, SelectionByShape, ShapeOf, Untied, AllProposals, SplitInvoicePartIdentity, Solution;
    var proposals := AllProposals(m, orders, parts);
    forall k | 0 <= k < |proposals|
      ensures SelectionOf(m, proposals[k]) == SelectionByShape(m)(ShapeOf(proposals[k]))
    {
      var chosen := EveryProposalInvoices(m, orders, parts, k);
      InvoicedFromParts(m, parts, proposals[k], chosen);
      SelectionIsTold(m, all, proposals[k]);
    }
  }

  lemma InvoicedFromParts(m: Matcher, parts: seq<Part>, p: Proposal, chosen: seq<nat>)
    requires Invoices(m, parts, p, chosen)
    ensures forall part <- p.subset :: part in parts
  {
    forall part | part in p.subset
      ensures part in parts
    {
      var i :| 0 <= i < |p.subset| && p.subset[i] == part;
      assert p.subset[i] in Qualifying(m, p.order, parts);
    }
  }

  function Itself(s: Selection): Selection {
    s
  }

  lemma {:induction false} MapItself(s: seq<Selection>)
    ensures Map(Itself, s) == s
  {
    if s == [] {
    } else {
      MapItself(s[1..]);
    }
  }

  /** Without ties the selections themselves are the same. */
  lemma UntiedSelectionForgetsOrder(m: Matcher, orders: seq<Order>, orders': seq<Order>, parts: seq<Part>,
      parts': seq<Part>)
    requires multiset(orders) == multiset(orders') && multiset(parts) == multiset(parts') && Untied(m, parts)
    ensures multiset(Select(m, orders, parts)) == multiset(Select(m, orders', parts'))
  {
    hide Map, SelectionByShape, AllProposals, Untied, SelectFirst, ToldByShape;
    var a, b := AllProposals(m, orders, parts), AllProposals(m, orders', parts');
    ShapesAgree(m, orders, orders', parts, parts');
    SameMembers(parts, parts');
    SelectionsAreTold(m, orders, parts, parts);
    SelectionsAreTold(m, orders', parts', parts);
    SelectedBag(m, a, b, Itself, SelectionByShape(m));
    MapItself(SelectFirst(m, a, |a|));
    MapItself(SelectFirst(m, b, |b|));
  }
}
