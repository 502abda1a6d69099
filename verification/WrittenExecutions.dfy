/**
 What `execute` as written does to depths, totals and the assertions of `remove`, over
 whole streams: it takes an order's whole quantity out of what rests, debits no depth, and
 debits the bids' total by the executed quantity, whichever side the order is on.
 */
module WrittenExecutions {
  import opened Readings
  import opened Ticks
  import opened Ladders
  import opened Books
  import opened Feeds
  import opened BookFeeds
  import opened FlatBooks
  import opened FlatRuns
  import opened Conservation
  import opened Wrappers

  // ---------- one execution ----------

  /**
   As written, an executed order stays exactly if nothing is left of it once 1 is taken off
   on an execution of quantity zero and 0 on any other; it then stays with quantity zero.
   */
  lemma ExecutedOrderStaysIff(l: Ladder, id: OrderId, qty: Qty)
    requires UniqueIds(l) && id in Ids(l)
    ensures var m := ExecuteOrderAsWritten(l, id, qty);
            && (id in Ids(m) <==> RestingQty(l, id) == if qty == 0.0 then 1.0 else 0.0)
            && (id in Ids(m) ==> RestingQty(m, id) == 0.0)
  {
    var (p, i) := SlotOf(l, id);
    var m, left := ExecuteOrderAsWritten(l, id, qty), LeftAsWritten(l.levels[p].orders[i].qty, qty);
    IdsAfterSettle(l, p, i, left, 0.0, left != 0.0);
    if id in Ids(m) {
      var (q, j) := SlotOf(m, id);
      SettleShifts(l, p, i, left, 0.0, false, q, j, id);
      assert RestsAt(l, p, i, id) && RestsAt(l, q, j, id);
    }
  }

  ghost predicate TotalIsSum(l: Ladder) {
    l.total == SumDepths(l.levels)
  }

  /** An execution as written leaves the sum of the depths alone, unless the level goes with the order. */
  lemma DepthsAfterExecution(l: Ladder, id: OrderId, qty: Qty)
    requires Conserves(l) && id in Ids(l)
    ensures SumDepths(ExecuteOrderAsWritten(l, id, qty).levels)
              == SumDepths(l.levels) - if ReadsErasedEntry(l, id, qty) then RestingQty(l, id) else 0.0
  {
    var (p, i) := SlotOf(l, id);
    var Level(depth, orders) := l.levels[p];
    var left := LeftAsWritten(orders[i].qty, qty);
    var orders' := if left != 0.0 then Without(orders, i) else orders[i := Order(orders[i].id, left)];
    SumDepthsTake(l.levels, p);
    if orders' == [] {
      assert orders == [orders[0]];
      assert SumOrders(orders) == orders[0].qty + SumOrders([]);
    } else {
      SumDepthsPut(l.levels, p, Level(depth, orders'));
    }
  }

  /**
   Executing a positive order as written keeps a bid book's total a sum exactly when the
   executed quantity is what left the depths; an offer's execution keeps its own side's
   total exactly when the level stays, and the bids' exactly when nothing is executed.
   */
  lemma AsWrittenKeepsTotalIff(b: Book, id: OrderId, qty: Qty, time: Time, side: Side)
    requires Conserves(b.bids) && Conserves(b.offers)
    requires id in Ids(LadderOf(b, side)) && RestingQty(LadderOf(b, side), id) > 0.0
    ensures var l, c := LadderOf(b, side), ExecuteOn(AsWritten, b, id, qty, time, side);
            && (side == Buy ==> c.offers == b.offers
                                && (TotalIsSum(c.bids) <==>
                                    qty == if ReadsErasedEntry(l, id, qty) then RestingQty(l, id) else 0.0))
            && (side == Sell ==> && (TotalIsSum(c.offers) <==> !ReadsErasedEntry(l, id, qty))
                                 && (TotalIsSum(c.bids) <==> qty == 0.0))
  {
    DepthsAfterExecution(LadderOf(b, side), id, qty);
  }

  // ---------- what rests ----------

  /** The levels with each depth stated anew as the sum of its orders. */
  function Restated(levels: map<Price, Level>): map<Price, Level> {
    map p | p in levels :: Level(SumOrders(levels[p].orders), levels[p].orders)
  }

  /** The quantity of all resting orders. */
  ghost function SumResting(l: Ladder): Qty {
    SumDepths(Restated(l.levels))
  }

  lemma RestingTake(levels: map<Price, Level>, p: Price)
    requires p in levels
    ensures SumDepths(Restated(levels)) == SumOrders(levels[p].orders) + SumDepths(Restated(levels - {p}))
  {
    SumDepthsTake(Restated(levels), p);
    assert Restated(levels) - {p} == Restated(levels - {p});
  }

  lemma RestingPut(levels: map<Price, Level>, p: Price, level: Level)
    ensures SumDepths(Restated(PutLevel(levels, p, level)))
              == SumDepths(Restated(levels - {p})) + SumOrders(level.orders)
  {
    if level.orders != [] {
      RestingTake(levels[p := level], p);
      assert levels[p := level] - {p} == levels - {p};
    }
  }

  lemma RestingAfterAdd(l: Ladder, id: OrderId, p: Price, qty: Qty)
    ensures SumResting(AddOrder(l, id, p, qty)) == SumResting(l) + qty
  {
    var orders := LevelAt(l, p).orders;
    SumOrdersConcat(orders, [Order(id, qty)]);
    assert SumOrders([Order(id, qty)]) == qty + SumOrders([]);
    RestingPut(l.levels, p, AddOrder(l, id, p, qty).levels[p]);
    if p in l.levels {
      RestingTake(l.levels, p);
    } else {
      assert l.levels - {p} == l.levels;
    }
  }

  lemma RestingAfterSettle(l: Ladder, p: Price, i: nat, left: Qty, debit: Qty, gone: bool)
    requires p in l.levels && i < |l.levels[p].orders|
    ensures SumResting(SettleAt(l, p, i, left, debit, gone))
              == SumResting(l) - l.levels[p].orders[i].qty + if gone then 0.0 else left
  {
    var Level(depth, orders) := l.levels[p];
    var orders' := if gone then Without(orders, i) else orders[i := Order(orders[i].id, left)];
    SumWithout(orders, i, left);
    RestingTake(l.levels, p);
    RestingPut(l.levels, p, Level(depth - debit, orders'));
  }

  // ---------- totals over a stream ----------

  ghost function Written(ts: seq<Tick>): Book {
    Fold(BookFeed(AsWritten), FRESH, ts)
  }

  /** The quantity executed on known orders of either side since the last snapshot tick. */
  ghost function Executed(ts: seq<Tick>): Qty {
    if ts == [] then 0.0
    else
      var past, t := ts[..|ts| - 1], ts[|ts| - 1];
      match t
      case Snapshot(_, _) => 0.0
      case Execute(id, _, qty, _, side) =>
        Executed(past) + if id in Ids(LadderOf(Written(past), side)) then qty else 0.0
      case _ => Executed(past)
  }

  /** The resting quantity of the orders of a side that were executed since the last snapshot tick. */
  ghost function Consumed(ts: seq<Tick>, side: Side): Qty {
    if ts == [] then 0.0
    else
      var past, t := ts[..|ts| - 1], ts[|ts| - 1];
      match t
      case Snapshot(_, _) => 0.0
      case Execute(id, _, _, _, s) =>
        var l := LadderOf(Written(past), s);
        Consumed(past, side) + if s == side && id in Ids(l) then RestingQty(l, id) else 0.0
      case _ => Consumed(past, side)
  }

  /** The total of a side, beyond what rests there. */
  ghost function Excess(b: Book, side: Side): Qty {
    LadderOf(b, side).total - SumResting(LadderOf(b, side))
  }

  lemma AddKeepsExcess(b: Book, a: AddTick, side: Side)
    ensures Excess(AddTo(b, a), side) == Excess(b, side)
  {
    RestingAfterAdd(LadderOf(b, a.side), a.id, a.price, a.qty);
  }

  lemma {:induction false} AddAllHasNoExcess(adds: seq<AddTick>, side: Side)
    ensures Excess(AddAll(CLEARED, adds), side) == 0.0
  {
    if adds == [] {
      assert Restated(EMPTY.levels) == map[];
    } else {
      AddAllHasNoExcess(adds[..|adds| - 1], side);
      AddKeepsExcess(AddAll(CLEARED, adds[..|adds| - 1]), adds[|adds| - 1], side);
    }
  }

  lemma RemoveKeepsExcess(b: Book, id: OrderId, time: Time, s: Side, side: Side)
    ensures Excess(RemoveFrom(b, id, time, s), side) == Excess(b, side)
  {
    var l := LadderOf(b, s);
    if id in Ids(l) {
      var (p, i) := SlotOf(l, id);
      var qty := l.levels[p].orders[i].qty;
      RestingAfterSettle(l, p, i, qty, qty, true);
    }
  }

  lemma ExecuteMovesExcess(b: Book, id: OrderId, qty: Qty, time: Time, s: Side, side: Side)
    requires id in Ids(LadderOf(b, s))
    ensures Excess(ExecuteOn(AsWritten, b, id, qty, time, s), side)
              == Excess(b, side) + (if s == side then RestingQty(LadderOf(b, s), id) else 0.0)
                 - (if side == Buy then qty else 0.0)
  {
    var l := LadderOf(b, s);
    var (p, i) := SlotOf(l, id);
    var left := LeftAsWritten(l.levels[p].orders[i].qty, qty);
    RestingAfterSettle(l, p, i, left, 0.0, left != 0.0);
  }

  /** As written, each execution takes a whole order out of its side and debits the bids. */
  lemma {:induction false} TotalsAsWritten(ts: seq<Tick>, side: Side)
    ensures LadderOf(Written(ts), side).total
              == SumResting(LadderOf(Written(ts), side)) + Consumed(ts, side)
                 - (if side == Buy then Executed(ts) else 0.0)
  {
    if ts == [] {
      assert Restated(EMPTY.levels) == map[];
    } else {
      var past, t := ts[..|ts| - 1], ts[|ts| - 1];
      var b := Written(past);
      TotalsAsWritten(past, side);
      match t
      case Add(a) => AddKeepsExcess(b, a, side);
      case Remove(id, time, s) => RemoveKeepsExcess(b, id, time, s, side);
      case Execute(id, _, qty, time, s) =>
        if id in Ids(LadderOf(b, s)) {
          ExecuteMovesExcess(b, id, qty, time, s, side);
        }
      case Snapshot(bids, offers) => AddAllHasNoExcess(bids + offers, side);
    }
  }

  // ---------- the assertions of `remove` ----------

  /** Every added quantity is positive. Nothing is asked of executions. */
  ghost predicate PositiveAdds(ts: seq<Tick>) {
    forall k :: 0 <= k < |ts| ==>
      match ts[k]
      case Add(a) => a.qty > 0.0
      case Snapshot(bids, offers) => forall a :: a in bids + offers ==> a.qty > 0.0
      case _ => true
  }

  /** No order is negative, and no level is deeper in orders than in depth. */
  ghost predicate Covered(l: Ladder) {
    forall p :: p in l.levels ==> l.levels[p].depth >= SumOrders(l.levels[p].orders) && NoDebt(l.levels[p].orders)
  }

  ghost predicate NoDebt(orders: seq<Order>) {
    forall o :: o in orders ==> o.qty >= 0.0
  }

  lemma CoveredAfterAdd(l: Ladder, id: OrderId, p: Price, qty: Qty)
    requires Covered(l) && qty > 0.0
    ensures Covered(AddOrder(l, id, p, qty))
  {
    var orders := LevelAt(l, p).orders;
    SumOrdersConcat(orders, [Order(id, qty)]);
    assert SumOrders([Order(id, qty)]) == qty + SumOrders([]);
  }

  lemma CoveredAfterSettle(l: Ladder, p: Price, i: nat, left: Qty, debit: Qty, gone: bool)
    requires Covered(l) && p in l.levels && i < |l.levels[p].orders|
    requires (gone || left == 0.0) && debit <= l.levels[p].orders[i].qty
    ensures Covered(SettleAt(l, p, i, left, debit, gone))
  {
    SumWithout(l.levels[p].orders, i, left);
  }

  lemma {:induction false} AddAllIsCovered(adds: seq<AddTick>, side: Side)
    requires forall a :: a in adds ==> a.qty > 0.0
    ensures Covered(LadderOf(AddAll(CLEARED, adds), side))
  {
    if adds != [] {
      var past, a := adds[..|adds| - 1], adds[|adds| - 1];
      AddAllIsCovered(past, side);
      if a.side == side {
        CoveredAfterAdd(LadderOf(AddAll(CLEARED, past), side), a.id, a.price, a.qty);
      }
    }
  }

  lemma StepIsCovered(b: Book, t: Tick, side: Side)
    requires Covered(LadderOf(b, side)) && PositiveAdds([t])
    ensures Covered(LadderOf(Apply(AsWritten, b, t), side))
  {
    var l := LadderOf(b, side);
    assert [t][0] == t;
    match t
    case Add(a) =>
      if a.side == side {
        CoveredAfterAdd(l, a.id, a.price, a.qty);
      }
    case Remove(id, _, s) =>
      if s == side && id in Ids(l) {
        var (p, i) := SlotOf(l, id);
        CoveredAfterSettle(l, p, i, l.levels[p].orders[i].qty, l.levels[p].orders[i].qty, true);
      }
    case Execute(id, _, qty, _, s) =>
      if s == side && id in Ids(l) {
        var (p, i) := SlotOf(l, id);
        var left := LeftAsWritten(l.levels[p].orders[i].qty, qty);
        CoveredAfterSettle(l, p, i, left, 0.0, left != 0.0);
      }
    case Snapshot(bids, offers) => AddAllIsCovered(bids + offers, side);
  }

  lemma {:induction false} StreamIsCovered(ts: seq<Tick>, side: Side)
    requires PositiveAdds(ts)
    ensures Covered(LadderOf(Written(ts), side)) && Consumed(ts, side) >= 0.0
  {
    if ts != [] {
      var past, t := ts[..|ts| - 1], ts[|ts| - 1];
      StreamIsCovered(past, side);
      StepIsCovered(Written(past), t, side);
      if t.Execute? && t.side == side && t.id in Ids(LadderOf(Written(past), side)) {
        var (p, i) := SlotOf(LadderOf(Written(past), side), t.id);
        assert LadderOf(Written(past), side).levels[p].orders[i].qty >= 0.0;
      }
    }
  }

  lemma {:induction false} RestingIsNotNegative(levels: map<Price, Level>)
    requires forall p :: p in levels ==> NoDebt(levels[p].orders)
    ensures SumDepths(Restated(levels)) >= 0.0
    decreases levels.Keys
  {
    if levels.Keys == {} {
      assert Restated(levels) == map[];
    } else {
      var p := AnyPrice(levels.Keys);
      RestingTake(levels, p);
      if levels[p].orders != [] {
        SumCovers(levels[p].orders, 0);
      }
      RestingIsNotNegative(levels - {p});
    }
  }

  /** The quantity of the resting orders of a side other than one. */
  ghost function RestingBeside(l: Ladder, id: OrderId): Qty
    requires id in Ids(l)
  {
    SumResting(l) - RestingQty(l, id)
  }

  /**
   With `execute` as written and additions positive, the assertions of `remove` about a
   level's depth and about the offers' total never fire. The one about the bids' total
   holds exactly when what executions debited, on either side, beyond the bids they took
   out is covered by the bids that stay.
   */
  lemma RemovalAssertionsAsWrittenIff(ts: seq<Tick>, side: Side, id: OrderId)
    requires PositiveAdds(ts) && id in Ids(LadderOf(Written(ts), side))
    ensures var l := LadderOf(Written(ts), side);
            var qty := RestingQty(l, id);
            && l.levels[SlotOf(l, id).0].depth - qty >= 0.0
            && (side == Sell ==> l.total - qty >= 0.0)
            && (side == Buy ==> (l.total - qty >= 0.0 <==> Executed(ts) - Consumed(ts, Buy) <= RestingBeside(l, id)))
  {
    var l := LadderOf(Written(ts), side);
    var (p, i) := SlotOf(l, id);
    StreamIsCovered(ts, side);
    TotalsAsWritten(ts, side);
    SumCovers(l.levels[p].orders, i);
    RestingTake(l.levels, p);
    RestingIsNotNegative(l.levels - {p});
  }

  lemma OneOrderRests(id: OrderId, p: Price, qty: Qty, total: Qty)
    ensures var l := AddOrder(EMPTY, id, p, qty).(total := total);
            Ids(l) == {id} && RestingQty(l, id) == qty
  {
    var m := AddOrder(EMPTY, id, p, qty);
    IdsAfterAdd(EMPTY, id, p, qty);
    assert Ids(m.(total := total)) == Ids(m);
    assert m.levels[p].orders == [Order(id, qty)];
  }

  /** The book after one bid and one offer, and after that offer is executed. */
  lemma BidAndOffer(bid: AddTick, offer: AddTick, t: Tick)
    requires bid.side == Buy && offer.side == Sell
    requires t == Execute(offer.id, offer.price, offer.qty, offer.time, Sell)
    ensures var b := Written([Add(bid), Add(offer)]);
            && b.bids == AddOrder(EMPTY, bid.id, bid.price, bid.qty)
            && b.offers == AddOrder(EMPTY, offer.id, offer.price, offer.qty)
            && Written([Add(bid), Add(offer), t]).bids == b.bids.(total := bid.qty - offer.qty)
            && Written([Add(bid)]).offers == EMPTY
  {
    var one, two := [Add(bid)], [Add(bid), Add(offer)];
    assert two[..1] == one && [] + [Add(bid)] == one && [Add(bid), Add(offer), t][..2] == two;
    FoldAppend(BookFeed(AsWritten), FRESH, [], Add(bid));
    assert Written(one) == AddTo(FRESH, bid);
    assert Written(two) == AddTo(Written(one), offer);
    OneOrderRests(offer.id, offer.price, offer.qty, offer.qty);
    assert Written([Add(bid), Add(offer), t]) == Apply(AsWritten, Written(two), t);
  }

  lemma BidAndOfferIsSensible(bid: AddTick, offer: AddTick, t: Tick)
    requires bid.side == Buy && offer.side == Sell && bid.qty > 0.0 && offer.qty > 0.0
    requires t == Execute(offer.id, offer.price, offer.qty, offer.time, Sell)
    ensures SensibleStream([Add(bid), Add(offer), t])
  {
    var one, two, ts := [Add(bid)], [Add(bid), Add(offer)], [Add(bid), Add(offer), t];
    assert ts[..0] == [] && ts[..1] == one && ts[..2] == two && two[..1] == one && one[..0] == [];
    assert FlatFold(one).offers == [];
    assert FlatFold(two).offers == [] + [Resting(offer.id, offer.price, offer.qty)];
  }

  lemma BidAndOfferIsAccepted(bid: AddTick, offer: AddTick, t: Tick)
    requires bid.side == Buy && offer.side == Sell
    requires t == Execute(offer.id, offer.price, offer.qty, offer.time, Sell)
    ensures AcceptsLog(AsWritten, [Add(bid), Add(offer), t])
  {
    var ts := [Add(bid), Add(offer), t];
    BidAndOffer(bid, offer, t);
    assert ts[..0] == [] && ts[..1] == [Add(bid)];
  }

  /** One bid, and one offer executed in full: the stream is as the feed promises, yet removing the bid fails. */
  lemma RemovalAssertionFires(bid: AddTick, offer: AddTick)
    requires bid.side == Buy && offer.side == Sell && bid.qty > 0.0 && offer.qty > 0.0
    ensures var ts := [Add(bid), Add(offer), Execute(offer.id, offer.price, offer.qty, offer.time, Sell)];
            && AcceptsLog(AsWritten, ts) && SensibleStream(ts)
            && bid.id in Ids(Written(ts).bids)
            && Written(ts).bids.total - RestingQty(Written(ts).bids, bid.id) < 0.0
  {
    var t := Execute(offer.id, offer.price, offer.qty, offer.time, Sell);
    var ts := [Add(bid), Add(offer), t];
    BidAndOffer(bid, offer, t);
    BidAndOfferIsSensible(bid, offer, t);
    BidAndOfferIsAccepted(bid, offer, t);
    OneOrderRests(bid.id, bid.price, bid.qty, bid.qty - offer.qty);
  }
}
