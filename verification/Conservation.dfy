/** What every stream conserves: depths and totals as sums, and their signs. */
module Conservation {
  import opened Readings
  import opened Ticks
  import opened Ladders
  import opened Books
  import opened Feeds
  import opened BookFeeds
  import opened FlatBooks
  import opened FlatRuns
  import opened Wrappers

  // ---------- sums over a ladder ----------

  ghost function SumDepths(levels: map<Price, Level>): Qty
    decreases levels.Keys
  {
    if levels.Keys == {} then 0.0
    else
      var p := AnyPrice(levels.Keys);
      levels[p].depth + SumDepths(levels - {p})
  }

  ghost function AnyPrice(s: set<Price>): (p: Price)
    requires s != {}
    ensures p in s
  {
    PriceExists(s);
    var p :| p in s;
    p
  }

  lemma PriceExists(s: set<Price>)
    requires s != {}
    ensures exists p :: p in s
  {
    var p := Member(s);
  }

  /** Any level may be taken out of the sum first. */
  lemma {:induction false} SumDepthsTake(levels: map<Price, Level>, p: Price)
    requires p in levels
    ensures SumDepths(levels) == levels[p].depth + SumDepths(levels - {p})
    decreases levels.Keys
  {
    var q := AnyPrice(levels.Keys);
    if q != p {
      SumDepthsTake(levels - {q}, p);
      SumDepthsTake(levels - {p}, q);
      assert levels - {q} - {p} == levels - {p} - {q};
    }
  }

  lemma SumDepthsPut(levels: map<Price, Level>, p: Price, level: Level)
    ensures SumDepths(levels[p := level]) == SumDepths(levels - {p}) + level.depth
  {
    SumDepthsTake(levels[p := level], p);
    assert levels[p := level] - {p} == levels - {p};
  }

  /** A grouped list has the sum of its levels for a total. */
  lemma {:induction false} GroupedTotal(f: Flat)
    ensures SumDepths(Grouped(f).levels) == Grouped(f).total
  {
    if f == [] {
      GroupedEmpty();
    } else {
      var n := |f| - 1;
      var r, l := f[n], Grouped(f[..n]);
      GroupedTotal(f[..n]);
      assert f == FlatAdd(f[..n], r.id, r.price, r.qty);
      GroupedAdd(f[..n], r.id, r.price, r.qty);
      SumDepthsPut(l.levels, r.price, AddOrder(l, r.id, r.price, r.qty).levels[r.price]);
      if r.price in l.levels {
        SumDepthsTake(l.levels, r.price);
      } else {
        assert l.levels - {r.price} == l.levels;
      }
    }
  }

  /** Each depth is the sum of its orders, the total is the sum of the depths, no level is empty. */
  ghost predicate Conserves(l: Ladder) {
    && NoEmptyLevel(l)
    && (forall p :: p in l.levels ==> l.levels[p].depth == SumOrders(l.levels[p].orders))
    && l.total == SumDepths(l.levels)
  }

  lemma GroupedConserves(f: Flat)
    ensures Conserves(Grouped(f))
  {
    forall p | p in Grouped(f).levels ensures Grouped(f).levels[p].orders != []
    {
      PriceHasOrders(f, p);
    }
    GroupedTotal(f);
  }

  /** Over every accepted stream, quantities are conserved on both sides. */
  lemma QuantityIsConserved(ts: seq<Tick>, side: Side)
    requires AcceptsLog(Intended, ts)
    ensures Conserves(LadderOf(Fold(BookFeed(Intended), FRESH, ts), side))
  {
    BookRefinesFlat(ts);
    GroupedConserves(SideOf(FlatFold(ts), side));
  }

  // ---------- signs ----------

  ghost predicate Positive(f: Flat) {
    forall r :: r in f ==> r.qty > 0.0
  }

  /** Added quantities are positive; no order is executed backwards or beyond what is left. */
  ghost predicate Sensible(b: FlatBook, t: Tick) {
    match t
    case Add(a) => a.qty > 0.0
    case Remove(_, _, _) => true
    case Execute(id, _, qty, _, side) =>
      Holds(b, side, id) ==> 0.0 <= qty <= SideOf(b, side)[Find(SideOf(b, side), id)].qty
    case Snapshot(bids, offers) => forall a :: a in bids + offers ==> a.qty > 0.0
  }

  ghost predicate SensibleStream(ts: seq<Tick>) {
    forall k :: 0 <= k < |ts| ==> Sensible(FlatFold(ts[..k]), ts[k])
  }

  lemma {:induction false} AddAllStaysPositive(b: FlatBook, adds: seq<AddTick>)
    requires Positive(b.bids) && Positive(b.offers) && forall a :: a in adds ==> a.qty > 0.0
    ensures Positive(FlatAddAll(b, adds).bids) && Positive(FlatAddAll(b, adds).offers)
  {
    if adds != [] {
      assert adds == adds[..|adds| - 1] + [adds[|adds| - 1]];
      AddAllStaysPositive(b, adds[..|adds| - 1]);
    }
  }

  lemma StaysPositive(f: Flat, id: OrderId, qty: Qty)
    requires Positive(f)
    requires Find(f, id) < |f| ==> 0.0 <= qty <= f[Find(f, id)].qty
    ensures Positive(FlatRemove(f, id)) && Positive(FlatExecute(f, id, qty))
  {
  }

  lemma {:induction false} StreamStaysPositive(ts: seq<Tick>)
    requires SensibleStream(ts)
    ensures Positive(FlatFold(ts).bids) && Positive(FlatFold(ts).offers)
  {
    if ts != [] {
      var past, t := ts[..|ts| - 1], ts[|ts| - 1];
      assert forall k :: 0 <= k < |past| ==> past[..k] == ts[..k];
      StreamStaysPositive(past);
      var b := FlatFold(past);
      match t
      case Add(a) =>
      case Remove(id, _, side) =>
        if Holds(b, side, id) {
          StaysPositive(SideOf(b, side), id, 0.0);
        }
      case Execute(id, _, qty, _, side) =>
        if Holds(b, side, id) {
          StaysPositive(SideOf(b, side), id, qty);
        }
      case Snapshot(bids, offers) =>
        AddAllStaysPositive(FlatBook(TIME_MIN, [], []), bids + offers);
    }
  }

  lemma {:induction false} SumCovers(orders: seq<Order>, i: nat)
    requires i < |orders| && forall o :: o in orders ==> o.qty >= 0.0
    ensures SumOrders(orders) >= orders[i].qty
  {
    assert orders == [orders[0]] + orders[1..];
    if i > 0 {
      SumCovers(orders[1..], i - 1);
    } else if |orders| > 1 {
      SumCovers(orders[1..], 0);
    }
  }

  lemma {:induction false} FlatCovers(f: Flat, k: nat)
    requires k < |f| && Positive(f)
    ensures SumFlat(f) >= f[k].qty
  {
    assert f == [f[0]] + f[1..];
    if k > 0 {
      FlatCovers(f[1..], k - 1);
    } else if |f| > 1 {
      FlatCovers(f[1..], 0);
    }
  }

  /**
   On a sensible accepted stream the assertions of `remove` never fire: taking a resting
   order out leaves neither its level nor its side a negative quantity.
   */
  lemma {:induction false} RemovalAssertionsHold(ts: seq<Tick>, side: Side, id: OrderId)
    requires AcceptsLog(Intended, ts) && SensibleStream(ts)
    requires id in Ids(LadderOf(Fold(BookFeed(Intended), FRESH, ts), side))
    ensures var l := LadderOf(Fold(BookFeed(Intended), FRESH, ts), side);
            var (p, i) := SlotOf(l, id);
            var qty := l.levels[p].orders[i].qty;
            qty > 0.0 && l.levels[p].depth - qty >= 0.0 && l.total - qty >= 0.0
  {
    BookRefinesFlat(ts);
    StreamStaysPositive(ts);
    var f := SideOf(FlatFold(ts), side);
    var (p, i) := SlotOf(Grouped(f), id);
    var orders := OrdersAt(f, p);
    GroupedIds(f, id);
    SlotIsPlace(f, id);
    SettledLevel(f, Find(f, id), 0.0, true);
    forall o | o in orders ensures o.qty >= 0.0
    {
      GroupMembers(f, p, o);
    }
    SumCovers(orders, i);
    FlatCovers(f, Find(f, id));
  }

  // ---------- the top of the book ----------

  /** The first level is the best price among all resting orders, with all that rests there. */
  lemma {:induction false} TopIsBestResting(f: Flat, side: Side, p: Price)
    ensures IsFirst(side, Grouped(f), p) <==>
              && (exists r :: r in f && r.price == p)
              && (forall r :: r in f ==> if side == Buy then r.price <= p else p <= r.price)
    ensures IsFirst(side, Grouped(f), p) ==> Grouped(f).levels[p].depth == SumOrders(OrdersAt(f, p))
  {
    assert forall r :: r in f ==> r.price in Grouped(f).levels;
    assert forall q :: q in Grouped(f).levels ==> exists r :: r in f && r.price == q;
  }

  // ---------- execute as written breaks the sums ----------

  ghost predicate DepthsAreSums(l: Ladder) {
    forall p :: p in l.levels ==> l.levels[p].depth == SumOrders(l.levels[p].orders)
  }

  lemma SumWithout(orders: seq<Order>, i: nat, left: Qty)
    requires i < |orders|
    ensures SumOrders(Without(orders, i)) == SumOrders(orders) - orders[i].qty
    ensures SumOrders(orders[i := Order(orders[i].id, left)]) == SumOrders(orders) - orders[i].qty + left
  {
    var o := Order(orders[i].id, left);
    SumAround(orders[..i], [orders[i]], orders[i + 1..]);
    SumAround(orders[..i], [o], orders[i + 1..]);
    SumAround(orders[..i], [], orders[i + 1..]);
    assert orders == orders[..i] + [orders[i]] + orders[i + 1..];
    assert orders[i := o] == orders[..i] + [o] + orders[i + 1..];
    assert Without(orders, i) == orders[..i] + [] + orders[i + 1..];
  }

  /** As written, a positive order leaves its level's depth right only by leaving with the level. */
  lemma AsWrittenKeepsDepthsIff(l: Ladder, id: OrderId, qty: Qty)
    requires DepthsAreSums(l) && id in Ids(l) && RestingQty(l, id) > 0.0
    ensures DepthsAreSums(ExecuteOrderAsWritten(l, id, qty)) <==>
              OrdersBeside(l, id) == 0 && LeftAsWritten(RestingQty(l, id), qty) != 0.0
  {
    var (p, i) := SlotOf(l, id);
    var m := ExecuteOrderAsWritten(l, id, qty);
    SumWithout(l.levels[p].orders, i, LeftAsWritten(RestingQty(l, id), qty));
    if p in m.levels {
      assert m.levels[p].depth != SumOrders(m.levels[p].orders);
    }
  }
}
