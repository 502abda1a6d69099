/**
 The simple book the indexed one speeds up: per side a list of resting orders in arrival
 order, searched linearly. A ladder is that list grouped by price, so its depths and
 totals are sums and its levels keep arrival order.
 */
module FlatBooks {
  import opened Ticks
  import opened Ladders
  import opened Wrappers

  datatype Resting = Resting(id: OrderId, price: Price, qty: Qty)

  type Flat = seq<Resting>

  /** Linear search: the position of the order, or the length of the list. */
  function Find(f: Flat, id: OrderId): (k: nat)
    ensures k <= |f|
    ensures k < |f| ==> f[k].id == id
    ensures forall j :: 0 <= j < k ==> f[j].id != id
  {
    if f == [] || f[0].id == id then 0 else 1 + Find(f[1..], id)
  }

  function FlatAdd(f: Flat, id: OrderId, p: Price, qty: Qty): Flat {
    f + [Resting(id, p, qty)]
  }

  function FlatRemove(f: Flat, id: OrderId): Flat {
    var k := Find(f, id);
    if k == |f| then f else Without(f, k)
  }

  function FlatExecute(f: Flat, id: OrderId, qty: Qty): Flat {
    var k := Find(f, id);
    if k == |f| then f
    else
      var left := LeftOf(f[k].qty, qty);
      if left == 0.0 then Without(f, k) else f[k := f[k].(qty := left)]
  }

  // ---------- a list grouped into a ladder ----------

  /** The orders at a price, in arrival order. */
  function OrdersAt(f: Flat, p: Price): seq<Order> {
    if f == [] then []
    else (if f[0].price == p then [Order(f[0].id, f[0].qty)] else []) + OrdersAt(f[1..], p)
  }

  function SumOrders(orders: seq<Order>): Qty {
    if orders == [] then 0.0 else orders[0].qty + SumOrders(orders[1..])
  }

  function SumFlat(f: Flat): Qty {
    if f == [] then 0.0 else f[0].qty + SumFlat(f[1..])
  }

  function Prices(f: Flat): set<Price> {
    set r | r in f :: r.price
  }

  function Grouped(f: Flat): Ladder {
    Ladder(map p | p in Prices(f) :: Level(SumOrders(OrdersAt(f, p)), OrdersAt(f, p)), SumFlat(f))
  }

  ghost predicate Distinct(f: Flat) {
    forall i, j :: 0 <= i < j < |f| ==> f[i].id != f[j].id
  }

  // ---------- sums and groups over concatenation ----------

  lemma {:induction false} OrdersAtConcat(f: Flat, g: Flat, p: Price)
    ensures OrdersAt(f + g, p) == OrdersAt(f, p) + OrdersAt(g, p)
  {
    if f == [] {
      assert f + g == g;
    } else {
      OrdersAtConcat(f[1..], g, p);
      assert (f + g)[1..] == f[1..] + g;
    }
  }

  lemma {:induction false} SumOrdersConcat(a: seq<Order>, b: seq<Order>)
    ensures SumOrders(a + b) == SumOrders(a) + SumOrders(b)
  {
    if a == [] {
      assert a + b == b;
    } else {
      SumOrdersConcat(a[1..], b);
      assert (a + b)[1..] == a[1..] + b;
    }
  }

  lemma {:induction false} SumFlatConcat(f: Flat, g: Flat)
    ensures SumFlat(f + g) == SumFlat(f) + SumFlat(g)
  {
    if f == [] {
      assert f + g == g;
    } else {
      SumFlatConcat(f[1..], g);
      assert (f + g)[1..] == f[1..] + g;
    }
  }

  /** Around the k-th entry, the orders of its price split where those before it end. */
  lemma OrdersAround(f: Flat, k: nat, p: Price)
    requires k < |f|
    ensures OrdersAt(f, p) == OrdersAt(f[..k], p) + OrdersAt([f[k]], p) + OrdersAt(f[k + 1..], p)
  {
    OrdersAtConcat(f[..k] + [f[k]], f[k + 1..], p);
    OrdersAtConcat(f[..k], [f[k]], p);
    assert f == f[..k] + [f[k]] + f[k + 1..];
  }

  lemma OrdersOfOne(r: Resting, p: Price)
    ensures OrdersAt([r], p) == if r.price == p then [Order(r.id, r.qty)] else []
  {
    assert [r][1..] == [];
  }

  /** A price has an order in the list exactly when its group is not empty. */
  lemma {:induction false} PriceHasOrders(f: Flat, p: Price)
    ensures p in Prices(f) <==> OrdersAt(f, p) != []
  {
    if f != [] {
      PriceHasOrders(f[1..], p);
      assert f == [f[0]] + f[1..];
    }
  }

  lemma {:induction false} GroupMembers(f: Flat, p: Price, o: Order)
    ensures o in OrdersAt(f, p) <==> Resting(o.id, p, o.qty) in f
  {
    if f != [] {
      GroupMembers(f[1..], p, o);
      assert f == [f[0]] + f[1..];
    }
  }

  /** The ids of the ladder are the ids of the list. */
  lemma GroupedIds(f: Flat, id: OrderId)
    ensures id in Ids(Grouped(f)) <==> Find(f, id) < |f|
  {
    var l := Grouped(f);
    if id in Ids(l) {
      var (p, i) := SlotOf(l, id);
      GroupMembers(f, p, l.levels[p].orders[i]);
    }
    if Find(f, id) < |f| {
      var r := f[Find(f, id)];
      GroupMembers(f, r.price, Order(r.id, r.qty));
      PriceHasOrders(f, r.price);
      assert Order(r.id, r.qty) in l.levels[r.price].orders;
    }
  }

  // ---------- each operation on the list is the operation on the ladder ----------

  lemma GroupedAddLevel(f: Flat, r: Resting, q: Price)
    ensures var l, m := AddOrder(Grouped(f), r.id, r.price, r.qty), Grouped(f + [r]);
            (q in l.levels <==> q in m.levels) && (q in m.levels ==> m.levels[q] == l.levels[q])
  {
    OrdersAtConcat(f, [r], q);
    OrdersOfOne(r, q);
    PriceHasOrders(f, q);
    PriceHasOrders(f + [r], q);
    SumOrdersConcat(OrdersAt(f, q), OrdersAt([r], q));
  }

  lemma GroupedAdd(f: Flat, id: OrderId, p: Price, qty: Qty)
    ensures Grouped(FlatAdd(f, id, p, qty)) == AddOrder(Grouped(f), id, p, qty)
  {
    var r := Resting(id, p, qty);
    var l, m := AddOrder(Grouped(f), id, p, qty), Grouped(f + [r]);
    SumFlatConcat(f, [r]);
    assert [r][1..] == [];
    forall q
      ensures q in l.levels <==> q in m.levels
      ensures q in m.levels ==> m.levels[q] == l.levels[q]
    {
      GroupedAddLevel(f, r, q);
    }
    SameMap(l.levels, m.levels);
  }

  /** Where the k-th entry of the list rests in the ladder. */
  function PlaceOf(f: Flat, k: nat): (Price, nat)
    requires k < |f|
  {
    (f[k].price, |OrdersAt(f[..k], f[k].price)|)
  }

  lemma {:induction false} PlaceIsUnique(f: Flat, k: nat, p: Price, i: nat)
    requires Distinct(f) && k < |f|
    requires i < |OrdersAt(f, p)| && OrdersAt(f, p)[i].id == f[k].id
    ensures p == f[k].price && i == |OrdersAt(f[..k], p)|
  {
    var head := if f[0].price == p then 1 else 0;
    if i >= head {
      var o := OrdersAt(f[1..], p)[i - head];
      GroupMembers(f[1..], p, o);
      if k == 0 {
        assert false;
      }
      PlaceIsUnique(f[1..], k - 1, p, i - head);
      assert f[1..][..k - 1] == f[..k][1..];
    } else if k > 0 {
      assert false;
    }
  }

  /** With distinct ids, the ladder finds an order where the list has it. */
  lemma {:induction false} SlotIsPlace(f: Flat, id: OrderId)
    requires Distinct(f) && Find(f, id) < |f|
    ensures id in Ids(Grouped(f)) && SlotOf(Grouped(f), id) == PlaceOf(f, Find(f, id))
  {
    GroupedIds(f, id);
    var (p, i) := SlotOf(Grouped(f), id);
    PlaceIsUnique(f, Find(f, id), p, i);
  }

  /** The list with its k-th entry erased, or left with a new quantity. */
  function FlatSettle(f: Flat, k: nat, left: Qty, gone: bool): Flat
    requires k < |f|
  {
    if gone then Without(f, k) else f[k := f[k].(qty := left)]
  }

  /** What takes the place of the settled entry. */
  function Residue(r: Resting, left: Qty, gone: bool): Flat {
    if gone then [] else [r.(qty := left)]
  }

  lemma SettledAround(f: Flat, k: nat, left: Qty, gone: bool, q: Price)
    requires k < |f|
    ensures var g, mid := FlatSettle(f, k, left, gone), Residue(f[k], left, gone);
            && OrdersAt(g, q) == OrdersAt(f[..k], q) + OrdersAt(mid, q) + OrdersAt(f[k + 1..], q)
            && SumFlat(g) == SumFlat(f[..k]) + SumFlat(mid) + SumFlat(f[k + 1..])
  {
    var mid := Residue(f[k], left, gone);
    assert FlatSettle(f, k, left, gone) == f[..k] + mid + f[k + 1..];
    OrdersAtConcat(f[..k] + mid, f[k + 1..], q);
    OrdersAtConcat(f[..k], mid, q);
    SumFlatConcat(f[..k] + mid, f[k + 1..]);
    SumFlatConcat(f[..k], mid);
  }

  lemma SumAround(a: seq<Order>, m: seq<Order>, c: seq<Order>)
    ensures SumOrders(a + m + c) == SumOrders(a) + SumOrders(m) + SumOrders(c)
  {
    SumOrdersConcat(a + m, c);
    SumOrdersConcat(a, m);
  }

  /** One element between two stretches is settled. */
  lemma SettledBetween(a: seq<Order>, c: seq<Order>, was: Order, left: Qty, gone: bool)
    ensures var orders, now := a + [was] + c, if gone then [] else [Order(was.id, left)];
            && orders[|a|] == was
            && a + now + c == (if gone then Without(orders, |a|) else orders[|a| := Order(was.id, left)])
            && SumOrders(a + now + c) == SumOrders(orders) - was.qty + (if gone then 0.0 else left)
  {
    SumAround(a, [was], c);
    SumAround(a, if gone then [] else [Order(was.id, left)], c);
  }

  lemma SettledSum(f: Flat, k: nat, left: Qty, gone: bool)
    requires k < |f|
    ensures SumFlat(FlatSettle(f, k, left, gone)) == SumFlat(f) - f[k].qty + (if gone then 0.0 else left)
  {
    SettledAround(f, k, left, gone, f[k].price);
    SettledAround(f, k, f[k].qty, false, f[k].price);
    assert FlatSettle(f, k, f[k].qty, false) == f;
  }

  /** The level of the settled order, before and after. */
  lemma SettledLevel(f: Flat, k: nat, left: Qty, gone: bool)
    requires k < |f|
    ensures var (p, i) := PlaceOf(f, k);
            var g, orders := FlatSettle(f, k, left, gone), OrdersAt(f, p);
            && i < |orders| && orders[i] == Order(f[k].id, f[k].qty)
            && OrdersAt(g, p) == (if gone then Without(orders, i) else orders[i := Order(f[k].id, left)])
            && SumOrders(OrdersAt(g, p)) == SumOrders(orders) - f[k].qty + (if gone then 0.0 else left)
  {
    var (p, i) := PlaceOf(f, k);
    var a, c := OrdersAt(f[..k], p), OrdersAt(f[k + 1..], p);
    SettledAround(f, k, left, gone, p);
    OrdersAround(f, k, p);
    OrdersOfOne(f[k], p);
    OrdersOfOne(f[k].(qty := left), p);
    SettledBetween(a, c, Order(f[k].id, f[k].qty), left, gone);
  }

  lemma SettledElsewhere(f: Flat, k: nat, left: Qty, gone: bool, q: Price)
    requires k < |f| && q != f[k].price
    ensures OrdersAt(FlatSettle(f, k, left, gone), q) == OrdersAt(f, q)
  {
    SettledAround(f, k, left, gone, q);
    OrdersAround(f, k, q);
    OrdersOfOne(f[k], q);
    OrdersOfOne(f[k].(qty := left), q);
  }

  /** Grouped by price, the settled list has the levels of the settled ladder. */
  lemma SettledLevels(f: Flat, k: nat, left: Qty, debit: Qty, gone: bool, q: Price)
    requires k < |f| && debit == f[k].qty - (if gone then 0.0 else left)
    requires var (p, i) := PlaceOf(f, k); p in Prices(f) && i < |OrdersAt(f, p)|
    ensures var (p, i) := PlaceOf(f, k);
            var l, m := SettleAt(Grouped(f), p, i, left, debit, gone), Grouped(FlatSettle(f, k, left, gone));
            (q in l.levels <==> q in m.levels) && (q in m.levels ==> m.levels[q] == l.levels[q])
  {
    var g := FlatSettle(f, k, left, gone);
    PriceHasOrders(f, q);
    PriceHasOrders(g, q);
    if q == f[k].price {
      SettledLevel(f, k, left, gone);
    } else {
      SettledElsewhere(f, k, left, gone, q);
    }
  }

  lemma GroupedSettle(f: Flat, k: nat, left: Qty, debit: Qty, gone: bool)
    requires k < |f| && debit == f[k].qty - (if gone then 0.0 else left)
    ensures var (p, i) := PlaceOf(f, k);
            && p in Prices(f) && i < |OrdersAt(f, p)|
            && Grouped(FlatSettle(f, k, left, gone)) == SettleAt(Grouped(f), p, i, left, debit, gone)
  {
    var (p, i) := PlaceOf(f, k);
    SettledLevel(f, k, left, gone);
    SettledSum(f, k, left, gone);
    PriceHasOrders(f, p);
    var l, m := SettleAt(Grouped(f), p, i, left, debit, gone), Grouped(FlatSettle(f, k, left, gone));
    forall q
      ensures q in l.levels <==> q in m.levels
      ensures q in m.levels ==> m.levels[q] == l.levels[q]
    {
      SettledLevels(f, k, left, debit, gone, q);
    }
    SameMap(l.levels, m.levels);
  }

  lemma GroupedRemove(f: Flat, id: OrderId)
    requires Distinct(f)
    ensures Grouped(FlatRemove(f, id)) == RemoveOrder(Grouped(f), id)
  {
    var k := Find(f, id);
    GroupedIds(f, id);
    if k < |f| {
      SlotIsPlace(f, id);
      SettledLevel(f, k, f[k].qty, true);
      GroupedSettle(f, k, f[k].qty, f[k].qty, true);
    }
  }

  lemma GroupedExecute(f: Flat, id: OrderId, qty: Qty)
    requires Distinct(f)
    ensures Grouped(FlatExecute(f, id, qty)) == ExecuteOrder(Grouped(f), id, qty)
  {
    var k := Find(f, id);
    GroupedIds(f, id);
    if k < |f| {
      SlotIsPlace(f, id);
      var left := LeftOf(f[k].qty, qty);
      SettledLevel(f, k, left, left == 0.0);
      GroupedSettle(f, k, left, qty, left == 0.0);
    }
  }

  lemma DistinctAfterAdd(f: Flat, id: OrderId, p: Price, qty: Qty)
    requires Distinct(f)
    ensures Distinct(FlatAdd(f, id, p, qty)) <==> Find(f, id) == |f|
  {
    var g := FlatAdd(f, id, p, qty);
    if Find(f, id) < |f| {
      assert g[Find(f, id)].id == g[|f|].id;
    }
  }

  lemma DistinctWithout(f: Flat, k: nat)
    requires Distinct(f) && k < |f|
    ensures Distinct(Without(f, k))
  {
    var g := Without(f, k);
    forall i, j | 0 <= i < j < |g| ensures g[i].id != g[j].id {
      assert g[i] == f[if i < k then i else i + 1] && g[j] == f[if j < k then j else j + 1];
    }
  }

  lemma StaysDistinct(f: Flat, id: OrderId, p: Price, qty: Qty)
    requires Distinct(f)
    ensures Distinct(FlatAdd(f, id, p, qty)) <==> Find(f, id) == |f|
    ensures Distinct(FlatRemove(f, id)) && Distinct(FlatExecute(f, id, qty))
  {
    DistinctAfterAdd(f, id, p, qty);
    if Find(f, id) < |f| {
      DistinctWithout(f, Find(f, id));
    }
  }
}
