/**
 One side of a book as a value: price levels, each with its depth and its orders
 in arrival order, and the side's total. The id index is not part of the value:
 where ids are unique the levels determine it.
 */
module Ladders {
  import opened Ticks
  import opened Wrappers

  datatype Order = Order(id: OrderId, qty: Qty)
  datatype Level = Level(depth: Qty, orders: seq<Order>)
  datatype Ladder = Ladder(levels: map<Price, Level>, total: Qty)

  const EMPTY := Ladder(map[], 0.0)

  /** Order `id` is the i-th order of the level at price p. */
  ghost predicate RestsAt(l: Ladder, p: Price, i: int, id: OrderId) {
    p in l.levels && 0 <= i < |l.levels[p].orders| && l.levels[p].orders[i].id == id
  }

  /** The ids resting in a ladder. */
  function Ids(l: Ladder): set<OrderId> {
    set p, o | p in l.levels && o in l.levels[p].orders :: o.id
  }

  ghost predicate UniqueIds(l: Ladder) {
    forall p, i, q, j, id :: RestsAt(l, p, i, id) && RestsAt(l, q, j, id) ==> p == q && i == j
  }

  ghost predicate NoEmptyLevel(l: Ladder) {
    forall p :: p in l.levels ==> l.levels[p].orders != []
  }

  /** Where order `id` rests. With unique ids there is one such place. */
  ghost function SlotOf(l: Ladder, id: OrderId): (r: (Price, nat))
    requires id in Ids(l)
    ensures RestsAt(l, r.0, r.1, id)
  {
    var p, o :| p in l.levels && o in l.levels[p].orders && o.id == id;
    var i :| 0 <= i < |l.levels[p].orders| && l.levels[p].orders[i] == o;
    (p, i)
  }

  /** Store a level, or erase it when it holds no order. */
  function PutLevel(levels: map<Price, Level>, p: Price, level: Level): map<Price, Level> {
    if level.orders == [] then levels - {p} else levels[p := level]
  }

  function LevelAt(l: Ladder, p: Price): Level {
    if p in l.levels then l.levels[p] else Level(0.0, [])
  }

  function AddOrder(l: Ladder, id: OrderId, p: Price, qty: Qty): Ladder {
    var level := LevelAt(l, p);
    Ladder(l.levels[p := Level(level.depth + qty, level.orders + [Order(id, qty)])], l.total + qty)
  }

  function OpenAt(l: Ladder, p: Price): Ladder {
    l.(levels := l.levels[p := LevelAt(l, p)])
  }

  /**
   The ladder once the i-th order at price p has been settled: it is erased, or
   keeps `left`; its level and the side are debited.
   */
  function SettleAt(l: Ladder, p: Price, i: nat, left: Qty, debit: Qty, gone: bool): Ladder
    requires p in l.levels && i < |l.levels[p].orders|
  {
    var Level(depth, orders) := l.levels[p];
    var orders' := if gone then Without(orders, i) else orders[i := Order(orders[i].id, left)];
    Ladder(PutLevel(l.levels, p, Level(depth - debit, orders')), l.total - debit)
  }

  ghost function RemoveOrder(l: Ladder, id: OrderId): Ladder {
    if id !in Ids(l) then l
    else
      var (p, i) := SlotOf(l, id);
      var qty := l.levels[p].orders[i].qty;
      SettleAt(l, p, i, qty, qty, true)
  }

  /** What an execution is meant to leave of a resting quantity. */
  function LeftOf(resting: Qty, qty: Qty): Qty {
    resting - qty
  }

  /** Debit a resting order by `qty`; it leaves the book when nothing remains. */
  ghost function ExecuteOrder(l: Ladder, id: OrderId, qty: Qty): Ladder {
    if id !in Ids(l) then l
    else
      var (p, i) := SlotOf(l, id);
      var left := LeftOf(l.levels[p].orders[i].qty, qty);
      SettleAt(l, p, i, left, qty, left == 0.0)
  }

  /** What the statement as written leaves of a resting quantity. */
  function LeftAsWritten(resting: Qty, qty: Qty): Qty {
    resting - (if qty == 0.0 then 1.0 else 0.0)
  }

  /**
   The ladder after `execute` as written: the order is erased when something is
   left, the depth keeps its value, and so does this side's total.
   */
  ghost function ExecuteOrderAsWritten(l: Ladder, id: OrderId, qty: Qty): Ladder {
    if id !in Ids(l) then l
    else
      var (p, i) := SlotOf(l, id);
      var left := LeftAsWritten(l.levels[p].orders[i].qty, qty);
      SettleAt(l, p, i, left, 0.0, left != 0.0)
  }

  // ---------- the order of the ladder ----------

  /** Bids are kept highest price first, offers lowest price first. */
  predicate Better(side: Side, p: Price, q: Price) {
    match side
    case Buy => p > q
    case Sell => p < q
  }

  /** p is the first price of the ladder. */
  ghost predicate IsFirst(side: Side, l: Ladder, p: Price) {
    p in l.levels && forall q :: q in l.levels ==> q == p || Better(side, p, q)
  }

  // ---------- which ids rest after each operation ----------

  lemma RestingIdIsListed(l: Ladder, p: Price, i: int, id: OrderId)
    requires RestsAt(l, p, i, id)
    ensures id in Ids(l)
  {
    assert l.levels[p].orders[i] in l.levels[p].orders;
  }

  lemma OpenThenAdd(l: Ladder, id: OrderId, p: Price, qty: Qty)
    ensures AddOrder(OpenAt(l, p), id, p, qty) == AddOrder(l, id, p, qty)
  {
    var m := OpenAt(l, p);
    assert LevelAt(m, p) == LevelAt(l, p);
    assert m.levels[p := AddOrder(l, id, p, qty).levels[p]] == AddOrder(l, id, p, qty).levels;
  }

  lemma IdsAfterAdd(l: Ladder, id: OrderId, p: Price, qty: Qty)
    ensures Ids(AddOrder(l, id, p, qty)) == Ids(l) + {id}
    ensures NoEmptyLevel(l) ==> NoEmptyLevel(AddOrder(l, id, p, qty))
  {
    var m := AddOrder(l, id, p, qty);
    var orders := LevelAt(l, p).orders;
    assert forall o :: o in m.levels[p].orders <==> o in orders || o == Order(id, qty);
    forall x ensures x in Ids(m) <==> x in Ids(l) + {id}
    {
      if x in Ids(l) {
        var q, o :| q in l.levels && o in l.levels[q].orders && o.id == x;
        assert o in m.levels[q].orders;
      }
      if x == id {
        assert Order(id, qty) in m.levels[p].orders;
      }
    }
  }

  /** Where an order of the settled ladder came from, and where an order of the old one goes. */
  lemma SettleShifts(l: Ladder, p: Price, i: nat, left: Qty, debit: Qty, gone: bool, q: Price, j: int, x: OrderId)
    requires p in l.levels && i < |l.levels[p].orders|
    ensures RestsAt(SettleAt(l, p, i, left, debit, gone), q, j, x) ==>
              RestsAt(l, q, if gone && q == p && i <= j then j + 1 else j, x)
    ensures RestsAt(l, q, j, x) && !(gone && q == p && j == i) ==>
              RestsAt(SettleAt(l, p, i, left, debit, gone), q, if gone && q == p && i < j then j - 1 else j, x)
  {
  }

  /** Settling an order takes its id out of the ladder exactly when it is erased. */
  lemma IdsAfterSettle(l: Ladder, p: Price, i: nat, left: Qty, debit: Qty, gone: bool)
    requires UniqueIds(l) && p in l.levels && i < |l.levels[p].orders|
    ensures Ids(SettleAt(l, p, i, left, debit, gone)) == Ids(l) - if gone then {l.levels[p].orders[i].id} else {}
    ensures NoEmptyLevel(l) ==> NoEmptyLevel(SettleAt(l, p, i, left, debit, gone))
  {
    var id := l.levels[p].orders[i].id;
    var m := SettleAt(l, p, i, left, debit, gone);
    assert RestsAt(l, p, i, id);
    forall x | x in Ids(m) ensures x in Ids(l) && (gone ==> x != id)
    {
      var (q, j) := SlotOf(m, x);
      SettleShifts(l, p, i, left, debit, gone, q, j, x);
      RestingIdIsListed(l, q, if gone && q == p && i <= j then j + 1 else j, x);
    }
    forall x | x in Ids(l) && (gone ==> x != id) ensures x in Ids(m)
    {
      var (q, j) := SlotOf(l, x);
      SettleShifts(l, p, i, left, debit, gone, q, j, x);
      RestingIdIsListed(m, q, if gone && q == p && i < j then j - 1 else j, x);
    }
  }

  /** Revaluing an order just before erasing it leaves no trace but the quantities. */
  lemma SettleInTwoSteps(l: Ladder, p: Price, i: nat, left: Qty, debit: Qty)
    requires p in l.levels && i < |l.levels[p].orders|
    ensures var m := SettleAt(l, p, i, left, debit, false);
            && p in m.levels && i < |m.levels[p].orders|
            && Ladder(PutLevel(m.levels, p, m.levels[p].(orders := Without(m.levels[p].orders, i))), m.total)
                 == SettleAt(l, p, i, left, debit, true)
  {
    var m := SettleAt(l, p, i, left, debit, false);
    assert Without(m.levels[p].orders, i) == Without(l.levels[p].orders, i);
    assert m.levels - {p} == l.levels - {p};
  }
}
