/**
 The order book as a value, and what each tick does to it. Equality of two such
 values is the equality of order books: it does not look at any index.
 */
module Books {
  import opened Readings
  import opened Ticks
  import opened Ladders
  import opened Wrappers

  datatype Book = Book(lastUpdate: Time, bids: Ladder, offers: Ladder)

  const FRESH := Book(EPOCH, EMPTY, EMPTY)
  const CLEARED := Book(TIME_MIN, EMPTY, EMPTY)

  function LadderOf(b: Book, side: Side): Ladder {
    match side
    case Buy => b.bids
    case Sell => b.offers
  }

  function WithLadder(b: Book, side: Side, l: Ladder): Book {
    match side
    case Buy => b.(bids := l)
    case Sell => b.(offers := l)
  }

  /** No order rests on either side. */
  predicate HoldsNothing(b: Book) {
    Ids(b.bids) == {} && Ids(b.offers) == {}
  }

  function AddTo(b: Book, a: AddTick): Book {
    WithLadder(b, a.side, AddOrder(LadderOf(b, a.side), a.id, a.price, a.qty))
      .(lastUpdate := Later(b.lastUpdate, a.time))
  }

  function AddAll(b: Book, adds: seq<AddTick>): Book
    decreases |adds|
  {
    if adds == [] then b else AddTo(AddAll(b, adds[..|adds| - 1]), adds[|adds| - 1])
  }

  lemma AddAllStep(b: Book, adds: seq<AddTick>, k: nat)
    requires k < |adds|
    ensures AddAll(b, adds[..k + 1]) == AddTo(AddAll(b, adds[..k]), adds[k])
  {
    assert adds[..k + 1][..k] == adds[..k];
  }

  /** An unknown id leaves the whole book alone, its last update included. */
  ghost function RemoveFrom(b: Book, id: OrderId, time: Time, side: Side): Book {
    if id !in Ids(LadderOf(b, side)) then b
    else WithLadder(b, side, RemoveOrder(LadderOf(b, side), id)).(lastUpdate := Later(b.lastUpdate, time))
  }

  /** What `execute` as written does to the side named. */
  ghost function ExecuteOnSide(b: Book, id: OrderId, qty: Qty, time: Time, side: Side): Book {
    if id !in Ids(LadderOf(b, side)) then b
    else
      WithLadder(b, side, ExecuteOrderAsWritten(LadderOf(b, side), id, qty)).(lastUpdate := Later(b.lastUpdate, time))
  }

  function BidsDebited(b: Book, qty: Qty): Book {
    b.(bids := b.bids.(total := b.bids.total - qty))
  }

  /** Both branches of `execute` as written debit the total of the bids. */
  ghost function ExecuteOn(rd: Reading, b: Book, id: OrderId, qty: Qty, time: Time, side: Side): Book {
    var l := LadderOf(b, side);
    if id !in Ids(l) then b
    else
      match rd
      case Intended => WithLadder(b, side, ExecuteOrder(l, id, qty)).(lastUpdate := Later(b.lastUpdate, time))
      case AsWritten => BidsDebited(ExecuteOnSide(b, id, qty, time, side), qty)
  }

  ghost function Apply(rd: Reading, b: Book, t: Tick): Book {
    match t
    case Add(a) => AddTo(b, a)
    case Remove(id, time, side) => RemoveFrom(b, id, time, side)
    case Execute(id, _, qty, time, side) => ExecuteOn(rd, b, id, qty, time, side)
    case Snapshot(bids, offers) => AddAll(CLEARED, bids + offers)
  }

  // ---------- the feed's promise: an added id is not already live on its side ----------

  ghost predicate AcceptsAdd(b: Book, a: AddTick) {
    a.id !in Ids(LadderOf(b, a.side))
  }

  ghost predicate AcceptsAdds(b: Book, adds: seq<AddTick>) {
    forall k :: 0 <= k < |adds| ==> AcceptsAdd(AddAll(b, adds[..k]), adds[k])
  }

  lemma {:induction false} AddAllSplit(b: Book, x: seq<AddTick>, y: seq<AddTick>)
    ensures AddAll(b, x + y) == AddAll(AddAll(b, x), y)
    decreases |y|
  {
    if y == [] {
      assert x + y == x;
    } else {
      var n := |y| - 1;
      AddAllSplit(b, x, y[..n]);
      assert (x + y)[..|x| + n] == x + y[..n];
    }
  }

  lemma {:induction false} AcceptsAddsSplit(b: Book, x: seq<AddTick>, y: seq<AddTick>)
    requires AcceptsAdds(b, x + y)
    ensures AcceptsAdds(b, x) && AcceptsAdds(AddAll(b, x), y)
  {
    forall k | 0 <= k < |x| ensures AcceptsAdd(AddAll(b, x[..k]), x[k]) {
      assert (x + y)[..k] == x[..k] && (x + y)[k] == x[k];
    }
    forall k | 0 <= k < |y| ensures AcceptsAdd(AddAll(AddAll(b, x), y[..k]), y[k]) {
      AddAllSplit(b, x, y[..k]);
      assert (x + y)[..|x| + k] == x + y[..k] && (x + y)[|x| + k] == y[k];
    }
  }

  ghost predicate Accepts(b: Book, t: Tick) {
    match t
    case Add(a) => AcceptsAdd(b, a)
    case Snapshot(bids, offers) => AcceptsAdds(CLEARED, bids + offers)
    case _ => true
  }

  // ---------- execute: the text against its meaning ----------

  /** The quantity an order has left, and how many orders its level holds. */
  ghost function RestingQty(l: Ladder, id: OrderId): Qty
    requires id in Ids(l)
  {
    var (p, i) := SlotOf(l, id);
    l.levels[p].orders[i].qty
  }

  ghost function OrdersBeside(l: Ladder, id: OrderId): nat
    requires id in Ids(l)
  {
    |l.levels[SlotOf(l, id).0].orders| - 1
  }

  /** As written, the level is looked up through the cache entry just erased. */
  ghost predicate ReadsErasedEntry(l: Ladder, id: OrderId, qty: Qty) {
    id in Ids(l) && LeftAsWritten(RestingQty(l, id), qty) != 0.0 && OrdersBeside(l, id) == 0
  }

  /**
   The text does what it means exactly when the order is unknown, or is a bid
   executed in full that has its level to itself (or nothing is executed of nothing).
   */
  lemma ExecuteAsWrittenIsRightIff(b: Book, id: OrderId, qty: Qty, time: Time, side: Side)
    ensures ExecuteOn(AsWritten, b, id, qty, time, side) == ExecuteOn(Intended, b, id, qty, time, side) <==>
              || id !in Ids(LadderOf(b, side))
              || (qty == RestingQty(LadderOf(b, side), id)
                  && (qty == 0.0 || (side == Buy && OrdersBeside(LadderOf(b, side), id) == 0)))
  {
    var l := LadderOf(b, side);
    if id in Ids(l) {
      var (p, i) := SlotOf(l, id);
      var Level(depth, orders) := l.levels[p];
      var w, m := ExecuteOrderAsWritten(l, id, qty), ExecuteOrder(l, id, qty);
      assert |orders| == 1 ==> Without(orders, i) == [];
      assert |orders| > 1 ==> |Without(orders, i)| == |orders| - 1;
      if w.levels == m.levels {
        assert p in w.levels <==> p in m.levels;
        assert p in w.levels ==> w.levels[p] == m.levels[p];
      }
    }
  }

  /** And on orders of positive quantity it is right only by reading an erased entry. */
  lemma RightOnlyThroughErasedEntry(b: Book, id: OrderId, qty: Qty, time: Time, side: Side)
    requires id in Ids(LadderOf(b, side)) && RestingQty(LadderOf(b, side), id) > 0.0
    requires ExecuteOn(AsWritten, b, id, qty, time, side) == ExecuteOn(Intended, b, id, qty, time, side)
    ensures ReadsErasedEntry(LadderOf(b, side), id, qty)
  {
    ExecuteAsWrittenIsRightIff(b, id, qty, time, side);
  }
}
