/** The indexed book against the flat one over whole streams, and what it conserves. */
module FlatRuns {
  import opened Readings
  import opened Ticks
  import opened Ladders
  import opened Books
  import opened Feeds
  import opened BookFeeds
  import opened FlatBooks

  datatype FlatBook = FlatBook(lastUpdate: Time, bids: Flat, offers: Flat)

  function SideOf(b: FlatBook, side: Side): Flat {
    match side
    case Buy => b.bids
    case Sell => b.offers
  }

  function WithSide(b: FlatBook, side: Side, f: Flat): FlatBook {
    match side
    case Buy => b.(bids := f)
    case Sell => b.(offers := f)
  }

  function Touch(b: FlatBook, side: Side, f: Flat, time: Time): FlatBook {
    WithSide(b, side, f).(lastUpdate := Later(b.lastUpdate, time))
  }

  function FlatAddTo(b: FlatBook, a: AddTick): FlatBook {
    Touch(b, a.side, FlatAdd(SideOf(b, a.side), a.id, a.price, a.qty), a.time)
  }

  function FlatAddAll(b: FlatBook, adds: seq<AddTick>): FlatBook {
    if adds == [] then b else FlatAddTo(FlatAddAll(b, adds[..|adds| - 1]), adds[|adds| - 1])
  }

  predicate Holds(b: FlatBook, side: Side, id: OrderId) {
    Find(SideOf(b, side), id) < |SideOf(b, side)|
  }

  function FlatApply(b: FlatBook, t: Tick): FlatBook {
    match t
    case Add(a) => FlatAddTo(b, a)
    case Remove(id, time, side) =>
      if Holds(b, side, id) then Touch(b, side, FlatRemove(SideOf(b, side), id), time) else b
    case Execute(id, _, qty, time, side) =>
      if Holds(b, side, id) then Touch(b, side, FlatExecute(SideOf(b, side), id, qty), time) else b
    case Snapshot(bids, offers) => FlatAddAll(FlatBook(TIME_MIN, [], []), bids + offers)
  }

  function FlatFold(ts: seq<Tick>): FlatBook {
    if ts == [] then FlatBook(EPOCH, [], []) else FlatApply(FlatFold(ts[..|ts| - 1]), ts[|ts| - 1])
  }

  function GroupedBook(b: FlatBook): Book {
    Book(b.lastUpdate, Grouped(b.bids), Grouped(b.offers))
  }

  ghost predicate DistinctBook(b: FlatBook) {
    Distinct(b.bids) && Distinct(b.offers)
  }

  // ---------- refinement ----------

  lemma GroupedEmpty()
    ensures Grouped([]) == EMPTY
  {
    assert Grouped([]).levels == map[];
  }

  lemma RefinesAdd(b: FlatBook, a: AddTick)
    requires DistinctBook(b) && AcceptsAdd(GroupedBook(b), a)
    ensures GroupedBook(FlatAddTo(b, a)) == AddTo(GroupedBook(b), a) && DistinctBook(FlatAddTo(b, a))
  {
    GroupedAdd(SideOf(b, a.side), a.id, a.price, a.qty);
    GroupedIds(SideOf(b, a.side), a.id);
    StaysDistinct(SideOf(b, a.side), a.id, a.price, a.qty);
  }

  lemma RefinesRemove(b: FlatBook, id: OrderId, time: Time, side: Side)
    requires DistinctBook(b)
    ensures var b' := FlatApply(b, Remove(id, time, side));
            GroupedBook(b') == RemoveFrom(GroupedBook(b), id, time, side) && DistinctBook(b')
  {
    var f := SideOf(b, side);
    GroupedIds(f, id);
    GroupedRemove(f, id);
    StaysDistinct(f, id, 0.0, 0.0);
  }

  lemma RefinesExecute(b: FlatBook, id: OrderId, p: Price, qty: Qty, time: Time, side: Side)
    requires DistinctBook(b)
    ensures var b' := FlatApply(b, Execute(id, p, qty, time, side));
            GroupedBook(b') == ExecuteOn(Intended, GroupedBook(b), id, qty, time, side) && DistinctBook(b')
  {
    var f := SideOf(b, side);
    GroupedIds(f, id);
    GroupedExecute(f, id, qty);
    StaysDistinct(f, id, p, qty);
  }

  lemma {:induction false} RefinesAddAll(b: FlatBook, adds: seq<AddTick>)
    requires DistinctBook(b) && AcceptsAdds(GroupedBook(b), adds)
    ensures GroupedBook(FlatAddAll(b, adds)) == AddAll(GroupedBook(b), adds) && DistinctBook(FlatAddAll(b, adds))
  {
    if adds != [] {
      var past := adds[..|adds| - 1];
      assert forall k :: 0 <= k < |past| ==> past[..k] == adds[..k];
      RefinesAddAll(b, past);
      RefinesAdd(FlatAddAll(b, past), adds[|adds| - 1]);
    }
  }

  lemma RefinesApply(b: FlatBook, t: Tick)
    requires DistinctBook(b) && Accepts(GroupedBook(b), t)
    ensures GroupedBook(FlatApply(b, t)) == Apply(Intended, GroupedBook(b), t) && DistinctBook(FlatApply(b, t))
  {
    match t
    case Add(a) =>
      RefinesAdd(b, a);
    case Remove(id, time, side) =>
      RefinesRemove(b, id, time, side);
    case Execute(id, p, qty, time, side) =>
      RefinesExecute(b, id, p, qty, time, side);
    case Snapshot(bids, offers) =>
      GroupedEmpty();
      RefinesAddAll(FlatBook(TIME_MIN, [], []), bids + offers);
  }

  /** Over every accepted stream, the indexed book is the flat book grouped by price. */
  lemma {:induction false} BookRefinesFlat(ts: seq<Tick>)
    requires AcceptsLog(Intended, ts)
    ensures Fold(BookFeed(Intended), FRESH, ts) == GroupedBook(FlatFold(ts)) && DistinctBook(FlatFold(ts))
  {
    if ts == [] {
      GroupedEmpty();
    } else {
      var past := ts[..|ts| - 1];
      assert forall k :: 0 <= k < |past| ==> past[..k] == ts[..k];
      BookRefinesFlat(past);
      RefinesApply(FlatFold(past), ts[|ts| - 1]);
    }
  }
}
