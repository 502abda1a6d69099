/** The order book on the heap: two sides that share no object. */
module OrderBooks {
  import opened Readings
  import opened Ticks
  import opened Ladders
  import opened Books
  import opened BookSides
  import opened Wrappers

  class OrderBook {
    var lastUpdate: Time
    var bids: BookSide
    var offers: BookSide

    ghost var Repr: set<object>

    ghost predicate Separated()
      reads this, Repr
    {
      && this in Repr && bids in Repr && offers in Repr
      && bids.Repr <= Repr && offers.Repr <= Repr
      && this !in bids.Repr && this !in offers.Repr
      && bids in bids.Repr && offers in offers.Repr
      && bids.Repr !! offers.Repr
    }

    /** The bids are a ladder of bids, the offers one of offers, and both are coherent. */
    ghost predicate Coherent()
      reads this, Repr
    {
      match bids.side
      case Buy => offers.side == Sell && Separated() && bids.Coherent() && offers.Coherent()
      case Sell => false
    }

    ghost function Model(): Book
      reads this, bids, offers
    {
      Book(lastUpdate, bids.Model, offers.Model)
    }

    constructor ()
      ensures Coherent() && fresh(Repr)
      ensures Model() == FRESH
    {
      lastUpdate := EPOCH;
      bids := new BookSide(Buy);
      offers := new BookSide(Sell);
      new;
      Repr := {this} + bids.Repr + offers.Repr;
    }

    method Add(a: AddTick)
      requires Coherent() && AcceptsAdd(Model(), a)
      modifies Repr
      ensures Coherent() && FromOrNew(old(Repr), Repr)
      ensures Model() == AddTo(old(Model()), a)
    {
      var touched := if a.side == Buy then bids else offers;
      ghost var other := if a.side == Buy then offers else bids;
      touched.Add(a.id, a.price, a.qty);
      assert other.Coherent() <==> old(other.Coherent());
      lastUpdate := Later(lastUpdate, a.time);
      Repr := Repr + touched.Repr;
    }

    method Remove(id: OrderId, time: Time, side: Side)
      requires Coherent()
      modifies Repr
      ensures Coherent() && Repr == old(Repr)
      ensures Model() == RemoveFrom(old(Model()), id, time, side)
    {
      var touched := if side == Buy then bids else offers;
      ghost var other := if side == Buy then offers else bids;
      var found := touched.Remove(id);
      assert other.Coherent() <==> old(other.Coherent());
      lastUpdate := if found then Later(lastUpdate, time) else lastUpdate;
    }

    method ExecuteIntended(id: OrderId, qty: Qty, time: Time, side: Side)
      requires Coherent()
      modifies Repr
      ensures Coherent() && Repr == old(Repr)
      ensures Model() == ExecuteOn(Intended, old(Model()), id, qty, time, side)
    {
      var touched := if side == Buy then bids else offers;
      ghost var other := if side == Buy then offers else bids;
      var found := touched.Execute(id, qty);
      assert other.Coherent() <==> old(other.Coherent());
      lastUpdate := if found then Later(lastUpdate, time) else lastUpdate;
    }

    /** The debit both branches of `execute` as written make to the total of the bids. */
    method DebitBids(qty: Qty)
      requires Coherent()
      modifies Repr
      ensures Coherent() && Repr == old(Repr)
      ensures Model() == BidsDebited(old(Model()), qty)
    {
      bids.DebitTotal(qty);
      assert offers.Coherent() <==> old(offers.Coherent());
    }

    /** What `execute` as written does to the side named. */
    method ExecuteOnSide(id: OrderId, qty: Qty, time: Time, side: Side) returns (found: bool)
      requires Coherent()
      modifies Repr
      ensures Coherent() && Repr == old(Repr)
      ensures found <==> id in Ids(LadderOf(old(Model()), side))
      ensures Model() == Books.ExecuteOnSide(old(Model()), id, qty, time, side)
    {
      var touched := if side == Buy then bids else offers;
      ghost var other := if side == Buy then offers else bids;
      found := touched.ExecuteAsWritten(id, qty);
      assert other.Coherent() <==> old(other.Coherent());
      lastUpdate := if found then Later(lastUpdate, time) else lastUpdate;
    }

    method ExecuteAsWritten(id: OrderId, qty: Qty, time: Time, side: Side)
      requires Coherent()
      modifies Repr
      ensures Coherent() && Repr == old(Repr)
      ensures Model() == ExecuteOn(AsWritten, old(Model()), id, qty, time, side)
    {
      var found := ExecuteOnSide(id, qty, time, side);
      if found {
        DebitBids(qty);
      }
    }

    method Execute(rd: Reading, id: OrderId, qty: Qty, time: Time, side: Side)
      requires Coherent()
      modifies Repr
      ensures Coherent() && Repr == old(Repr)
      ensures Model() == ExecuteOn(rd, old(Model()), id, qty, time, side)
    {
      match rd {
        case Intended => ExecuteIntended(id, qty, time, side);
        case AsWritten => ExecuteAsWritten(id, qty, time, side);
      }
    }

    method Reset()
      requires Coherent()
      modifies Repr
      ensures Coherent() && Repr <= old(Repr)
      ensures Model() == CLEARED
    {
      lastUpdate := TIME_MIN;
      bids.Clear();
      offers.Clear();
      Repr := {this, bids, offers};
    }

    /** Copy assignment. The source keeps its nodes to itself, so neither book sees the other's updates. */
    method Assign(src: OrderBook)
      requires Coherent() && src.Coherent() && Repr !! src.Repr
      modifies Repr
      ensures Coherent() && FromOrNew(old(Repr), Repr)
      ensures Model() == src.Model()
    {
      offers.Assign(src.offers);
      assert bids.Coherent() <==> old(bids.Coherent());
      assert src.bids.Coherent() <==> old(src.bids.Coherent());
      label L:
      bids.Assign(src.bids);
      assert offers.Coherent() <==> old@L(offers.Coherent());
      assert bids.Repr !! offers.Repr;
      lastUpdate := src.lastUpdate;
      Repr := {this} + bids.Repr + offers.Repr;
    }

    method Equals(other: OrderBook) returns (same: bool)
      requires Coherent() && other.Coherent()
      ensures same <==> Model() == other.Model()
    {
      if lastUpdate != other.lastUpdate {
        return false;
      }
      same := offers.Same(other.offers);
      if same {
        same := bids.Same(other.bids);
      }
    }

    method TopBid() returns (r: Option<(Qty, Price)>)
      requires Coherent()
      ensures r.None? <==> Model().bids.levels == map[]
      ensures r.Some? ==>
                && r.value.1 in Model().bids.levels && (forall q :: q in Model().bids.levels ==> q <= r.value.1)
                && r.value.0 == Model().bids.levels[r.value.1].depth
    {
      r := bids.Top();
    }

    method TopOffer() returns (r: Option<(Qty, Price)>)
      requires Coherent()
      ensures r.None? <==> Model().offers.levels == map[]
      ensures r.Some? ==>
                && r.value.1 in Model().offers.levels && (forall q :: q in Model().offers.levels ==> r.value.1 <= q)
                && r.value.0 == Model().offers.levels[r.value.1].depth
    {
      r := offers.Top();
    }

    /** `add` of the k-th of these orders. */
    method AddNext(ghost before: Book, adds: seq<AddTick>, k: nat)
      requires k < |adds| && AcceptsAdds(before, adds)
      requires Coherent() && Model() == AddAll(before, adds[..k])
      modifies Repr
      ensures Coherent() && FromOrNew(old(Repr), Repr)
      ensures Model() == AddAll(before, adds[..k + 1])
    {
      AddAllStep(before, adds, k);
      Add(adds[k]);
    }

    /** One of the loops over the orders of a snapshot. */
    method ReplayAdds(adds: seq<AddTick>)
      requires Coherent() && AcceptsAdds(Model(), adds)
      modifies Repr
      ensures Coherent() && FromOrNew(old(Repr), Repr)
      ensures Model() == AddAll(old(Model()), adds)
    {
      ghost var before := Model();
      var i := 0;
      while i < |adds|
        invariant i <= |adds| && Coherent() && FromOrNew(old(Repr), Repr)
        invariant Model() == AddAll(before, adds[..i])
      {
        AddNext(before, adds, i);
        i := i + 1;
      }
      assert adds[..i] == adds;
    }

    method ReplaySnapshot(bids: seq<AddTick>, offers: seq<AddTick>)
      requires Coherent() && AcceptsAdds(CLEARED, bids + offers)
      modifies Repr
      ensures Coherent() && FromOrNew(old(Repr), Repr)
      ensures Model() == AddAll(CLEARED, bids + offers)
    {
      AcceptsAddsSplit(CLEARED, bids, offers);
      AddAllSplit(CLEARED, bids, offers);
      Reset();
      ReplayAdds(bids);
      assert FromOrNew(old(Repr), Repr);
      ReplayAdds(offers);
    }

    /** Bring the book up to date with one tick. */
    method Replay(rd: Reading, t: Tick)
      requires Coherent() && Accepts(Model(), t)
      modifies Repr
      ensures Coherent() && FromOrNew(old(Repr), Repr)
      ensures Model() == Apply(rd, old(Model()), t)
    {
      match t {
        case Snapshot(bids, offers) => ReplaySnapshot(bids, offers);
        case Add(a) => Add(a);
        case Remove(id, time, side) => Remove(id, time, side);
        case Execute(id, _, qty, time, side) => this.Execute(rd, id, qty, time, side);
      }
    }
  }
}
