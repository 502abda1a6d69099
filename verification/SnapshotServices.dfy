/**
 The snapshot service on the heap. Live book, log and pooled snapshots share no object,
 and a snapshot that has been handed out shares none with the service.
 */
module SnapshotServices {
  import opened Readings
  import opened Ticks
  import opened Books
  import opened OrderBooks
  import opened TickHistories
  import opened SnapshotRuns
  import opened BookFeeds
  import opened Wrappers

  class OrderbookSnapshot {
    var generation: nat
    var sequence: nat
    var upstream: Time
    const book: OrderBook

    ghost predicate Valid()
      reads this, book, book.Repr
    {
      this !in book.Repr && book.Coherent()
    }

    ghost function Repr(): set<object>
      reads book
    {
      {this} + book.Repr
    }

    ghost function Value(): Snap<Book>
      reads this, book, book.bids, book.offers
    {
      Snap(generation, sequence, upstream, book.Model())
    }

    constructor ()
      ensures Valid() && fresh(Repr())
      ensures Value() == Snap(0, 0, EPOCH, FRESH)
    {
      generation, sequence, upstream := 0, 0, EPOCH;
      book := new OrderBook();
    }

    method Relabel(generation: nat, sequence: nat, upstream: Time)
      requires Valid()
      modifies this
      ensures Valid() && Value() == Snap(generation, sequence, upstream, old(book.Model()))
    {
      this.generation, this.sequence, this.upstream := generation, sequence, upstream;
      assert book.Coherent() <==> old(book.Coherent());
    }
  }

  /** Take a book through the logged ticks numbered from `start` up to `end`. */
  method ReplayLog(rd: Reading, book: OrderBook, ticks: map<nat, Tick>, start: nat, end: nat)
    requires book.Coherent() && AcceptsRange(rd, book.Model(), ticks, start, end)
    modifies book.Repr
    ensures book.Coherent() && fresh(book.Repr - old(book.Repr))
    ensures book.Model() == ReplayRange(BookFeed(rd), old(book.Model()), ticks, start, end)
  {
    ghost var before := book.Model();
    var k := start;
    while k < end
      invariant k == start || start < k <= end
      invariant book.Coherent() && fresh(book.Repr - old(book.Repr))
      invariant book.Model() == ReplayRange(BookFeed(rd), before, ticks, start, k)
    {
      if k in ticks {
        book.Replay(rd, ticks[k]);
      }
      k := k + 1;
    }
    ReplayNothing(BookFeed(rd), before, ticks, start, k, end);
  }

  class SnapshotService {
    const reading: Reading
    const history: TickHistory
    const live: OrderBook
    var generation: nat
    var free: seq<OrderbookSnapshot>

    ghost var pool: seq<Snap<Book>>
    ghost var poolRepr: set<object>

    /** The free snapshots spell out `pool`, and no two of them share an object. */
    static ghost predicate Pooled(free: seq<OrderbookSnapshot>, pool: seq<Snap<Book>>, repr: set<object>)
      reads repr
    {
      && |free| == |pool|
      && (forall i :: 0 <= i < |free| ==> free[i] in repr && free[i].book in repr && free[i].Repr() <= repr)
      && (forall i :: 0 <= i < |free| ==> free[i].Valid() && free[i].Value() == pool[i])
      && (forall i, j :: 0 <= i < j < |free| ==> free[i].Repr() !! free[j].Repr())
    }

    /** Snapshots apart from each other stay so with one taken out, which shares nothing with the rest. */
    static lemma PoolWithoutOne(free: seq<OrderbookSnapshot>, pool: seq<Snap<Book>>, repr: set<object>, i: nat)
      requires Pooled(free, pool, repr) && i < |free|
      ensures Pooled(Without(free, i), Without(pool, i), repr - free[i].Repr())
      ensures free[i].Repr() <= repr && free[i].Valid() && free[i].Value() == pool[i]
    {
      assert forall k :: 0 <= k < |free| - 1 ==> Without(free, i)[k] == free[if k < i then k else k + 1];
      assert forall k :: 0 <= k < |free| - 1 ==> Without(pool, i)[k] == pool[if k < i then k else k + 1];
    }

    /** The pool without its last snapshot shares nothing with that one. */
    static lemma PoolWithoutLast(free: seq<OrderbookSnapshot>, pool: seq<Snap<Book>>, repr: set<object>)
      requires Pooled(free, pool, repr) && free != []
      ensures var n, last := |free| - 1, free[|free| - 1].Repr();
              Pooled(free[..n], pool[..n], repr - last) && last <= repr
    {
    }

    static lemma PoolWithOneMore(free: seq<OrderbookSnapshot>, pool: seq<Snap<Book>>, repr: set<object>,
                                 snap: OrderbookSnapshot)
      requires Pooled(free, pool, repr) && snap.Valid() && snap.Repr() !! repr
      ensures Pooled(free + [snap], pool + [snap.Value()], repr + snap.Repr())
    {
    }

    /** The live book is coherent, and service, live book and pool are apart. */
    ghost predicate Valid()
      reads this, live, live.Repr, poolRepr
    {
      match live.Coherent()
      case true =>
        && {this, history} !! live.Repr && {this, history} !! poolRepr && live.Repr !! poolRepr
        && Pooled(free, pool, poolRepr)
      case false => false
    }

    ghost function Repr(): set<object>
      reads this, live
    {
      {this, history} + live.Repr + poolRepr
    }

    ghost function Value(): Service<Book>
      reads this, history, live, live.bids, live.offers
    {
      Service(history.Value(), generation, live.Model(), pool)
    }

    constructor (rd: Reading)
      ensures Valid() && reading == rd
      ensures fresh(history) && fresh(live.Repr) && poolRepr == {}
      ensures Value() == NewService(BookFeed(rd))
    {
      reading := rd;
      history := new TickHistory();
      live := new OrderBook();
      generation, free := 0, [];
      pool, poolRepr := [], {};
    }

    /** Log the tick, in a new generation if it is a snapshot tick. */
    method LogTick(t: Tick)
      requires Valid()
      modifies this`generation, history
      ensures Valid()
      ensures Value() == SnapshotRuns.Advance(BookFeed(reading), old(Value()), t).(live := old(Value()).live)
    {
      if t.Snapshot? {
        history.Reset();
        generation := generation + 1;
      }
      history.AddTick(t);
      assert Valid() <==> old(Valid());
    }

    method Advance(t: Tick)
      requires Valid() && Accepts(live.Model(), t)
      modifies this`generation, history, live.Repr
      ensures Valid() && FromOrNew(old(live.Repr), live.Repr)
      ensures Value() == SnapshotRuns.Advance(BookFeed(reading), old(Value()), t)
    {
      LogTick(t);
      live.Replay(reading, t);
    }

    /** The snapshot that was returned last leaves the pool. */
    method TakeLast() returns (snap: OrderbookSnapshot)
      requires Valid() && free != []
      modifies this`free, this`pool, this`poolRepr
      ensures Valid() && poolRepr <= old(poolRepr)
      ensures snap.Valid() && snap.Repr() !! Repr() && snap.Repr() <= old(poolRepr)
      ensures snap.Value() == old(pool[|pool| - 1]) && pool == Remaining(old(pool))
    {
      PoolWithoutLast(free, pool, poolRepr);
      snap := free[|free| - 1];
      free, pool := free[..|free| - 1], pool[..|free| - 1];
      poolRepr := poolRepr - snap.Repr();
      assert Pooled(free, pool, poolRepr) && snap.Valid();
    }

    /** A snapshot from the pool, or a fresh one; it leaves the service's objects. */
    method Allocate() returns (snap: OrderbookSnapshot)
      requires Valid()
      modifies this`free, this`pool, this`poolRepr
      ensures Valid() && poolRepr <= old(poolRepr)
      ensures snap.Valid() && snap.Repr() !! Repr()
      ensures FromOrNew(old(poolRepr), {snap} + snap.book.Repr)
      ensures snap.Value() == Allocated(BookFeed(reading), old(pool))
      ensures Value() == old(Value()).(pool := Remaining(old(pool)))
    {
      if |free| == 0 {
        snap := new OrderbookSnapshot();
        assert Valid() <==> old(Valid());
      } else {
        snap := TakeLast();
      }
    }

    /** Replay the ticks the snapshot lacks. */
    method ReplayOnto(snap: OrderbookSnapshot)
      requires Valid() && snap.Valid() && snap.Repr() !! Repr()
      requires AcceptsReplay(reading, Value(), snap.Value()) && Replayable(Value(), snap.Value())
      modifies snap.book.Repr
      ensures Valid() && snap.Valid() && FromOrNew(old(snap.book.Repr), snap.book.Repr)
      ensures snap.Repr() !! Repr() && Value() == old(Value())
      ensures snap.book.Model() == SnapshotRuns.CatchUp(BookFeed(reading), old(Value()), old(snap.Value()))
    {
      ReplayLog(reading, snap.book, history.history, snap.sequence + 1, history.nextSequence);
      assert Valid() <==> old(Valid());
    }

    /** Copy the live book. */
    method CopyOnto(snap: OrderbookSnapshot)
      requires Valid() && snap.Valid() && snap.Repr() !! Repr()
      modifies snap.book.Repr
      ensures Valid() && snap.Valid() && FromOrNew(old(snap.book.Repr), snap.book.Repr)
      ensures snap.Repr() !! Repr() && Value() == old(Value())
      ensures snap.book.Model() == live.Model()
    {
      snap.book.Assign(live);
      assert Valid() <==> old(Valid());
    }

    /** Replay what the snapshot lacks and take back its mark, or copy the live book. */
    method CatchUp(snap: OrderbookSnapshot)
      requires Valid() && snap.Valid() && snap.Repr() !! Repr()
      requires AcceptsReplay(reading, Value(), snap.Value())
      modifies snap.book.Repr, history`watermarks, history`history
      ensures Valid() && snap.Valid() && FromOrNew(old(snap.book.Repr), snap.book.Repr)
      ensures Repr() == old(Repr()) && snap.Repr() !! Repr()
      ensures Value() == old(Value()).(history := Prune(old(Value()), old(snap.Value())))
      ensures snap.book.Model() == SnapshotRuns.CatchUp(BookFeed(reading), old(Value()), old(snap.Value()))
    {
      if snap.generation == generation && snap.sequence in history.history {
        ReplayOnto(snap);
        label L:
        history.RemoveWatermark(snap.sequence);
        assert Valid() <==> old@L(Valid());
        assert snap.Valid() <==> old@L(snap.Valid());
      } else {
        CopyOnto(snap);
      }
    }

    /** A snapshot brought up to the live book. */
    method Recycle() returns (snap: OrderbookSnapshot)
      requires Valid() && AcceptsCatchUp(reading, Value())
      modifies this`free, this`pool, this`poolRepr, poolRepr, history`watermarks, history`history
      ensures Valid() && poolRepr <= old(poolRepr)
      ensures snap.Valid() && snap.Repr() !! Repr()
      ensures FromOrNew(old(poolRepr), {snap} + snap.book.Repr)
      ensures (Value(), snap.book.Model()) == Recycled(BookFeed(reading), old(Value()))
    {
      ghost var s, x := Value(), Allocated(BookFeed(reading), pool);
      CatchUpIgnoresPool(BookFeed(reading), s, x, Remaining(pool));
      ReplayIgnoresPool(reading, s, x, Remaining(pool));
      snap := Allocate();
      assert AcceptsReplay(reading, Value(), snap.Value())
        <==> AcceptsReplay(reading, s.(pool := Remaining(s.pool)), x);
      CatchUp(snap);
    }

    /** Label the snapshot with the tick it shows, and mark that tick. */
    method Label(snap: OrderbookSnapshot)
      requires Valid() && snap.Valid() && snap.Repr() !! Repr() && history.nextSequence > 0
      modifies snap, history`watermarks
      ensures Valid() && snap.Valid()
      ensures (Value(), snap.Value()) == Labelled(BookFeed(reading), old(Value()), old(snap.book.Model()))
    {
      var sequence := history.HighestSequence();
      snap.Relabel(generation, sequence, live.lastUpdate);
      assert Valid() <==> old(Valid());
      assert Value() == old(Value());
      label L:
      history.AddWatermark(sequence);
      assert Valid() <==> old@L(Valid());
      assert snap.Valid() <==> old@L(snap.Valid());
    }

    method HandOut() returns (snap: OrderbookSnapshot)
      requires Valid() && AcceptsCatchUp(reading, Value()) && history.nextSequence > 0
      modifies this`free, this`pool, this`poolRepr, poolRepr, history`watermarks, history`history
      ensures Valid() && poolRepr <= old(poolRepr)
      ensures snap.Valid() && snap.Repr() !! Repr()
      ensures FromOrNew(old(poolRepr), {snap} + snap.book.Repr)
      ensures (Value(), snap.Value()) == SnapshotRuns.HandOut(BookFeed(reading), old(Value()))
    {
      snap := Recycle();
      Label(snap);
    }

    method ProcessTick(t: Tick) returns (snap: OrderbookSnapshot)
      requires Valid() && AcceptsCall(reading, Value(), t)
      modifies Repr()
      ensures Valid() && FromOrNew(old(live.Repr), live.Repr) && poolRepr <= old(poolRepr)
      ensures snap.Valid() && snap.Repr() !! Repr()
      ensures FromOrNew(old(poolRepr), {snap} + snap.book.Repr)
      ensures (Value(), snap.Value()) == Process(BookFeed(reading), old(Value()), t)
    {
      ghost var a := SnapshotRuns.Advance(BookFeed(reading), Value(), t);
      Advance(t);
      assert AcceptsCatchUp(reading, Value()) <==> AcceptsCatchUp(reading, a);
      snap := HandOut();
    }

    method DeallocateSnapshot(snap: OrderbookSnapshot)
      requires Valid() && snap.Valid() && snap.Repr() !! Repr()
      modifies this`free, this`pool, this`poolRepr
      ensures Valid() && Repr() == old(Repr()) + snap.Repr()
      ensures Value() == Deallocate(old(Value()), snap.Value())
    {
      PoolWithOneMore(free, pool, poolRepr, snap);
      free, pool := free + [snap], pool + [snap.Value()];
      poolRepr := poolRepr + snap.Repr();
      assert Pooled(free, pool, poolRepr);
    }
  }
}
