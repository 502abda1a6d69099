/** Two order books side by side: equality and copying, over whole streams of ticks. */
module BookCopies {
  import opened Readings
  import opened Ticks
  import opened Books
  import opened OrderBooks
  import opened Feeds
  import opened BookFeeds
  import opened Wrappers

  /** Two coherent books that share no object. */
  ghost predicate Apart(x: OrderBook, y: OrderBook)
    reads x, x.Repr, y, y.Repr
  {
    match x.Coherent() && y.Coherent()
    case true => x.Repr !! y.Repr
    case false => false
  }

  /** Equal books stay equal under a common stream of ticks, whatever their indexes hold. */
  method ReplayBoth(rd: Reading, x: OrderBook, y: OrderBook, ts: seq<Tick>)
    requires Apart(x, y) && x.Model() == y.Model()
    requires forall k :: 0 <= k < |ts| ==> Accepts(Fold(BookFeed(rd), x.Model(), ts[..k]), ts[k])
    modifies x.Repr, y.Repr
    ensures Apart(x, y)
    ensures x.Model() == y.Model() == Fold(BookFeed(rd), old(x.Model()), ts)
  {
    ghost var before := x.Model();
    var k := 0;
    while k < |ts|
      invariant k <= |ts| && Apart(x, y)
      invariant FromOrNew(old(x.Repr), x.Repr) && FromOrNew(old(y.Repr), y.Repr)
      invariant x.Model() == y.Model() == Fold(BookFeed(rd), before, ts[..k])
    {
      assert ts[..k + 1][..k] == ts[..k];
      ReplayOnBoth(rd, x, y, ts[k]);
      k := k + 1;
    }
    assert ts[..k] == ts;
  }

  method ReplayOnBoth(rd: Reading, x: OrderBook, y: OrderBook, t: Tick)
    requires Apart(x, y) && x.Model() == y.Model()
    requires Accepts(x.Model(), t)
    modifies x.Repr, y.Repr
    ensures Apart(x, y) && FromOrNew(old(x.Repr), x.Repr) && FromOrNew(old(y.Repr), y.Repr)
    ensures x.Model() == y.Model() == Apply(rd, old(x.Model()), t)
  {
    x.Replay(rd, t);
    assert y.Coherent() <==> old(y.Coherent());
    label L:
    y.Replay(rd, t);
    assert x.Coherent() <==> old@L(x.Coherent());
  }

  /** A tick for one of two books leaves the other alone. */
  method ReplayBeside(rd: Reading, x: OrderBook, y: OrderBook, t: Tick)
    requires Apart(x, y) && Accepts(x.Model(), t)
    modifies x.Repr
    ensures Apart(x, y) && Apart(y, x) && FromOrNew(old(x.Repr), x.Repr) && y.Repr == old(y.Repr)
    ensures x.Model() == Apply(rd, old(x.Model()), t) && y.Model() == old(y.Model())
  {
    x.Replay(rd, t);
    assert y.Coherent() <==> old(y.Coherent());
  }

  /** A tick for the copy, or for the book it was copied from. */
  datatype Update = Update(toCopy: bool, tick: Tick)

  function TicksFor(us: seq<Update>, copy: bool): seq<Tick> {
    if us == [] then []
    else
      var u := us[|us| - 1];
      TicksFor(us[..|us| - 1], copy) + if u.toCopy == copy then [u.tick] else []
  }

  /** Either book's state after the updates so far, both having started from the same one. */
  ghost function After(rd: Reading, b: Book, us: seq<Update>, copy: bool): Book {
    Fold(BookFeed(rd), b, TicksFor(us, copy))
  }

  lemma AfterNext(rd: Reading, b: Book, us: seq<Update>, k: nat, copy: bool)
    requires k < |us|
    ensures After(rd, b, us[..k + 1], copy)
              == if us[k].toCopy == copy then Apply(rd, After(rd, b, us[..k], copy), us[k].tick)
                 else After(rd, b, us[..k], copy)
  {
    assert us[..k + 1][..k] == us[..k];
    FoldAppend(BookFeed(rd), b, TicksFor(us[..k], copy), us[k].tick);
    assert TicksFor(us[..k], copy) + [] == TicksFor(us[..k], copy);
  }

  /** Every update is acceptable to its book when it comes. */
  ghost predicate AcceptsUpdates(rd: Reading, b: Book, us: seq<Update>) {
    forall k :: 0 <= k < |us| ==> Accepts(After(rd, b, us[..k], us[k].toCopy), us[k].tick)
  }

  /** The k-th update reaches its book. */
  method OnUpdate(rd: Reading, copy: OrderBook, src: OrderBook, ghost b: Book, us: seq<Update>, k: nat)
    requires Apart(copy, src) && k < |us| && AcceptsUpdates(rd, b, us)
    requires copy.Model() == After(rd, b, us[..k], true) && src.Model() == After(rd, b, us[..k], false)
    modifies copy.Repr, src.Repr
    ensures Apart(copy, src) && FromOrNew(old(copy.Repr), copy.Repr) && FromOrNew(old(src.Repr), src.Repr)
    ensures copy.Model() == After(rd, b, us[..k + 1], true) && src.Model() == After(rd, b, us[..k + 1], false)
  {
    AfterNext(rd, b, us, k, true);
    AfterNext(rd, b, us, k, false);
    if us[k].toCopy {
      ReplayBeside(rd, copy, src, us[k].tick);
    } else {
      ReplayBeside(rd, src, copy, us[k].tick);
    }
  }

  method Copy(target: OrderBook, src: OrderBook)
    requires Apart(target, src)
    modifies target.Repr
    ensures Apart(target, src) && FromOrNew(old(target.Repr), target.Repr) && src.Repr == old(src.Repr)
    ensures target.Model() == src.Model() == old(src.Model())
  {
    target.Assign(src);
    assert src.Coherent() <==> old(src.Coherent());
  }

  /**
   A copy goes its own way: whatever the target held, and however updates to the two books
   are interleaved afterwards, each sees its own updates and none of the other's.
   */
  method CopyThenReplay(rd: Reading, target: OrderBook, src: OrderBook, us: seq<Update>)
    requires Apart(target, src) && AcceptsUpdates(rd, src.Model(), us)
    modifies target.Repr, src.Repr
    ensures Apart(target, src)
    ensures target.Model() == After(rd, old(src.Model()), us, true)
    ensures src.Model() == After(rd, old(src.Model()), us, false)
  {
    ghost var b := src.Model();
    Copy(target, src);
    var k := 0;
    while k < |us|
      invariant k <= |us| && Apart(target, src)
      invariant FromOrNew(old(target.Repr), target.Repr) && FromOrNew(old(src.Repr), src.Repr)
      invariant target.Model() == After(rd, b, us[..k], true) && src.Model() == After(rd, b, us[..k], false)
    {
      OnUpdate(rd, target, src, b, us, k);
      k := k + 1;
    }
    assert us[..k] == us;
  }
}
