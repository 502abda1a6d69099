/**
 Where the service copies the live book onto a snapshot that still holds orders. There copy
 assignment as written keeps cache entries of orders that are gone, so that its next replay
 would follow them; elsewhere it does what it means.
 */
module StaleCopies {
  import opened Readings
  import opened Ticks
  import opened Ladders
  import opened Books
  import opened Feeds
  import opened SnapshotRuns
  import opened ServiceRuns
  import opened BookFeeds
  import opened ListenerBooks

  /** The call copies the live book onto a recycled snapshot whose indexes are not empty. */
  ghost predicate CopiesOverOrders(rd: Reading, s: Service<Book>, t: Tick) {
    var a := Advance(BookFeed(rd), s, t);
    var x := Allocated(BookFeed(rd), s.pool);
    !Replayable(a, x) && !HoldsNothing(x.book)
  }

  /** Neither a snapshot tick nor an older generation nor a number pruned away stands in the way of replay. */
  ghost predicate InLog<B>(s: Service<B>, x: Snap<B>, t: Tick) {
    !t.Snapshot? && x.generation == s.generation && x.sequence in s.history.ticks
  }

  lemma {:induction false} ReplayableIff(rd: Reading, evs: seq<Event>, t: Tick, x: Snap<Book>)
    requires x in Snaps(Run(BookFeed(rd), evs))
    ensures var s := Run(BookFeed(rd), evs).svc;
            Replayable(Advance(BookFeed(rd), s, t), x) <==> InLog(s, x, t)
  {
    var w := Run(BookFeed(rd), evs);
    BooksReset(rd);
    RunKeeps(BookFeed(rd), evs);
    InvSnapshot(BookFeed(rd), w.svc, Snaps(w), Gens(evs), x);
    var low := InvHistory(BookFeed(rd), w.svc, Snaps(w), Gens(evs));
  }

  /** The ticks a snapshot was handed out for, the very first one excepted, leave no order resting. */
  ghost predicate ShowsNothing(rd: Reading, gens: seq<seq<Tick>>, x: Snap<Book>)
    requires x.generation < |gens| && x.sequence < |gens[x.generation]|
  {
    || (x.generation == 0 && x.sequence == 0)
    || HoldsNothing(Fold(BookFeed(rd), FRESH, gens[x.generation][..x.sequence + 1]))
  }

  lemma PooledIsSnap<B>(w: World<B>)
    requires w.svc.pool != []
    ensures w.svc.pool[|w.svc.pool| - 1] in Snaps(w)
  {
    assert w.svc.pool[|w.svc.pool| - 1] in multiset(w.svc.pool);
  }

  lemma BlankHoldsNothing()
    ensures HoldsNothing(FRESH)
  {
  }

  lemma {:induction false} PooledShows(rd: Reading, evs: seq<Event>)
    requires Run(BookFeed(rd), evs).svc.pool != []
    ensures var w := Run(BookFeed(rd), evs);
            var x := w.svc.pool[|w.svc.pool| - 1];
            && x in Snaps(w)
            && x.generation < |Gens(evs)| && x.sequence < |Gens(evs)[x.generation]|
            && (HoldsNothing(x.book) <==> ShowsNothing(rd, Gens(evs), x))
  {
    var w := Run(BookFeed(rd), evs);
    var x := w.svc.pool[|w.svc.pool| - 1];
    PooledIsSnap(w);
    BookSnapshotShows(rd, evs, x);
    BlankHoldsNothing();
  }

  /**
   After any run, a call copies over orders exactly when the snapshot it recycles is out of
   reach of replay and the ticks that one shows leave an order resting.
   */
  lemma {:induction false} CopiesOverOrdersIff(rd: Reading, evs: seq<Event>, t: Tick)
    ensures var s := Run(BookFeed(rd), evs).svc;
            CopiesOverOrders(rd, s, t) <==>
              s.pool != [] &&
              var x := s.pool[|s.pool| - 1];
              && !InLog(s, x, t)
              && x.generation < |Gens(evs)| && x.sequence < |Gens(evs)[x.generation]|
              && !ShowsNothing(rd, Gens(evs), x)
  {
    var s := Run(BookFeed(rd), evs).svc;
    if s.pool != [] {
      PooledShows(rd, evs);
      ReplayableIff(rd, evs, t, s.pool[|s.pool| - 1]);
    }
  }

  // ---------- under the listener's discipline ----------

  /** The snapshot in the pool is the one that was shown before the last tick. */
  lemma PoolHoldsPrevious(rd: Reading, ts: seq<Tick>)
    requires |ts| >= 2
    ensures var s := Shown(rd, ts).svc;
            && s.pool == Shown(rd, ts[..|ts| - 1]).held
            && s.history.next == (if ts[|ts| - 1].Snapshot? then 1 else Shown(rd, ts[..|ts| - 1]).svc.history.next + 1)
  {
    var f, n := BookFeed(rd), |ts| - 1;
    var evs, e := ListenerEvents(ts[..n]), Arrive(ts[n]);
    ListenerRun(f, ts[..n]);
    AppendEvent(f, evs, e);
    AppendEvent(f, evs + [e], Return(0));
    ProcessInParts(f, Run(f, evs).svc, ts[n]);
  }

  /** What that snapshot shows. */
  lemma PooledBook(rd: Reading, ts: seq<Tick>)
    requires |ts| >= 2
    ensures var n, pool := |ts| - 1, Shown(rd, ts).svc.pool;
            && |pool| == 1
            && pool[0].book == if n == 1 && ts[0].Add? then FRESH else Fold(BookFeed(rd), FRESH, ts[..n])
  {
    PoolHoldsPrevious(rd, ts);
    ShowsLiveBookIff(rd, ts[..|ts| - 1]);
    LiveIsFold(rd, ts[..|ts| - 1]);
  }

  /** Replay reaches it unless a snapshot tick comes between, or it is the very first snapshot of generation 0. */
  lemma PooledIsReplayable(rd: Reading, ts: seq<Tick>, t: Tick)
    requires |ts| >= 2
    ensures var n, s := |ts| - 1, Shown(rd, ts).svc;
            && |s.pool| == 1
            && (Replayable(Advance(BookFeed(rd), s, t), s.pool[0]) <==>
                  !t.Snapshot? && !ts[n].Snapshot? && !(n == 1 && !ts[0].Snapshot?))
  {
    var n := |ts| - 1;
    PoolHoldsPrevious(rd, ts);
    ListenerRun(BookFeed(rd), ts);
    ListenerRun(BookFeed(rd), ts[..n]);
    if n == 1 {
      NoSnapshotTickIn(ts[..1], ts[1]);
      assert ts == ts[..1] + [ts[1]];
    } else {
      assert ts[n] in ts;
    }
  }

  /** A blank book takes no harm from a tick that is neither an addition nor a snapshot tick. */
  lemma OtherTickLeavesBlank(rd: Reading, ts: seq<Tick>)
    requires |ts| == 1 && !ts[0].Snapshot? && !ts[0].Add?
    ensures Fold(BookFeed(rd), FRESH, ts) == FRESH
  {
    HarmlessOnFreshBook(rd, ts[0]);
    FoldAppend(BookFeed(rd), FRESH, [], ts[0]);
    assert [] + [ts[0]] == ts;
  }

  /**
   A listener copies over orders exactly when the last tick or the one before it is a
   snapshot tick and its book before those two holds an order, unless that was a lone
   first addition, which no snapshot shows.
   */
  lemma ListenerCopiesOverOrdersIff(rd: Reading, ts: seq<Tick>)
    requires ts != []
    ensures var n := |ts| - 1;
            CopiesOverOrders(rd, Shown(rd, ts[..n]).svc, ts[n]) <==>
              && n >= 2 && (ts[n].Snapshot? || ts[n - 1].Snapshot?)
              && !(n == 2 && ts[0].Add?)
              && !HoldsNothing(Fold(BookFeed(rd), FRESH, ts[..n - 1]))
  {
    var n := |ts| - 1;
    var past := ts[..n];
    if n == 1 {
      ListenerRun(BookFeed(rd), past);
    } else if n >= 2 {
      assert past[..n - 1] == ts[..n - 1];
      PooledBook(rd, past);
      PooledIsReplayable(rd, past, ts[n]);
      if n == 2 && !ts[0].Snapshot? && !ts[0].Add? {
        OtherTickLeavesBlank(rd, ts[..1]);
      }
    }
  }

  /** The smallest run to get there: two snapshot ticks, the first with an order. */
  lemma SecondSnapshotCopiesOverOrders(rd: Reading, a: AddTick, t: Tick)
    requires t.Snapshot?
    ensures CopiesOverOrders(rd, Run(BookFeed(rd), [Arrive(Snapshot([a], [])), Return(0)]).svc, t)
  {
    var f, u := BookFeed(rd), Snapshot([a], []);
    var one := [Arrive(u)];
    AppendEvent(f, [], Arrive(u));
    AppendEvent(f, one, Return(0));
    assert [] + [Arrive(u)] == one && one + [Return(0)] == [Arrive(u), Return(0)];
    ProcessInParts(f, NewService(f), u);
    SnapshotsEqualLiveBookIff(rd, [], u);
    OneOrderRemains(a);
    assert [a] + [] == [a];
  }

  lemma OneOrderRemains(a: AddTick)
    ensures !HoldsNothing(AddAll(CLEARED, [a]))
  {
    assert [a][..0] == [];
    IdsAfterAdd(EMPTY, a.id, a.price, a.qty);
    assert a.id in Ids(AddOrder(EMPTY, a.id, a.price, a.qty));
  }
}
