/** The snapshot service over order books: what its runs promise in terms of ticks. */
module BookFeeds {
  import opened Readings
  import opened Ticks
  import opened Books
  import opened Feeds
  import opened TickHistories
  import opened SnapshotRuns
  import opened ServiceRuns

  ghost function BookFeed(rd: Reading): Feed<Book> {
    Feed((b, t) => Apply(rd, b, t), FRESH, (b: Book) => b.lastUpdate)
  }

  lemma BooksReset(rd: Reading)
    ensures Resets(BookFeed(rd))
  {
  }

  /** Short of a snapshot, only an addition changes an empty book. */
  lemma HarmlessOnFreshBook(rd: Reading, t: Tick)
    requires !t.Snapshot?
    ensures Harmless(BookFeed(rd), t) <==> !t.Add?
  {
    if t.Add? {
      assert t.order.price in LadderOf(Apply(rd, FRESH, t), t.order.side).levels;
    }
  }

  /**
   With either reading of `execute`, after any run a call hands out the live book, with its
   last update, unless the tick it brings is an addition and the first tick of all. Such a
   call hands out an empty book.
   */
  lemma {:induction false} SnapshotsEqualLiveBookIff(rd: Reading, evs: seq<Event>, t: Tick)
    ensures var (s, x) := Process(BookFeed(rd), Run(BookFeed(rd), evs).svc, t);
            && (x.book == s.live <==> !(NoTick(evs) && t.Add?))
            && (NoTick(evs) && t.Add? ==> x.book == FRESH && s.live == AddTo(FRESH, t.order))
            && x.upstream == s.live.lastUpdate
  {
    BooksReset(rd);
    SnapshotIsLiveIff(BookFeed(rd), evs, t);
    NoTickIff(BookFeed(rd), evs);
    if !t.Snapshot? {
      HarmlessOnFreshBook(rd, t);
    }
  }

  /** What a snapshot of books shows, held or pooled, after any run. */
  lemma {:induction false} BookSnapshotShows(rd: Reading, evs: seq<Event>, x: Snap<Book>)
    requires x in Snaps(Run(BookFeed(rd), evs))
    ensures var gens := Gens(evs);
            && x.generation < |gens| && x.sequence < |gens[x.generation]|
            && x.book == if x.generation == 0 && x.sequence == 0 then FRESH
                         else Fold(BookFeed(rd), FRESH, gens[x.generation][..x.sequence + 1])
  {
    BooksReset(rd);
    SnapshotShowsPrefix(BookFeed(rd), evs, x, FRESH);
  }

  // ---------- the feed's promise carries over to replay ----------

  /** Every tick of a log is acceptable where it occurs. */
  ghost predicate AcceptsLog(rd: Reading, log: seq<Tick>) {
    forall k :: 0 <= k < |log| ==> Accepts(Fold(BookFeed(rd), FRESH, log[..k]), log[k])
  }

  ghost predicate AcceptsRange(rd: Reading, b: Book, ticks: map<nat, Tick>, start: nat, end: nat) {
    forall k: nat :: start <= k < end && k in ticks ==> Accepts(ReplayRange(BookFeed(rd), b, ticks, start, k), ticks[k])
  }

  /** The snapshot can take what the log has for it. */
  ghost predicate AcceptsReplay(rd: Reading, s: Service<Book>, x: Snap<Book>) {
    Replayable(s, x) ==> AcceptsRange(rd, x.book, s.history.ticks, x.sequence + 1, s.history.next)
  }

  ghost predicate AcceptsCatchUp(rd: Reading, s: Service<Book>) {
    AcceptsReplay(rd, s, Allocated(BookFeed(rd), s.pool))
  }

  lemma ReplayIgnoresPool(rd: Reading, s: Service<Book>, x: Snap<Book>, pool: seq<Snap<Book>>)
    ensures AcceptsReplay(rd, s.(pool := pool), x) <==> AcceptsReplay(rd, s, x)
  {
  }

  /** Neither the live book nor the recycled one is given an id that is live on its side. */
  ghost predicate AcceptsCall(rd: Reading, s: Service<Book>, t: Tick) {
    Accepts(s.live, t) && AcceptsCatchUp(rd, Advance(BookFeed(rd), s, t))
  }

  /** Every tick of a run is acceptable to the live book when it arrives. */
  ghost predicate AcceptsRun(rd: Reading, evs: seq<Event>) {
    forall k :: 0 <= k < |evs| && evs[k].Arrive? ==> Accepts(Run(BookFeed(rd), evs[..k]).svc.live, evs[k].tick)
  }

  lemma {:induction false} AcceptedLogGrows(rd: Reading, log: seq<Tick>, t: Tick)
    requires AcceptsLog(rd, log) && Accepts(Fold(BookFeed(rd), FRESH, log), t)
    ensures AcceptsLog(rd, log + [t])
  {
    var log' := log + [t];
    forall k | 0 <= k < |log'| ensures Accepts(Fold(BookFeed(rd), FRESH, log'[..k]), log'[k])
    {
      assert log'[..k] == log[..k];
      assert log[..|log|] == log;
    }
  }

  /** A snapshot tick is as acceptable to a blank book as to any other. */
  lemma SnapshotLogIsAccepted(rd: Reading, b: Book, t: Tick)
    requires t.Snapshot? && Accepts(b, t)
    ensures AcceptsLog(rd, [t])
  {
  }

  lemma {:induction false} AcceptedRunHasAcceptedLog(rd: Reading, evs: seq<Event>)
    requires AcceptsRun(rd, evs)
    ensures AcceptsLog(rd, Gens(evs)[|Gens(evs)| - 1])
  {
    if evs != [] {
      var n, e := |evs| - 1, evs[|evs| - 1];
      var past := evs[..n];
      assert forall k :: 0 <= k < n ==> past[..k] == evs[..k];
      AcceptedRunHasAcceptedLog(rd, past);
      if e.Arrive? {
        BooksReset(rd);
        LiveFollowsLog(BookFeed(rd), past);
        var log := Gens(past)[|Gens(past)| - 1];
        assert Accepts(Run(BookFeed(rd), past).svc.live, e.tick);
        if e.tick.Snapshot? {
          SnapshotLogIsAccepted(rd, Run(BookFeed(rd), past).svc.live, e.tick);
        } else {
          AcceptedLogGrows(rd, log, e.tick);
        }
      }
    }
  }

  lemma {:induction false} LogIsReplayable(rd: Reading, b: Book, h: History, log: seq<Tick>, low: nat, start: nat)
    requires Contiguous(h, low) && Logs(h, log) && AcceptsLog(rd, log)
    requires low <= start <= |log| && b == Fold(BookFeed(rd), FRESH, log[..start])
    ensures AcceptsRange(rd, b, h.ticks, start, |log|)
  {
    forall k: nat | start <= k < |log| && k in h.ticks
      ensures Accepts(ReplayRange(BookFeed(rd), b, h.ticks, start, k), h.ticks[k])
    {
      ReplayReaches(BookFeed(rd), b, h, log, low, start, k);
    }
  }

  lemma {:induction false} AcceptedLogIsReplayable(rd: Reading, a: Service<Book>, log: seq<Tick>, low: nat)
    requires StartsRight(BookFeed(rd), a, log, low, Allocated(BookFeed(rd), a.pool)) && AcceptsLog(rd, log)
    ensures AcceptsCatchUp(rd, a)
  {
    var x := Allocated(BookFeed(rd), a.pool);
    if Replayable(a, x) && x.sequence + 1 < |log| {
      LogIsReplayable(rd, x.book, a.history, log, low, x.sequence + 1);
    }
  }

  lemma {:induction false} NextTickIsAccepted(rd: Reading, evs: seq<Event>, t: Tick)
    requires AcceptsRun(rd, evs + [Arrive(t)])
    ensures Accepts(Run(BookFeed(rd), evs).svc.live, t)
    ensures var gens := NextGens(Gens(evs), t); AcceptsLog(rd, gens[|gens| - 1])
  {
    var evs' := evs + [Arrive(t)];
    AppendEvent(BookFeed(rd), evs, Arrive(t));
    AcceptedRunHasAcceptedLog(rd, evs');
    assert evs'[..|evs|] == evs && evs'[|evs|] == Arrive(t);
  }

  lemma {:induction false} AcceptedTickIsReplayable(rd: Reading, s: Service<Book>, all: multiset<Snap<Book>>,
                                                    gens: seq<seq<Tick>>, t: Tick)
    requires Inv(BookFeed(rd), s, all, gens) && Accepts(s.live, t)
    requires var gens' := NextGens(gens, t); AcceptsLog(rd, gens'[|gens'| - 1])
    ensures AcceptsCall(rd, s, t)
  {
    BooksReset(rd);
    var a, gens' := Advance(BookFeed(rd), s, t), NextGens(gens, t);
    var low := AdvanceKeeps(BookFeed(rd), s, all, gens, t);
    AdvanceKeepsMarks(BookFeed(rd), s, all, gens, t);
    AllocatedStartsRight(BookFeed(rd), a, all, gens', low);
    AcceptedLogIsReplayable(rd, a, gens'[a.generation], low);
  }

  /** A feed that keeps its promise to the live book keeps it in every replay as well. */
  lemma {:induction false} AcceptedRunIsReplayable(rd: Reading, evs: seq<Event>, t: Tick)
    requires AcceptsRun(rd, evs + [Arrive(t)])
    ensures AcceptsCall(rd, Run(BookFeed(rd), evs).svc, t)
  {
    var w := Run(BookFeed(rd), evs);
    BooksReset(rd);
    RunKeeps(BookFeed(rd), evs);
    NextTickIsAccepted(rd, evs, t);
    AcceptedTickIsReplayable(rd, w.svc, Snaps(w), Gens(evs), t);
  }
}
