/** The heap service over whole runs, beside the snapshots its callers hold. */
module ServiceDrivers {
  import opened Readings
  import opened Ticks
  import opened Books
  import opened SnapshotRuns
  import opened ServiceRuns
  import opened BookFeeds
  import opened SnapshotServices
  import opened Wrappers

  /**
   The held snapshots spell out `ws`, are apart from each other, and share no object with
   the service. A call that leaves `ws` as a prefix has left each of them as it was.
   */
  ghost predicate Beside(svc: SnapshotService, held: seq<OrderbookSnapshot>, ws: seq<Snap<Book>>, repr: set<object>)
    reads svc, svc.live, repr
  {
    SnapshotService.Pooled(held, ws, repr) && repr !! svc.Repr()
  }

  /** A tick arrives; the snapshot handed out joins those held, none of which changes. */
  method OnArrive(svc: SnapshotService, held: seq<OrderbookSnapshot>, ghost ws: seq<Snap<Book>>,
                  ghost repr: set<object>, t: Tick)
    returns (held': seq<OrderbookSnapshot>, ghost repr': set<object>)
    requires svc.Valid() && Beside(svc, held, ws, repr) && AcceptsCall(svc.reading, svc.Value(), t)
    modifies svc.Repr()
    ensures svc.Valid() && held' != [] && held'[..|held'| - 1] == held
    ensures var (s, x) := Process(BookFeed(svc.reading), old(svc.Value()), t);
            svc.Value() == s && Beside(svc, held', ws + [x], repr')
    ensures FromOrNew(old(svc.Repr()) + repr, svc.Repr() + repr')
  {
    var snap := svc.ProcessTick(t);
    assert SnapshotService.Pooled(held, ws, repr);
    SnapshotService.PoolWithOneMore(held, ws, repr, snap);
    held' := held + [snap];
    repr' := repr + snap.Repr();
  }

  /** A holder gives the i-th snapshot back. */
  method OnReturn(svc: SnapshotService, held: seq<OrderbookSnapshot>, ghost ws: seq<Snap<Book>>,
                  ghost repr: set<object>, i: nat)
    returns (held': seq<OrderbookSnapshot>, ghost repr': set<object>)
    requires svc.Valid() && Beside(svc, held, ws, repr) && i < |held|
    modifies svc
    ensures svc.Valid() && held' == Without(held, i)
    ensures svc.Value() == Deallocate(old(svc.Value()), ws[i]) && Beside(svc, held', Without(ws, i), repr')
    ensures FromOrNew(old(svc.Repr()) + repr, svc.Repr() + repr')
  {
    SnapshotService.PoolWithoutOne(held, ws, repr, i);
    repr' := repr - held[i].Repr();
    svc.DeallocateSnapshot(held[i]);
    held' := Without(held, i);
  }

  /** The event's effect on the service and on what is held. */
  method OnEvent(svc: SnapshotService, held: seq<OrderbookSnapshot>, ghost w: World<Book>, ghost repr: set<object>,
                 e: Event)
    returns (held': seq<OrderbookSnapshot>, ghost repr': set<object>)
    requires svc.Valid() && svc.Value() == w.svc && Beside(svc, held, w.held, repr)
    requires e.Arrive? ==> AcceptsCall(svc.reading, w.svc, e.tick)
    modifies svc.Repr()
    ensures svc.Valid() && FromOrNew(old(svc.Repr()) + repr, svc.Repr() + repr')
    ensures var w' := Step(BookFeed(svc.reading), w, e);
            svc.Value() == w'.svc && Beside(svc, held', w'.held, repr')
  {
    held', repr' := held, repr;
    match e {
      case Arrive(t) =>
        held', repr' := OnArrive(svc, held, w.held, repr, t);
      case Return(i) =>
        if i < |held| {
          held', repr' := OnReturn(svc, held, w.held, repr, i);
        }
      case Destroy(i) =>
        if i < |held| {
          SnapshotService.PoolWithoutOne(held, w.held, repr, i);
          held', repr' := Without(held, i), repr - held[i].Repr();
        }
    }
  }

  /**
   The heap service goes through any accepted run as the value machine does. What each call
   asks of its caller follows from the feed's promise to the live book.
   */
  method Drive(rd: Reading, evs: seq<Event>)
    returns (svc: SnapshotService, held: seq<OrderbookSnapshot>, ghost repr: set<object>)
    requires AcceptsRun(rd, evs)
    ensures svc.Valid() && svc.reading == rd && svc.Value() == Run(BookFeed(rd), evs).svc
    ensures Beside(svc, held, Run(BookFeed(rd), evs).held, repr)
  {
    svc := new SnapshotService(rd);
    held, repr := [], {};
    var k := 0;
    while k < |evs|
      invariant k <= |evs| && svc.reading == rd && FromOrNew({}, svc.Repr() + repr)
      invariant svc.Valid() && svc.Value() == Run(BookFeed(rd), evs[..k]).svc
      invariant Beside(svc, held, Run(BookFeed(rd), evs[..k]).held, repr)
    {
      NextEventIsAccepted(rd, evs, k);
      held, repr := OnEvent(svc, held, Run(BookFeed(rd), evs[..k]), repr, evs[k]);
      k := k + 1;
    }
    assert evs[..k] == evs;
  }

  lemma NextEventIsAccepted(rd: Reading, evs: seq<Event>, k: nat)
    requires AcceptsRun(rd, evs) && k < |evs|
    ensures evs[k].Arrive? ==> AcceptsCall(rd, Run(BookFeed(rd), evs[..k]).svc, evs[k].tick)
    ensures Run(BookFeed(rd), evs[..k + 1]) == Step(BookFeed(rd), Run(BookFeed(rd), evs[..k]), evs[k])
  {
    var prefix := evs[..k + 1];
    assert prefix == evs[..k] + [evs[k]];
    AppendEvent(BookFeed(rd), evs[..k], evs[k]);
    if evs[k].Arrive? {
      forall j | 0 <= j < |prefix| && prefix[j].Arrive?
        ensures Accepts(Run(BookFeed(rd), prefix[..j]).svc.live, prefix[j].tick)
      {
        assert prefix[..j] == evs[..j];
      }
      AcceptedRunIsReplayable(rd, evs[..k], evs[k].tick);
    }
  }
}
