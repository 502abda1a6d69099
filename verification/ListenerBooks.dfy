/** The listener over the snapshot service: what book it shows, and when it calls it good. */
module ListenerBooks {
  import opened Readings
  import opened Ticks
  import opened FeedConditions
  import Listeners
  import opened Books
  import opened Feeds
  import opened SnapshotRuns
  import opened ServiceRuns
  import opened BookFeeds

  datatype MarketEvent = Connection(up: bool) | Response(ok: bool) | Market(tick: Tick)

  function TicksOf(evs: seq<MarketEvent>): seq<Tick> {
    if evs == [] then []
    else
      var e := evs[|evs| - 1];
      TicksOf(evs[..|evs| - 1]) + (if e.Market? then [e.tick] else [])
  }

  function Label(e: MarketEvent): Listeners.FeedEvent {
    match e
    case Connection(up) => Listeners.Connection(up)
    case Response(ok) => Listeners.Response(ok)
    case Market(_) => Listeners.Ticked
  }

  /** The same events as the listener's labelling sees them. */
  function LabelsOf(evs: seq<MarketEvent>): seq<Listeners.FeedEvent> {
    seq(|evs|, i requires 0 <= i < |evs| => Label(evs[i]))
  }

  /** The service once the listener has taken the ticks, giving each snapshot back for the next. */
  ghost function Shown(rd: Reading, ts: seq<Tick>): World<Book> {
    Run(BookFeed(rd), ListenerEvents(ts))
  }

  lemma {:induction false} TickAmong(evs: seq<MarketEvent>, j: nat)
    requires j < |evs| && evs[j].Market?
    ensures TicksOf(evs) != []
  {
    if j < |evs| - 1 {
      TickAmong(evs[..|evs| - 1], j);
    }
  }

  lemma {:induction false} NoTickAmongEvents(ts: seq<Tick>)
    ensures NoTick(ListenerEvents(ts)) <==> ts == []
  {
    if ts != [] {
      var n := |ts| - 1;
      assert ListenerEvents(ts)[|ListenerEvents(ts[..n])|] == Arrive(ts[n]);
    }
  }

  /** The snapshot shown is the one handed out for the last tick. */
  lemma ShowsLastHandedOut(rd: Reading, ts: seq<Tick>)
    requires ts != []
    ensures var past := Shown(rd, ts[..|ts| - 1]).svc;
            var (s, x) := Process(BookFeed(rd), past, ts[|ts| - 1]);
            Shown(rd, ts).held == [x] && Shown(rd, ts).svc.live == s.live
  {
    var f, n := BookFeed(rd), |ts| - 1;
    var evs, e := ListenerEvents(ts[..n]), Arrive(ts[n]);
    AppendEvent(f, evs, e);
    if n > 0 {
      ListenerRun(f, ts[..n]);
      AppendEvent(f, evs + [e], Return(0));
      assert ListenerEvents(ts) == evs + [e] + [Return(0)];
    } else {
      assert ListenerEvents(ts) == evs + [e];
    }
  }

  /** The snapshot shown has the live book, unless its one tick so far is an addition; then it is empty. */
  lemma ShowsLiveBookIff(rd: Reading, ts: seq<Tick>)
    requires ts != []
    ensures var w := Shown(rd, ts);
            && |w.held| == 1
            && (w.held[0].book == w.svc.live <==> !(|ts| == 1 && ts[0].Add?))
            && (|ts| == 1 && ts[0].Add? ==> w.held[0].book == FRESH && w.svc.live == AddTo(FRESH, ts[0].order))
  {
    var n := |ts| - 1;
    ShowsLastHandedOut(rd, ts);
    NoTickAmongEvents(ts[..n]);
    SnapshotsEqualLiveBookIff(rd, ListenerEvents(ts[..n]), ts[n]);
  }

  lemma {:induction false} LiveIsFold(rd: Reading, ts: seq<Tick>)
    ensures Shown(rd, ts).svc.live == Fold(BookFeed(rd), FRESH, ts)
  {
    if ts != [] {
      LiveIsFold(rd, ts[..|ts| - 1]);
      ShowsLastHandedOut(rd, ts);
    }
  }

  /** From its first snapshot tick on, the listener shows the ticks from any snapshot tick on, applied to any book. */
  lemma ShowsTicksSinceSnapshot(rd: Reading, ts: seq<Tick>, k: nat, b: Book)
    requires k < |ts| && ts[k].Snapshot?
    ensures |Shown(rd, ts).held| == 1 && Shown(rd, ts).held[0].book == Fold(BookFeed(rd), b, ts[k..])
  {
    ShowsLiveBookIff(rd, ts);
    LiveIsFold(rd, ts);
    BooksReset(rd);
    FoldSplit(BookFeed(rd), FRESH, ts, k);
    FoldForgets(BookFeed(rd), Fold(BookFeed(rd), FRESH, ts[..k]), b, ts[k..]);
  }

  /** What is called good has a tick behind it, applied since the last drop and the last answer. */
  lemma GoodHasTicks(evs: seq<MarketEvent>)
    requires Listeners.Run(LabelsOf(evs)).published.state == Good
    ensures TicksOf(evs) != []
  {
    var labels := LabelsOf(evs);
    Listeners.PublishedGoodIff(labels);
    var j: nat :| && Listeners.Latest(labels, Listeners.FEEDING + {Listeners.Connection(false)}, j)
                  && labels[j] == Listeners.Ticked;
    TickAmong(evs, j);
  }

  lemma UpAndTickedIsGood()
    ensures Listeners.Run([Listeners.Connection(true), Listeners.Ticked]).published == Condition(Good, [])
  {
    var one := [Listeners.Connection(true)];
    assert [Listeners.Connection(true), Listeners.Ticked][..1] == one && one[..0] == [];
    assert Listeners.Run(one).connection == Condition(Good, []);
  }

  /** The listener calls good a snapshot whose book is not the live one. */
  ghost predicate GoodButNotLive(rd: Reading, evs: seq<MarketEvent>) {
    var w := Shown(rd, TicksOf(evs));
    Listeners.Run(LabelsOf(evs)).published.state == Good && w.held != [] && w.held[0].book != w.svc.live
  }

  /** That happens exactly when the feed is up and live on a single tick, an addition. */
  lemma GoodButNotLiveIff(rd: Reading, evs: seq<MarketEvent>)
    ensures GoodButNotLive(rd, evs) <==>
              && Listeners.Up(LabelsOf(evs)) && Listeners.Live(LabelsOf(evs))
              && |TicksOf(evs)| == 1 && TicksOf(evs)[0].Add?
  {
    Listeners.PublishedGoodIff(LabelsOf(evs));
    if TicksOf(evs) != [] {
      ShowsLiveBookIff(rd, TicksOf(evs));
    }
  }

  /** There is such a run: good does not mean rebuilt from a snapshot tick. */
  lemma GoodBeforeSnapshot(rd: Reading, a: AddTick)
    ensures GoodButNotLive(rd, [Connection(true), Market(Add(a))])
  {
    var evs := [Connection(true), Market(Add(a))];
    assert evs[..1] == [Connection(true)] && evs[..1][..0] == [];
    assert TicksOf([]) == [] && TicksOf(evs[..1]) == [] && TicksOf(evs) == [] + [Add(a)];
    assert LabelsOf(evs) == [Listeners.Connection(true), Listeners.Ticked];
    ShowsLiveBookIff(rd, [Add(a)]);
    UpAndTickedIsGood();
  }
}
