/** The instant a book calls its last update: the latest of the ticks it has taken since it was reset. */
module LastUpdates {
  import opened Readings
  import opened Ticks
  import opened Ladders
  import opened Books
  import opened Feeds
  import opened SnapshotRuns
  import opened ServiceRuns
  import opened BookFeeds

  // ---------- one tick ----------

  /** The tick brings this instant to the book: an addition, or a tick for an order that rests. */
  ghost predicate Brings(b: Book, t: Tick, time: Time) {
    match t
    case Add(a) => time == a.time
    case Remove(id, tm, side) => time == tm && id in Ids(LadderOf(b, side))
    case Execute(id, _, _, tm, side) => time == tm && id in Ids(LadderOf(b, side))
    case Snapshot(bids, offers) => exists a :: a in bids + offers && a.time == time
  }

  /** u is the latest of the base instant and the instants that the tick brings. */
  ghost predicate LatestOf(b: Book, t: Tick, base: Time, u: Time) {
    && base <= u && (forall time :: Brings(b, t, time) ==> time <= u)
    && (u == base || Brings(b, t, u))
  }

  lemma {:induction false} AddAllMovesOn(b: Book, adds: seq<AddTick>)
    ensures var u := AddAll(b, adds).lastUpdate;
            && b.lastUpdate <= u && (forall a :: a in adds ==> a.time <= u)
            && (u == b.lastUpdate || exists a :: a in adds && a.time == u)
  {
    if adds != [] {
      var past, a := adds[..|adds| - 1], adds[|adds| - 1];
      AddAllMovesOn(b, past);
      assert adds == past + [a];
      assert forall x :: x in adds <==> x in past || x == a;
    }
  }

  /** A tick moves the last update on to what it brings, from where it was or, for a snapshot tick, from the reset. */
  lemma UpdateMovesOn(rd: Reading, b: Book, t: Tick)
    ensures LatestOf(b, t, if t.Snapshot? then CLEARED.lastUpdate else b.lastUpdate, Apply(rd, b, t).lastUpdate)
  {
    if t.Snapshot? {
      AddAllMovesOn(CLEARED, t.bids + t.offers);
    }
  }

  /** Short of a snapshot tick, the last update never moves back, and stays for a tick about an unknown order. */
  lemma UpdateNeverMovesBack(rd: Reading, b: Book, t: Tick)
    requires !t.Snapshot?
    ensures b.lastUpdate <= Apply(rd, b, t).lastUpdate
    ensures (forall time :: !Brings(b, t, time)) ==> Apply(rd, b, t).lastUpdate == b.lastUpdate
  {
    UpdateMovesOn(rd, b, t);
  }

  // ---------- a stream ----------

  /** The k-th tick brings this instant, and no snapshot tick comes after it. */
  ghost predicate BringsAt(rd: Reading, ts: seq<Tick>, k: nat, time: Time) {
    && k < |ts| && (forall j :: k < j < |ts| ==> !ts[j].Snapshot?)
    && Brings(Fold(BookFeed(rd), FRESH, ts[..k]), ts[k], time)
  }

  /** Where the instants start from: the epoch, or from the first snapshot tick on the earliest instant. */
  ghost predicate StartsFrom(ts: seq<Tick>, start: Time) {
    if exists k :: 0 <= k < |ts| && ts[k].Snapshot? then start == -0x8000_0000_0000_0000 else start == 0
  }

  /** u is the latest of the starting instant and all that the ticks since the last snapshot tick bring. */
  ghost predicate IsLatest(rd: Reading, ts: seq<Tick>, u: Time) {
    exists start :: && StartsFrom(ts, start) && start <= u
                    && (forall k, time :: BringsAt(rd, ts, k, time) ==> time <= u)
                    && (u == start || exists k :: BringsAt(rd, ts, k, u))
  }

  lemma BringsAtAppend(rd: Reading, ts: seq<Tick>, t: Tick, k: nat, time: Time)
    ensures BringsAt(rd, ts + [t], k, time) <==>
              if k == |ts| then Brings(Fold(BookFeed(rd), FRESH, ts), t, time)
              else !t.Snapshot? && BringsAt(rd, ts, k, time)
  {
    var ts' := ts + [t];
    if k == |ts| {
      assert ts'[..k] == ts;
    } else if k < |ts| {
      assert ts'[..k] == ts[..k] && ts'[k] == ts[k] && ts'[|ts|] == t;
      assert forall j :: k < j < |ts| ==> ts'[j] == ts[j];
      if !t.Snapshot? && forall j :: k < j < |ts| ==> !ts[j].Snapshot? {
        assert forall j :: k < j < |ts'| ==> !ts'[j].Snapshot?;
      }
    }
  }

  lemma {:induction false} NextIsLatest(rd: Reading, ts: seq<Tick>, t: Tick, u: Time)
    requires IsLatest(rd, ts, u) && u == Fold(BookFeed(rd), FRESH, ts).lastUpdate
    ensures IsLatest(rd, ts + [t], Fold(BookFeed(rd), FRESH, ts + [t]).lastUpdate)
  {
    var ts', b := ts + [t], Fold(BookFeed(rd), FRESH, ts);
    FoldAppend(BookFeed(rd), FRESH, ts, t);
    UpdateMovesOn(rd, b, t);
    var u' := Apply(rd, b, t).lastUpdate;
    var start0 :| && StartsFrom(ts, start0) && start0 <= u
                  && (forall k, time :: BringsAt(rd, ts, k, time) ==> time <= u)
                  && (u == start0 || exists k :: BringsAt(rd, ts, k, u));
    var start := if t.Snapshot? then CLEARED.lastUpdate else start0;
    assert ts'[|ts|] == t && forall k :: 0 <= k < |ts| ==> ts'[k] == ts[k];
    assert StartsFrom(ts', start);
    forall k: nat, time | BringsAt(rd, ts', k, time) ensures time <= u' {
      BringsAtAppend(rd, ts, t, k, time);
    }
    if u' != start {
      BringsAtAppend(rd, ts, t, |ts|, u');
      if !Brings(b, t, u') {
        var k :| BringsAt(rd, ts, k, u);
        BringsAtAppend(rd, ts, t, k, u);
      }
    }
  }

  /** Over every stream, with either reading of `execute`, the last update is the latest instant since the reset. */
  lemma {:induction false} LastUpdateIsLatest(rd: Reading, ts: seq<Tick>)
    ensures IsLatest(rd, ts, Fold(BookFeed(rd), FRESH, ts).lastUpdate)
  {
    if ts == [] {
      assert StartsFrom(ts, 0);
    } else {
      var n := |ts| - 1;
      LastUpdateIsLatest(rd, ts[..n]);
      NextIsLatest(rd, ts[..n], ts[n], Fold(BookFeed(rd), FRESH, ts[..n]).lastUpdate);
      assert ts == ts[..n] + [ts[n]];
    }
  }

  /** The instants that a 64-bit count of clock ticks can hold. */
  predicate Representable(time: Time) {
    -0x8000_0000_0000_0000 <= time <= 0x7fff_ffff_ffff_ffff
  }

  /** A reset book's instant is one of them, and no other is earlier. */
  lemma ResetIsEarliest(time: Time)
    requires Representable(time)
    ensures Representable(CLEARED.lastUpdate) && CLEARED.lastUpdate <= time
  {
  }

  /** So after a reset the first instants brought, however early, are what the book shows. */
  lemma ResetBookShowsItsOrders(rd: Reading, b: Book, t: Tick)
    requires t.Snapshot? && t.bids + t.offers != []
    requires forall a :: a in t.bids + t.offers ==> Representable(a.time)
    ensures Brings(b, t, Apply(rd, b, t).lastUpdate)
  {
    UpdateMovesOn(rd, b, t);
    var a := (t.bids + t.offers)[0];
    assert a in t.bids + t.offers && Brings(b, t, a.time);
    ResetIsEarliest(a.time);
  }

  // ---------- a snapshot handed out ----------

  /** After any run, a snapshot carries the latest instant of the ticks of its generation. */
  lemma {:induction false} UpstreamIsLatest(rd: Reading, evs: seq<Event>, t: Tick)
    ensures var gens := NextGens(Gens(evs), t);
            IsLatest(rd, gens[|gens| - 1], Process(BookFeed(rd), Run(BookFeed(rd), evs).svc, t).1.upstream)
  {
    var evs' := evs + [Arrive(t)];
    BooksReset(rd);
    SnapshotsEqualLiveBookIff(rd, evs, t);
    LiveFollowsLog(BookFeed(rd), evs');
    AppendEvent(BookFeed(rd), evs, Arrive(t));
    LastUpdateIsLatest(rd, Gens(evs')[|Gens(evs')| - 1]);
  }
}
