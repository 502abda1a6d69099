/**
 Whole runs of the snapshot service: ticks arrive, and holders give snapshots back or
 destroy them, in any order and number. The results hold for any kind of book.
 */
module ServiceRuns {
  import opened Ticks
  import opened Feeds
  import opened TickHistories
  import opened SnapshotRuns
  import opened Wrappers

  /** The service and the snapshots its callers hold. */
  datatype World<B> = World(svc: Service<B>, held: seq<Snap<B>>)

  /** A tick arrives; a holder gives the i-th snapshot back, or destroys it. */
  datatype Event = Arrive(tick: Tick) | Return(i: nat) | Destroy(i: nat)

  ghost function Step<B>(f: Feed<B>, w: World<B>, e: Event): World<B> {
    match e
    case Arrive(t) =>
      var (s, x) := Process(f, w.svc, t);
      World(s, w.held + [x])
    case Return(i) =>
      if i < |w.held| then World(Deallocate(w.svc, w.held[i]), Without(w.held, i)) else w
    case Destroy(i) =>
      if i < |w.held| then World(w.svc, Without(w.held, i)) else w
  }

  function Start<B>(f: Feed<B>): World<B> {
    World(NewService(f), [])
  }

  ghost function Run<B>(f: Feed<B>, evs: seq<Event>): World<B> {
    if evs == [] then Start(f) else Step(f, Run(f, evs[..|evs| - 1]), evs[|evs| - 1])
  }

  /** The ticks received, generation by generation. */
  function Gens(evs: seq<Event>): (gens: seq<seq<Tick>>)
    ensures gens != []
  {
    if evs == [] then [[]]
    else
      var gens := Gens(evs[..|evs| - 1]);
      var e := evs[|evs| - 1];
      if e.Arrive? then NextGens(gens, e.tick) else gens
  }

  /** All snapshots in existence. */
  ghost function Snaps<B>(w: World<B>): multiset<Snap<B>> {
    multiset(w.held) + multiset(w.svc.pool)
  }

  ghost predicate WorldInv<B>(f: Feed<B>, w: World<B>, gens: seq<seq<Tick>>) {
    Inv(f, w.svc, Snaps(w), gens)
  }

  // ---------- every run keeps the invariant ----------

  lemma TakeOut<T>(s: seq<T>, i: nat)
    requires i < |s|
    ensures multiset(s) == multiset(Without(s, i)) + multiset{s[i]}
  {
    assert s == s[..i] + [s[i]] + s[i + 1..];
  }

  lemma LastOut<T>(s: seq<T>)
    requires s != []
    ensures multiset(s) == multiset(s[..|s| - 1]) + multiset{s[|s| - 1]}
  {
    assert s == s[..|s| - 1] + [s[|s| - 1]];
  }

  lemma SnapsAfterArrive<B>(f: Feed<B>, w: World<B>, t: Tick)
    ensures Snaps(Step(f, w, Arrive(t))) == Left(f, w.svc.pool, Snaps(w)) + multiset{Process(f, w.svc, t).1}
  {
    var pool := w.svc.pool;
    var (s', y) := Process(f, w.svc, t);
    assert multiset(w.held + [y]) == multiset(w.held) + multiset{y};
    if pool != [] {
      LastOut(pool);
    }
  }

  lemma ArriveKeeps<B(!new)>(f: Feed<B>, w: World<B>, gens: seq<seq<Tick>>, t: Tick)
    requires Resets(f) && WorldInv(f, w, gens)
    ensures WorldInv(f, Step(f, w, Arrive(t)), NextGens(gens, t))
  {
    ProcessKeeps(f, w.svc, Snaps(w), gens, t);
    SnapsAfterArrive(f, w, t);
  }

  /** Giving up snapshots, or moving them between holder and pool, keeps the invariant. */
  lemma FewerKeeps<B>(f: Feed<B>, s: Service<B>, all: multiset<Snap<B>>, gens: seq<seq<Tick>>,
                      s': Service<B>, all': multiset<Snap<B>>)
    requires Inv(f, s, all, gens)
    requires s' == s.(pool := s'.pool) && multiset(s'.pool) <= all' <= all
    ensures Inv(f, s', all', gens)
  {
    var low :| InvFrom(f, s, all, gens, low);
    assert forall x :: x in all' ==> x in all && all'[x] <= all[x];
    assert InvFrom(f, s', all', gens, low);
  }

  lemma StepKeeps<B(!new)>(f: Feed<B>, w: World<B>, gens: seq<seq<Tick>>, e: Event)
    requires Resets(f) && WorldInv(f, w, gens)
    ensures WorldInv(f, Step(f, w, e), if e.Arrive? then NextGens(gens, e.tick) else gens)
  {
    var w' := Step(f, w, e);
    match e
    case Arrive(t) =>
      ArriveKeeps(f, w, gens, t);
    case Return(i) =>
      if i < |w.held| {
        TakeOut(w.held, i);
        assert multiset(w'.svc.pool) == multiset(w.svc.pool) + multiset{w.held[i]};
        FewerKeeps(f, w.svc, Snaps(w), gens, w'.svc, Snaps(w'));
      }
    case Destroy(i) =>
      if i < |w.held| {
        TakeOut(w.held, i);
        FewerKeeps(f, w.svc, Snaps(w), gens, w'.svc, Snaps(w'));
      }
  }

  lemma {:induction false} RunKeeps<B(!new)>(f: Feed<B>, evs: seq<Event>)
    requires Resets(f)
    ensures WorldInv(f, Run(f, evs), Gens(evs))
  {
    if evs == [] {
      assert InvFrom(f, NewService(f), multiset{}, [[]], 0);
      assert Snaps(Start(f)) == multiset{};
    } else {
      RunKeeps(f, evs[..|evs| - 1]);
      StepKeeps(f, Run(f, evs[..|evs| - 1]), Gens(evs[..|evs| - 1]), evs[|evs| - 1]);
    }
  }

  /** The live book is that of the ticks of its generation. */
  lemma {:induction false} LiveFollowsLog<B(!new)>(f: Feed<B>, evs: seq<Event>)
    requires Resets(f)
    ensures Run(f, evs).svc.live == Fold(f, f.blank, Gens(evs)[|Gens(evs)| - 1])
  {
    if evs != [] {
      var past, e := evs[..|evs| - 1], evs[|evs| - 1];
      LiveFollowsLog(f, past);
      if e.Arrive? {
        LiveFollowsTick(f, Run(f, past).svc.live, Gens(past), e.tick);
      }
    }
  }

  lemma LiveFollowsTick<B(!new)>(f: Feed<B>, b: B, gens: seq<seq<Tick>>, t: Tick)
    requires Resets(f) && gens != [] && b == Fold(f, f.blank, gens[|gens| - 1])
    ensures var gens' := NextGens(gens, t); f.apply(b, t) == Fold(f, f.blank, gens'[|gens'| - 1])
  {
    FoldAppend(f, f.blank, gens[|gens| - 1], t);
    FoldAppend(f, f.blank, [], t);
    assert [] + [t] == [t];
  }

  lemma AppendEvent<B>(f: Feed<B>, evs: seq<Event>, e: Event)
    ensures Run(f, evs + [e]) == Step(f, Run(f, evs), e)
    ensures Gens(evs + [e]) == if e.Arrive? then NextGens(Gens(evs), e.tick) else Gens(evs)
  {
    assert (evs + [e])[..|evs|] == evs;
  }

  // ---------- the fast path refines plain copying ----------

  /** A service without log and pool, which copies the live book for every snapshot. */
  datatype Plain<B> = Plain(generation: nat, next: nat, live: B)

  function PlainTick<B>(f: Feed<B>, p: Plain<B>, t: Tick): Plain<B> {
    if t.Snapshot? then Plain(p.generation + 1, 1, f.apply(p.live, t))
    else Plain(p.generation, p.next + 1, f.apply(p.live, t))
  }

  function PlainSnapshot<B>(f: Feed<B>, p: Plain<B>): Snap<B>
    requires p.next > 0
  {
    Snap(p.generation, p.next - 1, f.updated(p.live), p.live)
  }

  function PlainRun<B>(f: Feed<B>, evs: seq<Event>): Plain<B> {
    if evs == [] then Plain(0, 0, f.blank)
    else
      var p := PlainRun(f, evs[..|evs| - 1]);
      var e := evs[|evs| - 1];
      if e.Arrive? then PlainTick(f, p, e.tick) else p
  }

  /** The two services move through the same generations, sequence numbers and books. */
  lemma {:induction false} PlainTracks<B>(f: Feed<B>, evs: seq<Event>)
    ensures var s := Run(f, evs).svc;
            PlainRun(f, evs) == Plain(s.generation, s.history.next, s.live)
  {
    if evs != [] {
      PlainTracks(f, evs[..|evs| - 1]);
    }
  }

  // ---------- exactly which calls hand out a copy of the live book ----------

  /** No tick has arrived yet. */
  ghost predicate NoTick(evs: seq<Event>) {
    forall k :: 0 <= k < |evs| ==> !evs[k].Arrive?
  }

  lemma {:induction false} NoTickIff<B>(f: Feed<B>, evs: seq<Event>)
    ensures var s := Run(f, evs).svc;
            && (NoTick(evs) <==> s.generation == 0 && s.history.next == 0)
            && (NoTick(evs) ==> s.live == f.blank)
  {
    if evs != [] {
      var n := |evs| - 1;
      NoTickIff(f, evs[..n]);
      assert NoTick(evs) <==> NoTick(evs[..n]) && !evs[n].Arrive?;
    }
  }

  /** The call is the first of the run, and its tick, no snapshot tick, would change a fresh book. */
  ghost predicate MissesTick<B>(f: Feed<B>, evs: seq<Event>, t: Tick) {
    NoTick(evs) && !t.Snapshot? && !Harmless(f, t)
  }

  /** The snapshot handed out for a tick is blank on the very first tick, if that is no snapshot tick, else live. */
  lemma {:induction false} NextSnapshot<B(!new)>(f: Feed<B>, evs: seq<Event>, t: Tick)
    requires Resets(f)
    ensures var (s, x) := Process(f, Run(f, evs).svc, t);
            x.book == if NoTick(evs) && !t.Snapshot? then f.blank else s.live
  {
    RunKeeps(f, evs);
    ProcessCopiesLive(f, Run(f, evs).svc, Snaps(Run(f, evs)), Gens(evs), t);
    NoTickIff(f, evs);
  }

  /** After any run, a call hands out the live book unless it is the very first and misses its tick. */
  lemma {:induction false} SnapshotIsLiveIff<B(!new)>(f: Feed<B>, evs: seq<Event>, t: Tick)
    requires Resets(f)
    ensures var (s, x) := Process(f, Run(f, evs).svc, t);
            && (x.book == s.live <==> !MissesTick(f, evs, t))
            && (MissesTick(f, evs, t) ==> x.book == f.blank)
  {
    NextSnapshot(f, evs, t);
    NoTickIff(f, evs);
  }

  /**
   After any run, recycling and replay hand out the very snapshot that copying would,
   unless the call is the very first and misses its tick; then only the book differs.
   */
  lemma {:induction false} RecyclingRefinesCopying<B(!new)>(f: Feed<B>, evs: seq<Event>, t: Tick)
    requires Resets(f)
    ensures PlainTick(f, PlainRun(f, evs), t).next > 0
    ensures var (x, y) := (Process(f, Run(f, evs).svc, t).1, PlainSnapshot(f, PlainTick(f, PlainRun(f, evs), t)));
            && (x == y <==> !MissesTick(f, evs, t))
            && x == y.(book := x.book)
  {
    PlainTracks(f, evs);
    SnapshotIsLiveIff(f, evs, t);
  }

  /** The snapshot handed out for the k-th event shows the live book of that moment. */
  ghost predicate HandsOutLive<B>(f: Feed<B>, evs: seq<Event>, k: nat)
    requires k < |evs|
  {
    evs[k].Arrive? ==>
      var (s, x) := Process(f, Run(f, evs[..k]).svc, evs[k].tick);
      x.book == s.live
  }

  /** In a run, the one event that may hand out another book is the first tick to arrive. */
  lemma {:induction false} HandsOutLiveIff<B(!new)>(f: Feed<B>, evs: seq<Event>, k: nat)
    requires Resets(f) && k < |evs|
    ensures HandsOutLive(f, evs, k) <==> !(evs[k].Arrive? && MissesTick(f, evs[..k], evs[k].tick))
    ensures !HandsOutLive(f, evs, k) ==> forall j :: 0 <= j < |evs| && j != k ==> HandsOutLive(f, evs, j)
  {
    forall j | 0 <= j < |evs|
      ensures HandsOutLive(f, evs, j) <==> !(evs[j].Arrive? && MissesTick(f, evs[..j], evs[j].tick))
    {
      if evs[j].Arrive? {
        SnapshotIsLiveIff(f, evs[..j], evs[j].tick);
      }
    }
    forall i, j | 0 <= i < j < |evs| && evs[i].Arrive? ensures !NoTick(evs[..j]) {
      assert evs[..j][i] == evs[i];
    }
  }

  // ---------- what a snapshot shows ----------

  lemma {:induction false} RunIsFaithful<B(!new)>(f: Feed<B>, evs: seq<Event>, x: Snap<B>)
    requires Resets(f) && x in Snaps(Run(f, evs))
    ensures Faithful(f, Gens(evs), x)
    ensures x.generation >= 1 ==> Gens(evs)[x.generation][0].Snapshot?
  {
    RunKeeps(f, evs);
    InvSnapshot(f, Run(f, evs).svc, Snaps(Run(f, evs)), Gens(evs), x);
  }

  /**
   Held or pooled, a snapshot shows the ticks of its generation up to its number: from
   whatever book in generation 1 or later, and from a blank one in generation 0, where
   only the snapshot numbered 0 misses its one tick.
   */
  lemma {:induction false} SnapshotShowsPrefix<B(!new)>(f: Feed<B>, evs: seq<Event>, x: Snap<B>, b: B)
    requires Resets(f) && x in Snaps(Run(f, evs))
    ensures var gens := Gens(evs);
            && x.generation < |gens| && x.sequence < |gens[x.generation]|
            && x.book == if x.generation == 0 && x.sequence == 0 then f.blank
                         else Fold(f, if x.generation == 0 then f.blank else b, gens[x.generation][..x.sequence + 1])
  {
    RunIsFaithful(f, evs, x);
    if x.generation >= 1 {
      ForgetsBook(f, Gens(evs), x, b);
    }
  }

  lemma ForgetsBook<B(!new)>(f: Feed<B>, gens: seq<seq<Tick>>, x: Snap<B>, b: B)
    requires Resets(f) && gens != [] && Faithful(f, gens, x) && x.generation >= 1
    requires gens[x.generation][0].Snapshot?
    ensures x.book == Fold(f, b, gens[x.generation][..x.sequence + 1])
  {
    FoldForgets(f, b, f.blank, gens[x.generation][..x.sequence + 1]);
  }

  /** Two snapshots with the same generation and sequence number are one snapshot. */
  lemma {:induction false} SnapshotsAreDistinct<B(!new)>(f: Feed<B>, evs: seq<Event>, x: Snap<B>, y: Snap<B>)
    requires Resets(f) && x in Snaps(Run(f, evs)) && y in Snaps(Run(f, evs))
    requires x.generation == y.generation && x.sequence == y.sequence
    ensures x == y && Snaps(Run(f, evs))[x] == 1
  {
    RunKeeps(f, evs);
  }

  /** Every tick from number s on is in the log, and is the one that arrived with that number. */
  ghost predicate CompleteFrom(h: History, log: seq<Tick>, s: nat) {
    h.next == |log| && forall k :: s <= k < |log| ==> k in h.ticks && h.ticks[k] == log[k]
  }

  lemma {:induction false} FoundInRun<B>(f: Feed<B>, s: Service<B>, all: multiset<Snap<B>>,
                                         gens: seq<seq<Tick>>, k: nat)
    requires Inv(f, s, all, gens) && k in s.history.ticks
    ensures CompleteFrom(s.history, gens[|gens| - 1], k)
  {
    var low :| InvFrom(f, s, all, gens, low);
  }

  /** Once a sequence number is found in the log, every later tick is there too. */
  lemma FoundMeansComplete<B(!new)>(f: Feed<B>, evs: seq<Event>, s: nat)
    requires Resets(f) && s in Run(f, evs).svc.history.ticks
    ensures CompleteFrom(Run(f, evs).svc.history, Gens(evs)[|Gens(evs)| - 1], s)
  {
    RunKeeps(f, evs);
    FoundInRun(f, Run(f, evs).svc, Snaps(Run(f, evs)), Gens(evs), s);
  }

  // ---------- pruning is safe ----------

  /** Every tick from number s on is still in the log. */
  ghost predicate Retains<B>(w: World<B>, s: nat) {
    forall k :: s <= k < w.svc.history.next ==> k in w.svc.history.ticks
  }

  /** A snapshot that stays in existence keeps the ticks it lacks in the log. */
  lemma {:induction false} StepRetains<B(!new)>(f: Feed<B>, w: World<B>, gens: seq<seq<Tick>>, e: Event, x: Snap<B>)
    requires Resets(f) && WorldInv(f, w, gens)
    requires x in Snaps(w) && x in Snaps(Step(f, w, e))
    requires x.generation == w.svc.generation && x.sequence in w.svc.history.ticks
    requires e.Arrive? ==> !e.tick.Snapshot?
    ensures x.sequence in Step(f, w, e).svc.history.ticks
    ensures Retains(Step(f, w, e), x.sequence)
  {
    StepKeeps(f, w, gens, e);
    var w', gens' := Step(f, w, e), if e.Arrive? then NextGens(gens, e.tick) else gens;
    if e.Arrive? {
      ArriveRetains(f, w, gens, e.tick, x);
    }
    FoundInRun(f, w'.svc, Snaps(w'), gens', x.sequence);
  }

  lemma {:induction false} ArriveRetains<B(!new)>(f: Feed<B>, w: World<B>, gens: seq<seq<Tick>>, t: Tick, x: Snap<B>)
    requires Resets(f) && WorldInv(f, w, gens) && !t.Snapshot?
    requires x in Snaps(w) && x in Snaps(Step(f, w, Arrive(t)))
    requires x.generation == w.svc.generation && x.sequence in w.svc.history.ticks
    ensures x.sequence in Process(f, w.svc, t).0.history.ticks
  {
    var s, all, gens' := w.svc, Snaps(w), NextGens(gens, t);
    var a := Advance(f, s, t);
    var low := AdvanceKeeps(f, s, all, gens, t);
    var _ := PruneKeeps(a, Allocated(f, a.pool), gens'[a.generation], low);
    ProcessInParts(f, s, t);
    InvSnapshot(f, s, all, gens, x);
    StillLeft(f, w, gens, t, x);
    MarkStays(f, a, all, gens', low, x);
  }

  /** A snapshot that is there before and after a call is not the one the call recycles. */
  lemma {:induction false} StillLeft<B(!new)>(f: Feed<B>, w: World<B>, gens: seq<seq<Tick>>, t: Tick, x: Snap<B>)
    requires Resets(f) && WorldInv(f, w, gens) && !t.Snapshot?
    requires x in Snaps(w) && x in Snaps(Step(f, w, Arrive(t))) && x.generation == w.svc.generation
    ensures x in Left(f, w.svc.pool, Snaps(w))
  {
    var _ := AdvanceKeeps(f, w.svc, Snaps(w), gens, t);
    ProcessInParts(f, w.svc, t);
    SnapsAfterArrive(f, w, t);
  }

  /** From the n-th event on, the run neither recycles nor destroys the snapshot, nor opens a generation. */
  ghost predicate Stays<B>(f: Feed<B>, evs: seq<Event>, n: nat, x: Snap<B>) {
    && x in Snaps(Run(f, evs))
    && (|evs| > n ==>
          var e := evs[|evs| - 1];
          !(e.Arrive? && e.tick.Snapshot?) && Stays(f, evs[..|evs| - 1], n, x))
  }

  /** The same over any number of events that keep the snapshot. */
  lemma {:induction false} RunRetains<B(!new)>(f: Feed<B>, evs: seq<Event>, n: nat, x: Snap<B>)
    requires Resets(f) && n <= |evs| && Stays(f, evs, n, x)
    requires var s := Run(f, evs[..n]).svc;
             x.generation == s.generation && x.sequence in s.history.ticks
    ensures var s := Run(f, evs).svc;
            s.generation == x.generation && x.sequence in s.history.ticks
    ensures Retains(Run(f, evs), x.sequence)
  {
    if n == |evs| {
      assert evs[..n] == evs;
    } else {
      var past := evs[..|evs| - 1];
      assert past[..n] == evs[..n];
      RunRetains(f, past, n, x);
      RunKeeps(f, past);
      StepRetains(f, Run(f, past), Gens(past), evs[|evs| - 1], x);
    }
    FoundMeansComplete(f, evs, x.sequence);
    RunKeeps(f, evs);
  }

  // ---------- the listener's discipline ----------

  /** Each snapshot goes back once its successor is out and before the next tick. */
  function ListenerEvents(ts: seq<Tick>): seq<Event> {
    if ts == [] then []
    else
      ListenerEvents(ts[..|ts| - 1]) + [Arrive(ts[|ts| - 1])] + (if |ts| == 1 then [] else [Return(0)])
  }

  /** How far the log reaches under that discipline. */
  function ListenerLow(generation: nat, n: nat): nat {
    if generation == 0 then 1 else if n <= 2 then 0 else n - 2
  }

  ghost predicate ListenerLog(h: History, generation: nat) {
    && h.next > 0
    && (forall k :: k in h.ticks <==> ListenerLow(generation, h.next) <= k < h.next)
    && (generation == 0 ==> 0 in h.marks)
    && (generation >= 1 ==> h.marks == if h.next == 1 then multiset{0} else multiset{h.next - 2, h.next - 1})
  }

  /** The one snapshot held is the latest; the one in the pool, if any, came just before. */
  ghost predicate ListenerInv<B>(w: World<B>, ts: seq<Tick>) {
    var Service(h, generation, _, pool) := w.svc;
    && ts != []
    && ListenerLog(h, generation)
    && |w.held| == 1 && w.held[0].generation == generation && w.held[0].sequence == h.next - 1
    && (|ts| == 1 ==> pool == [] && h.next == 1)
    && (|ts| > 1 ==> |pool| == 1 && Precedes(pool[0], generation, h.next))
    && (generation == 0 ==> h.next == |ts|)
    && (generation == 0 <==> forall t :: t in ts ==> !t.Snapshot?)
  }

  ghost predicate Precedes<B>(x: Snap<B>, generation: nat, next: nat) {
    if next == 1 then x.generation < generation else x.generation == generation && x.sequence == next - 2
  }

  /** The mark below the last two ticks goes, the ticks below the next mark with it, and the new tick is marked. */
  lemma PrunedToTwo(h: History, n: nat, low: nat)
    requires n >= 2 && h.next == n + 1 && h.marks == multiset{n - 2, n - 1}
    requires low <= n - 2 && forall k :: k in h.ticks <==> low <= k < n + 1
    ensures var g := WithMark(WithoutMark(h, n - 2), n);
            && g.next == n + 1 && g.marks == multiset{n - 1, n}
            && forall k :: k in g.ticks <==> n - 1 <= k < n + 1
  {
    assert h.marks[n - 2 := 0] == multiset{n - 1};
    assert Least(multiset{n - 1}) == n - 1;
  }

  /** In a generation, the mark of the recycled snapshot goes and the tick below the next with it. */
  lemma LaterTickLog<B>(f: Feed<B>, s: Service<B>, t: Tick)
    requires ListenerLog(s.history, s.generation) && s.generation >= 1 && !t.Snapshot?
    requires s.pool != [] ==> Precedes(Allocated(f, s.pool), s.generation, s.history.next)
    requires s.pool == [] ==> s.history.next == 1
    ensures ListenerLog(Process(f, s, t).0.history, s.generation)
  {
    var n := s.history.next;
    var a, x := Advance(f, s, t), Allocated(f, s.pool);
    ProcessInParts(f, s, t);
    if n >= 2 {
      assert Replayable(a, x) && x.sequence == n - 2;
      PrunedToTwo(a.history, n, ListenerLow(s.generation, n));
    } else {
      assert !Replayable(a, x);
    }
  }

  /** Before the first generation, mark 0 is never taken and the log only grows. */
  lemma UnprimedTickLog<B>(f: Feed<B>, s: Service<B>, t: Tick)
    requires ListenerLog(s.history, 0) && s.generation == 0 && !t.Snapshot?
    requires s.pool != [] ==> s.history.next > 1 && Precedes(Allocated(f, s.pool), 0, s.history.next)
    ensures ListenerLog(Process(f, s, t).0.history, 0)
  {
    var n := s.history.next;
    var a, x := Advance(f, s, t), Allocated(f, s.pool);
    if Replayable(a, x) {
      var marks := a.history.marks[x.sequence := 0];
      assert 0 in marks;
      assert Least(marks) == 0;
    }
  }

  lemma FirstTickLog<B>(f: Feed<B>, s: Service<B>, t: Tick)
    requires !t.Snapshot? ==> s == NewService(f)
    requires s.pool != [] ==> Allocated(f, s.pool).generation <= s.generation
    ensures ListenerLog(Process(f, s, t).0.history, if t.Snapshot? then s.generation + 1 else 0)
    ensures Process(f, s, t).0.history.next == 1
  {
    var a, x := Advance(f, s, t), Allocated(f, s.pool);
    assert a.history.ticks == map[0 := t] && a.history.marks == multiset{};
    if !t.Snapshot? {
      assert a.history.marks[0 := 0] == multiset{};
    }
  }

  lemma ListenerStart<B>(f: Feed<B>, t: Tick)
    ensures ListenerInv(Step(f, Start(f), Arrive(t)), [t])
  {
    FirstTickLog(f, NewService(f), t);
  }

  lemma ListenerLogStep<B>(f: Feed<B>, w: World<B>, ts: seq<Tick>, t: Tick)
    requires ListenerInv(w, ts)
    ensures var s' := Process(f, w.svc, t).0;
            ListenerLog(s'.history, s'.generation) && (t.Snapshot? ==> s'.history.next == 1)
  {
    if t.Snapshot? {
      FirstTickLog(f, w.svc, t);
    } else if w.svc.generation == 0 {
      UnprimedTickLog(f, w.svc, t);
    } else {
      LaterTickLog(f, w.svc, t);
    }
  }

  lemma NoSnapshotTickIn(ts: seq<Tick>, t: Tick)
    ensures (forall u :: u in ts + [t] ==> !u.Snapshot?) <==> !t.Snapshot? && forall u :: u in ts ==> !u.Snapshot?
  {
    assert t in ts + [t];
    assert forall u :: u in ts ==> u in ts + [t];
  }

  lemma ListenerStep<B>(f: Feed<B>, w: World<B>, ts: seq<Tick>, t: Tick)
    requires ListenerInv(w, ts)
    ensures ListenerInv(Step(f, Step(f, w, Arrive(t)), Return(0)), ts + [t])
  {
    ListenerLogStep(f, w, ts, t);
    ProcessInParts(f, w.svc, t);
    NoSnapshotTickIn(ts, t);
    var (s', y) := Process(f, w.svc, t);
    assert Without(w.held + [y], 0) == [y];
    assert s'.pool == [] && w.held[0] == (w.held + [y])[0];
  }

  lemma {:induction false} ListenerRun<B>(f: Feed<B>, ts: seq<Tick>)
    requires ts != []
    ensures ListenerInv(Run(f, ListenerEvents(ts)), ts)
  {
    var past, t := ts[..|ts| - 1], ts[|ts| - 1];
    var evs := ListenerEvents(past);
    assert ts == past + [t];
    if past != [] {
      ListenerRun(f, past);
      assert ListenerEvents(ts) == evs + [Arrive(t)] + [Return(0)];
      AppendEvent(f, evs, Arrive(t));
      AppendEvent(f, evs + [Arrive(t)], Return(0));
      ListenerStep(f, Run(f, evs), past, t);
    } else {
      assert ListenerEvents(ts) == evs + [Arrive(t)];
      AppendEvent(f, evs, Arrive(t));
      ListenerStart(f, t);
    }
  }

  lemma {:induction false} RunOfKeys(ticks: map<nat, Tick>, low: nat, next: nat)
    requires low <= next && forall k :: k in ticks <==> low <= k < next
    ensures |ticks| == next - low
  {
    if next == low {
      assert ticks == map[];
    } else {
      RunOfKeys(ticks - {next - 1}, low, next - 1);
      assert ticks.Keys == (ticks - {next - 1}).Keys + {next - 1};
      assert |ticks| == |ticks.Keys|;
    }
  }

  /**
   Under the listener's discipline the log holds at most the last two ticks from the
   first snapshot tick on, on runs of any length. Before it, nothing is ever pruned.
   */
  lemma ListenerLogSize<B>(f: Feed<B>, ts: seq<Tick>)
    requires ts != []
    ensures var h := Run(f, ListenerEvents(ts)).svc.history;
            |h.ticks| == if forall t :: t in ts ==> !t.Snapshot? then |ts| - 1
                         else if h.next == 1 then 1 else 2
  {
    ListenerRun(f, ts);
    var s := Run(f, ListenerEvents(ts)).svc;
    RunOfKeys(s.history.ticks, ListenerLow(s.generation, s.history.next), s.history.next);
  }
}
