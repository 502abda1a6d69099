/**
 The snapshot service as a state machine over values: a live book, a pruned log of
 ticks, and snapshots that are handed out, returned, and caught up by replay.
 */
module SnapshotRuns {
  import opened Ticks
  import opened Feeds
  import opened TickHistories

  /** The wall-clock `timestamp` of a snapshot is not part of it here. */
  datatype Snap<B> = Snap(generation: nat, sequence: nat, upstream: Time, book: B)

  function FreshSnap<B>(f: Feed<B>): Snap<B> {
    Snap(0, 0, EPOCH, f.blank)
  }

  datatype Service<B> = Service(history: History, generation: nat, live: B, pool: seq<Snap<B>>)

  function NewService<B>(f: Feed<B>): Service<B> {
    Service(NO_HISTORY, 0, f.blank, [])
  }

  // ---------- one call ----------

  /** Replay the logged ticks numbered from `start` up to `end`, in order. */
  function ReplayRange<B>(f: Feed<B>, b: B, ticks: map<nat, Tick>, start: nat, end: nat): B
    decreases end
  {
    if end <= start then b
    else
      var c := ReplayRange(f, b, ticks, start, end - 1);
      if end - 1 in ticks then f.apply(c, ticks[end - 1]) else c
  }

  lemma {:induction false} ReplayNothing<B>(f: Feed<B>, b: B, ticks: map<nat, Tick>, start: nat, k: nat, end: nat)
    requires k == end || (k == start && end <= start)
    ensures ReplayRange(f, b, ticks, start, k) == ReplayRange(f, b, ticks, start, end)
  {
  }

  /** The service once the tick is logged and the live book has taken it. */
  function Advance<B>(f: Feed<B>, s: Service<B>, t: Tick): Service<B> {
    var history := if t.Snapshot? then NO_HISTORY else s.history;
    var generation := if t.Snapshot? then s.generation + 1 else s.generation;
    Service(WithTick(history, t), generation, f.apply(s.live, t), s.pool)
  }

  function Allocated<B>(f: Feed<B>, pool: seq<Snap<B>>): Snap<B> {
    if pool == [] then FreshSnap(f) else pool[|pool| - 1]
  }

  function Remaining<B>(pool: seq<Snap<B>>): seq<Snap<B>> {
    if pool == [] then [] else pool[..|pool| - 1]
  }

  /** The allocated snapshot can be caught up from the log. */
  predicate Replayable<B>(s: Service<B>, x: Snap<B>) {
    x.generation == s.generation && x.sequence in s.history.ticks
  }

  function CatchUp<B>(f: Feed<B>, s: Service<B>, x: Snap<B>): B {
    if Replayable(s, x) then ReplayRange(f, x.book, s.history.ticks, x.sequence + 1, s.history.next) else s.live
  }

  ghost function Prune<B>(s: Service<B>, x: Snap<B>): (h: History)
    ensures h.next == s.history.next
  {
    if Replayable(s, x) then WithoutMark(s.history, x.sequence) else s.history
  }

  /** A snapshot is allocated and its book brought up to the live book. */
  ghost function Recycled<B>(f: Feed<B>, a: Service<B>): (Service<B>, B) {
    var x := Allocated(f, a.pool);
    (Service(Prune(a, x), a.generation, a.live, Remaining(a.pool)), CatchUp(f, a, x))
  }

  /** The snapshot is labelled with the tick it shows, and that tick is marked. */
  function Labelled<B>(f: Feed<B>, s: Service<B>, b: B): (Service<B>, Snap<B>)
    requires s.history.next > 0
  {
    var sequence := s.history.next - 1;
    (s.(history := WithMark(s.history, sequence)), Snap(s.generation, sequence, f.updated(s.live), b))
  }

  ghost function HandOut<B>(f: Feed<B>, a: Service<B>): (Service<B>, Snap<B>)
    requires a.history.next > 0
  {
    var (s, b) := Recycled(f, a);
    Labelled(f, s, b)
  }

  ghost function Process<B>(f: Feed<B>, s: Service<B>, t: Tick): (Service<B>, Snap<B>) {
    HandOut(f, Advance(f, s, t))
  }

  lemma ProcessInParts<B>(f: Feed<B>, s: Service<B>, t: Tick)
    ensures var a := Advance(f, s, t);
            var x := Allocated(f, a.pool);
            && a.history.next > 0
            && Process(f, s, t).0
                 == Service(WithMark(Prune(a, x), a.history.next - 1), a.generation, a.live, Remaining(a.pool))
            && Process(f, s, t).1 == Snap(a.generation, a.history.next - 1, f.updated(a.live), CatchUp(f, a, x))
  {
  }

  lemma CatchUpIgnoresPool<B>(f: Feed<B>, s: Service<B>, x: Snap<B>, pool: seq<Snap<B>>)
    ensures var s' := s.(pool := pool);
            && Replayable(s', x) == Replayable(s, x)
            && CatchUp(f, s', x) == CatchUp(f, s, x) && Prune(s', x) == Prune(s, x)
  {
  }

  function Deallocate<B>(s: Service<B>, x: Snap<B>): Service<B> {
    s.(pool := s.pool + [x])
  }

  /** The snapshot returned last is the one recycled next, and the pool is then as before. */
  lemma LastReturnedIsNext<B>(f: Feed<B>, s: Service<B>, x: Snap<B>)
    ensures Allocated(f, Deallocate(s, x).pool) == x && Remaining(Deallocate(s, x).pool) == s.pool
  {
    assert (s.pool + [x])[..|s.pool|] == s.pool;
  }

  // ---------- the invariant ----------

  /** The ticks of each generation: a snapshot tick opens the next one. */
  function NextGens(gens: seq<seq<Tick>>, t: Tick): seq<seq<Tick>>
    requires gens != []
  {
    if t.Snapshot? then gens + [[t]] else gens[|gens| - 1 := gens[|gens| - 1] + [t]]
  }

  ghost predicate GensOpen(gens: seq<seq<Tick>>) {
    && gens != []
    && (forall g :: 1 <= g < |gens| ==> gens[g] != [] && gens[g][0].Snapshot?)
    && (gens[0] != [] ==> !gens[0][0].Snapshot?)
  }

  /**
   What a snapshot labelled with tick s of generation g shows. A fresh snapshot passes for
   one that has taken tick 0 of generation 0, so the very first one handed out lacks that tick.
   */
  function ShownBook<B>(f: Feed<B>, gens: seq<seq<Tick>>, g: nat, s: nat): B
    requires g < |gens| && s < |gens[g]|
  {
    if g == 0 && s == 0 then f.blank else Fold(f, f.blank, gens[g][..s + 1])
  }

  /** The snapshot shows a prefix of a generation, but for the very first one. */
  ghost predicate Faithful<B>(f: Feed<B>, gens: seq<seq<Tick>>, x: Snap<B>)
    requires gens != []
  {
    && x.generation < |gens|
    && x.sequence < |gens[x.generation]|
    && x.book == ShownBook(f, gens, x.generation, x.sequence)
  }

  /** No two snapshots show the same tick of the same generation. */
  ghost predicate NoTwins<B>(all: multiset<Snap<B>>) {
    && (forall x :: x in all ==> all[x] == 1)
    && (forall x, y :: x in all && y in all && x.generation == y.generation && x.sequence == y.sequence ==> x == y)
  }

  /** Every snapshot of the current generation has its watermark. */
  ghost predicate Marked<B>(s: Service<B>, all: multiset<Snap<B>>) {
    forall x :: x in all && x.generation == s.generation ==> x.sequence in s.history.marks
  }

  /** Marks are numbers in use; tick 0 of generation 0 does not outlive the call that brings it. */
  ghost predicate Trimmed<B>(s: Service<B>, low: nat) {
    && (forall m :: m in s.history.marks ==> m < s.history.next)
    && (s.generation == 0 && s.history.next > 0 ==> low > 0)
  }

  /** Service, snapshots in existence and ticks received so far agree. */
  ghost predicate Inv<B>(f: Feed<B>, s: Service<B>, all: multiset<Snap<B>>, gens: seq<seq<Tick>>) {
    exists low :: InvFrom(f, s, all, gens, low)
  }

  /** The invariant, with a log that starts at sequence number `low`. */
  ghost predicate InvFrom<B>(f: Feed<B>, s: Service<B>, all: multiset<Snap<B>>, gens: seq<seq<Tick>>, low: nat) {
    && GensOpen(gens)
    && s.generation == |gens| - 1
    && s.live == Fold(f, f.blank, gens[s.generation])
    && Logs(s.history, gens[s.generation])
    && Contiguous(s.history, low)
    && multiset(s.pool) <= all
    && (forall x :: x in all ==> Faithful(f, gens, x))
    && NoTwins(all)
    && Marked(s, all)
    && Trimmed(s, low)
  }

  /** What the invariant says of service and log alone. */
  lemma InvHistory<B>(f: Feed<B>, s: Service<B>, all: multiset<Snap<B>>, gens: seq<seq<Tick>>) returns (low: nat)
    requires Inv(f, s, all, gens)
    ensures GensOpen(gens) && s.generation == |gens| - 1
    ensures Logs(s.history, gens[s.generation]) && Contiguous(s.history, low)
  {
    low :| InvFrom(f, s, all, gens, low);
  }

  /** What the invariant says of one snapshot. */
  lemma InvSnapshot<B>(f: Feed<B>, s: Service<B>, all: multiset<Snap<B>>, gens: seq<seq<Tick>>, x: Snap<B>)
    requires Inv(f, s, all, gens) && x in all
    ensures gens != [] && Faithful(f, gens, x) && all[x] == 1
    ensures x.generation >= 1 ==> gens[x.generation][0].Snapshot?
    ensures x.generation == s.generation ==> x.sequence in s.history.marks
  {
    var low :| InvFrom(f, s, all, gens, low);
  }

  // ---------- catching up ----------

  /** Replaying the logged ticks a book lacks brings it to the end of the log. */
  lemma {:induction false} ReplayReaches<B>(f: Feed<B>, b: B, h: History, log: seq<Tick>,
                                            low: nat, start: nat, end: nat)
    requires Contiguous(h, low) && Logs(h, log)
    requires low <= start <= end <= |log|
    requires b == Fold(f, f.blank, log[..start])
    ensures ReplayRange(f, b, h.ticks, start, end) == Fold(f, f.blank, log[..end])
    decreases end
  {
    if end > start {
      ReplayReaches(f, b, h, log, low, start, end - 1);
      FoldStep(f, f.blank, log, end - 1);
    }
  }

  /** The log and the live book after a tick, and what the older snapshots show. */
  ghost predicate Advanced<B>(f: Feed<B>, a: Service<B>, all: multiset<Snap<B>>, gens: seq<seq<Tick>>, low: nat) {
    && GensOpen(gens)
    && a.generation == |gens| - 1
    && a.live == Fold(f, f.blank, gens[a.generation])
    && Logs(a.history, gens[a.generation])
    && Contiguous(a.history, low)
    && low < a.history.next
    && (forall x :: x in all ==> Faithful(f, gens, x))
    && (forall x :: x in all && x.generation == a.generation ==> x.sequence < a.history.next - 1)
    && (forall m :: m in a.history.marks ==> m < a.history.next - 1)
    && (a.generation == 0 && a.history.next > 1 ==> low > 0)
  }

  /** The service has just taken its very first tick, and that was no snapshot. */
  predicate FirstTick<B>(a: Service<B>) {
    a.generation == 0 && a.history.next == 1
  }

  /** A further tick changes nothing about what older snapshots show. */
  lemma StaysFaithful<B>(f: Feed<B>, gens: seq<seq<Tick>>, t: Tick, x: Snap<B>)
    requires gens != [] && Faithful(f, gens, x)
    ensures Faithful(f, NextGens(gens, t), x)
  {
    var g, gens' := x.generation, NextGens(gens, t);
    assert gens[g] <= gens'[g];
    assert gens'[g][..x.sequence + 1] == gens[g][..x.sequence + 1];
  }

  lemma {:induction false} SnapshotTickAdvances<B(!new)>(f: Feed<B>, s: Service<B>, all: multiset<Snap<B>>,
                                                         gens: seq<seq<Tick>>, t: Tick)
    requires Resets(f) && Inv(f, s, all, gens) && t.Snapshot?
    ensures Advanced(f, Advance(f, s, t), all, NextGens(gens, t), 0)
  {
    var a := Advance(f, s, t);
    forall x | x in all ensures Faithful(f, NextGens(gens, t), x) && x.generation < a.generation
    {
      InvSnapshot(f, s, all, gens, x);
      StaysFaithful(f, gens, t, x);
    }
    var _ := InvHistory(f, s, all, gens);
    assert a.history.ticks == map[0 := t];
    FoldAppend(f, f.blank, [], t);
    assert [] + [t] == [t];
    assert a.live == f.apply(f.blank, t);
  }

  lemma {:induction false} OtherTickAdvances<B>(f: Feed<B>, s: Service<B>, all: multiset<Snap<B>>,
                                                gens: seq<seq<Tick>>, t: Tick, low: nat)
    requires InvFrom(f, s, all, gens, low) && !t.Snapshot?
    ensures Advanced(f, Advance(f, s, t), all, NextGens(gens, t), low)
  {
    TickKeepsRun(s.history, low, gens[s.generation], t);
    FoldAppend(f, f.blank, gens[s.generation], t);
    forall x | x in all ensures Faithful(f, NextGens(gens, t), x)
    {
      StaysFaithful(f, gens, t, x);
    }
  }

  lemma AdvanceKeeps<B(!new)>(f: Feed<B>, s: Service<B>, all: multiset<Snap<B>>, gens: seq<seq<Tick>>, t: Tick)
    returns (low: nat)
    requires Resets(f) && Inv(f, s, all, gens)
    ensures Advanced(f, Advance(f, s, t), all, NextGens(gens, t), low)
  {
    if t.Snapshot? {
      low := 0;
      SnapshotTickAdvances(f, s, all, gens, t);
    } else {
      low :| InvFrom(f, s, all, gens, low);
      OtherTickAdvances(f, s, all, gens, t, low);
    }
  }

  /** The snapshots left once one has been allocated. */
  ghost function Left<B>(f: Feed<B>, pool: seq<Snap<B>>, all: multiset<Snap<B>>): multiset<Snap<B>> {
    if pool == [] then all else all - multiset{Allocated(f, pool)}
  }

  lemma AllocatedFromPool<B>(f: Feed<B>, pool: seq<Snap<B>>, all: multiset<Snap<B>>)
    requires multiset(pool) <= all
    ensures multiset(Remaining(pool)) <= Left(f, pool, all) <= all
    ensures pool != [] ==> Allocated(f, pool) in all
  {
    if pool != [] {
      var x := Allocated(f, pool);
      assert pool == Remaining(pool) + [x];
      assert multiset(pool) == multiset(Remaining(pool)) + multiset{x};
    }
  }

  /** The allocated snapshot is as faithful as those the service has produced. */
  lemma {:induction false} AllocatedIsFaithful<B>(f: Feed<B>, s: Service<B>, all: multiset<Snap<B>>,
                                                  gens: seq<seq<Tick>>)
    requires GensOpen(gens) && multiset(s.pool) <= all
    requires forall x :: x in all ==> Faithful(f, gens, x)
    requires s.generation == |gens| - 1 && Logs(s.history, gens[s.generation])
    ensures Replayable(s, Allocated(f, s.pool)) ==> Faithful(f, gens, Allocated(f, s.pool))
  {
    AllocatedFromPool(f, s.pool, all);
  }

  /** Catching up a faithful snapshot gives the live book. */
  lemma CatchUpIsLive<B>(f: Feed<B>, a: Service<B>, x: Snap<B>, log: seq<Tick>, low: nat)
    requires Logs(a.history, log) && Contiguous(a.history, low)
    requires a.live == Fold(f, f.blank, log)
    requires Replayable(a, x) ==> x.book == Fold(f, f.blank, log[..x.sequence + 1])
    ensures CatchUp(f, a, x) == a.live
  {
    if Replayable(a, x) {
      ReplayReaches(f, x.book, a.history, log, low, x.sequence + 1, |log|);
      assert log[..|log|] == log;
    }
  }

  lemma CatchesUp<B>(f: Feed<B>, a: Service<B>, all: multiset<Snap<B>>, gens: seq<seq<Tick>>, low: nat)
    requires Advanced(f, a, all, gens, low) && multiset(a.pool) <= all && !FirstTick(a)
    ensures CatchUp(f, a, Allocated(f, a.pool)) == a.live
  {
    AllocatedIsFaithful(f, a, all, gens);
    CatchUpIsLive(f, a, Allocated(f, a.pool), gens[a.generation], low);
  }

  /** Replay of the allocated snapshot starts from the book its log prefix gives, or has nothing to do. */
  ghost predicate StartsRight<B>(f: Feed<B>, a: Service<B>, log: seq<Tick>, low: nat, x: Snap<B>) {
    && Logs(a.history, log) && Contiguous(a.history, low)
    && (Replayable(a, x) && x.sequence + 1 < |log| ==>
          low <= x.sequence + 1 && x.book == Fold(f, f.blank, log[..x.sequence + 1]))
  }

  lemma AllocatedStartsRight<B>(f: Feed<B>, a: Service<B>, all: multiset<Snap<B>>, gens: seq<seq<Tick>>, low: nat)
    requires Advanced(f, a, all, gens, low) && multiset(a.pool) <= all
    ensures StartsRight(f, a, gens[a.generation], low, Allocated(f, a.pool))
  {
    AllocatedIsFaithful(f, a, all, gens);
  }

  /** At the very first tick there is no snapshot yet, and the fresh one is taken to have that tick. */
  lemma FirstTickIsMissed<B>(f: Feed<B>, a: Service<B>, all: multiset<Snap<B>>, gens: seq<seq<Tick>>, low: nat)
    requires Advanced(f, a, all, gens, low) && multiset(a.pool) <= all && FirstTick(a)
    ensures all == multiset{} && a.pool == [] && a.history.marks == multiset{}
    ensures Replayable(a, FreshSnap(f)) && CatchUp(f, a, FreshSnap(f)) == f.blank
    ensures Prune(a, FreshSnap(f)).ticks == map[]
  {
    assert a.history.marks[0 := 0] == multiset{};
    AllocatedFromPool(f, a.pool, all);
  }

  /** Every call but the very first, if that brings no snapshot tick, hands out the live book. */
  lemma ProcessCopiesLive<B(!new)>(f: Feed<B>, s: Service<B>, all: multiset<Snap<B>>, gens: seq<seq<Tick>>, t: Tick)
    requires Resets(f) && Inv(f, s, all, gens)
    ensures var (s', y) := Process(f, s, t);
            y.book == if FirstTick(s') then f.blank else s'.live
  {
    var a, gens' := Advance(f, s, t), NextGens(gens, t);
    var low := AdvanceKeeps(f, s, all, gens, t);
    ProcessInParts(f, s, t);
    if FirstTick(a) {
      FirstTickIsMissed(f, a, all, gens', low);
    } else {
      CatchesUp(f, a, all, gens', low);
    }
  }

  // ---------- one call keeps the invariant ----------

  /** Pruning for a recycled snapshot keeps the log a run and every other mark in place. */
  lemma PruneKeeps<B>(a: Service<B>, x: Snap<B>, log: seq<Tick>, low: nat) returns (low': nat)
    requires Logs(a.history, log) && Contiguous(a.history, low)
    ensures Logs(Prune(a, x), log) && Contiguous(Prune(a, x), low')
    ensures forall m :: m in a.history.marks && !(Replayable(a, x) && m == x.sequence) ==> m in Prune(a, x).marks
    ensures forall m, k :: m in Prune(a, x).marks && k in a.history.ticks && m <= k ==> k in Prune(a, x).ticks
    ensures low <= low' && forall m :: m in Prune(a, x).marks ==> m in a.history.marks
  {
    low' := low;
    if Replayable(a, x) {
      UnmarkKeepsRun(a.history, low, log, x.sequence);
      low' :| Contiguous(Prune(a, x), low');
      assert low' < a.history.next ==> low' in Prune(a, x).ticks;
      assert forall k :: k in Prune(a, x).ticks ==> k in a.history.ticks;
    }
  }

  /** Adding a snapshot of a new tick to snapshots of older ticks makes no twins. */
  lemma NewIsNoTwin<B>(all: multiset<Snap<B>>, left: multiset<Snap<B>>, x: Snap<B>)
    requires NoTwins(all) && left <= all
    requires forall y :: y in all && y.generation == x.generation ==> y.sequence < x.sequence
    ensures NoTwins(left + multiset{x})
  {
    assert forall y :: y in left ==> y in all && left[y] <= all[y];
  }

  /** The mark that recycling takes is no other snapshot's. */
  lemma MarkStays<B>(f: Feed<B>, a: Service<B>, all: multiset<Snap<B>>, gens: seq<seq<Tick>>, low: nat, z: Snap<B>)
    requires Advanced(f, a, all, gens, low) && multiset(a.pool) <= all && NoTwins(all)
    requires z in Left(f, a.pool, all) && z.generation == a.generation
    ensures Replayable(a, Allocated(f, a.pool)) ==> Allocated(f, a.pool).sequence != z.sequence
  {
    var x := Allocated(f, a.pool);
    AllocatedFromPool(f, a.pool, all);
    if Replayable(a, x) && a.pool != [] {
      assert all[x] == 1 && z != x;
    }
  }

  lemma MarkedAfterHandOut<B>(f: Feed<B>, a: Service<B>, all: multiset<Snap<B>>, gens: seq<seq<Tick>>, low: nat,
                              z: Snap<B>)
    requires Advanced(f, a, all, gens, low) && multiset(a.pool) <= all && NoTwins(all) && Marked(a, all)
    requires z in Left(f, a.pool, all) && z.generation == a.generation
    ensures z.sequence in Prune(a, Allocated(f, a.pool)).marks
  {
    AllocatedFromPool(f, a.pool, all);
    MarkStays(f, a, all, gens, low, z);
    var _ := PruneKeeps(a, Allocated(f, a.pool), gens[a.generation], low);
  }

  /** Recycling takes no watermark but that of the recycled snapshot. */
  lemma {:induction false} MarksAfterProcess<B(!new)>(f: Feed<B>, s: Service<B>, all: multiset<Snap<B>>,
                                                      gens: seq<seq<Tick>>, t: Tick)
    requires Resets(f) && Inv(f, s, all, gens)
    ensures var (s', y) := Process(f, s, t);
            Marked(s', Left(f, s.pool, all) + multiset{y})
  {
    var a := Advance(f, s, t);
    var (s', y) := Process(f, s, t);
    var low := AdvanceKeeps(f, s, all, gens, t);
    ProcessInParts(f, s, t);
    AdvanceKeepsMarks(f, s, all, gens, t);
    forall z | z in Left(f, s.pool, all) + multiset{y} && z.generation == s'.generation
      ensures z.sequence in s'.history.marks
    {
      assert z == y || z in Left(f, s.pool, all);
      if z != y {
        MarkedAfterHandOut(f, a, all, NextGens(gens, t), low, z);
      }
    }
  }

  lemma AdvanceKeepsMarks<B>(f: Feed<B>, s: Service<B>, all: multiset<Snap<B>>, gens: seq<seq<Tick>>, t: Tick)
    requires Inv(f, s, all, gens)
    ensures Marked(Advance(f, s, t), all) && NoTwins(all) && multiset(s.pool) <= all
  {
    forall x | x in all && x.generation == Advance(f, s, t).generation
      ensures x.sequence in Advance(f, s, t).history.marks
    {
      InvSnapshot(f, s, all, gens, x);
    }
  }

  /** A snapshot of the whole log is faithful if its book is the live one, or blank after the very first tick. */
  lemma LatestIsFaithful<B>(f: Feed<B>, a: Service<B>, gens: seq<seq<Tick>>, y: Snap<B>)
    requires gens != [] && a.generation == |gens| - 1 && a.history.next == |gens[a.generation]| > 0
    requires a.live == Fold(f, f.blank, gens[a.generation])
    requires y.generation == a.generation && y.sequence == a.history.next - 1
    requires y.book == if FirstTick(a) then f.blank else a.live
    ensures Faithful(f, gens, y)
  {
    var log := gens[a.generation];
    assert log[..|log|] == log;
  }

  /** The snapshot handed out, like those it joins, shows a prefix of a generation. */
  lemma {:induction false} ProcessIsFaithful<B(!new)>(f: Feed<B>, s: Service<B>, all: multiset<Snap<B>>,
                                                      gens: seq<seq<Tick>>, t: Tick)
    requires Resets(f) && Inv(f, s, all, gens)
    ensures Faithful(f, NextGens(gens, t), Process(f, s, t).1)
  {
    var a, gens' := Advance(f, s, t), NextGens(gens, t);
    ProcessInParts(f, s, t);
    var _ := AdvanceKeeps(f, s, all, gens, t);
    ProcessCopiesLive(f, s, all, gens, t);
    LatestIsFaithful(f, a, gens', Process(f, s, t).1);
  }

  /** After a call, tick 0 of generation 0 is out of the log. */
  lemma TrimmedAfterProcess<B>(f: Feed<B>, a: Service<B>, all: multiset<Snap<B>>, gens: seq<seq<Tick>>,
                               low: nat, low': nat)
    requires Advanced(f, a, all, gens, low) && multiset(a.pool) <= all
    requires low <= low' && Contiguous(Prune(a, Allocated(f, a.pool)), low')
    ensures a.generation == 0 ==> low' > 0
  {
    if FirstTick(a) {
      FirstTickIsMissed(f, a, all, gens, low);
      assert low' < a.history.next ==> low' in Prune(a, FreshSnap(f)).ticks;
    }
  }

  /** A pruned and marked log, and a faithful new snapshot, restore the invariant. */
  lemma {:induction false} HandOutKeeps<B>(f: Feed<B>, a: Service<B>, all: multiset<Snap<B>>, gens: seq<seq<Tick>>,
                                           low: nat, h: History, low': nat, y: Snap<B>)
    requires Advanced(f, a, all, gens, low) && multiset(a.pool) <= all && NoTwins(all)
    requires Logs(h, gens[a.generation]) && Contiguous(h, low')
    requires Faithful(f, gens, y) && y.generation == a.generation && y.sequence == a.history.next - 1
    requires var s := Service(h, a.generation, a.live, Remaining(a.pool));
             Marked(s, Left(f, a.pool, all) + multiset{y}) && Trimmed(s, low')
    ensures InvFrom(f, Service(h, a.generation, a.live, Remaining(a.pool)), Left(f, a.pool, all) + multiset{y},
                    gens, low')
  {
    var left := Left(f, a.pool, all);
    AllocatedFromPool(f, a.pool, all);
    NewIsNoTwin(all, left, y);
    assert forall z :: z in left + multiset{y} <==> z == y || z in left;
  }

  lemma {:induction false} ProcessKeeps<B(!new)>(f: Feed<B>, s: Service<B>, all: multiset<Snap<B>>,
                                                 gens: seq<seq<Tick>>, t: Tick)
    requires Resets(f) && Inv(f, s, all, gens)
    ensures var (s', y) := Process(f, s, t);
            Inv(f, s', Left(f, s.pool, all) + multiset{y}, NextGens(gens, t))
  {
    var a, gens' := Advance(f, s, t), NextGens(gens, t);
    var (s', y) := Process(f, s, t);
    ProcessInParts(f, s, t);
    var low := AdvanceKeeps(f, s, all, gens, t);
    var low' := PruneKeeps(a, Allocated(f, a.pool), gens'[a.generation], low);
    TrimmedAfterProcess(f, a, all, gens', low, low');
    MarksAfterProcess(f, s, all, gens, t);
    ProcessIsFaithful(f, s, all, gens, t);
    HandOutKeeps(f, a, all, gens', low, s'.history, low', y);
  }
}
