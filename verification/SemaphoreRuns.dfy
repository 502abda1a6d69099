/**
 The asynchronous semaphore as a state machine over values. Acquire operations are
 numbered in the order they are initiated; a number stands for its completion handler.
 */
module SemaphoreRuns {
  import opened Readings

  datatype Outcome = Success | Aborted
  datatype Completion = Completion(op: nat, outcome: Outcome)

  /** `posted` lists the completions handed to executors; `waiting` is the ring, oldest first. */
  datatype Sem = Sem(count: int, waiting: seq<nat>, posted: seq<Completion>, arrived: nat)

  /** The kinds of cancellation a signal may ask for. */
  datatype Cancellation = Cancellation(terminal: bool, partial: bool, total: bool)

  datatype Event = Acquire | TryAcquire | Release | Cancel(op: nat, kind: Cancellation)

  function IndexOf(s: seq<nat>, x: nat): (k: nat)
    ensures k <= |s|
    ensures k < |s| ==> s[k] == x
    ensures k == |s| <==> x !in s
  {
    if s == [] || s[0] == x then 0 else 1 + IndexOf(s[1..], x)
  }

  /** As written, an immediate success takes no permit. */
  function AcquireStep(rd: Reading, s: Sem): Sem {
    if s.count != 0 then
      s.(count := if rd == Intended then s.count - 1 else s.count,
         posted := s.posted + [Completion(s.arrived, Success)],
         arrived := s.arrived + 1)
    else
      s.(waiting := s.waiting + [s.arrived], arrived := s.arrived + 1)
  }

  function TryStep(s: Sem): Sem {
    if s.count > 0 then s.(count := s.count - 1) else s
  }

  /** The k-th waiter leaves the ring and its handler is posted. */
  function CompleteAt(s: Sem, k: nat, outcome: Outcome): Sem
    requires k < |s.waiting|
  {
    s.(waiting := s.waiting[..k] + s.waiting[k + 1..], posted := s.posted + [Completion(s.waiting[k], outcome)])
  }

  function ReleaseStep(s: Sem): Sem {
    if s.waiting == [] then s.(count := s.count + 1) else CompleteAt(s, 0, Success)
  }

  /** A signal reaches a waiter only while it waits, and only if it asks for a known kind. */
  function CancelStep(s: Sem, op: nat, kind: Cancellation): Sem {
    var k := IndexOf(s.waiting, op);
    if k < |s.waiting| && (kind.terminal || kind.partial || kind.total) then CompleteAt(s, k, Aborted) else s
  }

  function Step(rd: Reading, s: Sem, e: Event): Sem {
    match e
    case Acquire => AcquireStep(rd, s)
    case TryAcquire => TryStep(s)
    case Release => ReleaseStep(s)
    case Cancel(op, kind) => CancelStep(s, op, kind)
  }

  function Run(rd: Reading, initial: nat, evs: seq<Event>): Sem {
    if evs == [] then Sem(initial, [], [], 0)
    else Step(rd, Run(rd, initial, evs[..|evs| - 1]), evs[|evs| - 1])
  }

  /** Destruction aborts the waiters one by one, oldest first. */
  function Destroyed(s: Sem): Sem
    decreases |s.waiting|
  {
    if s.waiting == [] then s else Destroyed(CompleteAt(s, 0, Aborted))
  }

  // ---------- the account of a run ----------

  function Succeeded(posted: seq<Completion>): seq<nat> {
    if posted == [] then []
    else
      var c := posted[|posted| - 1];
      Succeeded(posted[..|posted| - 1]) + (if c.outcome == Success then [c.op] else [])
  }

  function Ops(posted: seq<Completion>): seq<nat> {
    seq(|posted|, i requires 0 <= i < |posted| => posted[i].op)
  }

  function Releases(evs: seq<Event>): nat {
    if evs == [] then 0 else Releases(evs[..|evs| - 1]) + (if evs[|evs| - 1].Release? then 1 else 0)
  }

  /** Attempts by `try_acquire` that found a permit. */
  function Tries(rd: Reading, initial: nat, evs: seq<Event>): nat {
    if evs == [] then 0
    else
      var past := evs[..|evs| - 1];
      Tries(rd, initial, past) + (if evs[|evs| - 1].TryAcquire? && Run(rd, initial, past).count > 0 then 1 else 0)
  }

  /** Asynchronous acquires that found a permit and succeeded at once. */
  function Immediate(rd: Reading, initial: nat, evs: seq<Event>): nat {
    if evs == [] then 0
    else
      var past := evs[..|evs| - 1];
      Immediate(rd, initial, past) + (if evs[|evs| - 1].Acquire? && Run(rd, initial, past).count != 0 then 1 else 0)
  }

  // ---------- no wakeup is lost ----------

  /** Nobody waits while a permit is free. */
  ghost predicate Settled(s: Sem) {
    s.count >= 0 && (s.waiting != [] ==> s.count == 0)
  }

  lemma {:induction false} RunIsSettled(rd: Reading, initial: nat, evs: seq<Event>)
    ensures Settled(Run(rd, initial, evs))
    ensures var s := Run(rd, initial, evs); s.count >= 0 && (s.waiting != [] ==> s.count == 0)
  {
    if evs != [] {
      RunIsSettled(rd, initial, evs[..|evs| - 1]);
    }
  }

  // ---------- permits ----------

  lemma SucceededAppend(posted: seq<Completion>, c: Completion)
    ensures Succeeded(posted + [c]) == Succeeded(posted) + (if c.outcome == Success then [c.op] else [])
  {
    assert (posted + [c])[..|posted|] == posted;
  }

  /**
   Permits given out and left over make up those put in, but for the immediate
   successes, which as written take none.
   */
  lemma {:induction false} PermitAccount(rd: Reading, initial: nat, evs: seq<Event>)
    ensures var s := Run(rd, initial, evs);
            initial + Releases(evs) + (if rd == Intended then 0 else Immediate(rd, initial, evs))
              == s.count + |Succeeded(s.posted)| + Tries(rd, initial, evs)
  {
    if evs != [] {
      var past, e := evs[..|evs| - 1], evs[|evs| - 1];
      var s := Run(rd, initial, past);
      PermitAccount(rd, initial, past);
      RunIsSettled(rd, initial, past);
      match e
      case Acquire => SucceededAppend(s.posted, Completion(s.arrived, Success));
      case TryAcquire =>
      case Release =>
        if s.waiting != [] {
          SucceededAppend(s.posted, Completion(s.waiting[0], Success));
        }
      case Cancel(op, _) =>
        SucceededAppend(s.posted, Completion(op, Aborted));
    }
  }

  /** As written, permits are conserved over a run exactly when no acquire ever found one free. */
  lemma AsWrittenConservesIff(initial: nat, evs: seq<Event>)
    ensures var s := Run(AsWritten, initial, evs);
            (initial + Releases(evs) == s.count + |Succeeded(s.posted)| + Tries(AsWritten, initial, evs)) <==>
            Immediate(AsWritten, initial, evs) == 0
  {
    PermitAccount(AsWritten, initial, evs);
  }

  /** The smallest failing run: one permit, and two operations that both get it. */
  lemma AsWrittenSharesPermit()
    ensures var s := Run(AsWritten, 1, [Acquire, Acquire]);
            s.count == 1 && Succeeded(s.posted) == [0, 1]
  {
    var one := [Acquire];
    assert [Acquire, Acquire][..1] == one && one[..0] == [];
    assert Run(AsWritten, 1, one) == Sem(1, [], [Completion(0, Success)], 1);
    SucceededAppend([], Completion(0, Success));
    SucceededAppend([Completion(0, Success)], Completion(1, Success));
  }

  // ---------- first in, first out ----------

  ghost predicate Increasing(s: seq<nat>) {
    forall i, j :: 0 <= i < j < |s| ==> s[i] < s[j]
  }

  /** Those served, then those still waiting. */
  function Line(s: Sem): seq<nat> {
    Succeeded(s.posted) + s.waiting
  }

  /** The line is in order of arrival. */
  ghost predicate InOrder(s: Sem) {
    Increasing(Line(s)) && forall i :: 0 <= i < |Line(s)| ==> Line(s)[i] < s.arrived
  }

  /** Taking one number out of an increasing list leaves it increasing. */
  lemma WithoutKeepsOrder(s: seq<nat>, k: nat)
    requires Increasing(s) && k < |s|
    ensures Increasing(s[..k] + s[k + 1..])
  {
    var t := s[..k] + s[k + 1..];
    forall i, j | 0 <= i < j < |t| ensures t[i] < t[j] {
      assert t[i] == s[if i < k then i else i + 1] && t[j] == s[if j < k then j else j + 1];
    }
  }

  lemma CancelInOrder(s: Sem, k: nat)
    requires InOrder(s) && k < |s.waiting|
    ensures InOrder(CompleteAt(s, k, Aborted))
  {
    SucceededAppend(s.posted, Completion(s.waiting[k], Aborted));
    var m := |Succeeded(s.posted)| + k;
    WithoutKeepsOrder(Line(s), m);
    assert Line(CompleteAt(s, k, Aborted)) == Line(s)[..m] + Line(s)[m + 1..];
  }

  lemma AcquireInOrder(rd: Reading, s: Sem)
    requires Settled(s) && InOrder(s)
    ensures InOrder(AcquireStep(rd, s))
  {
    SucceededAppend(s.posted, Completion(s.arrived, Success));
    assert Line(AcquireStep(rd, s)) == Line(s) + [s.arrived];
  }

  lemma StepInOrder(rd: Reading, s: Sem, e: Event)
    requires Settled(s) && InOrder(s)
    ensures InOrder(Step(rd, s, e))
  {
    match e
    case Acquire => AcquireInOrder(rd, s);
    case TryAcquire => assert Line(TryStep(s)) == Line(s);
    case Release =>
      if s.waiting != [] {
        SucceededAppend(s.posted, Completion(s.waiting[0], Success));
      }
      assert Line(ReleaseStep(s)) == Line(s);
    case Cancel(op, _) =>
      var k := IndexOf(s.waiting, op);
      if k < |s.waiting| {
        CancelInOrder(s, k);
      }
  }

  /** What a semaphore keeps, whatever is asked of it. */
  ghost predicate Orderly(s: Sem) {
    match s
    case Sem(_, _, _, _) => Settled(s) && InOrder(s)
  }

  lemma StepOrderly(rd: Reading, s: Sem, e: Event)
    requires Orderly(s)
    ensures Orderly(Step(rd, s, e))
  {
    StepInOrder(rd, s, e);
  }

  lemma WaitersAreOrdered(s: Sem)
    requires Orderly(s)
    ensures Increasing(s.waiting) && forall i :: 0 <= i < |s.waiting| ==> s.waiting[i] < s.arrived
  {
    var n := |Succeeded(s.posted)|;
    assert forall i :: 0 <= i < |s.waiting| ==> s.waiting[i] == Line(s)[n + i];
  }

  lemma {:induction false} RunInOrder(rd: Reading, initial: nat, evs: seq<Event>)
    ensures InOrder(Run(rd, initial, evs))
    ensures var s := Run(rd, initial, evs);
            var line := Succeeded(s.posted) + s.waiting;
            forall i, j :: 0 <= i < j < |line| ==> line[i] < line[j]
  {
    if evs != [] {
      var past := evs[..|evs| - 1];
      RunInOrder(rd, initial, past);
      RunIsSettled(rd, initial, past);
      StepInOrder(rd, Run(rd, initial, past), evs[|evs| - 1]);
    }
  }

  // ---------- exactly once ----------

  /** Every operation initiated so far either waits or has completed, once. */
  ghost predicate OncePerOp(s: Sem) {
    forall op: nat :: (multiset(Ops(s.posted)) + multiset(s.waiting))[op] == if op < s.arrived then 1 else 0
  }

  lemma CompleteKeepsOnce(s: Sem, k: nat, outcome: Outcome)
    requires OncePerOp(s) && k < |s.waiting|
    ensures OncePerOp(CompleteAt(s, k, outcome))
  {
    var op := s.waiting[k];
    var rest := s.waiting[..k] + s.waiting[k + 1..];
    assert s.waiting == s.waiting[..k] + [op] + s.waiting[k + 1..];
    assert Ops(s.posted + [Completion(op, outcome)]) == Ops(s.posted) + [op];
    assert multiset(Ops(s.posted) + [op]) + multiset(rest) == multiset(Ops(s.posted)) + multiset(s.waiting);
  }

  lemma AcquireKeepsOnce(rd: Reading, s: Sem)
    requires OncePerOp(s)
    ensures OncePerOp(AcquireStep(rd, s))
  {
    var op := s.arrived;
    var all := multiset(Ops(s.posted)) + multiset(s.waiting);
    if s.count != 0 {
      assert Ops(s.posted + [Completion(op, Success)]) == Ops(s.posted) + [op];
      assert multiset(Ops(s.posted) + [op]) + multiset(s.waiting) == all + multiset{op};
    } else {
      assert multiset(Ops(s.posted)) + multiset(s.waiting + [op]) == all + multiset{op};
    }
  }

  lemma {:induction false} RunCompletesOnce(rd: Reading, initial: nat, evs: seq<Event>)
    ensures OncePerOp(Run(rd, initial, evs))
  {
    if evs == [] {
      assert Ops([]) == [];
    } else {
      var past, e := evs[..|evs| - 1], evs[|evs| - 1];
      var s := Run(rd, initial, past);
      RunCompletesOnce(rd, initial, past);
      match e
      case Acquire => AcquireKeepsOnce(rd, s);
      case TryAcquire =>
      case Release =>
        if s.waiting != [] {
          CompleteKeepsOnce(s, 0, Success);
        }
      case Cancel(op, _) =>
        var k := IndexOf(s.waiting, op);
        if k < |s.waiting| {
          CompleteKeepsOnce(s, k, Aborted);
        }
    }
  }

  // ---------- which signals abort ----------

  /**
   After any run, a signal takes a waiting operation out of the ring and aborts it exactly
   when one of the three kinds is set; otherwise, and for any other operation, nothing happens.
   */
  lemma CancelAbortsIff(rd: Reading, initial: nat, evs: seq<Event>, op: nat, kind: Cancellation)
    ensures var s := Run(rd, initial, evs);
            var c := Step(rd, s, Event.Cancel(op, kind));
            var aborts := op in s.waiting && (kind.terminal || kind.partial || kind.total);
            && (aborts ==> && op !in c.waiting && (forall x :: x in s.waiting && x != op ==> x in c.waiting)
                           && c.posted == s.posted + [Completion(op, Aborted)]
                           && c.count == s.count && c.arrived == s.arrived)
            && (!aborts ==> c == s)
  {
    var s := Run(rd, initial, evs);
    RunIsSettled(rd, initial, evs);
    RunInOrder(rd, initial, evs);
    WaitersAreOrdered(s);
    var k := IndexOf(s.waiting, op);
    if k < |s.waiting| {
      OneTakenOut(s.waiting, k);
    }
  }

  /** From a list in order, its k-th number goes and every other stays. */
  lemma OneTakenOut(s: seq<nat>, k: nat)
    requires Increasing(s) && k < |s|
    ensures var rest := s[..k] + s[k + 1..];
            s[k] !in rest && forall x :: x in s && x != s[k] ==> x in rest
  {
    var rest := s[..k] + s[k + 1..];
    assert forall i :: 0 <= i < |rest| ==> rest[i] == s[if i < k then i else i + 1];
    forall x | x in s && x != s[k] ensures x in rest {
      var i :| 0 <= i < |s| && s[i] == x;
      assert rest[if i < k then i else i - 1] == x;
    }
  }

  // ---------- what completes an operation ----------

  /** The event completes this operation with this outcome. */
  ghost predicate Completes(s: Sem, e: Event, c: Completion) {
    match e
    case Acquire => c == Completion(s.arrived, Success) && s.count != 0
    case TryAcquire => false
    case Release => s.waiting != [] && c == Completion(s.waiting[0], Success)
    case Cancel(op, kind) =>
      c == Completion(op, Aborted) && op in s.waiting && (kind.terminal || kind.partial || kind.total)
  }

  ghost predicate CompletesAt(rd: Reading, initial: nat, evs: seq<Event>, k: nat, c: Completion) {
    k < |evs| && Completes(Run(rd, initial, evs[..k]), evs[k], c)
  }

  /**
   An operation succeeds exactly when it finds a permit or is the oldest waiter at a
   release, and is aborted exactly when a signal of a known kind finds it waiting.
   */
  lemma {:induction false} CompletedIff(rd: Reading, initial: nat, evs: seq<Event>, c: Completion)
    ensures c in Run(rd, initial, evs).posted <==> exists k: nat :: CompletesAt(rd, initial, evs, k, c)
  {
    if evs != [] {
      var n := |evs| - 1;
      var past := evs[..n];
      CompletedIff(rd, initial, past, c);
      forall k: nat | k < n ensures CompletesAt(rd, initial, past, k, c) <==> CompletesAt(rd, initial, evs, k, c) {
        assert past[..k] == evs[..k];
      }
      assert CompletesAt(rd, initial, evs, n, c) <==> Completes(Run(rd, initial, past), evs[n], c);
      StepPosts(rd, Run(rd, initial, past), evs[n], c);
    }
  }

  lemma StepPosts(rd: Reading, s: Sem, e: Event, c: Completion)
    ensures c in Step(rd, s, e).posted <==> c in s.posted || Completes(s, e, c)
  {
  }

  // ---------- destruction ----------

  function Aborts(ops: seq<nat>): seq<Completion> {
    seq(|ops|, i requires 0 <= i < |ops| => Completion(ops[i], Aborted))
  }

  lemma {:induction false} DestroyedAbortsAll(s: Sem)
    ensures Destroyed(s) == s.(waiting := [], posted := s.posted + Aborts(s.waiting))
    decreases |s.waiting|
  {
    if s.waiting == [] {
      assert s.posted + [] == s.posted;
    } else {
      DestroyedAbortsAll(CompleteAt(s, 0, Aborted));
    }
  }

  lemma {:induction false} DestroyedKeepsOnce(s: Sem)
    requires OncePerOp(s)
    ensures OncePerOp(Destroyed(s))
    decreases |s.waiting|
  {
    if s.waiting != [] {
      CompleteKeepsOnce(s, 0, Aborted);
      DestroyedKeepsOnce(CompleteAt(s, 0, Aborted));
    }
  }

  /** After any run and destruction, every operation has completed exactly once. */
  lemma EveryOpCompletesOnce(rd: Reading, initial: nat, evs: seq<Event>)
    ensures var s, d := Run(rd, initial, evs), Destroyed(Run(rd, initial, evs));
            && d.waiting == [] && Succeeded(d.posted) == Succeeded(s.posted)
            && forall op: nat :: multiset(Ops(d.posted))[op] == if op < s.arrived then 1 else 0
  {
    var s := Run(rd, initial, evs);
    RunCompletesOnce(rd, initial, evs);
    DestroyedAbortsAll(s);
    DestroyedKeepsOnce(s);
    DestroyedServesNobody(s);
    assert multiset(Ops(Destroyed(s).posted)) + multiset([]) == multiset(Ops(Destroyed(s).posted));
  }

  lemma {:induction false} DestroyedServesNobody(s: Sem)
    ensures Succeeded(Destroyed(s).posted) == Succeeded(s.posted)
    decreases |s.waiting|
  {
    if s.waiting != [] {
      SucceededAppend(s.posted, Completion(s.waiting[0], Aborted));
      DestroyedServesNobody(CompleteAt(s, 0, Aborted));
    }
  }
}
