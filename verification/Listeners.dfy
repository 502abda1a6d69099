/** How the listener labels the snapshots it publishes, over any sequence of feed events. */
module Listeners {
  import opened FeedConditions

  /** The connection comes up or goes down; the subscription is answered; a tick is applied. */
  datatype FeedEvent = Connection(up: bool) | Response(ok: bool) | Ticked

  /** What the listener knows of connection and book, and the condition on the snapshot it shows. */
  datatype View = View(connection: Condition, book: Condition, published: Condition)

  const UNKNOWN := Condition(NotReady, ["connection state unknown"])
  const NO_BOOK := Condition(NotReady, ["no book"])

  function Refreshed(connection: Condition, book: Condition): View {
    View(connection, book, Merged(connection, book))
  }

  function Step(v: View, e: FeedEvent): View {
    match e
    case Connection(false) =>
      Refreshed(Condition(Stale, ["connection dropped"]), v.book.(state := Worse(v.book.state, Stale)))
    case Connection(true) =>
      Refreshed(Condition(Good, []), v.book)
    case Response(true) =>
      Refreshed(v.connection, Condition(NotReady, ["subscribed"]))
    case Response(false) =>
      Refreshed(v.connection, Condition(Error, ["failed to subscribe"]))
    case Ticked =>
      Refreshed(v.connection, Condition(Good, []))
  }

  function Run(evs: seq<FeedEvent>): View {
    if evs == [] then Refreshed(UNKNOWN, NO_BOOK) else Step(Run(evs[..|evs| - 1]), evs[|evs| - 1])
  }

  // ---------- the listener's handlers ----------

  class PublishedSnapshot {
    const condition: FeedCondition

    constructor ()
      ensures fresh(condition) && condition.Value() == Condition(NotReady, [])
    {
      condition := new FeedCondition();
    }
  }

  class Listener {
    const connection: FeedCondition
    const book: FeedCondition
    var snapshot: PublishedSnapshot

    /** Subscription requests sent so far. */
    var requests: nat

    ghost predicate Valid()
      reads this
    {
      connection != book && snapshot.condition != connection && snapshot.condition != book
    }

    ghost function Value(): View
      reads this, connection, book, snapshot.condition
    {
      View(connection.Value(), book.Value(), snapshot.condition.Value())
    }

    constructor ()
      ensures Valid() && Value() == Run([]) && requests == 0
      ensures fresh(connection) && fresh(book) && fresh(snapshot) && fresh(snapshot.condition)
    {
      connection := new FeedCondition();
      book := new FeedCondition();
      snapshot := new PublishedSnapshot();
      requests := 0;
      new;
      connection.errors := connection.errors + ["connection state unknown"];
      book.errors := book.errors + ["no book"];
      snapshot.condition.Merge(connection);
      snapshot.condition.Merge(book);
    }

    /** Label the shown snapshot anew, whatever its condition was. */
    method Update()
      requires Valid()
      modifies snapshot.condition
      ensures Value() == Refreshed(old(connection.Value()), old(book.Value()))
    {
      snapshot.condition.Reset(Good);
      snapshot.condition.Merge(connection);
      snapshot.condition.Merge(book);
    }

    method OnConnectionState(up: bool)
      requires Valid()
      modifies this`requests, connection, book, snapshot.condition
      ensures Valid() && Value() == Step(old(Value()), Connection(up))
      ensures requests == old(requests) + if up then 1 else 0
    {
      if !up {
        connection.Reset(Stale);
        connection.errors := connection.errors + ["connection dropped"];
        book.MergeState(Stale);
      } else {
        connection.Reset(Good);
        requests := requests + 1;
      }
      Update();
    }

    method OnCommandResponse(ok: bool)
      requires Valid()
      modifies book, snapshot.condition
      ensures Valid() && Value() == Step(old(Value()), Response(ok))
    {
      if ok {
        book.Reset(NotReady);
        book.errors := book.errors + ["subscribed"];
      } else {
        book.Reset(Error);
        book.errors := book.errors + ["failed to subscribe"];
      }
      Update();
    }

    /**
     Show the snapshot that the service handed out for the tick, which may carry the
     condition of an earlier use, and give the one shown so far back as it is.
     */
    method OnTick(next: PublishedSnapshot) returns (returned: PublishedSnapshot)
      requires Valid()
      requires next.condition != connection && next.condition != book && next.condition != snapshot.condition
      modifies this`snapshot, book, next.condition
      ensures Valid() && snapshot == next && returned == old(snapshot)
      ensures Value() == Step(old(Value()), Ticked)
      ensures returned.condition.Value() == old(Value()).published
    {
      returned := snapshot;
      snapshot := next;
      book.Reset(Good);
      Update();
    }
  }

  // ---------- what is published ----------

  /** The last of the events of these kinds is the i-th. */
  ghost predicate Latest(evs: seq<FeedEvent>, kinds: set<FeedEvent>, i: nat) {
    i < |evs| && evs[i] in kinds && forall k :: i < k < |evs| ==> evs[k] !in kinds
  }

  /** There is a last event of these kinds, and it is e. */
  ghost predicate LatestIs(evs: seq<FeedEvent>, kinds: set<FeedEvent>, e: FeedEvent) {
    exists i: nat :: Latest(evs, kinds, i) && evs[i] == e
  }

  /** The next event either is of the kinds and decides, or leaves the matter as it was. */
  lemma LatestAppend(evs: seq<FeedEvent>, e: FeedEvent, kinds: set<FeedEvent>, last: FeedEvent)
    ensures LatestIs(evs + [e], kinds, last) <==> if e in kinds then e == last else LatestIs(evs, kinds, last)
  {
    var evs' := evs + [e];
    if e in kinds {
      assert Latest(evs', kinds, |evs|);
    } else {
      forall i: nat ensures Latest(evs', kinds, i) <==> Latest(evs, kinds, i) {
        if Latest(evs', kinds, i) {
          assert forall k :: i < k < |evs| ==> evs'[k] == evs[k];
        }
      }
    }
  }

  const CONNECTIONS := {Connection(true), Connection(false)}
  const FEEDING := {Ticked, Response(true), Response(false)}

  ghost predicate Up(evs: seq<FeedEvent>) {
    LatestIs(evs, CONNECTIONS, Connection(true))
  }

  /** A tick came after the last answer to a subscription. */
  ghost predicate Fed(evs: seq<FeedEvent>) {
    LatestIs(evs, FEEDING, Ticked)
  }

  ghost predicate Refused(evs: seq<FeedEvent>) {
    LatestIs(evs, FEEDING, Response(false))
  }

  /** A tick came after the last answer to a subscription and after the last drop. */
  ghost predicate Live(evs: seq<FeedEvent>) {
    LatestIs(evs, FEEDING + {Connection(false)}, Ticked)
  }

  /** No event of these kinds has come yet. */
  ghost predicate Never(evs: seq<FeedEvent>, kinds: set<FeedEvent>) {
    forall k :: 0 <= k < |evs| ==> evs[k] !in kinds
  }

  lemma NeverAppend(evs: seq<FeedEvent>, e: FeedEvent, kinds: set<FeedEvent>)
    ensures Never(evs + [e], kinds) <==> Never(evs, kinds) && e !in kinds
  {
    var evs' := evs + [e];
    assert evs'[|evs|] == e && forall k :: 0 <= k < |evs| ==> evs'[k] == evs[k];
  }

  ghost predicate Down(evs: seq<FeedEvent>) {
    LatestIs(evs, CONNECTIONS, Connection(false))
  }

  /** The last answer or tick is an accepted subscription. */
  ghost predicate Subscribed(evs: seq<FeedEvent>) {
    LatestIs(evs, FEEDING, Response(true))
  }

  /** The condition of the connection, and why. */
  ghost predicate ReflectsConnection(c: Condition, evs: seq<FeedEvent>) {
    && (Up(evs) ==> c == Condition(Good, []))
    && (Down(evs) ==> c == Condition(Stale, ["connection dropped"]))
    && (Never(evs, CONNECTIONS) ==> c == Condition(NotReady, ["connection state unknown"]))
    && (Up(evs) || Down(evs) || Never(evs, CONNECTIONS))
  }

  /** The condition of the book, and why: a drop leaves no mark but on a book that was good. */
  ghost predicate ReflectsBook(b: Condition, evs: seq<FeedEvent>) {
    && (Fed(evs) ==> b == Condition(if Live(evs) then Good else Stale, []))
    && (Subscribed(evs) ==> b == Condition(NotReady, ["subscribed"]))
    && (Refused(evs) ==> b == Condition(Error, ["failed to subscribe"]))
    && (Never(evs, FEEDING) ==> b == Condition(NotReady, ["no book"]))
    && (Fed(evs) || Subscribed(evs) || Refused(evs) || Never(evs, FEEDING))
    && (Live(evs) ==> Fed(evs))
  }

  /** At most one of these cases holds. */
  lemma LatestIsOne(evs: seq<FeedEvent>, kinds: set<FeedEvent>, e: FeedEvent, e': FeedEvent)
    requires LatestIs(evs, kinds, e)
    ensures LatestIs(evs, kinds, e') ==> e == e'
    ensures !Never(evs, kinds)
  {
    var i: nat :| Latest(evs, kinds, i) && evs[i] == e;
    if LatestIs(evs, kinds, e') {
      var j: nat :| Latest(evs, kinds, j) && evs[j] == e';
      assert i == j;
    }
  }

  lemma CasesAreApart(evs: seq<FeedEvent>)
    ensures !(Up(evs) && Down(evs)) && (Up(evs) || Down(evs) ==> !Never(evs, CONNECTIONS))
    ensures !(Fed(evs) && Subscribed(evs)) && !(Fed(evs) && Refused(evs)) && !(Subscribed(evs) && Refused(evs))
    ensures Fed(evs) || Subscribed(evs) || Refused(evs) ==> !Never(evs, FEEDING)
  {
    if Up(evs) {
      LatestIsOne(evs, CONNECTIONS, Connection(true), Connection(false));
    } else if Down(evs) {
      LatestIsOne(evs, CONNECTIONS, Connection(false), Connection(true));
    }
    if Fed(evs) {
      LatestIsOne(evs, FEEDING, Ticked, Response(true));
      LatestIsOne(evs, FEEDING, Ticked, Response(false));
    } else if Subscribed(evs) {
      LatestIsOne(evs, FEEDING, Response(true), Response(false));
    } else if Refused(evs) {
      LatestIsOne(evs, FEEDING, Response(false), Ticked);
    }
  }

  ghost predicate Reflects(v: View, evs: seq<FeedEvent>) {
    && v.published == Merged(v.connection, v.book)
    && ReflectsConnection(v.connection, evs) && ReflectsBook(v.book, evs)
  }

  lemma {:induction false} StepReflects(v: View, evs: seq<FeedEvent>, e: FeedEvent)
    requires Reflects(v, evs)
    ensures Reflects(Step(v, e), evs + [e])
  {
    LatestAppend(evs, e, CONNECTIONS, Connection(true));
    LatestAppend(evs, e, CONNECTIONS, Connection(false));
    NeverAppend(evs, e, CONNECTIONS);
    LatestAppend(evs, e, FEEDING, Ticked);
    LatestAppend(evs, e, FEEDING, Response(true));
    LatestAppend(evs, e, FEEDING, Response(false));
    NeverAppend(evs, e, FEEDING);
    LatestAppend(evs, e, FEEDING + {Connection(false)}, Ticked);
  }

  lemma {:induction false} RunReflects(evs: seq<FeedEvent>)
    ensures Reflects(Run(evs), evs)
  {
    if evs != [] {
      RunReflects(evs[..|evs| - 1]);
      assert evs == evs[..|evs| - 1] + [evs[|evs| - 1]];
      StepReflects(Run(evs[..|evs| - 1]), evs[..|evs| - 1], evs[|evs| - 1]);
    }
  }

  /** After any events, the snapshot shown carries the worse state and all the errors of both conditions. */
  lemma {:induction false} PublishedIsJoin(evs: seq<FeedEvent>)
    ensures var v := Run(evs);
            var (c, b, p) := (v.connection.state, v.book.state, v.published.state);
            && (p == Error <==> c == Error || b == Error)
            && (p == NotReady <==> (c == NotReady || b == NotReady) && c != Error && b != Error)
            && (p == Stale <==> (c == Stale || b == Stale) && c in {Good, Stale} && b in {Good, Stale})
            && (p == Good <==> c == Good && b == Good)
            && v.published.errors == v.connection.errors + v.book.errors
  {
    RunReflects(evs);
  }

  /** Not ready: no refusal, and the connection is unknown, or there is no tick since the subscription was accepted. */
  lemma {:induction false} PublishedNotReadyIff(evs: seq<FeedEvent>)
    ensures Run(evs).published.state == NotReady <==>
              && !Refused(evs)
              && (Never(evs, CONNECTIONS) || Never(evs, FEEDING) || Subscribed(evs))
  {
    RunReflects(evs);
    CasesAreApart(evs);
  }

  /** Stale: ticks since the last answer, a known connection, and a drop since the last tick or the last connection. */
  lemma {:induction false} PublishedStaleIff(evs: seq<FeedEvent>)
    ensures Run(evs).published.state == Stale <==> Fed(evs) && (Down(evs) || (Up(evs) && !Live(evs)))
  {
    RunReflects(evs);
    CasesAreApart(evs);
  }

  /** Which errors are published, word for word: one for the connection unless it is up, one for the book unless fed. */
  lemma {:induction false} PublishedErrorsAre(evs: seq<FeedEvent>)
    ensures Run(evs).published.errors ==
              (if Up(evs) then [] else if Down(evs) then ["connection dropped"] else ["connection state unknown"])
              + (if Fed(evs) then [] else if Subscribed(evs) then ["subscribed"]
                 else if Refused(evs) then ["failed to subscribe"] else ["no book"])
  {
    RunReflects(evs);
  }

  /** `Good` is published exactly while the connection is up and a tick came last among what bears on the book. */
  lemma {:induction false} PublishedGoodIff(evs: seq<FeedEvent>)
    ensures Run(evs).published.state == Good <==> Up(evs) && Live(evs)
    ensures Run(evs).published.state == Good ==> Run(evs).published.errors == []
  {
    RunReflects(evs);
    CasesAreApart(evs);
  }

  lemma {:induction false} PublishedErrorIff(evs: seq<FeedEvent>)
    ensures Run(evs).published.state == Error <==> Refused(evs)
  {
    RunReflects(evs);
    CasesAreApart(evs);
  }

  /** A feed can be bad without a word: back up after a drop, with no tick since. */
  lemma {:induction false} BadWithoutErrorsIff(evs: seq<FeedEvent>)
    ensures Run(evs).published.errors == [] && Run(evs).published.state != Good <==> Up(evs) && Fed(evs) && !Live(evs)
  {
    RunReflects(evs);
    CasesAreApart(evs);
    var v := Run(evs);
    assert v.published.errors == [] <==> v.connection.errors == [] && v.book.errors == [];
  }

  lemma SilentlyStale()
    ensures Run([Ticked, Connection(false), Connection(true)]).published == Condition(Stale, [])
  {
    var one, two := [Ticked], [Ticked, Connection(false)];
    assert [Ticked, Connection(false), Connection(true)][..2] == two && two[..1] == one && one[..0] == [];
    assert Run(one).book == Condition(Good, []);
    assert Run(two).book == Condition(Stale, []);
  }
}
