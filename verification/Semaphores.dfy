/** The asynchronous semaphore over its intrusive ring of waiters, and what each call does to its value. */
module Semaphores {
  import opened Bilists
  import opened Readings
  import opened SemaphoreRuns

  /** The operations whose nodes these are. */
  ghost function Tokens(ws: seq<BilistNode>): seq<nat> {
    seq(|ws|, i requires 0 <= i < |ws| => ws[i].op)
  }

  /** The slots in use are those of the nodes, each operation having one. */
  ghost predicate InUse(slots: map<nat, BilistNode>, ws: seq<BilistNode>) {
    && (forall i, j :: 0 <= i < j < |ws| ==> ws[i].op != ws[j].op)
    && (forall op :: op in slots ==> slots[op] in ws && slots[op].op == op)
    && (forall i :: 0 <= i < |ws| ==> ws[i].op in slots)
  }

  lemma InUseAfterEnqueue(slots: map<nat, BilistNode>, ws: seq<BilistNode>, n: BilistNode)
    requires InUse(slots, ws) && forall i :: 0 <= i < |ws| ==> ws[i].op < n.op
    ensures InUse(slots[n.op := n], ws + [n])
    ensures Tokens(ws + [n]) == Tokens(ws) + [n.op]
  {
  }

  lemma InUseAfterComplete(slots: map<nat, BilistNode>, ws: seq<BilistNode>, k: nat)
    requires InUse(slots, ws) && k < |ws|
    ensures InUse(slots - {ws[k].op}, ws[..k] + ws[k + 1..])
  {
    var rest := ws[..k] + ws[k + 1..];
    forall op | op in slots && op != ws[k].op ensures slots[op] in rest {
      StaysIn(ws, k, slots[op]);
    }
    assert forall i :: 0 <= i < |rest| ==> rest[i] == ws[if i < k then i else i + 1];
  }

  lemma TokensAfterComplete(ws: seq<BilistNode>, k: nat)
    requires k < |ws|
    ensures Tokens(ws[..k] + ws[k + 1..]) == Tokens(ws)[..k] + Tokens(ws)[k + 1..]
  {
  }

  lemma StaysIn(ws: seq<BilistNode>, k: nat, w: BilistNode)
    requires k < |ws| && w in ws && w != ws[k]
    ensures w in ws[..k] + ws[k + 1..]
  {
    assert ws == ws[..k] + [ws[k]] + ws[k + 1..];
  }

  class Semaphore {
    const waiters: BilistNode
    var count: int

    /** The cancellation slots in use: the waiter that a signal to an operation would complete. */
    var slots: map<nat, BilistNode>

    /** The completions handed to executors. */
    var posted: seq<Completion>

    /** How many acquire operations have been initiated. */
    var arrived: nat

    ghost var ring: seq<BilistNode>

    ghost function Value(): Sem
      reads this
    {
      Sem(count, Tokens(ring), posted, arrived)
    }

    /** The ring is whole, and the slots in use are those of the operations that wait. */
    ghost predicate Linked()
      reads this, waiters, ring
    {
      Ring(waiters, ring) && InUse(slots, ring)
    }

    lemma OldestIsNext()
      requires Linked()
      ensures waiters.next == waiters <==> ring == []
      ensures ring != [] ==> waiters.next == ring[0]
    {
      Links(waiters, ring, 0);
    }

    ghost predicate Valid()
      reads this, waiters, ring
    {
      Linked() && Orderly(Value())
    }

    constructor (initial: nat)
      ensures Valid() && fresh(waiters)
      ensures Value() == Run(Intended, initial, [])
    {
      waiters := new BilistNode(0);
      count, slots, posted, arrived, ring := initial, map[], [], 0, [];
      new;
      assert Tokens(ring) == [];
    }

    /** A new operation is served at once if a permit is free, else it waits behind all others. */
    method AsyncAcquire(rd: Reading) returns (op: nat)
      requires Valid()
      modifies this, waiters, ring
      ensures Valid() && op == old(arrived)
      ensures Value() == AcquireStep(rd, old(Value()))
      ensures forall w :: w in ring ==> w in old(ring) || fresh(w)
    {
      ghost var was := Value();
      op := arrived;
      if count != 0 {
        if rd == Intended {
          count := count - 1;
        }
        posted := posted + [Completion(op, Success)];
        arrived := arrived + 1;
      } else {
        Enqueue();
      }
      StepOrderly(rd, was, Event.Acquire);
      assert Tokens(ring) == AcquireStep(rd, was).waiting;
    }

    /** A waiter for the next operation is linked in front of the sentinel. */
    method Enqueue()
      requires Valid()
      modifies this, waiters, ring
      ensures Linked() && count == old(count) && posted == old(posted) && arrived == old(arrived) + 1
      ensures Tokens(ring) == Tokens(old(ring)) + [old(arrived)]
      ensures |ring| == |old(ring)| + 1 && ring[..|old(ring)|] == old(ring) && fresh(ring[|old(ring)|])
    {
      WaitersAreOrdered(Value());
      assert forall i :: 0 <= i < |ring| ==> ring[i].op == Tokens(ring)[i] < arrived;
      var node := new BilistNode(arrived);
      InUseAfterEnqueue(slots, ring, node);
      Links(waiters, ring, |ring|);
      node.LinkBefore(waiters, waiters, ring, |ring|);
      assert ring[..|ring|] + [node] + ring[|ring|..] == ring + [node];
      slots := slots[arrived := node];
      ring := ring + [node];
      arrived := arrived + 1;
    }

    /** Clear the operation's slot, unlink its node, and post its handler. */
    method Complete(w: BilistNode, outcome: Outcome, ghost k: nat)
      requires Linked() && k < |ring| && ring[k] == w
      modifies this, waiters, ring
      ensures Linked() && Value() == CompleteAt(old(Value()), k, outcome)
      ensures ring == old(ring[..k] + ring[k + 1..])
    {
      Links(waiters, ring, k);
      Links(waiters, ring, k + 1);
      InUseAfterComplete(slots, ring, k);
      TokensAfterComplete(ring, k);
      slots := slots - {w.op};
      w.Unlink(waiters, ring, k);
      posted := posted + [Completion(w.op, outcome)];
      ring := ring[..k] + ring[k + 1..];
    }

    method TryAcquire() returns (acquired: bool)
      requires Valid()
      modifies this`count
      ensures Valid() && acquired == (old(count) > 0)
      ensures Value() == TryStep(old(Value()))
    {
      ghost var was := Value();
      acquired := false;
      if count > 0 {
        count := count - 1;
        acquired := true;
      }
      StepOrderly(Intended, was, Event.TryAcquire);
    }

    /** The oldest waiter, if any, gets the permit that is put back. */
    method Release()
      requires Valid()
      modifies this, waiters, ring
      ensures Valid() && Value() == ReleaseStep(old(Value()))
      ensures ring == if old(ring) == [] then [] else old(ring)[1..]
    {
      ghost var was := Value();
      StepOrderly(Intended, was, Event.Release);
      OldestIsNext();
      count := count + 1;
      if waiters.next == waiters {
        assert ring == [] && Value() == ReleaseStep(was);
        return;
      }
      ServeOldest(was);
    }

    /** The permit just put back goes to the oldest waiter. */
    method ServeOldest(ghost was: Sem)
      requires Linked() && Settled(was) && was.waiting != [] && Value() == was.(count := was.count + 1)
      modifies this, waiters, ring
      ensures Linked() && Value() == CompleteAt(was, 0, Success)
      ensures ring == old(ring)[1..]
    {
      Decrement();
      OldestIsNext();
      Complete(waiters.next, Success, 0);
    }

    method Decrement()
      requires count > 0
      modifies this`count
      ensures count == old(count) - 1
    {
      count := count - 1;
    }

    /** A cancellation signal reaches an operation through its slot, if that is in use. */
    method Cancel(op: nat, kind: Cancellation)
      requires Valid()
      modifies this, waiters, ring
      ensures Valid() && Value() == CancelStep(old(Value()), op, kind)
      ensures op in Tokens(ring) <==> op in Tokens(old(ring)) && !(kind.terminal || kind.partial || kind.total)
      ensures forall w :: w in ring ==> w in old(ring)
    {
      ghost var was := Value();
      StepOrderly(Intended, was, Event.Cancel(op, kind));
      WaitersAreOrdered(was);
      ghost var k := IndexOf(Tokens(ring), op);
      if op in slots {
        ghost var m :| 0 <= m < |ring| && ring[m] == slots[op];
        assert Tokens(ring)[m] == op && m == k;
        if kind.terminal || kind.partial || kind.total {
          Complete(slots[op], Aborted, k);
        }
      } else {
        assert op !in Tokens(ring);
      }
    }

    /** Destruction completes every waiter with an error, oldest first. */
    method Destroy()
      requires Linked()
      modifies this, waiters, ring
      ensures ring == [] && Value() == Destroyed(old(Value()))
    {
      while waiters.next != waiters
        invariant Linked() && Destroyed(Value()) == Destroyed(old(Value()))
        invariant forall w :: w in ring ==> w in old(ring)
        decreases |ring|
      {
        OldestIsNext();
        Complete(waiters.next, Aborted, 0);
      }
      OldestIsNext();
    }

    /** The nodes that the destructor's loop as written would complete, were completion to leave the ring alone. */
    method DestructorWalk() returns (visited: seq<BilistNode>)
      requires Linked()
      ensures visited == ([waiters] + ring)[..|ring|]
      ensures (waiters !in visited && forall w :: w in ring ==> w in visited) <==> ring == []
    {
      visited := [];
      var p := waiters;
      Links(waiters, ring, 0);
      while p.next != waiters
        invariant |visited| <= |ring| && p == ([waiters] + ring)[|visited|]
        invariant p.next == if |visited| == |ring| then waiters else ring[|visited|]
        invariant visited == ([waiters] + ring)[..|visited|]
        decreases |ring| - |visited|
      {
        var current := p;
        p := p.next;
        visited := visited + [current];
        Links(waiters, ring, |visited|);
      }
    }
  }
}
