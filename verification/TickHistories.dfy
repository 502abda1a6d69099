/** The sequenced log of ticks since the last reset, pruned below its lowest watermark. */
module TickHistories {
  import opened Ticks
  import opened Wrappers

  datatype History = History(next: nat, ticks: map<nat, Tick>, marks: multiset<nat>)

  const NO_HISTORY := History(0, map[], multiset{})

  lemma {:induction false} LeastExists(marks: multiset<nat>, x: nat)
    requires x in marks
    ensures exists m :: m in marks && forall y :: y in marks ==> m <= y
  {
    if y :| y in marks && y < x {
      LeastExists(marks, y);
    }
  }

  /** The first element of a multiset. */
  ghost function Least(marks: multiset<nat>): (m: nat)
    requires marks != multiset{}
    ensures m in marks && forall y :: y in marks ==> m <= y
  {
    var x :| x in marks;
    LeastExists(marks, x);
    var m :| m in marks && forall y :: y in marks ==> m <= y;
    m
  }

  /** `emplace` at the next sequence number. */
  function WithTick(h: History, t: Tick): History {
    h.(next := h.next + 1, ticks := if h.next in h.ticks then h.ticks else h.ticks[h.next := t])
  }

  function WithMark(h: History, m: nat): History {
    h.(marks := h.marks + multiset{m})
  }

  function From(ticks: map<nat, Tick>, low: nat): map<nat, Tick> {
    map k | k in ticks && low <= k :: ticks[k]
  }

  /** `erase` by value takes every copy of the mark; then ticks below the lowest mark go. */
  ghost function WithoutMark(h: History, m: nat): History {
    var marks := h.marks[m := 0];
    h.(marks := marks, ticks := if marks == multiset{} then map[] else From(h.ticks, Least(marks)))
  }

  /** The keys are one run, possibly empty, that ends at `next - 1`. */
  ghost predicate Contiguous(h: History, low: nat) {
    low <= h.next && forall k :: k in h.ticks <==> low <= k < h.next
  }

  /** Key k holds the k-th tick since the last reset. */
  ghost predicate Logs(h: History, log: seq<Tick>) {
    && h.next == |log|
    && forall k :: k in h.ticks ==> k < |log| && h.ticks[k] == log[k]
  }

  lemma TickKeepsRun(h: History, low: nat, log: seq<Tick>, t: Tick)
    requires Contiguous(h, low) && Logs(h, log)
    ensures Contiguous(WithTick(h, t), low) && Logs(WithTick(h, t), log + [t])
  {
  }

  /** Removing a mark leaves a run, and every tick from any mark that remains. */
  lemma UnmarkKeepsRun(h: History, low: nat, log: seq<Tick>, m: nat)
    requires Contiguous(h, low) && Logs(h, log)
    ensures Logs(WithoutMark(h, m), log)
    ensures exists low' :: Contiguous(WithoutMark(h, m), low')
    ensures forall x, k :: x in h.marks && x != m && k in h.ticks && x <= k ==> k in WithoutMark(h, m).ticks
  {
    var h' := WithoutMark(h, m);
    if h'.marks == multiset{} {
      assert Contiguous(h', h.next);
      assert forall x :: x in h.marks && x != m ==> x in h'.marks;
    } else {
      var least := Least(h'.marks);
      assert Contiguous(h', if least < low then low else if least < h.next then least else h.next);
      assert forall x :: x in h.marks && x != m ==> x in h'.marks;
    }
  }

  /** A tick survives the removal of a mark exactly when some other mark is at or below it. */
  lemma KeptAboveAMark(h: History, m: nat, k: nat)
    ensures k in WithoutMark(h, m).ticks <==> k in h.ticks && exists x :: x in h.marks && x != m && x <= k
    ensures k in WithoutMark(h, m).ticks ==> WithoutMark(h, m).ticks[k] == h.ticks[k]
    ensures WithoutMark(h, m).next == h.next
    ensures forall x: nat :: WithoutMark(h, m).marks[x] == if x == m then 0 else h.marks[x]
  {
    var marks := h.marks[m := 0];
    if x :| x in h.marks && x != m && x <= k {
      assert x in marks;
    }
  }

  class TickHistory {
    var nextSequence: nat
    var history: map<nat, Tick>
    var watermarks: multiset<nat>

    ghost function Value(): History
      reads this
    {
      History(nextSequence, history, watermarks)
    }

    constructor ()
      ensures Value() == NO_HISTORY
    {
      nextSequence, history, watermarks := 0, map[], multiset{};
    }

    method Reset()
      modifies this
      ensures Value() == NO_HISTORY
    {
      nextSequence, history, watermarks := 0, map[], multiset{};
    }

    method AddTick(t: Tick)
      modifies this
      ensures Value() == WithTick(old(Value()), t)
    {
      if nextSequence !in history {
        history := history[nextSequence := t];
      }
      nextSequence := nextSequence + 1;
    }

    /** The caller adds a tick first; on an empty log the subtraction would wrap. */
    method HighestSequence() returns (s: nat)
      requires nextSequence > 0
      ensures s == nextSequence - 1
    {
      s := nextSequence - 1;
    }

    method AddWatermark(m: nat)
      modifies this`watermarks
      ensures Value() == WithMark(old(Value()), m)
    {
      watermarks := watermarks + multiset{m};
    }

    /** `begin` of the watermarks. */
    method LowestWatermark() returns (m: nat)
      requires watermarks != multiset{}
      ensures m == Least(watermarks)
    {
      ghost var _ := Element(watermarks);
      m :| m in watermarks;
      var rest := watermarks[m := 0];
      while rest != multiset{}
        invariant m in watermarks && rest <= watermarks
        invariant forall y :: y in watermarks ==> m <= y || y in rest
        decreases |rest|
      {
        ghost var _ := Element(rest);
        var y :| y in rest;
        if y < m {
          m := y;
        }
        rest := rest[y := 0];
      }
    }

    method RemoveWatermark(m: nat)
      modifies this`watermarks, this`history
      ensures Value() == WithoutMark(old(Value()), m)
    {
      watermarks := watermarks[m := 0];
      if watermarks == multiset{} {
        history := map[];
        return;
      }
      var last := LowestWatermark();
      history := From(history, last);
    }
  }
}
