/**
 A feed as the snapshot service sees it: a book of some kind, and the step each tick
 takes it through. The service never looks inside a book.
 */
module Feeds {
  import opened Ticks

  datatype Feed<!B> = Feed(apply: (B, Tick) -> B, blank: B, updated: B -> Time)

  /** A snapshot tick says everything about the book, so the old book does not matter. */
  ghost predicate Resets<B(!new)>(f: Feed<B>) {
    forall b, t: Tick :: t.Snapshot? ==> f.apply(b, t) == f.apply(f.blank, t)
  }

  /** The tick changes nothing in a fresh book. */
  ghost predicate Harmless<B>(f: Feed<B>, t: Tick) {
    f.apply(f.blank, t) == f.blank
  }

  /** The book after all of the ticks. */
  function Fold<B>(f: Feed<B>, b: B, ts: seq<Tick>): B {
    if ts == [] then b else f.apply(Fold(f, b, ts[..|ts| - 1]), ts[|ts| - 1])
  }

  lemma FoldAppend<B>(f: Feed<B>, b: B, ts: seq<Tick>, t: Tick)
    ensures Fold(f, b, ts + [t]) == f.apply(Fold(f, b, ts), t)
  {
    assert (ts + [t])[..|ts|] == ts;
  }

  lemma FoldStep<B>(f: Feed<B>, b: B, ts: seq<Tick>, k: nat)
    requires k < |ts|
    ensures Fold(f, b, ts[..k + 1]) == f.apply(Fold(f, b, ts[..k]), ts[k])
  {
    assert ts[..k + 1][..k] == ts[..k];
  }

  lemma {:induction false} FoldSplit<B>(f: Feed<B>, b: B, ts: seq<Tick>, k: nat)
    requires k <= |ts|
    ensures Fold(f, b, ts) == Fold(f, Fold(f, b, ts[..k]), ts[k..])
  {
    var n := |ts| - 1;
    if k <= n {
      FoldSplit(f, b, ts[..n], k);
      assert ts[..n][..k] == ts[..k] && ts[..n][k..] == ts[k..][..n - k];
    } else {
      assert ts[..k] == ts;
    }
  }

  /** A stream that opens with a snapshot leads to the same book from any book. */
  lemma {:induction false} FoldForgets<B(!new)>(f: Feed<B>, b: B, c: B, ts: seq<Tick>)
    requires Resets(f) && ts != [] && ts[0].Snapshot?
    ensures Fold(f, b, ts) == Fold(f, c, ts)
  {
    if |ts| == 1 {
      assert ts[..0] == [];
    } else {
      FoldForgets(f, b, c, ts[..|ts| - 1]);
    }
  }
}
