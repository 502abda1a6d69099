/** The intrusive circular list: a sentinel and the nodes linked through it. */
module Bilists {

  class BilistNode {
    var next: BilistNode
    var prev: BilistNode

    /** The token of the operation whose node this is; a sentinel's is of no account. */
    const op: nat

    /** A node starts linked to itself. */
    constructor (op: nat)
      ensures this.op == op && Ring(this, [])
    {
      this.op := op;
      next, prev := this, this;
    }

    /** Link this node, which is in no ring, in front of the k-th node; in front of the sentinel it is last. */
    method LinkBefore(n: BilistNode, ghost s: BilistNode, ghost ws: seq<BilistNode>, ghost k: nat)
      requires Ring(s, ws) && this != s && this !in ws
      requires k <= |ws| && n == Cycle(s, ws)[k + 1]
      modifies this`next, this`prev, n`prev, n.prev`next
      ensures Ring(s, ws[..k] + [this] + ws[k..])
    {
      ghost var c := Cycle(s, ws);
      Links(s, ws, k);
      next := n;
      prev := n.prev;
      prev.next := this;
      n.prev := this;
      ghost var c' := Cycle(s, ws[..k] + [this] + ws[k..]);
      assert c' == c[..k + 1] + [this] + c[k + 1..];
      forall i, j | 0 <= i < j <= |ws| + 2 && j == i + 1
        ensures c'[i].next == c'[j] && c'[j].prev == c'[i]
      {
        assert i < k ==> c[i].next == c[i + 1] && c[i + 1].prev == c[i];
        assert k + 1 < i ==> c[i - 1].next == c[i] && c[i].prev == c[i - 1];
      }
    }

    /** Take this node, the k-th of its ring, out; its own links keep their values. */
    method Unlink(ghost s: BilistNode, ghost ws: seq<BilistNode>, ghost k: nat)
      requires Ring(s, ws) && k < |ws| && ws[k] == this
      modifies next`prev, prev`next
      ensures Ring(s, ws[..k] + ws[k + 1..])
      ensures next == old(next) && prev == old(prev)
    {
      ghost var c := Cycle(s, ws);
      Links(s, ws, k);
      Links(s, ws, k + 1);
      var p, n := prev, next;
      n.prev := p;
      p.next := n;
      ghost var c' := Cycle(s, ws[..k] + ws[k + 1..]);
      assert c' == c[..k + 1] + c[k + 2..];
      forall i, j | 0 <= i < j <= |ws| && j == i + 1
        ensures c'[i].next == c'[j] && c'[j].prev == c'[i]
      {
        assert i < k ==> c[i].next == c[i + 1] && c[i + 1].prev == c[i];
        assert k < i ==> c[i + 1].next == c[i + 2] && c[i + 2].prev == c[i + 1];
      }
    }
  }

  /** Once around the ring, from the sentinel back to it. */
  ghost function Cycle(s: BilistNode, ws: seq<BilistNode>): seq<BilistNode> {
    [s] + ws + [s]
  }

  /** One chain through sentinel and nodes, in which next and prev are inverse. */
  ghost predicate Ring(s: BilistNode, ws: seq<BilistNode>)
    reads s, ws
  {
    && s !in ws
    && (forall i, j :: 0 <= i < j < |ws| ==> ws[i] != ws[j])
    && (forall i, j :: 0 <= i < j <= |ws| + 1 && j == i + 1 ==>
          Cycle(s, ws)[i].next == Cycle(s, ws)[j] && Cycle(s, ws)[j].prev == Cycle(s, ws)[i])
  }

  /** The k-th step around the ring, counted from the sentinel, both ways. */
  lemma Links(s: BilistNode, ws: seq<BilistNode>, k: nat)
    requires Ring(s, ws) && k <= |ws|
    ensures var a, b := (if k == 0 then s else ws[k - 1]), (if k == |ws| then s else ws[k]);
            a.next == b && b.prev == a
  {
    assert Cycle(s, ws)[k].next == Cycle(s, ws)[k + 1];
    assert Cycle(s, ws)[k + 1].prev == Cycle(s, ws)[k];
  }
}
