/** Recycled string buffers: a free list of nodes, and handles that own a node each. */
module StringLists {

  class Node {
    var next: Node?
    var s: string

    constructor ()
      ensures next == null && s == ""
    {
      next, s := null, "";
    }
  }

  ghost function At(ns: seq<Node>, i: nat): Node? {
    if i < |ns| then ns[i] else null
  }

  class StringList {
    var first: Node?
    ghost var free: seq<Node>

    /** The nodes made and not yet deleted. */
    ghost var nodes: set<Node>

    /** The free chain, as the links spell it, ends in null and meets no node twice. */
    ghost predicate Chain()
      reads this, free
    {
      && first == At(free, 0)
      && (forall i, j :: 0 <= i < |free| && j == i + 1 ==> free[i].next == At(free, j))
      && (forall i, j :: 0 <= i < j < |free| ==> free[i] != free[j])
    }

    constructor ()
      ensures Chain() && free == [] && nodes == {}
    {
      first, free, nodes := null, [], {};
    }

    method Link(n: Node)
      requires Chain() && n !in free && n.next == null
      modifies this`first, this`free, n`next
      ensures Chain() && free == [n] + old(free)
    {
      n.next := first;
      first := n;
      free := [n] + free;
      forall i, j | 0 <= i < |free| && j == i + 1 ensures free[i].next == At(free, j) {
        assert i > 0 ==> free[i] == old(free)[i - 1] && At(free, j) == At(old(free), i);
      }
    }

    method Unlink() returns (result: Node?)
      requires Chain()
      modifies this`first, this`free, free`next
      ensures Chain()
      ensures result == old(first) && (result != null ==> result.next == null)
      ensures free == if old(free) == [] then [] else old(free)[1..]
    {
      result := first;
      if result != null {
        assert free[0].next == At(free, 1);
        first := result.next;
        result.next := null;
        free := free[1..];
        forall i, j | 0 <= i < |free| && j == i + 1 ensures free[i].next == At(free, j) {
          assert free[i] == old(free)[j] && At(free, j) == At(old(free), j + 1);
        }
      }
    }

    /** The destructor's loop deletes each free node once. */
    method DeleteAll() returns (deleted: seq<Node>)
      requires Chain()
      modifies this, free`next
      ensures Chain() && free == []
      ensures deleted == old(free) && (forall i, j :: 0 <= i < j < |deleted| ==> deleted[i] != deleted[j])
      ensures nodes == old(nodes) - (set n | n in deleted)
    {
      ghost var all := free;
      deleted := [];
      var current := Unlink();
      while current != null
        invariant Chain() && |deleted| <= |all| && deleted == all[..|deleted|] && current == At(all, |deleted|)
        invariant nodes == old(nodes)
        invariant free == if |deleted| < |all| then all[|deleted| + 1..] else []
        decreases |all| - |deleted|
      {
        assert all[..|deleted| + 1] == all[..|deleted|] + [current];
        deleted := deleted + [current];
        current := Unlink();
      }
      nodes := nodes - (set n | n in deleted);
    }
  }

  class Handle {
    var host: StringList?
    var node: Node?

    /** A handle on a node, or an empty one. */
    constructor (host: StringList?, node: Node?)
      ensures this.host == host && this.node == node
    {
      this.host, this.node := host, node;
    }
  }

  /** Every node is free, once, or owned by one handle, and by that one alone. */
  ghost predicate Partition(list: StringList, hs: set<Handle>)
    reads list, list.free, hs, Owned(hs)
  {
    && list.Chain()
    && (forall h :: h in hs && h.node != null ==> h.host == list && h.node !in list.free && h.node.next == null)
    && (forall g, h :: g in hs && h in hs && g != h && g.node != null ==> g.node != h.node)
    && list.nodes == (set n | n in list.free) + Owned(hs)
  }

  ghost function Owned(hs: set<Handle>): set<Node>
    reads hs
  {
    set h | h in hs && h.node != null :: h.node
  }

  /** Take a buffer off the free list, or make one. */
  method Pop(list: StringList, ghost hs: set<Handle>) returns (h: Handle)
    requires Partition(list, hs)
    modifies list, list.free`next
    ensures fresh(h) && h.node != null && Partition(list, hs + {h})
    ensures h.node !in Owned(hs)
    ensures old(list.free) != [] ==>
              h.node == old(list.free[0]) && list.free == old(list.free[1..]) && list.nodes == old(list.nodes)
    ensures old(list.free) == [] ==>
              fresh(h.node) && list.free == [] && list.nodes == old(list.nodes) + {h.node}
  {
    var n := list.Unlink();
    if n == null {
      n := new Node();
      list.nodes := list.nodes + {n};
    }
    h := new Handle(list, n);
    assert Owned(hs + {h}) == Owned(hs) + {n};
  }

  /** The new handle takes over what the other owned. */
  method MoveConstruct(other: Handle, ghost list: StringList, ghost hs: set<Handle>) returns (h: Handle)
    requires Partition(list, hs) && other in hs
    modifies other`node
    ensures fresh(h) && Partition(list, hs + {h})
    ensures h.node == old(other.node) && h.host == other.host && other.node == null
  {
    h := new Handle(other.host, other.node);
    other.node := null;
    assert Owned(hs + {h}) == old(Owned(hs));
  }

  /** Give back what the handle owns: the end of its life, and the first step of an assignment to it. */
  method GiveBack(h: Handle, ghost list: StringList, ghost hs: set<Handle>)
    requires Partition(list, hs) && h in hs
    modifies list`first, list`free, Owned({h})`next
    ensures Partition(list, hs - {h})
    ensures list.free == if h.node == null then old(list.free) else [h.node] + old(list.free)
  {
    if h.node != null {
      h.host.Link(h.node);
    }
    assert Owned(hs) == Owned(hs - {h}) + Owned({h});
  }

  /** Give back, then take over: a handle that owns a node must not be assigned to itself. */
  method MoveAssign(h: Handle, other: Handle, ghost list: StringList, ghost hs: set<Handle>)
    requires Partition(list, hs) && h in hs && other in hs
    modifies h, other`node, list`first, list`free, Owned({h})`next
    ensures Partition(list, hs) <==> h != other || old(h.node) == null
    ensures h.node == old(other.node) && h.host == old(other.host) && (h != other ==> other.node == null)
    ensures list.free == if old(h.node) == null then old(list.free) else [old(h.node)] + old(list.free)
  {
    GiveBack(h, list, hs);
    ghost var left := Owned(hs - {h});
    h.host := other.host;
    var n := other.node;
    other.node := null;
    h.node := n;
    if h == other && n != null {
      assert n == list.free[0];
    } else {
      assert Owned(hs) == left;
      assert Partition(list, hs);
    }
  }

  // ---------- truncation ----------

  function Limit(limit: nat): nat {
    if limit < 3 then 3 else limit
  }

  function Truncated(sv: string, limit: nat): (shown: string)
    ensures |shown| <= limit || |shown| <= 3
    ensures shown == sv <==> |sv| <= limit || |sv| <= 3
    ensures shown != sv ==>
              && |shown| == (if limit >= 3 then limit else 3)
              && forall i :: 0 <= i < |shown| ==> shown[i] == if i < |shown| - 3 then sv[i] else '.'
  {
    if |sv| > Limit(limit) then sv[..Limit(limit) - 3] + "..." else sv
  }

  /**
   The text to show: cut to the limit into a buffer of its own, or what that buffer
   holds already. No other handle's node or text changes.
   */
  method Transform(h: Handle, list: StringList, ghost hs: set<Handle>, sv: string, limit: nat) returns (shown: string)
    requires Partition(list, hs) && h in hs
    modifies h, list, list.free
    ensures Partition(list, hs)
    ensures shown == if old(h.node) == null then Truncated(sv, limit) else old(h.node).s
    ensures forall g :: g in hs && g != h && g.node != null ==> g.node.s == old(g.node.s)
    ensures h.node != null ==> h.node.s == shown
    ensures h.node == old(h.node) && list.free == old(list.free) && list.nodes == old(list.nodes) <==>
              old(h.node) != null || |sv| <= 3 || |sv| <= limit
    ensures h.node != old(h.node) ==>
              && h.node != null
              && list.free == (if old(list.free) == [] then [] else old(list.free[1..]))
              && (if old(list.free) == [] then fresh(h.node) else h.node == old(list.free[0]))
  {
    var limit := Limit(limit);
    if h.node == null && |sv| > limit {
      GetBuffer(h, list, hs);
      h.node.s := sv[..limit - 3];
      h.node.s := h.node.s + "...";
    }
    if h.node != null {
      return h.node.s;
    }
    shown := sv;
  }

  /** An empty handle gets a buffer that no other handle owns; the popped handle goes out of scope. */
  method GetBuffer(h: Handle, list: StringList, ghost hs: set<Handle>)
    requires Partition(list, hs) && h in hs && h.node == null
    modifies h, list, list.free`next
    ensures Partition(list, hs) && h.node != null
    ensures old(list.free) != [] ==>
              h.node == old(list.free[0]) && list.free == old(list.free[1..]) && list.nodes == old(list.nodes)
    ensures old(list.free) == [] ==>
              fresh(h.node) && list.free == [] && list.nodes == old(list.nodes) + {h.node}
  {
    var popped := Pop(list, hs);
    MoveAssign(h, popped, list, hs + {popped});
    GiveBack(popped, list, hs + {popped});
    assert hs + {popped} - {popped} == hs;
  }
}
