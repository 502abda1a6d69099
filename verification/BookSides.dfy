/**
 One side of the live book on the heap: a ladder of levels, each a list of order
 nodes, and a cache from order id to the place of its node. `Model` is the ladder
 as a value; every operation is stated as a step of that value.
 */
module BookSides {
  import opened Ticks
  import opened Ladders
  import opened Wrappers

  /** A node of a level's list; a reference to it plays the list iterator. */
  class OrderNode {
    const id: OrderId
    var qty: Qty

    constructor (id: OrderId, qty: Qty)
      ensures this.id == id && this.qty == qty
    {
      this.id, this.qty := id, qty;
    }
  }

  /** An entry of a ladder; a reference to it plays the ladder iterator. */
  class LevelNode {
    const price: Price
    var depth: Qty
    var orders: seq<OrderNode>

    constructor (price: Price)
      ensures this.price == price && Shows(Level(0.0, []))
    {
      this.price, depth, orders := price, 0.0, [];
    }

    /** This node, a list without repeated nodes, spells out a level value. */
    ghost predicate Shows(v: Level)
      reads this, orders
    {
      && depth == v.depth
      && |orders| == |v.orders|
      && (forall i :: 0 <= i < |orders| ==> Order(orders[i].id, orders[i].qty) == v.orders[i])
      && (forall i, j :: 0 <= i < j < |orders| ==> orders[i] != orders[j])
    }

    method Push(id: OrderId, qty: Qty, ghost v: Level) returns (node: OrderNode)
      requires Shows(v)
      modifies this
      ensures fresh(node) && node.id == id && orders == old(orders) + [node]
      ensures Shows(Level(v.depth + qty, v.orders + [Order(id, qty)]))
    {
      depth := depth + qty;
      node := new OrderNode(id, qty);
      orders := orders + [node];
    }

    method Debit(i: nat, left: Qty, debit: Qty, ghost v: Level)
      requires Shows(v) && i < |orders|
      modifies this`depth, orders[i]
      ensures Shows(Level(v.depth - debit, v.orders[i := Order(orders[i].id, left)]))
    {
      orders[i].qty := left;
      depth := depth - debit;
    }

    method Erase(i: nat, ghost v: Level)
      requires Shows(v) && i < |orders|
      modifies this`orders
      ensures orders == Without(old(orders), i)
      ensures forall n :: n in orders <==> n in old(orders) && n != old(orders[i])
      ensures Shows(v.(orders := Without(v.orders, i)))
    {
      assert forall k :: 0 <= k < |orders| && k != i ==> orders[k] == Without(orders, i)[if k < i then k else k - 1];
      orders := Without(orders, i);
    }
  }

  /** A level copied node by node. */
  method CopyLevel(src: LevelNode, ghost v: Level) returns (level: LevelNode)
    requires src.Shows(v)
    ensures fresh(level) && level.price == src.price && level.Shows(v)
    ensures forall n :: n in level.orders ==> fresh(n)
  {
    level := new LevelNode(src.price);
    level.depth := src.depth;
    for k := 0 to |src.orders|
      invariant fresh(level) && src.Shows(v)
      invariant forall n :: n in level.orders ==> fresh(n)
      invariant level.depth == v.depth && level.Shows(Level(v.depth, v.orders[..k]))
    {
      var node := new OrderNode(src.orders[k].id, src.orders[k].qty);
      level.orders := level.orders + [node];
    }
  }

  /** Whether two levels hold the same depth and the same list of orders. */
  method SameLevel(l: LevelNode, r: LevelNode, ghost v: Level, ghost w: Level) returns (same: bool)
    requires l.Shows(v) && r.Shows(w)
    ensures same <==> v == w
  {
    if l.depth != r.depth || |l.orders| != |r.orders| {
      return false;
    }
    for k := 0 to |l.orders|
      invariant v.orders[..k] == w.orders[..k]
    {
      if l.orders[k].id != r.orders[k].id || l.orders[k].qty != r.orders[k].qty {
        assert v.orders[k] != w.orders[k];
        return false;
      }
    }
    return true;
  }

  /** What a cache entry holds: the ladder iterator and the list iterator. */
  datatype Slot = Slot(level: LevelNode, node: OrderNode)

  class BookSide {
    const side: Side
    var levels: map<Price, LevelNode>
    var cache: map<OrderId, Slot>
    var total: Qty

    ghost var Model: Ladder
    ghost var Repr: set<object>

    /** The heap below this object spells out `Model`. */
    ghost predicate Mirrors()
      reads this, Repr
    {
      && this in Repr
      && levels.Keys == Model.levels.Keys
      && total == Model.total
      && (forall p :: p in levels ==> levels[p] in Repr && levels[p].price == p)
      && (forall p, n :: p in levels && n in levels[p].orders ==> n in Repr)
      && (forall p :: p in levels ==> levels[p].Shows(Model.levels[p]))
    }

    /** Each order of a level has a cache entry, and it points at that very node. */
    static ghost predicate Indexed(cache: map<OrderId, Slot>, level: LevelNode)
      reads level
    {
      forall n :: n in level.orders ==> n.id in cache && cache[n.id] == Slot(level, n)
    }

    ghost predicate CacheComplete()
      requires Mirrors()
      reads this, Repr
    {
      forall p :: p in levels ==> Indexed(cache, levels[p])
    }

    /**
     The cache and the ladder are in bijection: every resting order has an entry
     that points at its node, and no other id has an entry.
     */
    ghost predicate Coherent()
      reads this, Repr
    {
      && Mirrors()
      && NoEmptyLevel(Model)
      && CacheComplete()
      && cache.Keys == Ids(Model)
    }

    constructor (side: Side)
      ensures Coherent() && fresh(Repr)
      ensures this.side == side && Model == EMPTY && cache == map[]
    {
      this.side := side;
      levels, cache, total := map[], map[], 0.0;
      Model, Repr := EMPTY, {this};
    }

    /** The cached slot of `id` is the i-th order at price p. */
    ghost predicate CachedAt(id: OrderId, p: Price, i: nat)
      requires Mirrors()
      reads this, Repr
    {
      && id in cache && p in levels && i < |levels[p].orders|
      && levels[p].orders[i].id == id
      && cache[id] == Slot(levels[p], levels[p].orders[i])
    }

    /** Every cache entry points at a node that rests in the level it names. */
    lemma CacheIsSound(id: OrderId)
      requires Coherent() && id in cache
      ensures CachedAt(id, SlotOf(Model, id).0, SlotOf(Model, id).1)
    {
      var (p, i) := SlotOf(Model, id);
      assert Indexed(cache, levels[p]);
    }

    /** In a coherent side no id rests twice, so the ladder determines the cache. */
    lemma CoherentIdsAreUnique()
      requires Coherent()
      ensures UniqueIds(Model)
    {
      forall p, i, q, j, id | RestsAt(Model, p, i, id) && RestsAt(Model, q, j, id)
        ensures p == q && i == j
      {
        assert Indexed(cache, levels[p]) && Indexed(cache, levels[q]);
        assert levels[p].orders[i] in levels[p].orders && levels[q].orders[j] in levels[q].orders;
      }
    }

    // ---------- add ----------

    /** `emplace` of an empty level where the ladder has none at that price. */
    method OpenLevel(price: Price) returns (level: LevelNode)
      requires Mirrors() && CacheComplete()
      modifies this`levels, this`Model, this`Repr
      ensures Mirrors() && Repr == old(Repr) + {level} && (level in old(Repr) || fresh(level))
      ensures Model == OpenAt(old(Model), price)
      ensures price in levels && levels[price] == level
      ensures CacheComplete()
    {
      if price in levels {
        level := levels[price];
        assert OpenAt(Model, price).levels == Model.levels;
      } else {
        level := new LevelNode(price);
        levels := levels[price := level];
        Repr := Repr + {level};
        Model := OpenAt(Model, price);
      }
    }

    /** `insert` at the end of a level's list, with the credits that go with it. */
    method Append(level: LevelNode, id: OrderId, qty: Qty) returns (node: OrderNode)
      requires Mirrors()
      requires level.price in levels && levels[level.price] == level
      modifies this, level
      ensures Mirrors() && Repr == old(Repr) + {node} && fresh(node)
      ensures Model == AddOrder(old(Model), id, level.price, qty)
      ensures levels == old(levels) && level.orders == old(level.orders) + [node]
      ensures node.id == id && cache == old(cache)[id := Slot(level, node)]
    {
      node := level.Push(id, qty, Model.levels[level.price]);
      cache := cache[id := Slot(level, node)];
      total := total + qty;
      Model := AddOrder(Model, id, level.price, qty);
      Repr := Repr + {node};
    }

    /** The insertion keeps the cache complete if the id is new to it. */
    method AppendIndexed(level: LevelNode, id: OrderId, qty: Qty) returns (node: OrderNode)
      requires Mirrors() && CacheComplete()
      requires level.price in levels && levels[level.price] == level
      modifies this, level
      ensures Mirrors() && Repr == old(Repr) + {node} && fresh(node)
      ensures Model == AddOrder(old(Model), id, level.price, qty)
      ensures levels == old(levels) && level.orders == old(level.orders) + [node]
      ensures node.id == id && cache == old(cache)[id := Slot(level, node)]
      ensures id !in old(cache) ==> CacheComplete()
    {
      node := Append(level, id, qty);
      if id !in old(cache) {
        forall p | p in levels
          ensures Indexed(cache, levels[p])
        {
          assert old(Indexed(cache, levels[p]));
        }
      }
    }

    /** A resting node that its id's entry does not point at breaks the bijection. */
    lemma TwinBreaksCache(q: Price, twin: OrderNode)
      requires Mirrors() && q in levels && twin in levels[q].orders
      requires twin.id in cache && cache[twin.id].node != twin
      ensures !CacheComplete()
    {
      assert !Indexed(cache, levels[q]);
    }

    /** The body of `add`, in terms of the heap alone. */
    method Insert(id: OrderId, price: Price, qty: Qty)
      requires Mirrors() && CacheComplete()
      modifies Repr
      ensures Mirrors() && FromOrNew(old(Repr), Repr)
      ensures Model == AddOrder(old(Model), id, price, qty)
      ensures cache.Keys == old(cache.Keys) + {id}
      ensures id !in old(cache) ==> CacheComplete()
      ensures id in Ids(old(Model)) ==> !CacheComplete()
    {
      OpenThenAdd(Model, id, price, qty);
      ghost var twin: OrderNode?, q := null, price;
      if id in Ids(Model) {
        var slot := SlotOf(Model, id);
        q := slot.0;
        twin := levels[q].orders[slot.1];
        assert twin in levels[q].orders;
      }
      var level := OpenLevel(price);
      assert twin != null ==> twin in levels[q].orders;
      var _ := AppendIndexed(level, id, qty);
      if twin != null {
        TwinBreaksCache(q, twin);
      }
    }

    /** The cache stays in bijection exactly when the id was not resting already. */
    method Add(id: OrderId, price: Price, qty: Qty)
      requires Coherent()
      modifies Repr
      ensures Mirrors() && FromOrNew(old(Repr), Repr)
      ensures Model == AddOrder(old(Model), id, price, qty)
      ensures Coherent() <==> id !in Ids(old(Model))
    {
      IdsAfterAdd(Model, id, price, qty);
      Insert(id, price, qty);
    }

    // ---------- remove and execute ----------

    /** Store a new quantity in the k-th node of a level, and debit the level and the side. */
    method Revalue(level: LevelNode, k: nat, left: Qty, debit: Qty)
      requires Mirrors() && level.price in levels && levels[level.price] == level && k < |level.orders|
      requires forall q :: q in levels && q != level.price ==> level.orders[k] !in levels[q].orders
      modifies this`Model, this`total, level`depth, level.orders[k]
      ensures Mirrors()
      ensures Model == SettleAt(old(Model), level.price, k, left, debit, false)
    {
      ghost var v := Model.levels[level.price];
      ghost var v' := Level(v.depth - debit, v.orders[k := Order(v.orders[k].id, left)]);
      assert SettleAt(Model, level.price, k, left, debit, false)
               == Ladder(Model.levels[level.price := v'], Model.total - debit);
      level.Debit(k, left, debit, v);
      total := total - debit;
      Model := Ladder(Model.levels[level.price := v'], Model.total - debit);
      forall q | q in levels
        ensures levels[q].Shows(Model.levels[q])
      {
        if q != level.price {
          assert old(levels[q].Shows(Model.levels[q]));
        }
      }
    }

    method Debit(id: OrderId, left: Qty, debit: Qty, ghost p: Price, ghost i: nat)
      requires Mirrors() && CacheComplete() && CachedAt(id, p, i)
      modifies this`Model, this`total, cache[id].level`depth, cache[id].node
      ensures Mirrors() && CacheComplete() && CachedAt(id, p, i)
      ensures Model == SettleAt(old(Model), p, i, left, debit, false)
    {
      var Slot(level, node) := cache[id];
      var k :| 0 <= k < |level.orders| && level.orders[k] == node;
      assert forall q :: q in levels && q != p ==> Indexed(cache, levels[q]);
      Revalue(level, k, left, debit);
    }

    /** Take the k-th node out of a level's list. */
    method Unlink(level: LevelNode, k: nat)
      requires Mirrors() && level.price in levels && levels[level.price] == level && k < |level.orders|
      modifies this`Model, level`orders
      ensures Mirrors()
      ensures forall n :: n in level.orders <==> n in old(level.orders) && n != old(level.orders[k])
      ensures var v := old(Model).levels[level.price];
              Model == old(Model).(levels := old(Model).levels[level.price := v.(orders := Without(v.orders, k))])
    {
      ghost var v := Model.levels[level.price];
      level.Erase(k, v);
      Model := Model.(levels := Model.levels[level.price := v.(orders := Without(v.orders, k))]);
    }

    /** Erase the node of order `id` from its level and from the cache. */
    method Forget(id: OrderId, ghost p: Price, ghost i: nat)
      requires Mirrors() && CacheComplete() && CachedAt(id, p, i)
      modifies this`Model, this`cache, cache[id].level`orders
      ensures Mirrors() && CacheComplete()
      ensures cache == old(cache) - {id}
      ensures var v := old(Model).levels[p];
              Model == old(Model).(levels := old(Model).levels[p := v.(orders := Without(v.orders, i))])
    {
      var Slot(level, node) := cache[id];
      var k :| 0 <= k < |level.orders| && level.orders[k] == node;
      Unlink(level, k);
      cache := cache - {id};
      forall q | q in levels
        ensures Indexed(cache, levels[q])
      {
        assert old(Indexed(cache, levels[q]));
      }
    }

    /** Erase a level that holds no order. */
    method DropLevel(level: LevelNode)
      requires Mirrors() && CacheComplete()
      requires level.price in levels && levels[level.price] == level && level.orders == []
      modifies this`Model, this`levels
      ensures Mirrors() && CacheComplete()
      ensures Model == old(Model).(levels := old(Model).levels - {level.price})
    {
      levels := levels - {level.price};
      Model := Model.(levels := Model.levels - {level.price});
    }

    /** Erase an order's node, its cache entry, and its level when that was the last one. */
    method Erase(id: OrderId, ghost p: Price, ghost i: nat)
      requires Mirrors() && CacheComplete() && CachedAt(id, p, i)
      modifies this`Model, this`levels, this`cache, cache[id].level`orders
      ensures Mirrors() && CacheComplete()
      ensures cache == old(cache) - {id}
      ensures var v := old(Model).levels[p];
              Model == Ladder(PutLevel(old(Model).levels, p, v.(orders := Without(v.orders, i))), old(Model).total)
    {
      var level := cache[id].level;
      Forget(id, p, i);
      if level.orders == [] {
        DropLevel(level);
      }
    }

    /** Store what is left of a resting order; `gone` says whether it is then erased. */
    method Settle(id: OrderId, left: Qty, debit: Qty, gone: bool, ghost p: Price, ghost i: nat)
      requires Mirrors() && CacheComplete() && CachedAt(id, p, i)
      modifies this`Model, this`total, this`levels, this`cache, cache[id].level, cache[id].node
      ensures Mirrors() && CacheComplete()
      ensures cache.Keys == old(cache.Keys) - if gone then {id} else {}
      ensures Model == SettleAt(old(Model), p, i, left, debit, gone)
    {
      SettleInTwoSteps(Model, p, i, left, debit);
      Debit(id, left, debit, p, i);
      if gone {
        Erase(id, p, i);
      }
    }

    /** The resting order `id` settled, its id gone from the ladder if it is erased. */
    method SettleResting(id: OrderId, left: Qty, debit: Qty, gone: bool)
      requires Coherent() && id in cache
      modifies Repr
      ensures Coherent() && Repr == old(Repr)
      ensures Model == SettleAt(old(Model), SlotOf(old(Model), id).0, SlotOf(old(Model), id).1, left, debit, gone)
    {
      CacheIsSound(id);
      ghost var (p, i) := SlotOf(Model, id);
      ghost var settled := SettleAt(Model, p, i, left, debit, gone);
      assert Ids(settled) == Ids(Model) - (if gone then {id} else {}) && NoEmptyLevel(settled) by {
        CoherentIdsAreUnique();
        IdsAfterSettle(Model, p, i, left, debit, gone);
      }
      Settle(id, left, debit, gone, p, i);
    }

    method Remove(id: OrderId) returns (found: bool)
      requires Coherent()
      modifies Repr
      ensures Coherent() && Repr == old(Repr)
      ensures found <==> id in Ids(old(Model))
      ensures Model == RemoveOrder(old(Model), id)
    {
      found := id in cache;
      if found {
        CacheIsSound(id);
        var node := cache[id].node;
        SettleResting(id, node.qty, node.qty, true);
      }
    }

    /** `execute` in its evident meaning. */
    method Execute(id: OrderId, qty: Qty) returns (found: bool)
      requires Coherent()
      modifies Repr
      ensures Coherent() && Repr == old(Repr)
      ensures found <==> id in Ids(old(Model))
      ensures Model == ExecuteOrder(old(Model), id, qty)
    {
      found := id in cache;
      if found {
        CacheIsSound(id);
        var node := cache[id].node;
        var left := LeftOf(node.qty, qty);
        SettleResting(id, left, qty, left == 0.0);
      }
    }

    /**
     `execute` as the statement parses: the order goes when something is left, and
     neither the level's depth nor this side's total is debited.
     */
    method ExecuteAsWritten(id: OrderId, qty: Qty) returns (found: bool)
      requires Coherent()
      modifies Repr
      ensures Coherent() && Repr == old(Repr)
      ensures found <==> id in Ids(old(Model))
      ensures Model == ExecuteOrderAsWritten(old(Model), id, qty)
    {
      found := id in cache;
      if found {
        CacheIsSound(id);
        var node := cache[id].node;
        var left := LeftAsWritten(node.qty, qty);
        SettleResting(id, left, 0.0, left != 0.0);
      }
    }

    method DebitTotal(qty: Qty)
      requires Coherent()
      modifies this`total, this`Model
      ensures Coherent()
      ensures Model == old(Model).(total := old(Model).total - qty)
    {
      total := total - qty;
      Model := Model.(total := Model.total - qty);
      assert Ids(Model) == old(Ids(Model));
    }

    // ---------- reset, copy assignment, comparison, top of book ----------

    method Clear()
      modifies this
      ensures Coherent() && Repr == {this}
      ensures Model == EMPTY
    {
      levels, cache, total := map[], map[], 0.0;
      Model, Repr := EMPTY, {this};
    }

    /** The levels of this side, copied. */
    method CopyLevels() returns (copied: map<Price, LevelNode>, ghost repr: set<object>)
      requires Mirrors()
      ensures copied.Keys == levels.Keys && fresh(repr)
      ensures forall p :: p in copied ==> copied[p] in repr && copied[p].price == p
      ensures forall p, n :: p in copied && n in copied[p].orders ==> n in repr
      ensures forall p :: p in copied ==> copied[p].Shows(Model.levels[p])
    {
      copied, repr := map[], {};
      var todo := levels.Keys;
      while todo != {}
        invariant fresh(repr)
        invariant todo <= levels.Keys && copied.Keys == levels.Keys - todo
        invariant forall p :: p in copied ==> copied[p] in repr && copied[p].price == p
        invariant forall p, n :: p in copied && n in copied[p].orders ==> n in repr
        invariant forall p :: p in copied ==> copied[p].Shows(Model.levels[p])
        decreases todo
      {
        ghost var _ := Member(todo);
        var p :| p in todo;
        var level := CopyLevel(levels[p], Model.levels[p]);
        copied := copied[p := level];
        repr := repr + {level} + set n | n in level.orders;
        todo := todo - {p};
      }
    }

    /** Copy assignment of ladder and total; the cache is left as it is. */
    method CopyLadder(src: BookSide)
      requires src.Mirrors() && this !in src.Repr
      modifies this`levels, this`total, this`Model, this`Repr
      ensures Mirrors() && Model == src.Model && fresh(Repr - {this})
      ensures forall p :: p in levels ==> fresh(levels[p])
    {
      var copied, repr := src.CopyLevels();
      levels, total := copied, src.total;
      Model, Repr := src.Model, {this} + repr;
    }

    /** The entry came from a resting order of the levels at the given prices. */
    ghost predicate CameFrom(done: set<Price>, id: OrderId, slot: Slot)
      reads this, levels.Values
    {
      exists p :: && p in done && p in levels
                  && slot.level == levels[p] && slot.node in levels[p].orders && slot.node.id == id
    }

    /** `emplace` an entry for every resting order; existing entries stay. */
    method Rebuild()
      requires Mirrors()
      modifies this`cache
      ensures Mirrors()
      ensures forall id :: id in old(cache) ==> id in cache && cache[id] == old(cache)[id]
      ensures forall id :: id in cache && id !in old(cache) ==> CameFrom(levels.Keys, id, cache[id])
      ensures forall p, n :: p in levels && n in levels[p].orders ==> n.id in cache
    {
      var todo := levels.Keys;
      while todo != {}
        invariant todo <= levels.Keys
        invariant forall id :: id in old(cache) ==> id in cache && cache[id] == old(cache)[id]
        invariant forall id :: id in cache && id !in old(cache) ==> CameFrom(levels.Keys, id, cache[id])
        invariant forall p, n :: p in levels && p !in todo && n in levels[p].orders ==> n.id in cache
        decreases todo
      {
        ghost var _ := Member(todo);
        var p :| p in todo;
        var level := levels[p];
        for i := 0 to |level.orders|
          invariant forall id :: id in old(cache) ==> id in cache && cache[id] == old(cache)[id]
          invariant forall id :: id in cache && id !in old(cache) ==> CameFrom(levels.Keys, id, cache[id])
          invariant forall p, n :: p in levels && p !in todo && n in levels[p].orders ==> n.id in cache
          invariant forall k :: 0 <= k < i ==> level.orders[k].id in cache
        {
          var node := level.orders[i];
          if node.id !in cache {
            cache := cache[node.id := Slot(level, node)];
          }
        }
        todo := todo - {p};
      }
    }

    /** Entries that all came from resting orders, one for each, form a bijection. */
    lemma RebuiltIsBijective()
      requires Mirrors() && UniqueIds(Model)
      requires forall id :: id in cache ==> CameFrom(levels.Keys, id, cache[id])
      requires forall p, n :: p in levels && n in levels[p].orders ==> n.id in cache
      ensures CacheComplete() && cache.Keys == Ids(Model)
    {
      forall p, i, q, j | p in levels && 0 <= i < |levels[p].orders| && q in levels && 0 <= j < |levels[q].orders|
                          && levels[p].orders[i].id == levels[q].orders[j].id
        ensures p == q && i == j
      {
        assert RestsAt(Model, p, i, levels[p].orders[i].id) && RestsAt(Model, q, j, levels[p].orders[i].id);
      }
      forall id | id in cache ensures id in Ids(Model)
      {
        var p :| && p in levels && cache[id].level == levels[p]
                 && cache[id].node in levels[p].orders && cache[id].node.id == id;
        var i :| 0 <= i < |levels[p].orders| && levels[p].orders[i] == cache[id].node;
        RestingIdIsListed(Model, p, i, id);
      }
      forall id | id in Ids(Model) ensures id in cache
      {
        var (p, i) := SlotOf(Model, id);
        assert levels[p].orders[i] in levels[p].orders;
      }
    }

    /** The nested loops of copy assignment, over the copied ladder of a coherent side. */
    method Reindex(ghost src: BookSide)
      requires Mirrors() && src.Coherent() && Model == src.Model
      requires this !in src.Repr
      modifies this`cache
      ensures Mirrors()
      ensures forall id :: id in old(cache) ==> id in cache && cache[id] == old(cache)[id]
      ensures old(cache) == map[] ==> CacheComplete() && cache.Keys == Ids(Model)
    {
      Rebuild();
      if old(cache) == map[] {
        src.CoherentIdsAreUnique();
        RebuiltIsBijective();
      }
    }

    /** An entry whose level is not in the ladder breaks the bijection. */
    lemma StaleEntry(id: OrderId)
      requires Mirrors() && id in cache
      requires forall p :: p in levels ==> levels[p] != cache[id].level
      ensures !Coherent()
    {
      if Coherent() {
        CacheIsSound(id);
        assert false;
      }
    }

    /** A coherent side has an empty cache exactly when no order rests on it. */
    lemma CacheEmptyIff()
      requires Coherent()
      ensures cache == map[] <==> Ids(Model) == {}
    {
      assert cache == map[] <==> cache.Keys == {};
    }

    /**
     Copy assignment as written: the old cache entries stay, so the index points
     into the new ladder exactly when there were none.
     */
    method AssignAsWritten(src: BookSide)
      requires src.Coherent() && this !in src.Repr
      modifies this
      ensures Mirrors() && Model == src.Model && fresh(Repr - {this})
      ensures Coherent() <==> old(cache) == map[]
    {
      CopyLadder(src);
      Reindex(src);
      if old(cache) != map[] {
        ghost var id := Member(old(cache).Keys);
        StaleEntry(id);
      }
    }

    /** Copy assignment in its evident meaning: the index is rebuilt from nothing. */
    method Assign(src: BookSide)
      requires src.Coherent() && this !in src.Repr
      modifies this
      ensures Coherent() && Model == src.Model && fresh(Repr - {this})
    {
      cache := map[];
      AssignAsWritten(src);
    }

    /** Comparison of ladders and totals; the caches are not looked at. */
    method Same(other: BookSide) returns (same: bool)
      requires Mirrors() && other.Mirrors()
      ensures same <==> Model == other.Model
    {
      if total != other.total || levels.Keys != other.levels.Keys {
        return false;
      }
      var todo := levels.Keys;
      while todo != {}
        invariant todo <= levels.Keys
        invariant forall p :: p in levels && p !in todo ==> Model.levels[p] == other.Model.levels[p]
        decreases todo
      {
        ghost var _ := Member(todo);
        var p :| p in todo;
        var equal := SameLevel(levels[p], other.levels[p], Model.levels[p], other.Model.levels[p]);
        if !equal {
          return false;
        }
        todo := todo - {p};
      }
      forall p | p in Model.levels
        ensures Model.levels[p] == other.Model.levels[p]
      {
        assert p in levels;
      }
      SameMap(Model.levels, other.Model.levels);
      return true;
    }

    /** The first level of the ladder: its depth and price. */
    method Top() returns (r: Option<(Qty, Price)>)
      requires Mirrors()
      ensures r.None? <==> Model.levels == map[]
      ensures r.Some? ==> IsFirst(side, Model, r.value.1) && r.value.0 == Model.levels[r.value.1].depth
      ensures r.Some? && side == Buy ==> forall q :: q in Model.levels ==> q <= r.value.1
      ensures r.Some? && side == Sell ==> forall q :: q in Model.levels ==> r.value.1 <= q
    {
      if levels.Keys == {} {
        return None;
      }
      ghost var _ := Member(levels.Keys);
      var best :| best in levels.Keys;
      var todo := levels.Keys - {best};
      while todo != {}
        invariant todo <= levels.Keys && best in levels
        invariant forall q :: q in levels && q !in todo ==> q == best || Better(side, best, q)
        decreases todo
      {
        ghost var _ := Member(todo);
        var q :| q in todo;
        if Better(side, q, best) {
          best := q;
        }
        todo := todo - {q};
      }
      return Some((levels[best].depth, best));
    }
  }
}
