/** What adding, removing and resizing an order does to the pooled memory, and that each keeps the
    shape. */
module PooledSteps {
  import opened Types
  import opened Ledger
  import opened PooledShape
  import Views

  function SetLevel(s: Store, side: Side, price: I64, level: PriceLevel): Store {
    if side.Buy? then s.(bids := s.bids[price := level]) else s.(asks := s.asks[price := level])
  }

  function DropLevel(s: Store, side: Side, price: I64): Store {
    if side.Buy? then s.(bids := s.bids - {price}) else s.(asks := s.asks - {price})
  }

  /** The level at a price, created empty when the price has none. */
  function LevelAt(s: Store, side: Side, price: I64): PriceLevel {
    if price in s.Levels(side) then s.Levels(side)[price] else EMPTY_LEVEL
  }

  predicate CanAdd(s: Store, o: Order) {
    && s.free != [] && s.free[|s.free| - 1] < |s.nodes|
    && var tail := LevelAt(s, o.side, o.price).tail;
    && (tail != NPOS ==> tail < |s.nodes|)
  }

  lemma ShapeLevel(s: Store, live: seq<Order>, side: Side, price: I64)
    requires Shape(s, live)
    ensures LevelOk(s, live, side, price) && WellFormed(live) && |s.nodes| < NPOS
    ensures WellFormed(Queue(live, side, price))
  {
    assert LevelOk(s, live, side, price);
    QueueDistinct(live, side, price);
  }

  /** A level survives any update that leaves its queue, its entry and its links alone. */
  lemma LevelFrame(s: Store, s': Store, live: seq<Order>, live': seq<Order>, side: Side, price: I64)
    requires LevelOk(s, live, side, price)
    requires Queue(live', side, price) == Queue(live, side, price)
    requires var q := Queue(live, side, price); Chain(s'.lookup, q) == Chain(s.lookup, q)
    requires |s'.nodes| == |s.nodes|
    requires var c := Chain(s.lookup, Queue(live, side, price));
      && (forall i :: 0 <= i < |c| ==> c[i] < |s.nodes|)
      && (forall i :: 0 <= i < |c| ==>
            s'.nodes[c[i]].prev == s.nodes[c[i]].prev && s'.nodes[c[i]].next == s.nodes[c[i]].next)
    requires price in s'.Levels(side) <==> price in s.Levels(side)
    requires price in s.Levels(side) ==> s'.Levels(side)[price] == s.Levels(side)[price]
    ensures LevelOk(s', live', side, price)
  {
    ThreadedFrame(s.nodes, s'.nodes, Chain(s.lookup, Queue(live, side, price)));
  }

  function Added(s: Store, o: Order): Store
    requires CanAdd(s, o)
  {
    var n := s.free[|s.free| - 1];
    var level := LevelAt(s, o.side, o.price);
    var filled := s.nodes[n := OrderNode(o.id, o.timestamp, o.quantity, s.nodes[n].prev, s.nodes[n].next, true)];
    SetLevel(s, o.side, o.price,
             LevelAppended(level, n).(totalQuantity := Wrap(level.totalQuantity + o.quantity)))
      .(nodes := Linked(filled, level.tail, n),
        free := s.free[..|s.free| - 1],
        lookup := s.lookup[o.id := OrderRecord(o.side, o.price, o.timestamp, o.quantity, n)])
  }

  /** An add that finds a free node and no live order of its id. */
  ghost predicate AddCase(s: Store, live: seq<Order>, o: Order) {
    && Shape(s, live) && !HasId(live, o.id) && o.quantity > 0
    && CanAdd(s, o)
    && var q := Queue(live, o.side, o.price);
    && LevelAt(s, o.side, o.price).tail == Link(Chain(s.lookup, q), |q| - 1)
  }

  lemma AddReady(s: Store, live: seq<Order>, o: Order)
    requires Shape(s, live) && !HasId(live, o.id) && o.quantity > 0 && s.free != []
    ensures AddCase(s, live, o) && LevelAt(s, o.side, o.price).tail !in s.free
  {
    assert s.free[|s.free| - 1] in s.free;
    assert LevelOk(s, live, o.side, o.price);
    QueueFiled(s, live, o.side, o.price);
  }

  lemma AddLookup(s: Store, live: seq<Order>, o: Order)
    requires AddCase(s, live, o)
    ensures LookupOk(Added(s, o), live + [o])
  {
    var s', live' := Added(s, o), live + [o];
    assert s.free[|s.free| - 1] in s.free;
    forall id | id in s'.lookup ensures HasId(live', id) {
      if id == o.id {
        assert live'[|live|].id == id;
      } else {
        var k := IndexOf(live, id);
        assert live'[k].id == id;
      }
    }
    forall p | p in live' ensures Filed(s'.nodes, s'.lookup, p) {
      if p in live {
        assert p.id != o.id by {
          var i :| 0 <= i < |live| && live[i] == p;
        }
        assert Filed(s.nodes, s.lookup, p);
      }
    }
    assert o.id !in s.lookup;
  }

  lemma AddFree(s: Store, o: Order)
    requires CanAdd(s, o) && FreeOk(s) && o.id !in s.lookup
    requires LevelAt(s, o.side, o.price).tail !in s.free
    ensures FreeOk(Added(s, o))
  {
    var s' := Added(s, o);
    var last := |s.free| - 1;
    assert s.free == s'.free + [s.free[last]];
    forall f | f in s'.free ensures f < |s'.nodes| && s'.nodes[f] == FREE_NODE {
      var i :| 0 <= i < last && s'.free[i] == f;
      assert f in s.free && s.free[i] != s.free[last];
    }
  }

  /** What the level lemmas below need to know about a queue when an order is added. */
  ghost predicate Untouched(s: Store, q: seq<Order>, id: U64, n: nat) {
    && NoDuplicates(Chain(s.lookup, q))
    && forall i :: 0 <= i < |q| ==>
         q[i].id != id && Chain(s.lookup, q)[i] != n && Chain(s.lookup, q)[i] < |s.nodes|
  }

  lemma AddUntouched(s: Store, live: seq<Order>, o: Order, side: Side, price: I64)
    requires AddCase(s, live, o)
    ensures Untouched(s, Queue(live, side, price), o.id, s.free[|s.free| - 1])
  {
    assert s.free[|s.free| - 1] in s.free;
    QueueFiled(s, live, side, price);
    var q := Queue(live, side, price);
    forall i | 0 <= i < |q| ensures q[i].id != o.id {
      var j :| 0 <= j < |live| && live[j] == q[i];
    }
  }

  /** The queue that receives the order grows at its tail. */
  lemma AddOwnChain(s: Store, live: seq<Order>, o: Order)
    requires CanAdd(s, o) && |s.nodes| < NPOS
    requires LevelOk(s, live, o.side, o.price)
    requires Untouched(s, Queue(live, o.side, o.price), o.id, s.free[|s.free| - 1])
    ensures Queue(live + [o], o.side, o.price) == Queue(live, o.side, o.price) + [o]
    ensures Chain(Added(s, o).lookup, Queue(live + [o], o.side, o.price))
         == Chain(s.lookup, Queue(live, o.side, o.price)) + [s.free[|s.free| - 1]]
    ensures Threaded(Added(s, o).nodes, Chain(Added(s, o).lookup, Queue(live + [o], o.side, o.price)))
    ensures Queue(live, o.side, o.price) != [] ==> LevelAt(s, o.side, o.price).tail != NPOS
  {
    hide Wrap, Sum, Queue;
    var q := Queue(live, o.side, o.price);
    var c := Chain(s.lookup, q);
    var n := s.free[|s.free| - 1];
    QueueAppend(live, o, o.side, o.price);
    assert Chain(Added(s, o).lookup, q + [o]) == c + [n];
    var filled := s.nodes[n := OrderNode(o.id, o.timestamp, o.quantity, s.nodes[n].prev, s.nodes[n].next, true)];
    ThreadedFrame(s.nodes, filled, c);
    LinkedThreads(filled, c, n);
  }

  lemma AddOwnLevel(s: Store, live: seq<Order>, o: Order)
    requires CanAdd(s, o) && |s.nodes| < NPOS
    requires LevelOk(s, live, o.side, o.price)
    requires Queue(live + [o], o.side, o.price) == Queue(live, o.side, o.price) + [o]
    requires Chain(Added(s, o).lookup, Queue(live + [o], o.side, o.price))
         == Chain(s.lookup, Queue(live, o.side, o.price)) + [s.free[|s.free| - 1]]
    requires Threaded(Added(s, o).nodes, Chain(Added(s, o).lookup, Queue(live + [o], o.side, o.price)))
    requires Queue(live, o.side, o.price) != [] ==> LevelAt(s, o.side, o.price).tail != NPOS
    ensures LevelOk(Added(s, o), live + [o], o.side, o.price)
  {
    hide Queue;
    SumAppend(Queue(live, o.side, o.price), o);
    WrapAdd(Sum(Queue(live, o.side, o.price)), o.quantity);
  }

  lemma AddOtherLevel(s: Store, live: seq<Order>, o: Order, side: Side, price: I64)
    requires CanAdd(s, o) && |s.nodes| < NPOS
    requires side != o.side || price != o.price
    requires LevelOk(s, live, side, price)
    requires Untouched(s, Queue(live, side, price), o.id, s.free[|s.free| - 1])
    requires var c := Chain(s.lookup, Queue(live, side, price));
      forall i :: 0 <= i < |c| ==> c[i] != LevelAt(s, o.side, o.price).tail
    ensures LevelOk(Added(s, o), live + [o], side, price)
  {
    hide Wrap, Sum, Queue, Threaded;
    var s' := Added(s, o);
    var q := Queue(live, side, price);
    var c := Chain(s.lookup, q);
    QueueAppend(live, o, side, price);
    assert q + [] == q;
    assert Chain(s'.lookup, q) == c;
    LevelFrame(s, s', live, live + [o], side, price);
  }

  /** Chains of different queues share no node. */
  lemma ChainsApart(s: Store, live: seq<Order>, side: Side, price: I64, side': Side, price': I64, i: nat, j: nat)
    requires Shape(s, live) && (side != side' || price != price')
    requires i < |Queue(live, side, price)| && j < |Queue(live, side', price')|
    ensures Chain(s.lookup, Queue(live, side, price))[i] != Chain(s.lookup, Queue(live, side', price'))[j]
  {
    QueueFiled(s, live, side, price);
    QueueFiled(s, live, side', price');
  }

  lemma AddKeepsShape(s: Store, live: seq<Order>, o: Order)
    requires Shape(s, live) && s.free != [] && !HasId(live, o.id) && o.quantity > 0
    ensures CanAdd(s, o) && Shape(Added(s, o), live + [o])
  {
    hide LevelAppended, Linked, Queue;
    AddReady(s, live, o);
    AddLookup(s, live, o);
    AddFree(s, o);
    forall side, price ensures LevelOk(Added(s, o), live + [o], side, price) {
      AddUntouched(s, live, o, side, price);
      assert LevelOk(s, live, side, price);
      if side == o.side && price == o.price {
        AddOwnChain(s, live, o);
        AddOwnLevel(s, live, o);
      } else {
        var c := Chain(s.lookup, Queue(live, side, price));
        forall i | 0 <= i < |c| ensures c[i] != LevelAt(s, o.side, o.price).tail {
          if Queue(live, o.side, o.price) != [] {
            ChainsApart(s, live, side, price, o.side, o.price, i, |Queue(live, o.side, o.price)| - 1);
          }
        }
        AddOtherLevel(s, live, o, side, price);
      }
    }
  }

  // ----- removing -----

  ghost predicate CanRemove(s: Store, o: Order) {
    && o.id in s.lookup && s.lookup[o.id].nodeIndex < |s.nodes|
    && o.price in s.Levels(o.side) && s.Levels(o.side)[o.price].orderCount > 0
    && var n := s.nodes[s.lookup[o.id].nodeIndex];
    && (n.prev != NPOS ==> n.prev < |s.nodes|)
    && (n.next != NPOS ==> n.next < |s.nodes|)
  }

  ghost function Removed(s: Store, o: Order): Store
    requires CanRemove(s, o)
  {
    var n := s.lookup[o.id].nodeIndex;
    var before := s.Levels(o.side)[o.price];
    var level := LevelUnlinked(before.(totalQuantity := Wrap(before.totalQuantity - o.quantity)),
                               s.nodes[n].prev, s.nodes[n].next);
    (if level.orderCount == 0 then DropLevel(s, o.side, o.price) else SetLevel(s, o.side, o.price, level))
      .(nodes := Unlinked(s.nodes, n)[n := FREE_NODE],
        free := s.free + [n],
        lookup := s.lookup - {o.id})
  }

  /** An order at position k of its queue, and the neighbours of its node. */
  ghost predicate RemoveCase(s: Store, live: seq<Order>, o: Order, k: nat) {
    && Shape(s, live) && o in live && CanRemove(s, o)
    && var q := Queue(live, o.side, o.price);
    && k < |q| && q[k] == o
    && var c := Chain(s.lookup, q);
    && c[k] == s.lookup[o.id].nodeIndex
    && s.nodes[c[k]].prev == Link(c, k - 1) && s.nodes[c[k]].next == Link(c, k + 1)
  }

  lemma RemoveReady(s: Store, live: seq<Order>, o: Order) returns (k: nat)
    requires Shape(s, live) && o in live
    ensures RemoveCase(s, live, o, k)
  {
    k := QueuePosition(live, o);
    assert LevelOk(s, live, o.side, o.price);
    QueueFiled(s, live, o.side, o.price);
    UnlinkReady(s.nodes, Chain(s.lookup, Queue(live, o.side, o.price)), k);
  }

  /** The orders that stay keep their records and their nodes. */
  lemma RemoveFiled(s: Store, live: seq<Order>, o: Order)
    requires LookupOk(s, live) && o in live && CanRemove(s, o)
    ensures forall p :: p in Without(live, o.id) ==> Filed(Removed(s, o).nodes, Removed(s, o).lookup, p)
  {
    hide Wrap, Without, HasId;
    WithoutMembers(live, o.id);
    assert Filed(s.nodes, s.lookup, o);
    forall p | p in Without(live, o.id) ensures Filed(Removed(s, o).nodes, Removed(s, o).lookup, p) {
      assert Filed(s.nodes, s.lookup, p);
      assert s.lookup[o.id].nodeIndex != s.lookup[p.id].nodeIndex;
    }
  }

  /** The records that stay are those of the orders that stay. */
  lemma RemoveRecords(s: Store, live: seq<Order>, o: Order)
    requires LookupOk(s, live) && CanRemove(s, o)
    ensures forall id :: id in Removed(s, o).lookup ==> HasId(Without(live, o.id), id)
  {
    hide Wrap, Without, Filed;
    WithoutMembers(live, o.id);
    var live' := Without(live, o.id);
    forall id | id in Removed(s, o).lookup ensures HasId(live', id) {
      assert OrderOf(live, id) in live';
    }
  }

  lemma RemoveLookup(s: Store, live: seq<Order>, o: Order, k: nat)
    requires RemoveCase(s, live, o, k)
    ensures LookupOk(Removed(s, o), Without(live, o.id))
  {
    hide Queue, Without, IndexOf, Chain, LevelOk, FreeOk, Link, Filed, Wrap;
    RemoveFiled(s, live, o);
    RemoveRecords(s, live, o);
    assert HasId(live, o.id) by { var i :| 0 <= i < |live| && live[i] == o; }
    WithoutWellFormed(live, o.id);
  }

  lemma RemoveFree(s: Store, o: Order)
    requires CanRemove(s, o) && FreeOk(s)
    requires var n := s.nodes[s.lookup[o.id].nodeIndex];
      n.active && n.orderId == o.id && n.prev !in s.free && n.next !in s.free
    ensures FreeOk(Removed(s, o))
  {
    var s' := Removed(s, o);
    var n := s.lookup[o.id].nodeIndex;
    assert n !in s.free;
    forall f | f in s'.free ensures f < |s'.nodes| && s'.nodes[f] == FREE_NODE {
      assert f in s.free || f == n;
    }
    forall m | 0 <= m < |s'.nodes| && m !in s'.free
      ensures s'.nodes[m].orderId in s'.lookup && s'.lookup[s'.nodes[m].orderId].nodeIndex == m
    {
      assert m !in s.free && m != n by { assert s'.free[|s.free|] == n; }
    }
  }

  /** The chain loses exactly the node of the removed order, which keeps every other in place. */
  lemma RemoveOwnChain(s: Store, live: seq<Order>, o: Order, k: nat)
    requires CanRemove(s, o) && |s.nodes| < NPOS && Distinct(live)
    requires LevelOk(s, live, o.side, o.price)
    requires var q := Queue(live, o.side, o.price);
      && k < |q| && q[k] == o && Distinct(q) && NoDuplicates(Chain(s.lookup, q))
      && forall i :: 0 <= i < |q| ==> q[i].id in s.lookup
    ensures var q := Queue(live, o.side, o.price);
      && Queue(Without(live, o.id), o.side, o.price) == q[..k] + q[k + 1..]
      && Chain(Removed(s, o).lookup, q[..k] + q[k + 1..])
           == Chain(s.lookup, q)[..k] + Chain(s.lookup, q)[k + 1..]
      && Threaded(Removed(s, o).nodes, Chain(s.lookup, q)[..k] + Chain(s.lookup, q)[k + 1..])
  {
    hide Wrap, Sum, Queue, Without;
    var q := Queue(live, o.side, o.price);
    var c := Chain(s.lookup, q);
    QueueWithout(live, o.id, o.side, o.price);
    WithoutAt(q, k);
    var q', c' := q[..k] + q[k + 1..], c[..k] + c[k + 1..];
    var d := Chain(Removed(s, o).lookup, q');
    forall i | 0 <= i < |d| ensures d[i] == c'[i] {
      CutAt(q, k, i);
      CutAt(c, k, i);
    }
    assert d == c';
    UnlinkedThreads(s.nodes, c, k);
    forall i | 0 <= i < |c'| ensures c'[i] != c[k] && c'[i] < |s.nodes| {
      CutAt(c, k, i);
      assert ThreadedAt(s.nodes, c, if i < k then i else i + 1);
    }
    ThreadedFrame(Unlinked(s.nodes, c[k]), Removed(s, o).nodes, c');
  }

  /** The level entry after the removal, from the chain c and queue q before it. */
  lemma RemoveOwnEntry(s: Store, o: Order, q: seq<Order>, c: seq<nat>, k: nat)
    requires CanRemove(s, o) && |s.nodes| < NPOS && |c| == |q| && k < |q| && q[k] == o && Distinct(q)
    requires s.lookup[o.id].nodeIndex == c[k] && forall i :: 0 <= i < |c| ==> c[i] < NPOS
    requires s.nodes[c[k]].prev == Link(c, k - 1) && s.nodes[c[k]].next == Link(c, k + 1)
    requires s.Levels(o.side)[o.price] == PriceLevel(Wrap(Sum(q)), |q|, c[0], c[|c| - 1])
    ensures var q', c' := q[..k] + q[k + 1..], c[..k] + c[k + 1..];
      && (o.price in Removed(s, o).Levels(o.side) <==> q' != [])
      && (q' != [] ==>
            Removed(s, o).Levels(o.side)[o.price] == PriceLevel(Wrap(Sum(q')), |q'|, c'[0], c'[|c'| - 1]))
  {
    hide Wrap;
    WithoutAt(q, k);
    SumWithout(q, k);
    WrapSub(Sum(q), o.quantity);
  }

  lemma RemoveOwnLevel(s: Store, live: seq<Order>, o: Order, k: nat)
    requires RemoveCase(s, live, o, k)
    ensures LevelOk(Removed(s, o), Without(live, o.id), o.side, o.price)
  {
    hide Shape, Wrap, Sum, Queue, Without, Removed, Chain, Threaded;
    ShapeLevel(s, live, o.side, o.price);
    QueueFiled(s, live, o.side, o.price);
    var q := Queue(live, o.side, o.price);
    var c := Chain(s.lookup, q);
    assert forall i :: 0 <= i < |c| ==> c[i] < NPOS;
    RemoveOwnChain(s, live, o, k);
    RemoveOwnEntry(s, o, q, c, k);
  }

  /** Orders of another queue are other orders on other nodes. */
  lemma RemoveUntouched(s: Store, live: seq<Order>, o: Order, k: nat, side: Side, price: I64)
    requires RemoveCase(s, live, o, k)
    requires side != o.side || price != o.price
    ensures var q := Queue(live, side, price);
      && Queue(Without(live, o.id), side, price) == q
      && forall i :: 0 <= i < |q| ==> q[i].id != o.id
  {
    var q := Queue(live, side, price);
    QueueMembers(live, side, price);
    forall i | 0 <= i < |q| ensures q[i].id != o.id {
      assert q[i] in q;
      if q[i].id == o.id { OrderIsUnique(live, q[i], o); }
    }
    QueueWithout(live, o.id, side, price);
    WithoutAbsent(q, o.id);
  }

  lemma RemoveOtherLevel(s: Store, live: seq<Order>, o: Order, k: nat, side: Side, price: I64)
    requires RemoveCase(s, live, o, k)
    requires side != o.side || price != o.price
    ensures LevelOk(Removed(s, o), Without(live, o.id), side, price)
  {
    hide Shape, Wrap, Sum, Queue, Without;
    ShapeLevel(s, live, side, price);
    var s' := Removed(s, o);
    var q := Queue(live, side, price);
    var c := Chain(s.lookup, q);
    RemoveUntouched(s, live, o, k, side, price);
    assert Chain(s'.lookup, q) == c;
    assert LevelOk(s, live, side, price);
    forall i | 0 <= i < |c|
      ensures c[i] < |s.nodes|
      ensures s'.nodes[c[i]].prev == s.nodes[c[i]].prev && s'.nodes[c[i]].next == s.nodes[c[i]].next
    {
      assert ThreadedAt(s.nodes, c, i);
      ChainsApart(s, live, side, price, o.side, o.price, i, k);
      if k > 0 { ChainsApart(s, live, side, price, o.side, o.price, i, k - 1); }
      if k + 1 < |Queue(live, o.side, o.price)| { ChainsApart(s, live, side, price, o.side, o.price, i, k + 1); }
    }
    LevelFrame(s, s', live, Without(live, o.id), side, price);
  }

  lemma RemoveKeepsShape(s: Store, live: seq<Order>, o: Order)
    requires Shape(s, live) && o in live
    ensures CanRemove(s, o) && Shape(Removed(s, o), Without(live, o.id))
  {
    var k := RemoveReady(s, live, o);
    WithoutWellFormed(live, o.id);
    RemoveLookup(s, live, o, k);
    QueueFiled(s, live, o.side, o.price);
    RemoveFree(s, o);
    forall side, price ensures LevelOk(Removed(s, o), Without(live, o.id), side, price) {
      if side == o.side && price == o.price {
        RemoveOwnLevel(s, live, o, k);
      } else {
        RemoveOtherLevel(s, live, o, k, side, price);
      }
    }
  }

  // ----- changing a quantity -----

  ghost function Resized(s: Store, o: Order, quantity: U64): Store
    requires CanRemove(s, o) && quantity <= o.quantity
  {
    var n := s.lookup[o.id].nodeIndex;
    var level := s.Levels(o.side)[o.price];
    SetLevel(s, o.side, o.price,
             level.(totalQuantity := Wrap(level.totalQuantity - (o.quantity - quantity))))
      .(nodes := s.nodes[n := s.nodes[n].(quantity := quantity)],
        lookup := s.lookup[o.id := s.lookup[o.id].(quantity := quantity)])
  }

  lemma ResizeLookup(s: Store, live: seq<Order>, o: Order, quantity: U64)
    requires LookupOk(s, live) && Distinct(live) && o in live && CanRemove(s, o) && quantity <= o.quantity
    ensures LookupOk(Resized(s, o, quantity), WithQuantity(live, o.id, quantity))
  {
    var s', live' := Resized(s, o, quantity), WithQuantity(live, o.id, quantity);
    WithQuantityAt(live, o.id, quantity);
    assert Filed(s.nodes, s.lookup, o);
    forall id | id in s'.lookup ensures HasId(live', id) {
      assert live'[IndexOf(live, id)].id == id;
    }
    forall p | p in live' ensures Filed(s'.nodes, s'.lookup, p) {
      var i :| 0 <= i < |live'| && live'[i] == p;
      assert live[i] in live && Filed(s.nodes, s.lookup, live[i]);
      if live[i].id == o.id { OrderIsUnique(live, live[i], o); }
    }
    assert s'.lookup.Keys == s.lookup.Keys;
  }

  lemma ResizeFree(s: Store, o: Order, quantity: U64)
    requires FreeOk(s) && CanRemove(s, o) && quantity <= o.quantity
    requires s.nodes[s.lookup[o.id].nodeIndex].active
    ensures FreeOk(Resized(s, o, quantity))
  {
    assert Resized(s, o, quantity).lookup.Keys == s.lookup.Keys;
  }

  lemma ResizeOwnLevel(s: Store, live: seq<Order>, o: Order, k: nat, quantity: U64)
    requires CanRemove(s, o) && quantity <= o.quantity && LevelOk(s, live, o.side, o.price)
    requires var q := Queue(live, o.side, o.price); k < |q| && q[k] == o && Distinct(q)
    ensures LevelOk(Resized(s, o, quantity), WithQuantity(live, o.id, quantity), o.side, o.price)
  {
    hide Wrap, Sum, Queue, WithQuantity;
    var s', live' := Resized(s, o, quantity), WithQuantity(live, o.id, quantity);
    var q := Queue(live, o.side, o.price);
    var c := Chain(s.lookup, q);
    QueueWithQuantity(live, o.id, quantity, o.side, o.price);
    WithQuantityAt(q, o.id, quantity);
    assert Chain(s'.lookup, Queue(live', o.side, o.price)) == c;
    forall i | 0 <= i < |c| ensures ThreadedAt(s'.nodes, c, i) {
      assert ThreadedAt(s.nodes, c, i);
    }
    assert Threaded(s'.nodes, c);
    SumWithQuantity(q, k, quantity);
    WrapSub(Sum(q), o.quantity - quantity);
    var q', level := Queue(live', o.side, o.price), s.Levels(o.side)[o.price];
    assert Sum(q) - (o.quantity - quantity) == Sum(q');
    assert level == PriceLevel(Wrap(Sum(q)), |q|, c[0], c[|c| - 1]);
    assert s'.Levels(o.side)[o.price] == PriceLevel(Wrap(Sum(q')), |q'|, c[0], c[|c| - 1]);
  }

  lemma ResizeOtherLevel(s: Store, live: seq<Order>, o: Order, k: nat, quantity: U64, side: Side, price: I64)
    requires RemoveCase(s, live, o, k) && quantity <= o.quantity
    requires side != o.side || price != o.price
    ensures LevelOk(Resized(s, o, quantity), WithQuantity(live, o.id, quantity), side, price)
  {
    hide Shape, Wrap, Sum, Queue, WithQuantity;
    ShapeLevel(s, live, side, price);
    var s', live' := Resized(s, o, quantity), WithQuantity(live, o.id, quantity);
    var q := Queue(live, side, price);
    var c := Chain(s.lookup, q);
    RemoveUntouched(s, live, o, k, side, price);
    QueueWithQuantity(live, o.id, quantity, side, price);
    WithQuantityAt(q, o.id, quantity);
    assert Queue(live', side, price) == q;
    assert Chain(s'.lookup, q) == c;
    assert LevelOk(s, live, side, price);
    forall i | 0 <= i < |c|
      ensures c[i] < |s.nodes|
      ensures s'.nodes[c[i]].prev == s.nodes[c[i]].prev && s'.nodes[c[i]].next == s.nodes[c[i]].next
    {
      assert ThreadedAt(s.nodes, c, i);
    }
    LevelFrame(s, s', live, live', side, price);
  }

  lemma ResizeKeepsShape(s: Store, live: seq<Order>, o: Order, quantity: U64)
    requires Shape(s, live) && o in live && 0 < quantity <= o.quantity
    ensures CanRemove(s, o) && Shape(Resized(s, o, quantity), WithQuantity(live, o.id, quantity))
  {
    var k := RemoveReady(s, live, o);
    WithQuantityAt(live, o.id, quantity);
    ResizeLookup(s, live, o, quantity);
    assert Filed(s.nodes, s.lookup, o);
    ResizeFree(s, o, quantity);
    forall side, price
      ensures LevelOk(Resized(s, o, quantity), WithQuantity(live, o.id, quantity), side, price)
    {
      if side == o.side && price == o.price {
        assert LevelOk(s, live, side, price);
        QueueDistinct(live, side, price);
        ResizeOwnLevel(s, live, o, k, quantity);
      } else {
        ResizeOtherLevel(s, live, o, k, quantity, side, price);
      }
    }
  }

  // ----- the empty pool, and what the pool size says -----

  lemma EmptyShape(s: Store)
    requires |s.nodes| < NPOS && s.bids == map[] && s.asks == map[] && s.lookup == map[]
    requires s.free == seq(|s.nodes|, i requires 0 <= i < |s.nodes| => |s.nodes| - 1 - i)
    requires forall n :: 0 <= n < |s.nodes| ==> s.nodes[n] == FREE_NODE
    ensures Shape(s, [])
  {
    forall n | 0 <= n < |s.nodes| ensures n in s.free {
      assert s.free[|s.nodes| - 1 - n] == n;
    }
    forall side, price ensures LevelOk(s, [], side, price) {
      assert Queue([], side, price) == [];
    }
  }

  /** Free nodes and live orders always add up to the capacity. */
  lemma PoolCount(s: Store, live: seq<Order>)
    requires Shape(s, live)
    ensures |s.free| + |live| == |s.nodes|
    ensures s.free == [] <==> |live| >= |s.nodes|
  {
  }

  lemma LookupMeansLive(s: Store, live: seq<Order>, id: U64)
    requires Shape(s, live)
    ensures id in s.lookup <==> HasId(live, id)
    ensures id in s.lookup ==>
      var o, r := OrderOf(live, id), s.lookup[id];
      && Filed(s.nodes, s.lookup, o)
      && r == OrderRecord(o.side, o.price, o.timestamp, o.quantity, r.nodeIndex)
      && o.quantity > 0
  {
    if HasId(live, id) {
      var o := OrderOf(live, id);
      assert Filed(s.nodes, s.lookup, o);
    }
  }

  // ----- what the level maps show -----

  lemma LevelKeys(s: Store, live: seq<Order>, side: Side)
    requires Shape(s, live)
    ensures s.Levels(side).Keys == Views.Prices(live, side)
  {
    forall price ensures price in s.Levels(side) <==> price in Views.Prices(live, side) {
      assert LevelOk(s, live, side, price);
      Views.PriceHasQueue(live, side, price);
    }
  }

  lemma LevelView(s: Store, live: seq<Order>, side: Side, price: I64)
    requires Shape(s, live) && price in s.Levels(side)
    ensures var level, q := s.Levels(side)[price], Queue(live, side, price);
      && var c := Chain(s.lookup, q);
      && level == PriceLevel(Wrap(Sum(q)), |q|, Link(c, 0), Link(c, |c| - 1))
      && Threaded(s.nodes, c)
      && (forall i :: 0 <= i < |c| ==> c[i] < |s.nodes| && c[i] != NPOS)
  {
    assert LevelOk(s, live, side, price);
    QueueFiled(s, live, side, price);
  }
}
