/** The state of the baseline book as a value, and what it means for it to hold a ledger. A list node
    keeps its identity (`node`) while other nodes come and go; an iterator is such an identity. */
module BaselineShape {
  import opened Types
  import opened Ledger
  import Views

  datatype OrderEntry = OrderEntry(orderId: U64, timestamp: I64, quantity: U64, node: nat)

  datatype PriceLevel = PriceLevel(totalQuantity: U64, orders: seq<OrderEntry>)

  const EMPTY_LEVEL: PriceLevel := PriceLevel(0, [])

  datatype OrderRecord = OrderRecord(
    side: Side, price: I64, timestamp: I64, quantity: U64, listNode: nat)

  datatype Store = Store(
    bids: map<I64, PriceLevel>, asks: map<I64, PriceLevel>, lookup: map<U64, OrderRecord>, nextNode: nat)
  {
    function Levels(side: Side): map<I64, PriceLevel> {
      if side.Buy? then bids else asks
    }
  }

  // ----- lists and iterators -----

  predicate Points(orders: seq<OrderEntry>, it: nat) {
    exists i :: 0 <= i < |orders| && orders[i].node == it
  }

  function Position(orders: seq<OrderEntry>, it: nat): (k: nat)
    requires Points(orders, it)
    ensures k < |orders| && orders[k].node == it
  {
    if orders[0].node == it then 0 else 1 + Position(orders[1..], it)
  }

  function Erase(orders: seq<OrderEntry>, it: nat): seq<OrderEntry>
    requires Points(orders, it)
  {
    var k := Position(orders, it);
    orders[..k] + orders[k + 1..]
  }

  function Assign(orders: seq<OrderEntry>, it: nat, quantity: U64): seq<OrderEntry>
    requires Points(orders, it)
  {
    var k := Position(orders, it);
    orders[k := orders[k].(quantity := quantity)]
  }

  // ----- the shape -----

  /** The list that holds a queue. */
  function Entries(lookup: map<U64, OrderRecord>, q: seq<Order>): (entries: seq<OrderEntry>)
    ensures |entries| == |q|
  {
    seq(|q|, i requires 0 <= i < |q| =>
      OrderEntry(q[i].id, q[i].timestamp, q[i].quantity,
                 if q[i].id in lookup then lookup[q[i].id].listNode else 0))
  }

  ghost predicate Filed(s: Store, o: Order) {
    && o.id in s.lookup
    && s.lookup[o.id] == OrderRecord(o.side, o.price, o.timestamp, o.quantity, s.lookup[o.id].listNode)
    && s.lookup[o.id].listNode < s.nextNode
  }

  ghost predicate LevelOk(s: Store, live: seq<Order>, side: Side, price: I64) {
    var q := Queue(live, side, price);
    && (price in s.Levels(side) <==> q != [])
    && (q != [] ==> s.Levels(side)[price] == PriceLevel(Wrap(Sum(q)), Entries(s.lookup, q)))
  }

  ghost predicate LookupOk(s: Store, live: seq<Order>) {
    && |s.lookup| == |live|
    && (forall id :: id in s.lookup ==> HasId(live, id))
    && (forall o :: o in live ==> Filed(s, o))
    && (forall id, id' :: id in s.lookup && id' in s.lookup && id != id' ==>
          s.lookup[id].listNode != s.lookup[id'].listNode)
  }

  ghost predicate Shape(s: Store, live: seq<Order>) {
    && WellFormed(live)
    && LookupOk(s, live)
    && (forall side, price :: LevelOk(s, live, side, price))
  }

  function SetLevel(s: Store, side: Side, price: I64, level: PriceLevel): Store {
    if side.Buy? then s.(bids := s.bids[price := level]) else s.(asks := s.asks[price := level])
  }

  function DropLevel(s: Store, side: Side, price: I64): Store {
    if side.Buy? then s.(bids := s.bids - {price}) else s.(asks := s.asks - {price})
  }

  // ----- what a shaped store shows -----

  lemma LookupMeansLive(s: Store, live: seq<Order>, id: U64)
    requires Shape(s, live)
    ensures id in s.lookup <==> HasId(live, id)
    ensures id in s.lookup ==>
      var o, r := OrderOf(live, id), s.lookup[id];
      r == OrderRecord(o.side, o.price, o.timestamp, o.quantity, r.listNode) && o.quantity > 0
  {
    if HasId(live, id) {
      var o := OrderOf(live, id);
      assert Filed(s, o);
    }
  }

  lemma LevelView(s: Store, live: seq<Order>, side: Side, price: I64)
    requires Shape(s, live)
    ensures price in s.Levels(side) <==> price in Views.Prices(live, side)
    ensures price in s.Levels(side) <==> Queue(live, side, price) != []
    ensures price in s.Levels(side) ==>
      var q := Queue(live, side, price);
      s.Levels(side)[price] == PriceLevel(Wrap(Sum(q)), Entries(s.lookup, q))
  {
    assert LevelOk(s, live, side, price);
    Views.PriceHasQueue(live, side, price);
  }

  lemma LevelKeys(s: Store, live: seq<Order>, side: Side)
    requires Shape(s, live)
    ensures s.Levels(side).Keys == Views.Prices(live, side)
  {
    forall price ensures price in s.Levels(side) <==> price in Views.Prices(live, side) {
      LevelView(s, live, side, price);
    }
  }

  lemma QueueFiled(s: Store, live: seq<Order>, side: Side, price: I64)
    requires Shape(s, live)
    ensures var q := Queue(live, side, price);
      && WellFormed(q)
      && (forall i :: 0 <= i < |q| ==> q[i] in live && q[i].side == side && q[i].price == price && Filed(s, q[i]))
  {
    QueueMembers(live, side, price);
    QueueDistinct(live, side, price);
    var q := Queue(live, side, price);
    forall i | 0 <= i < |q| ensures q[i] in live && q[i].side == side && q[i].price == price {
      assert q[i] in q;
    }
  }

  /** An iterator of a live order points at the order's place in its queue, and nowhere else. */
  lemma IteratorPlace(s: Store, live: seq<Order>, o: Order) returns (k: nat)
    requires Shape(s, live) && o in live
    ensures var q := Queue(live, o.side, o.price);
      && k < |q| && q[k] == o && Distinct(q)
      && var entries := Entries(s.lookup, q);
      && o.id in s.lookup && o.price in s.Levels(o.side)
      && Points(entries, s.lookup[o.id].listNode) && Position(entries, s.lookup[o.id].listNode) == k
  {
    hide Wrap, Sum;
    var q := Queue(live, o.side, o.price);
    var entries := Entries(s.lookup, q);
    QueueMembers(live, o.side, o.price);
    QueueFiled(s, live, o.side, o.price);
    LevelView(s, live, o.side, o.price);
    k :| 0 <= k < |q| && q[k] == o;
    var it := s.lookup[o.id].listNode;
    assert entries[k].node == it;
    var j := Position(entries, it);
    assert q[j].id in s.lookup;
    assert q[j].id == q[k].id;
  }

  lemma EntriesFrame(lookup: map<U64, OrderRecord>, lookup': map<U64, OrderRecord>, q: seq<Order>)
    requires forall i :: 0 <= i < |q| ==>
      (q[i].id in lookup <==> q[i].id in lookup')
      && (q[i].id in lookup ==> lookup[q[i].id].listNode == lookup'[q[i].id].listNode)
    ensures Entries(lookup, q) == Entries(lookup', q)
  {
  }

  /** A level survives any update that leaves its queue, its entry and its iterators alone. */
  lemma LevelFrame(s: Store, s': Store, live: seq<Order>, live': seq<Order>, side: Side, price: I64)
    requires LevelOk(s, live, side, price)
    requires Queue(live', side, price) == Queue(live, side, price)
    requires var q := Queue(live, side, price); Entries(s'.lookup, q) == Entries(s.lookup, q)
    requires price in s'.Levels(side) <==> price in s.Levels(side)
    requires price in s.Levels(side) ==> s'.Levels(side)[price] == s.Levels(side)[price]
    ensures LevelOk(s', live', side, price)
  {
  }

  lemma ShapeLevel(s: Store, live: seq<Order>, side: Side, price: I64)
    requires Shape(s, live)
    ensures LevelOk(s, live, side, price)
  {
    assert LevelOk(s, live, side, price);
  }

  // ----- adding -----

  function Added(s: Store, o: Order): Store {
    var level := LevelAt(s, o.side, o.price);
    SetLevel(s, o.side, o.price,
             PriceLevel(Wrap(level.totalQuantity + o.quantity),
                        level.orders + [OrderEntry(o.id, o.timestamp, o.quantity, s.nextNode)]))
      .(lookup := s.lookup[o.id := OrderRecord(o.side, o.price, o.timestamp, o.quantity, s.nextNode)],
        nextNode := s.nextNode + 1)
  }

  /** The level at a price, created empty when the price has none. */
  function LevelAt(s: Store, side: Side, price: I64): PriceLevel {
    if price in s.Levels(side) then s.Levels(side)[price] else EMPTY_LEVEL
  }

  lemma LevelAtIs(s: Store, live: seq<Order>, side: Side, price: I64)
    requires LevelOk(s, live, side, price)
    ensures var q := Queue(live, side, price);
      LevelAt(s, side, price) == PriceLevel(Wrap(Sum(q)), Entries(s.lookup, q))
  {
    hide Queue;
    assert Sum([]) == 0;
  }

  lemma EntriesAppend(lookup: map<U64, OrderRecord>, q: seq<Order>, o: Order)
    requires o.id in lookup
    ensures Entries(lookup, q + [o])
         == Entries(lookup, q) + [OrderEntry(o.id, o.timestamp, o.quantity, lookup[o.id].listNode)]
  {
  }

  lemma AddOwnLevel(s: Store, live: seq<Order>, o: Order)
    requires LevelOk(s, live, o.side, o.price)
    requires forall i :: 0 <= i < |Queue(live, o.side, o.price)| ==> Queue(live, o.side, o.price)[i].id != o.id
    ensures LevelOk(Added(s, o), live + [o], o.side, o.price)
  {
    hide Queue, Wrap, Sum, LevelAt, Entries;
    LevelAtIs(s, live, o.side, o.price);
    var q := Queue(live, o.side, o.price);
    QueueAppend(live, o, o.side, o.price);
    EntriesFrame(s.lookup, Added(s, o).lookup, q);
    EntriesAppend(Added(s, o).lookup, q, o);
    SumAppend(q, o);
    WrapAdd(Sum(q), o.quantity);
  }

  lemma AddLevel(s: Store, live: seq<Order>, o: Order, side: Side, price: I64)
    requires Shape(s, live) && !HasId(live, o.id)
    ensures LevelOk(Added(s, o), live + [o], side, price)
  {
    hide Wrap, Sum, Queue, LevelOk;
    var q := Queue(live, side, price);
    ShapeLevel(s, live, side, price);
    QueueFiled(s, live, side, price);
    QueueAppend(live, o, side, price);
    forall i | 0 <= i < |q| ensures q[i].id != o.id {
      assert q[i] in live;
      var j :| 0 <= j < |live| && live[j] == q[i];
    }
    if side == o.side && price == o.price {
      AddOwnLevel(s, live, o);
    } else {
      assert q + [] == q;
      EntriesFrame(s.lookup, Added(s, o).lookup, q);
      LevelFrame(s, Added(s, o), live, live + [o], side, price);
    }
  }

  lemma AddKeepsShape(s: Store, live: seq<Order>, o: Order)
    requires Shape(s, live) && !HasId(live, o.id) && o.quantity > 0
    ensures Shape(Added(s, o), live + [o])
  {
    hide LevelOk, Queue, Wrap;
    var s', live' := Added(s, o), live + [o];
    assert o.id !in s.lookup;
    forall id | id in s'.lookup ensures HasId(live', id) {
      assert live'[if id == o.id then |live| else IndexOf(live, id)].id == id;
    }
    forall p | p in live' ensures Filed(s', p) {
      if p in live {
        var i :| 0 <= i < |live| && live[i] == p;
        assert Filed(s, p);
      }
    }
    forall id | id in s.lookup ensures s.lookup[id].listNode < s.nextNode {
      assert Filed(s, OrderOf(live, id));
    }
    forall side, price ensures LevelOk(s', live', side, price) {
      AddLevel(s, live, o, side, price);
    }
  }

  // ----- removing -----

  ghost predicate CanTouch(s: Store, o: Order) {
    && o.id in s.lookup && o.price in s.Levels(o.side)
    && Points(s.Levels(o.side)[o.price].orders, s.lookup[o.id].listNode)
  }

  ghost function Removed(s: Store, o: Order): Store
    requires CanTouch(s, o)
  {
    var before := s.Levels(o.side)[o.price];
    var level := PriceLevel(Wrap(before.totalQuantity - o.quantity), Erase(before.orders, s.lookup[o.id].listNode));
    (if level.orders == [] then DropLevel(s, o.side, o.price) else SetLevel(s, o.side, o.price, level))
      .(lookup := s.lookup - {o.id})
  }

  lemma CutEntries(lookup: map<U64, OrderRecord>, lookup': map<U64, OrderRecord>, q: seq<Order>, k: nat)
    requires k < |q| && Distinct(q) && lookup' == lookup - {q[k].id}
    ensures Entries(lookup', q[..k] + q[k + 1..]) == Entries(lookup, q)[..k] + Entries(lookup, q)[k + 1..]
  {
    var q', e := q[..k] + q[k + 1..], Entries(lookup, q);
    var e' := e[..k] + e[k + 1..];
    forall i | 0 <= i < |q'| ensures Entries(lookup', q')[i] == e'[i] {
      var at := if i < k then i else i + 1;
      assert q'[i] == q[at] && e'[i] == e[at];
      assert q[at].id != q[k].id;
    }
  }

  lemma RemoveOwnLevel(s: Store, live: seq<Order>, o: Order)
    requires Shape(s, live) && o in live && CanTouch(s, o)
    ensures LevelOk(Removed(s, o), Without(live, o.id), o.side, o.price)
  {
    hide Wrap, Shape, Queue, Without, Sum, Entries;
    var q := Queue(live, o.side, o.price);
    var k := IteratorPlace(s, live, o);
    LevelView(s, live, o.side, o.price);
    QueueWithout(live, o.id, o.side, o.price);
    WithoutAt(q, k);
    CutEntries(s.lookup, Removed(s, o).lookup, q, k);
    SumWithout(q, k);
    WrapSub(Sum(q), o.quantity);
  }

  lemma OtherQueue(s: Store, live: seq<Order>, o: Order, side: Side, price: I64)
    requires Shape(s, live) && o in live && (side != o.side || price != o.price)
    ensures forall i :: 0 <= i < |Queue(live, side, price)| ==> Queue(live, side, price)[i].id != o.id
  {
    QueueFiled(s, live, side, price);
    assert Filed(s, o);
  }

  lemma RemoveOtherLevel(s: Store, live: seq<Order>, o: Order, side: Side, price: I64)
    requires Shape(s, live) && o in live && CanTouch(s, o) && (side != o.side || price != o.price)
    ensures LevelOk(Removed(s, o), Without(live, o.id), side, price)
  {
    hide Wrap, Shape, Sum, Queue, Without, LevelOk, Entries, Erase;
    var q := Queue(live, side, price);
    OtherQueue(s, live, o, side, price);
    LevelView(s, live, side, price);
    QueueWithout(live, o.id, side, price);
    WithoutAbsent(q, o.id);
    EntriesFrame(s.lookup, Removed(s, o).lookup, q);
    ShapeLevel(s, live, side, price);
    LevelFrame(s, Removed(s, o), live, Without(live, o.id), side, price);
  }

  /** The orders that stay keep their records. */
  lemma RemoveFiled(s: Store, live: seq<Order>, o: Order)
    requires LookupOk(s, live) && CanTouch(s, o)
    ensures forall p :: p in Without(live, o.id) ==> Filed(Removed(s, o), p)
  {
    hide Wrap, Erase, Without;
    WithoutMembers(live, o.id);
    forall p | p in Without(live, o.id) ensures Filed(Removed(s, o), p) {
      assert Filed(s, p);
    }
  }

  /** The records that stay are those of the orders that stay. */
  lemma RemoveRecords(s: Store, live: seq<Order>, o: Order)
    requires LookupOk(s, live) && CanTouch(s, o)
    ensures forall id :: id in Removed(s, o).lookup ==> HasId(Without(live, o.id), id)
  {
    hide Wrap, Erase, Without, Filed;
    WithoutMembers(live, o.id);
    var live' := Without(live, o.id);
    forall id | id in Removed(s, o).lookup ensures HasId(live', id) {
      assert OrderOf(live, id) in live';
    }
  }

  lemma RemoveLookup(s: Store, live: seq<Order>, o: Order)
    requires WellFormed(live) && LookupOk(s, live) && o in live && CanTouch(s, o)
    ensures LookupOk(Removed(s, o), Without(live, o.id)) && WellFormed(Without(live, o.id))
  {
    hide Wrap, Erase, Without, Filed, IndexOf;
    RemoveFiled(s, live, o);
    RemoveRecords(s, live, o);
    assert HasId(live, o.id) by { var i :| 0 <= i < |live| && live[i] == o; }
    WithoutWellFormed(live, o.id);
  }

  lemma RemoveKeepsShape(s: Store, live: seq<Order>, o: Order)
    requires Shape(s, live) && o in live
    ensures CanTouch(s, o) && Shape(Removed(s, o), Without(live, o.id))
  {
    hide LevelOk, LookupOk, Queue, Without, Sum, Wrap, Entries, Erase;
    var k := IteratorPlace(s, live, o);
    LevelView(s, live, o.side, o.price);
    RemoveLookup(s, live, o);
    forall side, price ensures LevelOk(Removed(s, o), Without(live, o.id), side, price) {
      if side == o.side && price == o.price {
        RemoveOwnLevel(s, live, o);
      } else {
        RemoveOtherLevel(s, live, o, side, price);
      }
    }
  }

  // ----- changing a quantity -----

  ghost function Resized(s: Store, o: Order, quantity: U64): Store
    requires CanTouch(s, o) && quantity <= o.quantity
  {
    var before, it := s.Levels(o.side)[o.price], s.lookup[o.id].listNode;
    SetLevel(s, o.side, o.price,
             PriceLevel(Wrap(before.totalQuantity - (o.quantity - quantity)), Assign(before.orders, it, quantity)))
      .(lookup := s.lookup[o.id := s.lookup[o.id].(quantity := quantity)])
  }

  lemma ResizeOwnLevel(s: Store, live: seq<Order>, o: Order, quantity: U64)
    requires Shape(s, live) && o in live && CanTouch(s, o) && quantity <= o.quantity
    ensures LevelOk(Resized(s, o, quantity), WithQuantity(live, o.id, quantity), o.side, o.price)
  {
    hide Wrap, Shape, Queue, WithQuantity, Sum;
    var s' := Resized(s, o, quantity);
    var q := Queue(live, o.side, o.price);
    var k := IteratorPlace(s, live, o);
    LevelView(s, live, o.side, o.price);
    QueueWithQuantity(live, o.id, quantity, o.side, o.price);
    WithQuantityIs(q, k, quantity);
    var q' := q[k := q[k].(quantity := quantity)];
    assert Entries(s'.lookup, q') == Assign(Entries(s.lookup, q), s.lookup[o.id].listNode, quantity);
    SumWithQuantity(q, k, quantity);
    WrapSub(Sum(q), o.quantity - quantity);
    assert Sum(q) - (o.quantity - quantity) == Sum(q');
  }

  lemma ResizeOtherLevel(s: Store, live: seq<Order>, o: Order, quantity: U64, side: Side, price: I64)
    requires Shape(s, live) && o in live && CanTouch(s, o) && quantity <= o.quantity
    requires side != o.side || price != o.price
    ensures LevelOk(Resized(s, o, quantity), WithQuantity(live, o.id, quantity), side, price)
  {
    hide Wrap, Shape, Sum, Queue, WithQuantity, LevelOk, Entries, Assign;
    var q := Queue(live, side, price);
    OtherQueue(s, live, o, side, price);
    LevelView(s, live, side, price);
    QueueWithQuantity(live, o.id, quantity, side, price);
    WithQuantityAt(q, o.id, quantity);
    assert WithQuantity(q, o.id, quantity) == q;
    EntriesFrame(s.lookup, Resized(s, o, quantity).lookup, q);
    ShapeLevel(s, live, side, price);
    LevelFrame(s, Resized(s, o, quantity), live, WithQuantity(live, o.id, quantity), side, price);
  }

  lemma ResizeFiled(s: Store, live: seq<Order>, o: Order, quantity: U64)
    requires WellFormed(live) && LookupOk(s, live) && o in live && CanTouch(s, o) && 0 < quantity <= o.quantity
    ensures forall p :: p in WithQuantity(live, o.id, quantity) ==> Filed(Resized(s, o, quantity), p)
  {
    hide Wrap, Assign, WithQuantity;
    var s', live' := Resized(s, o, quantity), WithQuantity(live, o.id, quantity);
    WithQuantityAt(live, o.id, quantity);
    assert Filed(s, o);
    forall p | p in live' ensures Filed(s', p) {
      var i :| 0 <= i < |live'| && live'[i] == p;
      assert live[i] in live && Filed(s, live[i]);
    }
  }

  lemma ResizeRecords(s: Store, live: seq<Order>, o: Order, quantity: U64)
    requires LookupOk(s, live) && CanTouch(s, o) && quantity <= o.quantity
    ensures Resized(s, o, quantity).lookup.Keys == s.lookup.Keys
    ensures forall id :: id in s.lookup ==> HasId(WithQuantity(live, o.id, quantity), id)
  {
    hide Wrap, Assign, WithQuantity, Filed;
    WithQuantityAt(live, o.id, quantity);
    forall id | id in s.lookup ensures HasId(WithQuantity(live, o.id, quantity), id) {
      assert WithQuantity(live, o.id, quantity)[IndexOf(live, id)].id == id;
    }
  }

  lemma ResizeWellFormed(live: seq<Order>, id: U64, quantity: U64)
    requires WellFormed(live) && quantity > 0
    ensures WellFormed(WithQuantity(live, id, quantity))
  {
    hide WithQuantity;
    WithQuantityAt(live, id, quantity);
  }

  lemma ResizeLookup(s: Store, live: seq<Order>, o: Order, quantity: U64)
    requires WellFormed(live) && LookupOk(s, live) && o in live && CanTouch(s, o) && 0 < quantity <= o.quantity
    ensures LookupOk(Resized(s, o, quantity), WithQuantity(live, o.id, quantity))
    ensures WellFormed(WithQuantity(live, o.id, quantity))
  {
    hide Wrap, Assign, WithQuantity, Filed, IndexOf, LevelOk, HasId, Distinct, Positive;
    ResizeWellFormed(live, o.id, quantity);
    ResizeFiled(s, live, o, quantity);
    ResizeRecords(s, live, o, quantity);
  }

  lemma ResizeKeepsShape(s: Store, live: seq<Order>, o: Order, quantity: U64)
    requires Shape(s, live) && o in live && 0 < quantity <= o.quantity
    ensures CanTouch(s, o) && Shape(Resized(s, o, quantity), WithQuantity(live, o.id, quantity))
  {
    hide LevelOk, LookupOk, Queue, WithQuantity, Sum, Wrap, Entries, Assign;
    var k := IteratorPlace(s, live, o);
    LevelView(s, live, o.side, o.price);
    ResizeLookup(s, live, o, quantity);
    forall side, price ensures LevelOk(Resized(s, o, quantity), WithQuantity(live, o.id, quantity), side, price) {
      if side == o.side && price == o.price {
        ResizeOwnLevel(s, live, o, quantity);
      } else {
        ResizeOtherLevel(s, live, o, quantity, side, price);
      }
    }
  }

  lemma EmptyShape(nextNode: nat)
    ensures Shape(Store(map[], map[], map[], nextNode), [])
  {
    forall side, price ensures LevelOk(Store(map[], map[], map[], nextNode), [], side, price) {
      assert Queue([], side, price) == [];
    }
  }

  lemma ShapedLedger(s: Store, live: seq<Order>)
    requires Shape(s, live)
    ensures WellFormed(live)
  {
  }
}
