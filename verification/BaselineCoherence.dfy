/** When the state of a baseline book is coherent, said of any state whatever. */
module BaselineCoherence {
  import opened Types
  import opened Ledger
  import opened BaselineShape
  import Assembly

  /** The i-th entry of a list agrees with the lookup record of its order, which points back at it. */
  ghost predicate EntryFiled(s: Store, side: Side, price: I64, e: OrderEntry) {
    && e.quantity != 0
    && e.orderId in s.lookup
    && s.lookup[e.orderId] == OrderRecord(side, price, e.timestamp, e.quantity, e.node)
  }

  function EntrySum(orders: seq<OrderEntry>): nat {
    if orders == [] then 0 else EntrySum(orders[..|orders| - 1]) + orders[|orders| - 1].quantity
  }

  function EntryIds(orders: seq<OrderEntry>): set<U64> {
    set e | e in orders :: e.orderId
  }

  ghost predicate DistinctIds(orders: seq<OrderEntry>) {
    forall i, j :: 0 <= i < j < |orders| ==> orders[i].orderId != orders[j].orderId
  }

  ghost predicate LevelCoherent(s: Store, side: Side, price: I64) {
    && price in s.Levels(side)
    && var level := s.Levels(side)[price];
    && level.orders != []
    && DistinctIds(level.orders)
    && (forall e :: e in level.orders ==> EntryFiled(s, side, price, e))
    && level.totalQuantity == Wrap(EntrySum(level.orders))
  }

  ghost predicate SideCoherent(s: Store, side: Side) {
    forall price :: price in s.Levels(side) ==> LevelCoherent(s, side, price)
  }

  /** The order of this id is in the list of its record's level. */
  ghost predicate Listed(s: Store, id: U64)
    requires id in s.lookup
  {
    var r := s.lookup[id];
    r.price in s.Levels(r.side) && id in EntryIds(s.Levels(r.side)[r.price].orders)
  }

  ghost predicate Coherent(s: Store) {
    && SideCoherent(s, Buy)
    && SideCoherent(s, Sell)
    && (forall id :: id in s.lookup ==> Listed(s, id))
  }

  /** The seen ids after some levels of a side: those seen before, and those on these levels. */
  ghost predicate SeenSide(s: Store, side: Side, prices: seq<I64>, seen0: set<U64>, seen: set<U64>) {
    forall id :: id in seen <==>
      id in seen0 || (id in s.lookup && s.lookup[id].side == side && s.lookup[id].price in prices && Listed(s, id))
  }

  lemma SumTake(orders: seq<OrderEntry>, i: nat)
    requires i < |orders|
    ensures EntrySum(orders[..i + 1]) == EntrySum(orders[..i]) + orders[i].quantity
    ensures EntryIds(orders[..i + 1]) == EntryIds(orders[..i]) + {orders[i].orderId}
  {
    assert orders[..i + 1][..i] == orders[..i];
    assert orders[..i + 1] == orders[..i] + [orders[i]];
  }

  /** The ids a coherent level contributes. */
  lemma LevelIds(s: Store, side: Side, price: I64, id: U64)
    requires LevelCoherent(s, side, price)
    ensures id in EntryIds(s.Levels(side)[price].orders) <==>
      id in s.lookup && s.lookup[id].side == side && s.lookup[id].price == price && Listed(s, id)
  {
    var orders := s.Levels(side)[price].orders;
    if id in EntryIds(orders) {
      var e :| e in orders && e.orderId == id;
      assert EntryFiled(s, side, price, e);
    }
  }

  lemma EmptySum(orders: seq<OrderEntry>)
    ensures Wrap(EntrySum(orders[..0])) == 0 && EntryIds(orders[..0]) == {}
  {
  }

  lemma TakenIds(orders: seq<OrderEntry>, n: nat, id: U64)
    requires n <= |orders|
    ensures id in EntryIds(orders[..n]) <==> exists j :: 0 <= j < n && orders[j].orderId == id
  {
    if j :| 0 <= j < n && orders[j].orderId == id {
      assert orders[..n][j] in orders[..n];
    }
  }

  lemma ListedLevel(s: Store, id: U64)
    requires id in s.lookup && Listed(s, id)
    ensures s.lookup[id].price in s.Levels(s.lookup[id].side)
  {
  }

  // ----- reachable states -----

  lemma {:induction false} EntriesSum(lookup: map<U64, OrderRecord>, q: seq<Order>)
    ensures EntrySum(Entries(lookup, q)) == Sum(q)
  {
    if q != [] {
      EntriesSum(lookup, q[..|q| - 1]);
      assert Entries(lookup, q)[..|q| - 1] == Entries(lookup, q[..|q| - 1]);
    }
  }

  /** The lookup record of an order says what the order says. */
  ghost predicate Recorded(s: Store, o: Order) {
    && o.id in s.lookup
    && s.lookup[o.id] == OrderRecord(o.side, o.price, o.timestamp, o.quantity, s.lookup[o.id].listNode)
  }

  /** The levels and the lookup table hold this ledger. */
  ghost predicate Represents(s: Store, live: seq<Order>) {
    && WellFormed(live)
    && (forall id :: id in s.lookup ==> HasId(live, id))
    && (forall o :: o in live ==> Recorded(s, o))
    && (forall side, price :: LevelOk(s, live, side, price))
  }

  lemma RepresentedLevel(s: Store, live: seq<Order>, side: Side, price: I64)
    requires Represents(s, live) && price in s.Levels(side)
    ensures LevelCoherent(s, side, price)
  {
    hide Wrap, Queue, Sum;
    var q := Queue(live, side, price);
    assert LevelOk(s, live, side, price);
    QueueMembers(live, side, price);
    QueueDistinct(live, side, price);
    EntriesSum(s.lookup, q);
    var entries := Entries(s.lookup, q);
    forall e | e in entries ensures EntryFiled(s, side, price, e) {
      var i :| 0 <= i < |entries| && entries[i] == e;
      assert q[i] in q && Recorded(s, q[i]);
    }
  }

  lemma RepresentedId(s: Store, live: seq<Order>, id: U64)
    requires Represents(s, live) && id in s.lookup
    ensures Listed(s, id)
  {
    hide Wrap, Queue, Sum;
    var o := OrderOf(live, id);
    var q := Queue(live, o.side, o.price);
    QueueMembers(live, o.side, o.price);
    var k :| 0 <= k < |q| && q[k] == o;
    assert LevelOk(s, live, o.side, o.price) && Recorded(s, o);
    var entries := Entries(s.lookup, q);
    assert entries[k] in entries && entries[k].orderId == id;
  }

  lemma RepresentedIsCoherent(s: Store, live: seq<Order>)
    requires Represents(s, live)
    ensures Coherent(s)
  {
    hide LevelOk, LevelCoherent, Listed, Represents;
    forall side, price | price in s.Levels(side) ensures LevelCoherent(s, side, price) {
      RepresentedLevel(s, live, side, price);
    }
    forall id | id in s.lookup ensures Listed(s, id) {
      RepresentedId(s, live, id);
    }
  }

  /** Every reachable state is coherent, so the checker can only fail on a crossed book. */
  lemma ShapeIsCoherent(s: Store, live: seq<Order>)
    requires Shape(s, live)
    ensures Coherent(s)
  {
    hide LevelOk, Coherent;
    forall o | o in live ensures Recorded(s, o) {
      assert Filed(s, o);
    }
    RepresentedIsCoherent(s, live);
  }

  // ----- a coherent state is the state of a ledger -----

  ghost function OrdersOf(side: Side, price: I64, entries: seq<OrderEntry>): (q: seq<Order>)
    ensures |q| == |entries|
  {
    seq(|entries|, i requires 0 <= i < |entries| =>
      Order(entries[i].orderId, side, price, entries[i].timestamp, entries[i].quantity))
  }

  ghost function QueuesOf(s: Store, side: Side): map<I64, seq<Order>> {
    map price | price in s.Levels(side) :: OrdersOf(side, price, s.Levels(side)[price].orders)
  }

  lemma {:induction false} OrdersSum(side: Side, price: I64, entries: seq<OrderEntry>)
    ensures Sum(OrdersOf(side, price, entries)) == EntrySum(entries)
  {
    if entries != [] {
      OrdersSum(side, price, entries[..|entries| - 1]);
      assert OrdersOf(side, price, entries)[..|entries| - 1] == OrdersOf(side, price, entries[..|entries| - 1]);
    }
  }

  /** What is known of the i-th order of a coherent level. */
  lemma OrderRecorded(s: Store, side: Side, price: I64, i: nat)
    requires LevelCoherent(s, side, price) && i < |s.Levels(side)[price].orders|
    ensures var o, e := QueuesOf(s, side)[price][i], s.Levels(side)[price].orders[i];
      && o == Order(e.orderId, side, price, e.timestamp, e.quantity)
      && Recorded(s, o) && s.lookup[o.id].listNode == e.node && o.quantity > 0
  {
    assert EntryFiled(s, side, price, s.Levels(side)[price].orders[i]);
  }

  lemma QueuesFit(s: Store, side: Side)
    requires SideCoherent(s, side)
    ensures Assembly.Queues(side, QueuesOf(s, side))
  {
    hide LevelCoherent, Recorded;
    var m: map<I64, seq<Order>> := QueuesOf(s, side);
    forall p: I64, i: int, p': I64, i': int |
      p in m && p' in m && 0 <= i < |m[p]| && 0 <= i' < |m[p']| && m[p][i].id == m[p'][i'].id
      ensures p == p' && i == i'
    {
      OrderRecorded(s, side, p, i);
      OrderRecorded(s, side, p', i');
      SameRecord(s, m[p][i], m[p'][i']);
      DistinctLevel(s, side, p);
    }
  }

  lemma SameRecord(s: Store, o: Order, o': Order)
    requires Recorded(s, o) && Recorded(s, o')
    ensures o.id == o'.id ==> o == o'
  {
  }

  lemma DistinctLevel(s: Store, side: Side, price: I64)
    requires LevelCoherent(s, side, price)
    ensures DistinctIds(s.Levels(side)[price].orders)
  {
  }

  lemma AssembledLevel(s: Store, live: seq<Order>, side: Side, price: I64)
    requires SideCoherent(s, side) && Queue(live, side, price) == Assembly.QueueOf(QueuesOf(s, side), price)
    ensures LevelOk(s, live, side, price)
  {
    hide Wrap, Queue, Sum, EntrySum;
    if price in s.Levels(side) {
      var entries := s.Levels(side)[price].orders;
      OrdersSum(side, price, entries);
      forall i | 0 <= i < |entries| ensures Entries(s.lookup, OrdersOf(side, price, entries))[i] == entries[i] {
        OrderRecorded(s, side, price, i);
      }
      assert Entries(s.lookup, OrdersOf(side, price, entries)) == entries;
    }
  }

  lemma AssembledOrder(s: Store, o: Order)
    requires SideCoherent(s, o.side) && o in Assembly.QueueOf(QueuesOf(s, o.side), o.price)
    ensures Recorded(s, o) && o.quantity > 0
  {
    var q := QueuesOf(s, o.side)[o.price];
    var i :| 0 <= i < |q| && q[i] == o;
    OrderRecorded(s, o.side, o.price, i);
  }

  /** Every coherent state is the state of a ledger. */
  lemma CoherentIsRepresented(s: Store) returns (live: seq<Order>)
    requires Coherent(s)
    ensures Represents(s, live)
  {
    hide LevelCoherent, Recorded, QueuesOf, LevelOk, Listed, Queue;
    QueuesFit(s, Buy);
    QueuesFit(s, Sell);
    var bids, asks := QueuesOf(s, Buy), QueuesOf(s, Sell);
    SidesApart(s);
    live := Assembly.Join(bids, asks);
    assert forall side :: QueuesOf(s, side) == if side.Buy? then bids else asks;
    forall side, price ensures LevelOk(s, live, side, price) {
      AssembledLevel(s, live, side, price);
    }
    forall o | o in live ensures Recorded(s, o) && o.quantity > 0 {
      AssembledOrder(s, o);
    }
    forall i | 0 <= i < |live| ensures live[i].quantity > 0 {
      assert live[i] in live;
    }
    forall id | id in s.lookup ensures HasId(live, id) {
      ListedLives(s, live, id);
    }
  }

  lemma SidesApart(s: Store)
    requires SideCoherent(s, Buy) && SideCoherent(s, Sell)
    ensures var bids, asks := QueuesOf(s, Buy), QueuesOf(s, Sell);
      forall p, i, p', i' :: p in bids && p' in asks && 0 <= i < |bids[p]| && 0 <= i' < |asks[p']| ==>
        bids[p][i].id != asks[p'][i'].id
  {
    hide LevelCoherent, Recorded;
    var bids: map<I64, seq<Order>>, asks: map<I64, seq<Order>> := QueuesOf(s, Buy), QueuesOf(s, Sell);
    forall p: I64, i: int, p': I64, i': int | p in bids && p' in asks && 0 <= i < |bids[p]| && 0 <= i' < |asks[p']|
      ensures bids[p][i].id != asks[p'][i'].id
    {
      OrderRecorded(s, Buy, p, i);
      OrderRecorded(s, Sell, p', i');
      SameRecord(s, bids[p][i], asks[p'][i']);
    }
  }

  lemma ListedLives(s: Store, live: seq<Order>, id: U64)
    requires id in s.lookup && Listed(s, id)
    requires forall side, price :: Queue(live, side, price) == Assembly.QueueOf(QueuesOf(s, side), price)
    ensures HasId(live, id)
  {
    hide Queue;
    var r := s.lookup[id];
    var entries := s.Levels(r.side)[r.price].orders;
    var e :| e in entries && e.orderId == id;
    var i :| 0 <= i < |entries| && entries[i] == e;
    var q := Queue(live, r.side, r.price);
    assert q == OrdersOf(r.side, r.price, entries) && q[i].id == id && q[i] in q;
    QueueMembers(live, r.side, r.price);
    var j :| 0 <= j < |live| && live[j] == q[i];
  }

  /** What the checker decides: a state is coherent exactly when it is the state of some ledger. */
  lemma CoherentExactly(s: Store)
    ensures Coherent(s) <==> exists live :: Represents(s, live)
  {
    hide Coherent, Represents;
    if Coherent(s) {
      var live := CoherentIsRepresented(s);
    }
    forall live | Represents(s, live) ensures Coherent(s) {
      RepresentedIsCoherent(s, live);
    }
  }
}
