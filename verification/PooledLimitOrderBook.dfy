/** The pooled book: FIFO queues threaded through one preallocated node array, a LIFO free list, two
    price maps and a lookup table. */
module PooledLimitOrderBook {
  import opened Types
  import opened Ledger
  import opened PooledShape
  import opened PooledSteps
  import opened PooledCoherence
  import Shown
  import Views

  class PooledLimitOrderBook {
    const nodes: array<OrderNode>
    var freeIndices: seq<nat>
    var bidLevels: map<I64, PriceLevel>
    var askLevels: map<I64, PriceLevel>
    var orderLookup: map<U64, OrderRecord>
    var eventsApplied: U64
    /** The live orders in the order in which they were accepted. */
    ghost var live: seq<Order>

    ghost function Memory(): Store
      reads this, nodes
    {
      Store(nodes[..], freeIndices, bidLevels, askLevels, orderLookup)
    }

    ghost predicate Valid()
      reads this, nodes
    {
      Shape(Memory(), live)
    }

    ghost function Book(): State
      reads this
    {
      State(live, eventsApplied)
    }

    constructor (maxLiveOrders: nat)
      requires maxLiveOrders < NPOS
      ensures Valid() && fresh(nodes)
      ensures Capacity() == maxLiveOrders && Book() == EMPTY
    {
      nodes := new OrderNode[maxLiveOrders](_ => FREE_NODE);
      freeIndices := [];
      bidLevels, askLevels, orderLookup := map[], map[], map[];
      eventsApplied := 0;
      live := [];
      new;
      ResetFreeList();
      EmptyShape(Memory());
    }

    function Capacity(): nat {
      nodes.Length
    }

    function LiveOrderCount(): nat
      reads this
    {
      |orderLookup|
    }

    // ----- the pool -----

    method ResetFreeList()
      modifies this`freeIndices, nodes
      ensures freeIndices == seq(nodes.Length, i requires 0 <= i < nodes.Length => nodes.Length - 1 - i)
      ensures forall n :: 0 <= n < nodes.Length ==> nodes[n] == FREE_NODE
    {
      freeIndices := [];
      for n := 0 to nodes.Length
        invariant freeIndices == []
        invariant forall m :: 0 <= m < n ==> nodes[m] == FREE_NODE
      {
        nodes[n] := FREE_NODE;
      }
      var index := nodes.Length;
      while index > 0
        invariant 0 <= index <= nodes.Length
        invariant forall n :: 0 <= n < nodes.Length ==> nodes[n] == FREE_NODE
        invariant |freeIndices| == nodes.Length - index
        invariant forall i :: 0 <= i < |freeIndices| ==> freeIndices[i] == nodes.Length - 1 - i
      {
        freeIndices := freeIndices + [index - 1];
        index := index - 1;
      }
    }

    method AllocateNode() returns (index: Option<nat>)
      modifies this`freeIndices
      ensures index.None? <==> old(freeIndices) == []
      ensures index.None? ==> freeIndices == old(freeIndices)
      ensures index.Some? ==> old(freeIndices) == freeIndices + [index.value]
    {
      if freeIndices == [] {
        return None;
      }
      var last := freeIndices[|freeIndices| - 1];
      freeIndices := freeIndices[..|freeIndices| - 1];
      return Some(last);
    }

    method ReleaseNode(nodeIndex: nat)
      requires nodeIndex < nodes.Length
      modifies this`freeIndices, nodes
      ensures nodes[..] == old(nodes[..])[nodeIndex := FREE_NODE]
      ensures freeIndices == old(freeIndices) + [nodeIndex]
    {
      nodes[nodeIndex] := FREE_NODE;
      freeIndices := freeIndices + [nodeIndex];
    }

    method AppendNode(level: PriceLevel, nodeIndex: nat) returns (level': PriceLevel)
      requires nodeIndex < nodes.Length && (level.tail != NPOS ==> level.tail < nodes.Length)
      modifies nodes
      ensures nodes[..] == Linked(old(nodes[..]), level.tail, nodeIndex)
      ensures level' == LevelAppended(level, nodeIndex)
    {
      level' := level;
      nodes[nodeIndex] := nodes[nodeIndex].(prev := level.tail, next := NPOS);
      if level.tail != NPOS {
        nodes[level.tail] := nodes[level.tail].(next := nodeIndex);
      } else {
        level' := level'.(head := nodeIndex);
      }
      level' := level'.(tail := nodeIndex, orderCount := level'.orderCount + 1);
    }

    method UnlinkNode(level: PriceLevel, nodeIndex: nat) returns (level': PriceLevel)
      requires nodeIndex < nodes.Length && level.orderCount > 0
      requires nodes[nodeIndex].prev != NPOS ==> nodes[nodeIndex].prev < nodes.Length
      requires nodes[nodeIndex].next != NPOS ==> nodes[nodeIndex].next < nodes.Length
      modifies nodes
      ensures nodes[..] == Unlinked(old(nodes[..]), nodeIndex)
      ensures level' == LevelUnlinked(level, old(nodes[nodeIndex].prev), old(nodes[nodeIndex].next))
    {
      level' := level;
      var prev, next := nodes[nodeIndex].prev, nodes[nodeIndex].next;
      if prev != NPOS {
        nodes[prev] := nodes[prev].(next := next);
      } else {
        level' := level'.(head := next);
      }
      if next != NPOS {
        nodes[next] := nodes[next].(prev := prev);
      } else {
        level' := level'.(tail := prev);
      }
      level' := level'.(orderCount := level'.orderCount - 1);
    }

    // ----- levels -----

    function FindLevel(side: Side, price: I64): Option<PriceLevel>
      reads this
    {
      if side.Buy? then
        if price in bidLevels then Some(bidLevels[price]) else None
      else
        if price in askLevels then Some(askLevels[price]) else None
    }

    /** Writes a level back, or erases it when it has no orders left. */
    method StoreLevel(side: Side, price: I64, level: PriceLevel)
      modifies this`bidLevels, this`askLevels
      ensures Memory() == if level.orderCount == 0 then DropLevel(old(Memory()), side, price)
                          else SetLevel(old(Memory()), side, price, level)
    {
      if side.Buy? {
        bidLevels := if level.orderCount == 0 then bidLevels - {price} else bidLevels[price := level];
      } else {
        askLevels := if level.orderCount == 0 then askLevels - {price} else askLevels[price := level];
      }
    }

    // ----- operations -----

    /** The part of an add after a node was allocated: fills it, links it and files it. */
    method FileOrder(index: nat, orderId: U64, side: Side, price: I64, quantity: U64, timestamp: I64)
      requires Shape(Memory().(free := freeIndices + [index]), live)
      requires !HasId(live, orderId) && quantity > 0
      modifies this`bidLevels, this`askLevels, this`orderLookup, this`live, nodes
      ensures Valid()
      ensures live == old(live) + [Order(orderId, side, price, timestamp, quantity)]
    {
      hide Shape, Queue, Linked;
      ghost var before := Memory().(free := freeIndices + [index]);
      ghost var o := Order(orderId, side, price, timestamp, quantity);
      AddKeepsShape(before, live, o);
      var found := FindLevel(side, price);
      var level := if found.Some? then found.value else EMPTY_LEVEL;
      assert level == LevelAt(before, side, price);
      nodes[index] := nodes[index].(orderId := orderId, timestamp := timestamp, quantity := quantity, active := true);
      assert nodes[..] == before.nodes[index := OrderNode(orderId, timestamp, quantity,
                                                          before.nodes[index].prev, before.nodes[index].next, true)];
      level := AppendNode(level, index);
      level := level.(totalQuantity := Wrap(level.totalQuantity + quantity));
      StoreLevel(side, price, level);
      orderLookup := orderLookup[orderId := OrderRecord(side, price, timestamp, quantity, index)];
      live := live + [o];
      assert freeIndices == before.free[..|before.free| - 1];
      assert Memory() == Added(before, o);
    }

    method AddOrder(orderId: U64, side: Side, price: I64, quantity: U64, timestamp: I64) returns (result: BookResult)
      requires Valid()
      modifies this, nodes
      ensures Valid()
      ensures (Book(), result)
           == BoundedStep(old(Book()), Capacity(), MarketEvent(Add, timestamp, orderId, side, price, quantity))
    {
      hide Shape;
      PoolCount(Memory(), live);
      LookupMeansLive(Memory(), live, orderId);
      if quantity == 0 {
        return InvalidQuantity;
      }
      if orderId in orderLookup {
        return DuplicateOrderId;
      }
      ghost var before := Memory();
      var slot := AllocateNode();
      if slot.None? {
        return CapacityExceeded;
      }
      assert before == Memory().(free := freeIndices + [slot.value]);
      FileOrder(slot.value, orderId, side, price, quantity, timestamp);
      eventsApplied := Wrap(eventsApplied + 1);
      return Applied;
    }

    method RemoveExistingOrder(orderId: U64)
      requires Valid() && orderId in orderLookup
      modifies this, nodes
      ensures Valid() && live == Without(old(live), orderId) && eventsApplied == old(eventsApplied)
    {
      hide Shape;
      ghost var before := Memory();
      LookupMeansLive(before, live, orderId);
      ghost var o := OrderOf(live, orderId);
      RemoveKeepsShape(before, live, o);
      var record := orderLookup[orderId];
      var level := FindLevel(record.side, record.price).value;
      level := level.(totalQuantity := Wrap(level.totalQuantity - record.quantity));
      level := UnlinkNode(level, record.nodeIndex);
      ReleaseNode(record.nodeIndex);
      StoreLevel(record.side, record.price, level);
      orderLookup := orderLookup - {orderId};
      live := Without(live, orderId);
      assert Memory() == Removed(before, o);
    }

    method CancelOrder(orderId: U64) returns (result: BookResult)
      requires Valid()
      modifies this, nodes
      ensures Valid()
      ensures forall e: MarketEvent :: e.eventType.Cancel? && e.orderId == orderId ==>
        (Book(), result) == Step(old(Book()), e)
    {
      hide Shape;
      LookupMeansLive(Memory(), live, orderId);
      if orderId !in orderLookup {
        return MissingOrderId;
      }
      RemoveExistingOrder(orderId);
      eventsApplied := Wrap(eventsApplied + 1);
      return Applied;
    }

    /** Lowers the quantity of a live order in its node, its record and its level's total. */
    method ReduceOrder(orderId: U64, quantity: U64)
      requires Valid() && orderId in orderLookup && 0 < quantity <= orderLookup[orderId].quantity
      modifies this, nodes
      ensures Valid() && live == WithQuantity(old(live), orderId, quantity) && eventsApplied == old(eventsApplied)
    {
      hide Shape;
      ghost var before := Memory();
      LookupMeansLive(before, live, orderId);
      ghost var o := OrderOf(live, orderId);
      ResizeKeepsShape(before, live, o, quantity);
      var record := orderLookup[orderId];
      var level := FindLevel(record.side, record.price).value;
      var reduction := record.quantity - quantity;
      StoreLevel(record.side, record.price, level.(totalQuantity := Wrap(level.totalQuantity - reduction)));
      orderLookup := orderLookup[orderId := record.(quantity := quantity)];
      nodes[record.nodeIndex] := nodes[record.nodeIndex].(quantity := quantity);
      live := WithQuantity(live, orderId, quantity);
      assert Memory() == Resized(before, o, quantity);
    }

    method ModifyOrder(orderId: U64, newQuantity: U64) returns (result: BookResult)
      requires Valid()
      modifies this, nodes
      ensures Valid()
      ensures forall e: MarketEvent :: e.eventType.Modify? && e.orderId == orderId && e.quantity == newQuantity ==>
        (Book(), result) == Step(old(Book()), e)
    {
      hide Shape;
      LookupMeansLive(Memory(), live, orderId);
      if newQuantity == 0 {
        return InvalidQuantity;
      }
      if orderId !in orderLookup {
        return MissingOrderId;
      }
      var record := orderLookup[orderId];
      if newQuantity > record.quantity {
        return UnsupportedModify;
      }
      if newQuantity == record.quantity {
        ShapedLedger(Memory(), live);
        WithOwnQuantity(live, orderId);
        eventsApplied := Wrap(eventsApplied + 1);
        return Applied;
      }
      ReduceOrder(orderId, newQuantity);
      eventsApplied := Wrap(eventsApplied + 1);
      return Applied;
    }

    method ExecuteOrder(orderId: U64, executedQuantity: U64) returns (result: BookResult)
      requires Valid()
      modifies this, nodes
      ensures Valid()
      ensures forall e: MarketEvent ::
        e.eventType.Execute? && e.orderId == orderId && e.quantity == executedQuantity ==>
        (Book(), result) == Step(old(Book()), e)
    {
      hide Shape;
      LookupMeansLive(Memory(), live, orderId);
      if executedQuantity == 0 {
        return InvalidQuantity;
      }
      if orderId !in orderLookup {
        return MissingOrderId;
      }
      var record := orderLookup[orderId];
      if executedQuantity > record.quantity {
        return InsufficientQuantity;
      }
      if executedQuantity == record.quantity {
        RemoveExistingOrder(orderId);
        eventsApplied := Wrap(eventsApplied + 1);
        return Applied;
      }
      ReduceOrder(orderId, record.quantity - executedQuantity);
      eventsApplied := Wrap(eventsApplied + 1);
      return Applied;
    }

    method Apply(event: MarketEvent) returns (result: BookResult)
      requires Valid()
      modifies this, nodes
      ensures Valid()
      ensures (Book(), result) == BoundedStep(old(Book()), Capacity(), event)
    {
      match event.eventType
      case Add =>
        result := AddOrder(event.orderId, event.side, event.price, event.quantity, event.timestamp);
      case Modify =>
        result := ModifyOrder(event.orderId, event.quantity);
      case Cancel =>
        result := CancelOrder(event.orderId);
      case Execute =>
        result := ExecuteOrder(event.orderId, event.quantity);
    }

    method Clear()
      requires nodes.Length < NPOS
      modifies this, nodes
      ensures Valid() && Book() == EMPTY
    {
      bidLevels, askLevels, orderLookup := map[], map[], map[];
      eventsApplied := 0;
      ResetFreeList();
      live := [];
      EmptyShape(Memory());
    }

    // ----- queries -----

    function MakeView(price: I64, level: PriceLevel): PriceLevelView {
      PriceLevelView(price, level.totalQuantity, level.orderCount)
    }

    /** The first entry of an ordered price map. */
    function FirstView(side: Side): Option<PriceLevelView>
      reads this
    {
      var levels := if side.Buy? then bidLevels else askLevels;
      if levels.Keys == {} then None
      else
        var price := Views.Best(side, levels.Keys);
        Some(MakeView(price, levels[price]))
    }

    method TopOfBook() returns (top: Types.TopOfBook)
      ensures top == Types.TopOfBook(FirstView(Buy), FirstView(Sell))
      ensures Valid() ==> top == Views.Top(live)
      ensures Valid() ==> Shown.ShowsBest(top.bid, live, Buy) && Shown.ShowsBest(top.ask, live, Sell)
    {
      top := Types.TopOfBook(None, None);
      if bidLevels.Keys != {} {
        var price := Views.Best(Buy, bidLevels.Keys);
        top := top.(bid := Some(MakeView(price, bidLevels[price])));
      }
      if askLevels.Keys != {} {
        var price := Views.Best(Sell, askLevels.Keys);
        top := top.(ask := Some(MakeView(price, askLevels[price])));
      }
      if Valid() {
        hide Shown.ShowsBest;
        Shown.TopShows(live);
        FirstViews(Memory(), live);
      }
    }

    method SideDepth(side: Side, levels: nat) returns (views: seq<PriceLevelView>)
      requires Valid()
      ensures views == Views.SideDepth(live, side, levels)
    {
      hide Shape, Queue, Sum, Wrap, Chain, Threaded, Views.PriceOrder, Views.Prices;
      LevelKeys(Memory(), live, side);
      var book := if side.Buy? then bidLevels else askLevels;
      var order := Views.PriceOrder(side, book.Keys);
      views := [];
      var i := 0;
      while i < |order| && |views| < levels
        invariant 0 <= i <= |order| && i <= levels
        invariant |views| == i
        invariant forall j :: 0 <= j < i ==> views[j] == Views.ViewOf(live, side, order[j])
      {
        assert order[i] in order;
        LevelView(Memory(), live, side, order[i]);
        var level := book[order[i]];
        views := views + [MakeView(order[i], level)];
        i := i + 1;
      }
    }

    method Depth(levels: nat) returns (depth: BookDepth)
      requires Valid()
      ensures depth == Views.Depth(live, levels)
      ensures Shown.ShowsDepth(depth.bids, live, Buy, levels) && Shown.ShowsDepth(depth.asks, live, Sell, levels)
    {
      hide Shape, Shown.ShowsDepth;
      Shown.DepthShows(live, levels);
      var bids := SideDepth(Buy, levels);
      var asks := SideDepth(Sell, levels);
      return BookDepth(bids, asks);
    }

    /** Walks the links of one level from its head. */
    method WalkLevel(side: Side, price: I64, level: PriceLevel) returns (orders: seq<OrderView>)
      requires Valid() && FindLevel(side, price) == Some(level)
      ensures orders == Views.OrderViews(Queue(live, side, price))
    {
      hide Shape, Queue, Sum, Wrap, Chain;
      ghost var q := Queue(live, side, price);
      ghost var c := Chain(orderLookup, q);
      QueueFiled(Memory(), live, side, price);
      LevelView(Memory(), live, side, price);
      orders := [];
      var index := level.head;
      ghost var i := 0;
      while index != NPOS
        invariant 0 <= i <= |c| && index == Link(c, i)
        invariant |orders| == i
        invariant forall j :: 0 <= j < i ==> orders[j] == OrderView(q[j].id, q[j].timestamp, q[j].quantity)
        decreases |c| - i
      {
        assert ThreadedAt(nodes[..], c, i);
        var node := nodes[index];
        orders := orders + [OrderView(node.orderId, node.timestamp, node.quantity)];
        index := node.next;
        i := i + 1;
      }
    }

    method SideSnapshot(side: Side) returns (levels: seq<PriceLevelSnapshot>)
      requires Valid()
      ensures levels == Views.SideSnapshot(live, side)
    {
      hide Shape, Queue, Sum, Wrap, Chain, Threaded, Views.PriceOrder, Views.Prices, Views.OrderViews;
      LevelKeys(Memory(), live, side);
      var book := if side.Buy? then bidLevels else askLevels;
      var order := Views.PriceOrder(side, book.Keys);
      levels := [];
      for i := 0 to |order|
        invariant |levels| == i
        invariant forall j :: 0 <= j < i ==> levels[j] == Views.LevelSnapshot(live, side, order[j])
      {
        assert order[i] in order;
        LevelView(Memory(), live, side, order[i]);
        var level := book[order[i]];
        var orders := WalkLevel(side, order[i], level);
        levels := levels + [PriceLevelSnapshot(order[i], level.totalQuantity, orders)];
      }
    }

    method Snapshot() returns (snapshot: BookSnapshot)
      requires Valid()
      ensures snapshot == Views.Snapshot(live)
      ensures Shown.ShowsSide(snapshot.bids, live, Buy) && Shown.ShowsSide(snapshot.asks, live, Sell)
    {
      hide Shape, Shown.ShowsSide;
      Shown.SnapshotShows(live);
      var bids := SideSnapshot(Buy);
      var asks := SideSnapshot(Sell);
      return BookSnapshot(bids, asks);
    }

    method OrderIdsAtPrice(side: Side, price: I64) returns (ids: seq<U64>)
      requires Valid()
      ensures |ids| == |Queue(live, side, price)|
      ensures forall i :: 0 <= i < |ids| ==> ids[i] == Queue(live, side, price)[i].id
    {
      hide Shape, Sum, Wrap, Chain, Threaded;
      ids := [];
      var found := FindLevel(side, price);
      LevelKeys(Memory(), live, side);
      Views.PriceHasQueue(live, side, price);
      if found.None? {
        return;
      }
      var orders := WalkLevel(side, price, found.value);
      for i := 0 to |orders|
        invariant |ids| == i
        invariant forall j :: 0 <= j < i ==> ids[j] == orders[j].orderId
      {
        ids := ids + [orders[i].orderId];
      }
    }

    // ----- the invariant checker, on any memory whatever -----

    /** Walks one level, adding the ids it meets to those already seen. */
    method ValidateLevel(side: Side, price: I64, level: PriceLevel, seen0: set<U64>) returns (ok: bool, seen: set<U64>)
      requires nodes.Length < NPOS && FindLevel(side, price) == Some(level)
      requires forall id :: id in seen0 ==>
        id in orderLookup && (orderLookup[id].side != side || orderLookup[id].price != price)
      ensures ok <==> HasChain(Memory(), side, price)
      ensures ok ==> forall id :: id in seen <==>
        id in seen0 || (id in orderLookup && orderLookup[id].side == side && orderLookup[id].price == price
                        && OnChain(Memory(), id))
    {
      hide HasChain, OnChain, LevelChain, Path, IdsOf, NodeSum, Cursor, Wrap;
      seen := seen0;
      ghost var s := Memory();
      if HasChain(s, side, price) {
        ChainEnds(s, side, price);
      }
      if level.orderCount == 0 || level.head == NPOS || level.tail == NPOS {
        return false, seen;
      }
      var totalQuantity: U64 := 0;
      var visitedCount := 0;
      var previous: nat := NPOS;
      var index: nat := level.head;
      ghost var v: seq<nat> := [];
      WalkStart(s, side, price);
      while index != NPOS
        invariant Walking(s, side, price, v, index) && index == Cursor(s.nodes, level.head, v)
        invariant previous == Link(v, |v| - 1) && visitedCount == |v|
        invariant totalQuantity == Wrap(NodeSum(s.nodes, v))
        invariant seen == seen0 + IdsOf(s.nodes, v) && seen <= orderLookup.Keys
        decreases orderLookup.Keys - seen
      {
        MustPass(s, side, price, v, index, seen0);
        if index >= nodes.Length {
          return false, seen;
        }
        var node := nodes[index];
        if !node.active {
          return false, seen;
        }
        if node.prev != previous {
          return false, seen;
        }
        if node.quantity == 0 {
          return false, seen;
        }
        if node.orderId in seen {
          return false, seen;
        }
        if node.orderId !in orderLookup {
          return false, seen;
        }
        var record := orderLookup[node.orderId];
        if record.side != side {
          return false, seen;
        }
        if record.price != price {
          return false, seen;
        }
        if record.quantity != node.quantity {
          return false, seen;
        }
        if record.timestamp != node.timestamp {
          return false, seen;
        }
        if record.nodeIndex != index {
          return false, seen;
        }
        WalkOn(s, side, price, v, index);
        WalkAdds(s.nodes, v, index);
        WrapAdd(NodeSum(s.nodes, v), node.quantity);
        seen := seen + {node.orderId};
        totalQuantity := Wrap(totalQuantity + node.quantity);
        visitedCount := visitedCount + 1;
        previous := index;
        v := v + [index];
        index := node.next;
      }
      WalkEnded(s, side, price, v, seen0);
      if previous != level.tail {
        return false, seen;
      }
      ok := visitedCount == level.orderCount && totalQuantity == level.totalQuantity;
    }

    method ValidateSide(side: Side, seen0: set<U64>) returns (ok: bool, seen: set<U64>)
      requires nodes.Length < NPOS
      requires forall id :: id in seen0 ==> id in orderLookup && orderLookup[id].side != side
      ensures ok <==> SideCoherent(Memory(), side)
      ensures ok ==> forall id :: id in seen <==>
        id in seen0 || (id in orderLookup && orderLookup[id].side == side && OnChain(Memory(), id))
    {
      hide HasChain, OnChain, Views.PriceOrder;
      var levels := if side.Buy? then bidLevels else askLevels;
      var order := Views.PriceOrder(side, levels.Keys);
      ghost var s := Memory();
      OnChainLevel(s);
      seen := seen0;
      for i := 0 to |order|
        invariant forall k :: 0 <= k < i ==> HasChain(s, side, order[k])
        invariant SeenSide(s, side, order[..i], seen0, seen)
      {
        assert order[i] in order && order[i] !in order[..i];
        assert order[..i + 1] == order[..i] + [order[i]];
        ok, seen := ValidateLevel(side, order[i], levels[order[i]], seen);
        if !ok {
          return;
        }
      }
      assert order[..|order|] == order;
      ok := true;
    }

    /** The top agrees with the first entries of the two maps, on any state. */
    method ValidateTop() returns (ok: bool)
      ensures ok
    {
      hide Shape, Shown.ShowsBest, Views.Top;
      var top := TopOfBook();
      if (bidLevels.Keys == {}) != top.bid.None? {
        return false;
      }
      if (askLevels.Keys == {}) != top.ask.None? {
        return false;
      }
      if bidLevels.Keys != {} {
        var price := Views.Best(Buy, bidLevels.Keys);
        if top.bid.value != MakeView(price, bidLevels[price]) {
          return false;
        }
      }
      if askLevels.Keys != {} {
        var price := Views.Best(Sell, askLevels.Keys);
        if top.ask.value != MakeView(price, askLevels[price]) {
          return false;
        }
      }
      return true;
    }

    /** Levels, lists and records. */
    method ValidateRecords() returns (ok: bool)
      requires nodes.Length < NPOS
      ensures ok <==> Coherent(Memory())
    {
      hide HasChain, OnChain, Shape, SideCoherent;
      ghost var s := Memory();
      assert s.Levels(Buy) == bidLevels && s.Levels(Sell) == askLevels;
      var seen: set<U64>;
      ok, seen := ValidateSide(Buy, {});
      if !ok {
        return;
      }
      ok, seen := ValidateSide(Sell, seen);
      if !ok {
        return;
      }
      SubsetSize(seen, orderLookup.Keys);
      if |seen| != |orderLookup| {
        assert exists id :: id in orderLookup && id !in seen && !OnChain(s, id);
        return false;
      }
      var remaining := orderLookup.Keys;
      while remaining != {}
        invariant remaining <= orderLookup.Keys && Coherent(s)
        decreases remaining
      {
        var id :| id in remaining;
        remaining := remaining - {id};
        if id !in seen {
          return false;
        }
        var record := orderLookup[id];
        OnChainNode(s, id);
        if record.nodeIndex >= nodes.Length || !nodes[record.nodeIndex].active {
          return false;
        }
        if FindLevel(record.side, record.price).None? {
          return false;
        }
      }
      return true;
    }

    method ValidateInvariants(allowCrossedBook: bool) returns (ok: bool)
      requires nodes.Length < NPOS
      ensures ok <==> Coherent(Memory()) && (allowCrossedBook || !Views.CrossedPrices(bidLevels.Keys, askLevels.Keys))
      ensures Valid() ==> (ok <==> allowCrossedBook || !Views.Crossed(live))
    {
      hide HasChain, OnChain, Shape, SideCoherent, Coherent;
      if Valid() {
        ReachableVerdict(Memory(), live);
      }
      if !allowCrossedBook && bidLevels.Keys != {} && askLevels.Keys != {} {
        if Views.Best(Buy, bidLevels.Keys) > Views.Best(Sell, askLevels.Keys) {
          return false;
        }
      }
      var topOk := ValidateTop();
      if !topOk {
        return false;
      }
      ok := ValidateRecords();
    }
  }
}
