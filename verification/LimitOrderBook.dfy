/** The baseline book: per-price lists, two price maps and a lookup table of iterators. */
module LimitOrderBook {
  import opened Types
  import opened Ledger
  import opened BaselineShape
  import opened BaselineCoherence
  import Shown
  import Views

  class LimitOrderBook {
    var bidLevels: map<I64, PriceLevel>
    var askLevels: map<I64, PriceLevel>
    var orderLookup: map<U64, OrderRecord>
    var eventsApplied: U64
    /** Identities below this one have been handed to list nodes. */
    var nextNode: nat
    /** The live orders in the order in which they were accepted. */
    ghost var live: seq<Order>

    ghost function Memory(): Store
      reads this
    {
      Store(bidLevels, askLevels, orderLookup, nextNode)
    }

    ghost predicate Valid()
      reads this
    {
      Shape(Memory(), live)
    }

    ghost function Book(): State
      reads this
    {
      State(live, eventsApplied)
    }

    constructor ()
      ensures Valid() && Book() == EMPTY
    {
      bidLevels, askLevels, orderLookup := map[], map[], map[];
      eventsApplied, nextNode := 0, 0;
      live := [];
      new;
      EmptyShape(0);
    }

    function LiveOrderCount(): nat
      reads this
    {
      |orderLookup|
    }

    function FindLevel(side: Side, price: I64): Option<PriceLevel>
      reads this
    {
      if side.Buy? then
        if price in bidLevels then Some(bidLevels[price]) else None
      else
        if price in askLevels then Some(askLevels[price]) else None
    }

    /** Writes a level back, or erases it when its list is empty. */
    method StoreLevel(side: Side, price: I64, level: PriceLevel)
      modifies this`bidLevels, this`askLevels
      ensures Memory() == if level.orders == [] then DropLevel(old(Memory()), side, price)
                          else SetLevel(old(Memory()), side, price, level)
    {
      if side.Buy? {
        bidLevels := if level.orders == [] then bidLevels - {price} else bidLevels[price := level];
      } else {
        askLevels := if level.orders == [] then askLevels - {price} else askLevels[price := level];
      }
    }

    // ----- operations -----

    method AddOrder(orderId: U64, side: Side, price: I64, quantity: U64, timestamp: I64) returns (result: BookResult)
      requires Valid()
      modifies this
      ensures Valid()
      ensures (Book(), result)
           == Step(old(Book()), MarketEvent(Add, timestamp, orderId, side, price, quantity))
    {
      hide Shape, LookupOk, LevelOk;
      ghost var before := Memory();
      LookupMeansLive(before, live, orderId);
      if quantity == 0 {
        return InvalidQuantity;
      }
      if orderId in orderLookup {
        return DuplicateOrderId;
      }
      ghost var o := Order(orderId, side, price, timestamp, quantity);
      AddKeepsShape(before, live, o);
      var found := FindLevel(side, price);
      var level := if found.Some? then found.value else EMPTY_LEVEL;
      var listNode := nextNode;
      nextNode := nextNode + 1;
      level := PriceLevel(Wrap(level.totalQuantity + quantity),
                          level.orders + [OrderEntry(orderId, timestamp, quantity, listNode)]);
      StoreLevel(side, price, level);
      orderLookup := orderLookup[orderId := OrderRecord(side, price, timestamp, quantity, listNode)];
      eventsApplied := Wrap(eventsApplied + 1);
      live := live + [o];
      assert Memory() == Added(before, o);
      return Applied;
    }

    method RemoveExistingOrder(orderId: U64)
      requires Valid() && orderId in orderLookup
      modifies this
      ensures Valid() && live == Without(old(live), orderId) && eventsApplied == old(eventsApplied)
    {
      hide Shape, LookupOk, LevelOk;
      ghost var before := Memory();
      LookupMeansLive(before, live, orderId);
      ghost var o := OrderOf(live, orderId);
      RemoveKeepsShape(before, live, o);
      var record := orderLookup[orderId];
      var level := FindLevel(record.side, record.price).value;
      level := PriceLevel(Wrap(level.totalQuantity - record.quantity), Erase(level.orders, record.listNode));
      StoreLevel(record.side, record.price, level);
      orderLookup := orderLookup - {orderId};
      live := Without(live, orderId);
      assert Memory() == Removed(before, o);
    }

    method CancelOrder(orderId: U64) returns (result: BookResult)
      requires Valid()
      modifies this
      ensures Valid()
      ensures forall e: MarketEvent :: e.eventType.Cancel? && e.orderId == orderId ==>
        (Book(), result) == Step(old(Book()), e)
    {
      hide Shape;
      LookupMeansLive(Memory(), live, orderId);
      if orderId !in orderLookup {
        return MissingOrderId;
      }
      RemoveExistingOrder(orderId);
      eventsApplied := Wrap(eventsApplied + 1);
      return Applied;
    }

    /** Lowers the quantity of a live order in its list node, its record and its level's total. */
    method ReduceOrder(orderId: U64, quantity: U64)
      requires Valid() && orderId in orderLookup && 0 < quantity <= orderLookup[orderId].quantity
      modifies this
      ensures Valid() && live == WithQuantity(old(live), orderId, quantity) && eventsApplied == old(eventsApplied)
    {
      hide Shape, LookupOk, LevelOk;
      ghost var before := Memory();
      LookupMeansLive(before, live, orderId);
      ghost var o := OrderOf(live, orderId);
      ResizeKeepsShape(before, live, o, quantity);
      var record := orderLookup[orderId];
      var level := FindLevel(record.side, record.price).value;
      var reduction := record.quantity - quantity;
      StoreLevel(record.side, record.price,
                 PriceLevel(Wrap(level.totalQuantity - reduction), Assign(level.orders, record.listNode, quantity)));
      orderLookup := orderLookup[orderId := record.(quantity := quantity)];
      live := WithQuantity(live, orderId, quantity);
      assert Memory() == Resized(before, o, quantity);
    }

    method ModifyOrder(orderId: U64, newQuantity: U64) returns (result: BookResult)
      requires Valid()
      modifies this
      ensures Valid()
      ensures forall e: MarketEvent :: e.eventType.Modify? && e.orderId == orderId && e.quantity == newQuantity ==>
        (Book(), result) == Step(old(Book()), e)
    {
      hide Shape;
      LookupMeansLive(Memory(), live, orderId);
      if newQuantity == 0 {
        return InvalidQuantity;
      }
      if orderId !in orderLookup {
        return MissingOrderId;
      }
      var record := orderLookup[orderId];
      if newQuantity > record.quantity {
        return UnsupportedModify;
      }
      if newQuantity == record.quantity {
        ShapedLedger(Memory(), live);
        WithOwnQuantity(live, orderId);
        eventsApplied := Wrap(eventsApplied + 1);
        return Applied;
      }
      ReduceOrder(orderId, newQuantity);
      eventsApplied := Wrap(eventsApplied + 1);
      return Applied;
    }

    method ExecuteOrder(orderId: U64, executedQuantity: U64) returns (result: BookResult)
      requires Valid()
      modifies this
      ensures Valid()
      ensures forall e: MarketEvent ::
        e.eventType.Execute? && e.orderId == orderId && e.quantity == executedQuantity ==>
        (Book(), result) == Step(old(Book()), e)
    {
      hide Shape;
      LookupMeansLive(Memory(), live, orderId);
      if executedQuantity == 0 {
        return InvalidQuantity;
      }
      if orderId !in orderLookup {
        return MissingOrderId;
      }
      var record := orderLookup[orderId];
      if executedQuantity > record.quantity {
        return InsufficientQuantity;
      }
      if executedQuantity == record.quantity {
        RemoveExistingOrder(orderId);
        eventsApplied := Wrap(eventsApplied + 1);
        return Applied;
      }
      ReduceOrder(orderId, record.quantity - executedQuantity);
      eventsApplied := Wrap(eventsApplied + 1);
      return Applied;
    }

    method Apply(event: MarketEvent) returns (result: BookResult)
      requires Valid()
      modifies this
      ensures Valid()
      ensures (Book(), result) == Step(old(Book()), event)
    {
      match event.eventType
      case Add =>
        result := AddOrder(event.orderId, event.side, event.price, event.quantity, event.timestamp);
      case Modify =>
        result := ModifyOrder(event.orderId, event.quantity);
      case Cancel =>
        result := CancelOrder(event.orderId);
      case Execute =>
        result := ExecuteOrder(event.orderId, event.quantity);
    }

    method Clear()
      modifies this
      ensures Valid() && Book() == EMPTY
    {
      bidLevels, askLevels, orderLookup := map[], map[], map[];
      eventsApplied := 0;
      live := [];
      EmptyShape(nextNode);
    }

    // ----- queries -----

    function MakeView(price: I64, level: PriceLevel): PriceLevelView {
      PriceLevelView(price, level.totalQuantity, |level.orders|)
    }

    method TopOfBook() returns (top: Types.TopOfBook)
      ensures top.bid == if bidLevels.Keys == {} then None
                         else var price := Views.Best(Buy, bidLevels.Keys); Some(MakeView(price, bidLevels[price]))
      ensures top.ask == if askLevels.Keys == {} then None
                         else var price := Views.Best(Sell, askLevels.Keys); Some(MakeView(price, askLevels[price]))
      ensures Valid() ==> top == Views.Top(live)
      ensures Valid() ==> Shown.ShowsBest(top.bid, live, Buy) && Shown.ShowsBest(top.ask, live, Sell)
    {
      top := Types.TopOfBook(None, None);
      if bidLevels.Keys != {} {
        var price := Views.Best(Buy, bidLevels.Keys);
        top := top.(bid := Some(MakeView(price, bidLevels[price])));
      }
      if askLevels.Keys != {} {
        var price := Views.Best(Sell, askLevels.Keys);
        top := top.(ask := Some(MakeView(price, askLevels[price])));
      }
      if Valid() {
        hide Shape, LookupOk, LevelOk, Shown.ShowsBest;
        Shown.TopShows(live);
        LevelKeys(Memory(), live, Buy);
        LevelKeys(Memory(), live, Sell);
        if bidLevels.Keys != {} { LevelView(Memory(), live, Buy, Views.Best(Buy, bidLevels.Keys)); }
        if askLevels.Keys != {} { LevelView(Memory(), live, Sell, Views.Best(Sell, askLevels.Keys)); }
      }
    }

    method SideDepth(side: Side, levels: nat) returns (views: seq<PriceLevelView>)
      requires Valid()
      ensures views == Views.SideDepth(live, side, levels)
    {
      hide Shape, Queue, Sum, Wrap, Entries, Views.PriceOrder, Views.Prices;
      LevelKeys(Memory(), live, side);
      var book := if side.Buy? then bidLevels else askLevels;
      var order := Views.PriceOrder(side, book.Keys);
      views := [];
      var i := 0;
      while i < |order| && |views| < levels
        invariant 0 <= i <= |order| && i <= levels
        invariant |views| == i
        invariant forall j :: 0 <= j < i ==> views[j] == Views.ViewOf(live, side, order[j])
      {
        assert order[i] in order;
        LevelView(Memory(), live, side, order[i]);
        views := views + [MakeView(order[i], book[order[i]])];
        i := i + 1;
      }
    }

    method Depth(levels: nat) returns (depth: BookDepth)
      requires Valid()
      ensures depth == Views.Depth(live, levels)
      ensures Shown.ShowsDepth(depth.bids, live, Buy, levels) && Shown.ShowsDepth(depth.asks, live, Sell, levels)
    {
      hide Shape, Shown.ShowsDepth;
      Shown.DepthShows(live, levels);
      var bids := SideDepth(Buy, levels);
      var asks := SideDepth(Sell, levels);
      return BookDepth(bids, asks);
    }

    method SideSnapshot(side: Side) returns (levels: seq<PriceLevelSnapshot>)
      requires Valid()
      ensures levels == Views.SideSnapshot(live, side)
    {
      hide Shape, Queue, Sum, Wrap, Views.PriceOrder, Views.Prices;
      LevelKeys(Memory(), live, side);
      var book := if side.Buy? then bidLevels else askLevels;
      var order := Views.PriceOrder(side, book.Keys);
      levels := [];
      for i := 0 to |order|
        invariant |levels| == i
        invariant forall j :: 0 <= j < i ==> levels[j] == Views.LevelSnapshot(live, side, order[j])
      {
        assert order[i] in order;
        LevelView(Memory(), live, side, order[i]);
        var level := book[order[i]];
        var orders: seq<OrderView> := [];
        for k := 0 to |level.orders|
          invariant orders == Views.OrderViews(Queue(live, side, order[i]))[..k]
        {
          orders := orders + [OrderView(level.orders[k].orderId, level.orders[k].timestamp, level.orders[k].quantity)];
        }
        levels := levels + [PriceLevelSnapshot(order[i], level.totalQuantity, orders)];
      }
    }

    method Snapshot() returns (snapshot: BookSnapshot)
      requires Valid()
      ensures snapshot == Views.Snapshot(live)
      ensures Shown.ShowsSide(snapshot.bids, live, Buy) && Shown.ShowsSide(snapshot.asks, live, Sell)
    {
      hide Shape, Shown.ShowsSide;
      Shown.SnapshotShows(live);
      var bids := SideSnapshot(Buy);
      var asks := SideSnapshot(Sell);
      return BookSnapshot(bids, asks);
    }

    method OrderIdsAtPrice(side: Side, price: I64) returns (ids: seq<U64>)
      requires Valid()
      ensures |ids| == |Queue(live, side, price)|
      ensures forall i :: 0 <= i < |ids| ==> ids[i] == Queue(live, side, price)[i].id
    {
      hide Shape, Queue, Sum, Wrap;
      ids := [];
      var found := FindLevel(side, price);
      LevelView(Memory(), live, side, price);
      if found.None? {
        return;
      }
      for i := 0 to |found.value.orders|
        invariant |ids| == i
        invariant forall j :: 0 <= j < i ==> ids[j] == found.value.orders[j].orderId
      {
        ids := ids + [found.value.orders[i].orderId];
      }
    }

    // ----- the invariant checker, on any state whatever -----

    method ValidateLevel(side: Side, price: I64, level: PriceLevel, seen0: set<U64>) returns (ok: bool, seen: set<U64>)
      requires FindLevel(side, price) == Some(level)
      requires forall id :: id in seen0 ==>
        id in orderLookup && (orderLookup[id].side != side || orderLookup[id].price != price)
      ensures ok <==> LevelCoherent(Memory(), side, price)
      ensures ok ==> seen == seen0 + EntryIds(level.orders)
    {
      hide Wrap, EntrySum, EntryIds;
      seen := seen0;
      ghost var s := Memory();
      if level.orders == [] {
        return false, seen;
      }
      var totalQuantity: U64 := 0;
      var it := 0;
      EmptySum(level.orders);
      while it < |level.orders|
        invariant 0 <= it <= |level.orders|
        invariant totalQuantity == Wrap(EntrySum(level.orders[..it]))
        invariant forall k :: 0 <= k < it ==> EntryFiled(s, side, price, level.orders[k])
        invariant DistinctIds(level.orders[..it])
        invariant seen == seen0 + EntryIds(level.orders[..it])
      {
        var order := level.orders[it];
        assert order in level.orders;
        TakenIds(level.orders, it, order.orderId);
        if order.quantity == 0 {
          return false, seen;
        }
        if order.orderId in seen {
          return false, seen;
        }
        if order.orderId !in orderLookup {
          return false, seen;
        }
        var record := orderLookup[order.orderId];
        if record.side != side {
          return false, seen;
        }
        if record.price != price {
          return false, seen;
        }
        if record.quantity != order.quantity {
          return false, seen;
        }
        if record.timestamp != order.timestamp {
          return false, seen;
        }
        if record.listNode != order.node {
          return false, seen;
        }
        seen := seen + {order.orderId};
        SumTake(level.orders, it);
        WrapAdd(EntrySum(level.orders[..it]), order.quantity);
        totalQuantity := Wrap(totalQuantity + order.quantity);
        it := it + 1;
      }
      assert level.orders[..it] == level.orders;
      ok := totalQuantity == level.totalQuantity;
    }

    method ValidateSide(side: Side, seen0: set<U64>) returns (ok: bool, seen: set<U64>)
      requires forall id :: id in seen0 ==> id in orderLookup && orderLookup[id].side != side
      ensures ok <==> SideCoherent(Memory(), side)
      ensures ok ==> forall id :: id in seen <==>
        id in seen0 || (id in orderLookup && orderLookup[id].side == side && Listed(Memory(), id))
    {
      hide LevelCoherent, EntryIds, Views.PriceOrder;
      var levels := if side.Buy? then bidLevels else askLevels;
      var order := Views.PriceOrder(side, levels.Keys);
      ghost var s := Memory();
      seen := seen0;
      for i := 0 to |order|
        invariant forall k :: 0 <= k < i ==> LevelCoherent(s, side, order[k])
        invariant SeenSide(s, side, order[..i], seen0, seen)
      {
        assert order[i] in order && order[i] !in order[..i];
        assert order[..i + 1] == order[..i] + [order[i]];
        ok, seen := ValidateLevel(side, order[i], levels[order[i]], seen);
        if !ok {
          return;
        }
        forall id {
          LevelIds(s, side, order[i], id);
        }
      }
      assert order[..|order|] == order;
      ok := true;
    }

    /** The top agrees with the first entries of the two maps, on any state. */
    method ValidateTop() returns (ok: bool)
      ensures ok
    {
      hide Shape, Shown.ShowsBest, Views.Top;
      var top := TopOfBook();
      if (bidLevels.Keys == {}) != top.bid.None? {
        return false;
      }
      if (askLevels.Keys == {}) != top.ask.None? {
        return false;
      }
      if bidLevels.Keys != {} {
        var price := Views.Best(Buy, bidLevels.Keys);
        if top.bid.value != MakeView(price, bidLevels[price]) {
          return false;
        }
      }
      if askLevels.Keys != {} {
        var price := Views.Best(Sell, askLevels.Keys);
        if top.ask.value != MakeView(price, askLevels[price]) {
          return false;
        }
      }
      return true;
    }

    /** Levels, lists and records, on any state. */
    method ValidateRecords() returns (ok: bool)
      ensures ok <==> Coherent(Memory())
    {
      hide Listed, SideCoherent, Shape;
      ghost var s := Memory();
      var seen: set<U64>;
      ok, seen := ValidateSide(Buy, {});
      if !ok {
        return;
      }
      ok, seen := ValidateSide(Sell, seen);
      if !ok {
        return;
      }
      SubsetSize(seen, orderLookup.Keys);
      if |seen| != |orderLookup| {
        assert exists id :: id in orderLookup && id !in seen && !Listed(s, id);
        return false;
      }
      var remaining := orderLookup.Keys;
      while remaining != {}
        invariant remaining <= orderLookup.Keys && Coherent(s)
        decreases remaining
      {
        var id :| id in remaining;
        remaining := remaining - {id};
        if id !in seen {
          return false;
        }
        var record := orderLookup[id];
        ListedLevel(s, id);
        if FindLevel(record.side, record.price).None? {
          return false;
        }
      }
      return true;
    }

    method ValidateInvariants(allowCrossedBook: bool) returns (ok: bool)
      ensures ok <==>
        Coherent(Memory()) && (allowCrossedBook || !Views.CrossedPrices(bidLevels.Keys, askLevels.Keys))
      ensures Valid() ==> (ok <==> allowCrossedBook || !Views.Crossed(live))
    {
      hide Listed, SideCoherent, Shape, Coherent;
      if Valid() {
        ShapeIsCoherent(Memory(), live);
        LevelKeys(Memory(), live, Buy);
        LevelKeys(Memory(), live, Sell);
      }
      if !allowCrossedBook && bidLevels.Keys != {} && askLevels.Keys != {} {
        if Views.Best(Buy, bidLevels.Keys) > Views.Best(Sell, askLevels.Keys) {
          return false;
        }
      }
      var topOk := ValidateTop();
      if !topOk {
        return false;
      }
      ok := ValidateRecords();
    }
  }
}
