/** What top, depth and snapshot show, said of the live orders alone. */
module Shown {
  import opened Types
  import opened Ledger
  import Views

  // ----- the orders resting at a price -----

  /** The positions, in order of acceptance, of exactly the live orders at this side and price. */
  ghost predicate Picks(live: seq<Order>, side: Side, price: I64, idx: seq<nat>) {
    && (forall k :: 0 <= k < |idx| ==> idx[k] < |live| && live[idx[k]].side == side && live[idx[k]].price == price)
    && (forall k, l :: 0 <= k < l < |idx| ==> idx[k] < idx[l])
    && (forall i :: 0 <= i < |live| && live[i].side == side && live[i].price == price ==> i in idx)
  }

  /** The quantity resting on one side at these prices. */
  function Resting(live: seq<Order>, side: Side, prices: set<I64>): nat {
    if live == [] then 0
    else
      var o := live[|live| - 1];
      Resting(live[..|live| - 1], side, prices) + if o.side == side && o.price in prices then o.quantity else 0
  }

  ghost function Positions(live: seq<Order>, side: Side, price: I64): (idx: seq<nat>)
    ensures Picks(live, side, price, idx)
  {
    if live == [] then []
    else
      var n := |live| - 1;
      assert forall i :: 0 <= i < n ==> live[..n][i] == live[i];
      Positions(live[..n], side, price) + if live[n].side == side && live[n].price == price then [n] else []
  }

  /** A queue is the live orders at its side and price in order of acceptance. */
  lemma {:induction false} QueuePicks(live: seq<Order>, side: Side, price: I64) returns (idx: seq<nat>)
    ensures Picks(live, side, price, idx) && idx == Positions(live, side, price)
    ensures |idx| == |Queue(live, side, price)|
    ensures forall k :: 0 <= k < |idx| ==> Queue(live, side, price)[k] == live[idx[k]]
  {
    idx := Positions(live, side, price);
    if live != [] {
      var before := QueuePicks(live[..|live| - 1], side, price);
    }
  }

  lemma {:induction false} NothingRests(live: seq<Order>, side: Side)
    ensures Resting(live, side, {}) == 0
  {
    if live != [] {
      NothingRests(live[..|live| - 1], side);
    }
  }

  lemma {:induction false} OnePriceMore(live: seq<Order>, side: Side, prices: set<I64>, price: I64)
    requires price !in prices
    ensures Resting(live, side, prices + {price}) == Resting(live, side, prices) + Sum(Queue(live, side, price))
  {
    if live != [] {
      var init, o := live[..|live| - 1], live[|live| - 1];
      OnePriceMore(init, side, prices, price);
      if o.side == side && o.price == price {
        SumAppend(Queue(init, side, price), o);
      } else {
        assert Queue(init, side, price) + [] == Queue(init, side, price);
      }
    }
  }

  lemma QueueTotal(live: seq<Order>, side: Side, price: I64)
    ensures Sum(Queue(live, side, price)) == Resting(live, side, {price})
  {
    NothingRests(live, side);
    OnePriceMore(live, side, {}, price);
    assert {} + {price} == {price};
  }

  // ----- single levels -----

  /** The view of a price: the quantity resting there modulo 2^64 and the number of orders. */
  ghost predicate ShowsPrice(view: PriceLevelView, live: seq<Order>, side: Side) {
    && view.quantity == Wrap(Resting(live, side, {view.price}))
    && exists idx :: Picks(live, side, view.price, idx) && |idx| == view.orderCount
  }

  /** The orders resting at a price, in order of acceptance, and their quantity modulo 2^64. */
  ghost predicate ShowsLevel(level: PriceLevelSnapshot, live: seq<Order>, side: Side) {
    && level.quantity == Wrap(Resting(live, side, {level.price}))
    && exists idx :: Picks(live, side, level.price, idx) && |idx| == |level.orders|
         && forall k :: 0 <= k < |idx| ==>
              level.orders[k] == OrderView(live[idx[k]].id, live[idx[k]].timestamp, live[idx[k]].quantity)
  }

  lemma ViewShows(live: seq<Order>, side: Side, price: I64)
    ensures Views.ViewOf(live, side, price).price == price
    ensures ShowsPrice(Views.ViewOf(live, side, price), live, side)
  {
    hide Queue, Resting, Sum, Wrap, Picks;
    var idx := QueuePicks(live, side, price);
    QueueTotal(live, side, price);
  }

  lemma LevelShows(live: seq<Order>, side: Side, price: I64)
    ensures Views.LevelSnapshot(live, side, price).price == price
    ensures ShowsLevel(Views.LevelSnapshot(live, side, price), live, side)
  {
    hide Queue, Resting, Sum, Wrap, Picks;
    var idx := QueuePicks(live, side, price);
    QueueTotal(live, side, price);
  }

  // ----- prices -----

  /** Bids go from the highest price down, asks from the lowest up. */
  ghost predicate BestFirst(side: Side, prices: seq<I64>) {
    forall i, j :: 0 <= i < j < |prices| ==> if side.Buy? then prices[i] > prices[j] else prices[i] < prices[j]
  }

  function PricesOf(live: seq<Order>, side: Side): set<I64> {
    set o | o in live && o.side == side :: o.price
  }

  /** The best prices of a side, as many as asked for or as there are. */
  ghost predicate BestPrices(live: seq<Order>, side: Side, levels: nat, best: set<I64>) {
    var all := PricesOf(live, side);
    && best <= all && |best| == (if levels < |all| then levels else |all|)
    && forall p, r :: p in best && r in all && r !in best ==> if side.Buy? then p > r else p < r
  }

  /** There is only one such set. */
  lemma BestPricesUnique(live: seq<Order>, side: Side, levels: nat, a: set<I64>, b: set<I64>)
    requires BestPrices(live, side, levels, a) && BestPrices(live, side, levels, b)
    ensures a == b
  {
    assert a <= b || b <= a;
    if a <= b {
      SubsetSize(a, b);
    } else {
      SubsetSize(b, a);
    }
  }

  // ----- snapshot -----

  /** One side of a snapshot: exactly the prices that carry an order, best first, each with its orders. */
  ghost predicate ShowsSide(levels: seq<PriceLevelSnapshot>, live: seq<Order>, side: Side) {
    && BestFirst(side, seq(|levels|, i requires 0 <= i < |levels| => levels[i].price))
    && (forall i :: 0 <= i < |levels| ==> levels[i].price in PricesOf(live, side) && ShowsLevel(levels[i], live, side))
    && (forall price :: price in PricesOf(live, side) ==> exists i :: 0 <= i < |levels| && levels[i].price == price)
  }

  lemma SideSnapshotShows(live: seq<Order>, side: Side)
    ensures ShowsSide(Views.SideSnapshot(live, side), live, side)
  {
    hide ShowsLevel, Views.LevelSnapshot, Views.PriceOrder;
    var order := Views.PriceOrder(side, Views.Prices(live, side));
    var levels := Views.SideSnapshot(live, side);
    forall i | 0 <= i < |levels|
      ensures levels[i].price == order[i] && order[i] in PricesOf(live, side) && ShowsLevel(levels[i], live, side)
    {
      LevelShows(live, side, order[i]);
    }
    forall price | price in PricesOf(live, side) ensures exists i :: 0 <= i < |levels| && levels[i].price == price {
      assert price in order;
      var i :| 0 <= i < |order| && order[i] == price;
      assert levels[i].price == price;
    }
  }

  /** The snapshot of a book shows its resting buys as bids and its resting sells as asks. */
  lemma SnapshotShows(live: seq<Order>)
    ensures ShowsSide(Views.Snapshot(live).bids, live, Buy) && ShowsSide(Views.Snapshot(live).asks, live, Sell)
  {
    SideSnapshotShows(live, Buy);
    SideSnapshotShows(live, Sell);
  }

  // ----- depth -----

  function PricesShown(views: seq<PriceLevelView>): set<I64> {
    set v | v in views :: v.price
  }

  /** One side of a depth view: exactly the best prices, best first, each with quantity and order count. */
  ghost predicate ShowsDepth(views: seq<PriceLevelView>, live: seq<Order>, side: Side, levels: nat) {
    && BestFirst(side, seq(|views|, i requires 0 <= i < |views| => views[i].price))
    && BestPrices(live, side, levels, PricesShown(views))
    && forall i :: 0 <= i < |views| ==> ShowsPrice(views[i], live, side)
  }

  function Members(prices: seq<I64>): set<I64> {
    set p | p in prices
  }

  lemma {:induction false} DistinctMembers(prices: seq<I64>)
    requires forall i, j :: 0 <= i < j < |prices| ==> prices[i] != prices[j]
    ensures |Members(prices)| == |prices|
  {
    if prices != [] {
      var init, last := prices[..|prices| - 1], prices[|prices| - 1];
      assert forall i :: 0 <= i < |init| ==> init[i] == prices[i];
      DistinctMembers(init);
      assert prices == init + [last] && last !in Members(init);
      assert Members(prices) == Members(init) + {last};
    }
  }

  lemma SideDepthShows(live: seq<Order>, side: Side, levels: nat)
    ensures ShowsDepth(Views.SideDepth(live, side, levels), live, side, levels)
  {
    hide ShowsPrice, Views.ViewOf, Views.PriceOrder;
    var all := Views.Prices(live, side);
    var order := Views.PriceOrder(side, all);
    var views := Views.SideDepth(live, side, levels);
    assert all == PricesOf(live, side);
    forall i | 0 <= i < |views| ensures views[i].price == order[i] && ShowsPrice(views[i], live, side) {
      ViewShows(live, side, order[i]);
    }
    FirstAreBest(live, side, levels, order[..|views|], order);
    SamePrices(views, order[..|views|]);
  }

  lemma SamePrices(views: seq<PriceLevelView>, prices: seq<I64>)
    requires |views| == |prices| && forall i :: 0 <= i < |views| ==> views[i].price == prices[i]
    ensures PricesShown(views) == Members(prices)
  {
    forall p | p in prices ensures p in PricesShown(views) {
      var i :| 0 <= i < |prices| && prices[i] == p;
      assert views[i] in views;
    }
  }

  lemma FirstAreBest(live: seq<Order>, side: Side, levels: nat, first: seq<I64>, order: seq<I64>)
    requires BestFirst(side, order) && forall p :: p in order <==> p in PricesOf(live, side)
    requires |order| == |PricesOf(live, side)| && first <= order
    requires |first| == if levels < |order| then levels else |order|
    ensures BestPrices(live, side, levels, Members(first))
  {
    hide PricesOf;
    var best := Members(first);
    assert forall i :: 0 <= i < |first| ==> first[i] == order[i];
    DistinctMembers(first);
    assert best <= PricesOf(live, side);
    assert forall k :: 0 <= k < |first| ==> order[k] in best;
    forall p, r | p in best && r in PricesOf(live, side) && r !in best
      ensures if side.Buy? then p > r else p < r
    {
      var i :| 0 <= i < |first| && first[i] == p;
      var j :| 0 <= j < |order| && order[j] == r;
      assert order[i] == p;
    }
  }

  /** A depth view shows each side's best levels, as many as asked for or as there are. */
  lemma DepthShows(live: seq<Order>, levels: nat)
    ensures ShowsDepth(Views.Depth(live, levels).bids, live, Buy, levels)
    ensures ShowsDepth(Views.Depth(live, levels).asks, live, Sell, levels)
  {
    SideDepthShows(live, Buy, levels);
    SideDepthShows(live, Sell, levels);
  }

  // ----- top -----

  /** The best level of a side, when it carries an order at all. */
  ghost predicate ShowsBest(best: Option<PriceLevelView>, live: seq<Order>, side: Side) {
    match best
    case None => forall o :: o in live ==> o.side != side
    case Some(view) =>
      && (exists o :: o in live && o.side == side && o.price == view.price)
      && (forall o :: o in live && o.side == side ==>
            if side.Buy? then o.price <= view.price else o.price >= view.price)
      && ShowsPrice(view, live, side)
  }

  lemma SideBestShows(live: seq<Order>, side: Side)
    ensures ShowsBest(Views.BestView(live, side), live, side)
  {
    hide ShowsPrice, Views.ViewOf;
    var prices := Views.Prices(live, side);
    forall o | o in live && o.side == side ensures o.price in prices {
    }
    if prices != {} {
      ViewShows(live, side, Views.Best(side, prices));
    }
  }

  /** The top of a book shows its highest resting buy price and its lowest resting sell price. */
  lemma TopShows(live: seq<Order>)
    ensures ShowsBest(Views.Top(live).bid, live, Buy) && ShowsBest(Views.Top(live).ask, live, Sell)
  {
    SideBestShows(live, Buy);
    SideBestShows(live, Sell);
  }
}
