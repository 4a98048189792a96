/** What a book shows, stated over the ledger: prices from best to worst, the level at a price, the
    top of the book, depth and the full snapshot. */
module Views {
  import opened Types
  import opened Ledger

  /** Bids are ordered from the highest price down, asks from the lowest price up. */
  predicate Better(side: Side, a: I64, b: I64) {
    if side.Buy? then a > b else a < b
  }

  ghost predicate IsBest(side: Side, prices: set<I64>, best: I64) {
    best in prices && forall p :: p in prices && p != best ==> Better(side, best, p)
  }

  lemma BestExists(side: Side, prices: set<I64>)
    requires prices != {}
    ensures exists best :: IsBest(side, prices, best)
  {
    var p :| p in prices;
    if prices == {p} {
      assert IsBest(side, prices, p);
    } else {
      BestExists(side, prices - {p});
      var q :| IsBest(side, prices - {p}, q);
      var best := if Better(side, p, q) then p else q;
      forall r | r in prices && r != best ensures Better(side, best, r) {
        assert r == p || r in prices - {p};
      }
      assert IsBest(side, prices, best);
    }
  }

  /** The first key of an ordered map with these keys. */
  function Best(side: Side, prices: set<I64>): (best: I64)
    requires prices != {}
    ensures IsBest(side, prices, best)
  {
    BestExists(side, prices);
    var best :| best in prices && forall p :: p in prices && p != best ==> Better(side, best, p);
    best
  }

  /** The iteration order of an ordered map with these keys. */
  function PriceOrder(side: Side, prices: set<I64>): (order: seq<I64>)
    ensures forall p :: p in order <==> p in prices
    ensures forall i, j :: 0 <= i < j < |order| ==> Better(side, order[i], order[j])
    ensures |order| == |prices|
  {
    if prices == {} then []
    else
      var best := Best(side, prices);
      [best] + PriceOrder(side, prices - {best})
  }

  /** The iteration order is the only strictly ordered listing of the keys. */
  lemma {:induction false} PriceOrderUnique(side: Side, prices: set<I64>, order: seq<I64>)
    requires forall p :: p in order <==> p in prices
    requires forall i, j :: 0 <= i < j < |order| ==> Better(side, order[i], order[j])
    ensures order == PriceOrder(side, prices)
  {
    assert order == [] || order[0] in order;
    if prices != {} {
      FirstIsBest(side, prices, order);
      RestIs(side, prices, order);
      PriceOrderUnique(side, prices - {order[0]}, order[1..]);
    }
  }

  lemma FirstIsBest(side: Side, prices: set<I64>, order: seq<I64>)
    requires prices != {} && forall p :: p in order <==> p in prices
    requires forall i, j :: 0 <= i < j < |order| ==> Better(side, order[i], order[j])
    ensures order != [] && order[0] == Best(side, prices)
  {
    var best := Best(side, prices);
    assert best in order && order[0] in prices;
  }

  lemma RestIs(side: Side, prices: set<I64>, order: seq<I64>)
    requires order != [] && forall p :: p in order <==> p in prices
    requires forall i, j :: 0 <= i < j < |order| ==> Better(side, order[i], order[j])
    ensures forall p :: p in order[1..] <==> p in prices - {order[0]}
  {
    assert order == [order[0]] + order[1..];
  }

  function Prices(live: seq<Order>, side: Side): set<I64> {
    set o | o in live && o.side == side :: o.price
  }

  function ViewOf(live: seq<Order>, side: Side, price: I64): PriceLevelView {
    var q := Queue(live, side, price);
    PriceLevelView(price, Wrap(Sum(q)), |q|)
  }

  function OrderViews(q: seq<Order>): (views: seq<OrderView>)
    ensures |views| == |q|
  {
    seq(|q|, i requires 0 <= i < |q| => OrderView(q[i].id, q[i].timestamp, q[i].quantity))
  }

  function LevelSnapshot(live: seq<Order>, side: Side, price: I64): PriceLevelSnapshot {
    var q := Queue(live, side, price);
    PriceLevelSnapshot(price, Wrap(Sum(q)), OrderViews(q))
  }

  function BestView(live: seq<Order>, side: Side): Option<PriceLevelView> {
    var prices := Prices(live, side);
    if prices == {} then None else Some(ViewOf(live, side, Best(side, prices)))
  }

  function Top(live: seq<Order>): TopOfBook {
    TopOfBook(BestView(live, Buy), BestView(live, Sell))
  }

  function SideDepth(live: seq<Order>, side: Side, levels: nat): seq<PriceLevelView> {
    var order := PriceOrder(side, Prices(live, side));
    var n := if levels < |order| then levels else |order|;
    seq(n, i requires 0 <= i < n => ViewOf(live, side, order[i]))
  }

  function Depth(live: seq<Order>, levels: nat): BookDepth {
    BookDepth(SideDepth(live, Buy, levels), SideDepth(live, Sell, levels))
  }

  function SideSnapshot(live: seq<Order>, side: Side): seq<PriceLevelSnapshot> {
    var order := PriceOrder(side, Prices(live, side));
    seq(|order|, i requires 0 <= i < |order| => LevelSnapshot(live, side, order[i]))
  }

  function Snapshot(live: seq<Order>): BookSnapshot {
    BookSnapshot(SideSnapshot(live, Buy), SideSnapshot(live, Sell))
  }

  /** The best bid is strictly above the best ask. */
  predicate CrossedPrices(bids: set<I64>, asks: set<I64>) {
    bids != {} && asks != {} && Best(Buy, bids) > Best(Sell, asks)
  }

  predicate Crossed(live: seq<Order>) {
    CrossedPrices(Prices(live, Buy), Prices(live, Sell))
  }

  /** A book is crossed exactly when some resting buy is priced above some resting sell. */
  lemma CrossedByOrders(live: seq<Order>)
    ensures Crossed(live) <==>
      exists b, a :: b in live && a in live && b.side.Buy? && a.side.Sell? && b.price > a.price
  {
    var bids, asks := Prices(live, Buy), Prices(live, Sell);
    if Crossed(live) {
      var b :| b in live && b.side == Buy && b.price == Best(Buy, bids);
      var a :| a in live && a.side == Sell && a.price == Best(Sell, asks);
      assert b.price > a.price;
    }
    if b, a :| b in live && a in live && b.side.Buy? && a.side.Sell? && b.price > a.price {
      assert b.price in bids && a.price in asks;
    }
  }

  /** A price carries a level exactly when its queue is non-empty. */
  lemma PriceHasQueue(live: seq<Order>, side: Side, price: I64)
    ensures price in Prices(live, side) <==> Queue(live, side, price) != []
  {
    QueueMembers(live, side, price);
    if Queue(live, side, price) != [] {
      assert Queue(live, side, price)[0] in live;
    }
  }
}
