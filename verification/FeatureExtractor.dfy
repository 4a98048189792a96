/** The features of the anomaly monitor: rates and ratios over rolling windows, depths, spread, mid price
    and imbalance of a book. */
module FeatureExtractor {
  import opened Types
  import opened RollingWindow
  import opened Ledger
  import Views
  import EwmaDetector
  import opened Shown
  import Baseline = LimitOrderBook

  datatype Config = Config(topNLevels: nat, messageWindowNs: I64, cancelRatioWindowNs: I64, volatilityWindowNs: I64)

  datatype Features = Features(
    timestamp: I64,
    bidAskSpread: Option<int>,
    midPrice: Option<real>,
    topNBidDepth: U64,
    topNAskDepth: U64,
    imbalance: Option<real>,
    messageRate: real,
    cancelAddRatio: real,
    midPriceVolatility: Option<real>)

  // ----- what the features should be -----

  function Count(h: seq<Timed<EventType>>, kind: EventType): nat {
    if h == [] then 0 else Count(h[..|h| - 1], kind) + if h[|h| - 1].value == kind then 1 else 0
  }

  function SumQuantities(views: seq<PriceLevelView>): nat {
    if views == [] then 0 else SumQuantities(views[..|views| - 1]) + views[|views| - 1].quantity
  }

  function Ratio(cancels: nat, adds: nat): real {
    cancels as real / (if adds > 1 then adds else 1) as real
  }

  function Rate(count: nat, windowNs: I64): real {
    if windowNs > 0 then count as real / (windowNs as real / 1000000000.0) else 0.0
  }

  /** The imbalance as the code computes it: the sum of the two depths is a 64-bit sum. */
  function Imbalance(bid: U64, ask: U64): Option<real> {
    if Wrap(bid + ask) > 0 then Some((bid as real - ask as real) / Wrap(bid + ask) as real) else None
  }

  function Ones(n: nat): (w: seq<real>)
    ensures |w| == n
  {
    seq(n, i => 1.0)
  }

  function Values<T>(h: seq<Timed<T>>): (v: seq<T>)
    ensures |v| == |h|
  {
    seq(|h|, i requires 0 <= i < |h| => h[i].value)
  }

  function Mean(x: seq<real>): real
    requires x != []
  {
    EwmaDetector.WeightedSum(Ones(|x|), x) / |x| as real
  }

  /** Population variance. */
  function Variance(x: seq<real>): real
    requires x != []
  {
    EwmaDetector.Spread(Ones(|x|), x, Mean(x)) / |x| as real
  }

  function MidOf(top: TopOfBook): Option<real> {
    if top.bid.Some? && top.ask.Some?
    then Some((top.bid.value.price as real + top.ask.value.price as real) / 2.0) else None
  }

  function SpreadOf(top: TopOfBook): Option<int> {
    if top.bid.Some? && top.ask.Some? then Some(top.ask.value.price - top.bid.value.price) else None
  }

  function RatioOf(window: seq<Timed<EventType>>): real {
    Ratio(Count(window, Cancel), Count(window, Add))
  }

  function VolatilityOf(sqrt: real -> real, window: seq<Timed<real>>): Option<real> {
    if |window| < 2 then None else Some(sqrt(Variance(Values(window))))
  }

  // ----- folds over a window -----

  method SumDepth(views: seq<PriceLevelView>) returns (total: U64)
    ensures total == Wrap(SumQuantities(views))
  {
    total := 0;
    for i := 0 to |views|
      invariant total == Wrap(SumQuantities(views[..i]))
    {
      assert views[..i + 1][..i] == views[..i];
      WrapAdd(SumQuantities(views[..i]), views[i].quantity);
      total := Wrap(total + views[i].quantity);
    }
    assert views[..|views|] == views;
  }

  method CancelAddRatio(window: seq<Timed<EventType>>) returns (ratio: real)
    ensures ratio == RatioOf(window)
  {
    var cancels, adds := 0, 0;
    for i := 0 to |window|
      invariant cancels == Count(window[..i], Cancel) && adds == Count(window[..i], Add)
    {
      assert window[..i + 1][..i] == window[..i];
      if window[i].value == Cancel {
        cancels := cancels + 1;
      } else if window[i].value == Add {
        adds := adds + 1;
      }
    }
    assert window[..|window|] == window;
    ratio := Ratio(cancels, adds);
  }

  method MidVolatility(sqrt: real -> real, window: seq<Timed<real>>) returns (volatility: Option<real>)
    ensures volatility == VolatilityOf(sqrt, window)
  {
    hide EwmaDetector.Product, EwmaDetector.WeightedSum, EwmaDetector.Spread;
    if |window| < 2 {
      return None;
    }
    ghost var x := Values(window);
    var sum := 0.0;
    NothingSummed(x);
    for i := 0 to |window|
      invariant sum == EwmaDetector.WeightedSum(Ones(i), x[..i])
    {
      OneMore(x, i, 0.0);
      sum := sum + window[i].value;
    }
    assert x[..|x|] == x;
    var mean := sum / |window| as real;
    var total := 0.0;
    for i := 0 to |window|
      invariant total == EwmaDetector.Spread(Ones(i), x[..i], mean)
    {
      OneMore(x, i, mean);
      var delta := window[i].value - mean;
      total := total + EwmaDetector.Product(delta, delta);
    }
    volatility := Some(sqrt(total / |window| as real));
  }

  lemma NothingSummed(x: seq<real>)
    ensures EwmaDetector.WeightedSum(Ones(0), x[..0]) == 0.0
    ensures forall c :: EwmaDetector.Spread(Ones(0), x[..0], c) == 0.0
  {
  }

  lemma OneMore(x: seq<real>, i: nat, c: real)
    requires i < |x|
    ensures EwmaDetector.WeightedSum(Ones(i + 1), x[..i + 1]) == EwmaDetector.WeightedSum(Ones(i), x[..i]) + x[i]
    ensures EwmaDetector.Spread(Ones(i + 1), x[..i + 1], c)
         == EwmaDetector.Spread(Ones(i), x[..i], c) + EwmaDetector.Product(x[i] - c, x[i] - c)
  {
    assert Ones(i + 1)[..i] == Ones(i) && x[..i + 1][..i] == x[..i];
    EwmaDetector.Trivial(x[i]);
    EwmaDetector.Trivial(EwmaDetector.Product(x[i] - c, x[i] - c));
  }

  // ----- the extractor -----

  class FeatureExtractor {
    const config: Config
    const sqrt: real -> real
    var messageWindow: seq<Timed<EventType>>
    var cancelRatioWindow: seq<Timed<EventType>>
    var midPriceWindow: seq<Timed<real>>
    /** All observations since the last reset: the events, and the mid prices of two-sided books. */
    ghost var events: seq<Tick<EventType>>
    ghost var mids: seq<Tick<real>>

    ghost predicate Valid()
      reads this
    {
      && messageWindow == Window(events, config.messageWindowNs)
      && cancelRatioWindow == Window(events, config.cancelRatioWindowNs)
      && midPriceWindow == Window(mids, config.volatilityWindowNs)
    }

    /** Every age computed at this time is a signed 64-bit difference, as the original needs it to be. */
    ghost predicate Observable(time: I64)
      reads this
    {
      && Subtractable(messageWindow, time, config.messageWindowNs)
      && Subtractable(cancelRatioWindow, time, config.cancelRatioWindowNs)
      && Subtractable(midPriceWindow, time, config.volatilityWindowNs)
    }

    constructor (config: Config, sqrt: real -> real)
      ensures Valid() && events == [] && mids == [] && this.config == config && this.sqrt == sqrt
    {
      this.config, this.sqrt := config, sqrt;
      messageWindow, cancelRatioWindow, midPriceWindow := [], [], [];
      events, mids := [], [];
    }

    /** Pops what has expired by `time` from the fronts of the three windows. */
    method ExpireWindows(time: I64)
      requires Observable(time)
      modifies this`messageWindow, this`cancelRatioWindow, this`midPriceWindow
      ensures messageWindow == old(messageWindow[Lead(messageWindow, time, config.messageWindowNs)..])
      ensures cancelRatioWindow == old(cancelRatioWindow[Lead(cancelRatioWindow, time, config.cancelRatioWindowNs)..])
      ensures midPriceWindow == old(midPriceWindow[Lead(midPriceWindow, time, config.volatilityWindowNs)..])
    {
      messageWindow := Expire(messageWindow, time, config.messageWindowNs);
      cancelRatioWindow := Expire(cancelRatioWindow, time, config.cancelRatioWindowNs);
      midPriceWindow := Expire(midPriceWindow, time, config.volatilityWindowNs);
    }

    /** The part of an observation that does not look at the book. */
    method TakeEvent(time: I64, eventType: EventType)
      requires Valid() && Observable(time)
      modifies this`messageWindow, this`cancelRatioWindow, this`midPriceWindow, this`events
      ensures events == old(events) + [Tick(time, Some(eventType))]
      ensures messageWindow == Window(events, config.messageWindowNs)
      ensures cancelRatioWindow == Window(events, config.cancelRatioWindowNs)
      ensures midPriceWindow == old(midPriceWindow[Lead(midPriceWindow, time, config.volatilityWindowNs)..])
    {
      hide Window, Lead;
      ExpireWindows(time);
      Append(events, Tick(time, Some(eventType)), config.messageWindowNs);
      Append(events, Tick(time, Some(eventType)), config.cancelRatioWindowNs);
      messageWindow := messageWindow + [Timed(time, eventType)];
      cancelRatioWindow := cancelRatioWindow + [Timed(time, eventType)];
      events := events + [Tick(time, Some(eventType))];
    }

    /** Observes an accepted event and the book it led to. Timestamps may go back; while they have not, rate,
        ratio and volatility are those of a recount of everything observed. */
    method Extract(event: MarketEvent, book: Baseline.LimitOrderBook) returns (features: Features)
      requires Valid() && book.Valid() && Observable(event.timestamp)
      modifies this
      ensures Valid()
      ensures events == old(events) + [Tick(event.timestamp, Some(event.eventType))]
      ensures mids == old(mids) + [Tick(event.timestamp, MidOf(Views.Top(book.live)))]
      ensures features.timestamp == event.timestamp
      ensures features.midPrice == MidOf(Views.Top(book.live))
      ensures features.bidAskSpread == SpreadOf(Views.Top(book.live))
      ensures features.topNBidDepth == Wrap(SumQuantities(Views.SideDepth(book.live, Buy, config.topNLevels)))
      ensures features.topNAskDepth == Wrap(SumQuantities(Views.SideDepth(book.live, Sell, config.topNLevels)))
      ensures features.imbalance
           == if features.midPrice.Some? then Imbalance(features.topNBidDepth, features.topNAskDepth) else None
      ensures features.messageRate == Rate(|Window(events, config.messageWindowNs)|, config.messageWindowNs)
      ensures features.cancelAddRatio == RatioOf(Window(events, config.cancelRatioWindowNs))
      ensures features.midPriceVolatility
           == if features.midPrice.Some? then VolatilityOf(sqrt, Window(mids, config.volatilityWindowNs)) else None
      ensures Ordered(events) ==>
        CountsEvents(features.messageRate, events, event.timestamp, config.messageWindowNs)
      ensures Ordered(events) && config.cancelRatioWindowNs >= 0 ==>
        CountsCancels(features.cancelAddRatio, events, event.timestamp, config.cancelRatioWindowNs)
      ensures Ordered(mids) && config.volatilityWindowNs >= 0 && features.midPrice.Some? ==>
        features.midPriceVolatility
          == VolatilityOf(sqrt, Recent(Entries(mids), event.timestamp, config.volatilityWindowNs))
    {
      hide Baseline.LimitOrderBook.Valid, Recent, Window, Entries, Lead, Ordered;
      hide Views.Top, Views.SideDepth, Rate, RatioOf, Imbalance, VolatilityOf, Wrap, CountsEvents, CountsCancels;
      hide Shown.ShowsBest, Shown.ShowsDepth;
      var time := event.timestamp;
      TakeEvent(time, event.eventType);
      var rate := Rate(|messageWindow|, config.messageWindowNs);
      var ratio := CancelAddRatio(cancelRatioWindow);
      RateRecount(events, config.messageWindowNs);
      RatioRecount(events, config.cancelRatioWindowNs);

      var depth := book.Depth(config.topNLevels);
      var bidDepth := SumDepth(depth.bids);
      var askDepth := SumDepth(depth.asks);
      var top := book.TopOfBook();
      Append(mids, Tick(time, MidOf(top)), config.volatilityWindowNs);
      mids := mids + [Tick(time, MidOf(top))];
      Recount(mids, config.volatilityWindowNs);
      if top.bid.Some? && top.ask.Some? {
        var bid: int, ask: int := top.bid.value.price, top.ask.value.price;
        var mid := (bid as real + ask as real) / 2.0;
        midPriceWindow := midPriceWindow + [Timed(time, mid)];
        var volatility := MidVolatility(sqrt, midPriceWindow);
        features := Features(time, Some(ask - bid), Some(mid), bidDepth, askDepth, Imbalance(bidDepth, askDepth),
                             rate, ratio, volatility);
      } else {
        features := Features(time, None, None, bidDepth, askDepth, None, rate, ratio, None);
      }
    }

    method Reset()
      modifies this
      ensures Valid() && events == [] && mids == []
    {
      messageWindow, cancelRatioWindow, midPriceWindow := [], [], [];
      events, mids := [], [];
    }
  }

  lemma Recount<T>(ticks: seq<Tick<T>>, windowNs: I64)
    requires ticks != []
    ensures Ordered(ticks) && windowNs >= 0 ==> Window(ticks, windowNs) == Recent(Entries(ticks), Now(ticks), windowNs)
  {
    if Ordered(ticks) && windowNs >= 0 {
      OrderedAgrees(ticks, windowNs);
    }
  }

  predicate OfKind(tick: Tick<EventType>, now: I64, windowNs: I64, kind: EventType) {
    tick.value == Some(kind) && now - tick.timestamp <= windowNs
  }

  /** The events of one kind in the last windowNs nanoseconds. */
  ghost function RecentOfKind(events: seq<Tick<EventType>>, now: I64, windowNs: I64, kind: EventType): set<nat> {
    set i: nat | i < |events| && OfKind(events[i], now, windowNs, kind)
  }

  /** The rate is the number of events in the last windowNs nanoseconds, per second. */
  ghost predicate CountsEvents(rate: real, events: seq<Tick<EventType>>, now: I64, windowNs: I64) {
    if windowNs > 0
    then rate * (windowNs as real / 1000000000.0) == |RecentTicks(events, now, windowNs)| as real
    else rate == 0.0
  }

  /** The ratio is the number of cancels in the last windowNs nanoseconds per add, and per one add at least. */
  ghost predicate CountsCancels(ratio: real, events: seq<Tick<EventType>>, now: I64, windowNs: I64) {
    var cancels := |RecentOfKind(events, now, windowNs, Cancel)|;
    var adds := |RecentOfKind(events, now, windowNs, Add)|;
    ratio * (if adds > 1 then adds else 1) as real == cancels as real
  }

  lemma RateRecount(events: seq<Tick<EventType>>, windowNs: I64)
    requires events != []
    ensures Ordered(events) ==> CountsEvents(Rate(|Window(events, windowNs)|, windowNs), events, Now(events), windowNs)
  {
    hide Recent, Window, Entries, RecentTicks, Ordered;
    Recount(events, windowNs);
    RecentCount(events, Now(events), windowNs);
    if windowNs > 0 {
      QuotientTimes(|Window(events, windowNs)| as real, windowNs as real / 1000000000.0);
    }
  }

  lemma QuotientTimes(a: real, b: real)
    requires b > 0.0
    ensures (a / b) * b == a
  {
  }

  lemma OneMoreOfKind(events: seq<Tick<EventType>>, now: I64, windowNs: I64, kind: EventType)
    requires events != []
    ensures var n := |events| - 1;
      |RecentOfKind(events, now, windowNs, kind)| == |RecentOfKind(events[..n], now, windowNs, kind)|
        + if OfKind(events[n], now, windowNs, kind) then 1 else 0
  {
    hide OfKind;
    var n := |events| - 1;
    var before, after := RecentOfKind(events[..n], now, windowNs, kind), RecentOfKind(events, now, windowNs, kind);
    if OfKind(events[n], now, windowNs, kind) {
      assert after == before + {n};
    } else {
      assert after == before;
    }
  }

  lemma CountAppend(h: seq<Timed<EventType>>, o: Timed<EventType>, kind: EventType)
    ensures Count(h + [o], kind) == Count(h, kind) + if o.value == kind then 1 else 0
  {
    assert (h + [o])[..|h|] == h;
  }

  lemma {:induction false} KindCount(events: seq<Tick<EventType>>, now: I64, windowNs: I64, kind: EventType)
    ensures Count(Recent(Entries(events), now, windowNs), kind) == |RecentOfKind(events, now, windowNs, kind)|
  {
    hide RecentOfKind, Recent, Count;
    if events == [] {
      NoneOfKind(now, windowNs, kind);
    } else {
      var init, tick := events[..|events| - 1], events[|events| - 1];
      KindCount(init, now, windowNs, kind);
      OneMoreOfKind(events, now, windowNs, kind);
      var before := Recent(Entries(init), now, windowNs);
      if tick.value.Some? {
        var o := Timed(tick.timestamp, tick.value.value);
        RecentAppend(Entries(init), o, now, windowNs);
        CountAppend(before, o, kind);
        assert before + [] == before;
      } else {
        assert Entries(init) + [] == Entries(init);
      }
    }
  }

  lemma NoneOfKind(now: I64, windowNs: I64, kind: EventType)
    ensures RecentOfKind([], now, windowNs, kind) == {} && Count(Recent([], now, windowNs), kind) == 0
  {
  }

  lemma RatioRecount(events: seq<Tick<EventType>>, windowNs: I64)
    requires events != []
    ensures Ordered(events) && windowNs >= 0 ==>
      CountsCancels(RatioOf(Window(events, windowNs)), events, Now(events), windowNs)
  {
    hide Recent, Window, Entries, RecentOfKind, Ordered, Count;
    Recount(events, windowNs);
    KindCount(events, Now(events), windowNs, Cancel);
    KindCount(events, Now(events), windowNs, Add);
    var adds := Count(Recent(Entries(events), Now(events), windowNs), Add);
    QuotientTimes(Count(Recent(Entries(events), Now(events), windowNs), Cancel) as real,
                  (if adds > 1 then adds else 1) as real);
  }

  // ----- mid price, spread and variance -----

  /** Mid price and spread exist for two-sided books; twice the mid price is the sum of the best prices,
      and the spread is negative exactly when some buy is priced above some sell. */
  lemma MidAndSpread(live: seq<Order>)
    ensures var top := Views.Top(live);
      && (MidOf(top).Some? <==> SpreadOf(top).Some?)
      && (MidOf(top).Some? <==> (exists b :: b in live && b.side == Buy) && (exists a :: a in live && a.side == Sell))
      && (MidOf(top).Some? ==>
            && 2.0 * MidOf(top).value == top.bid.value.price as real + top.ask.value.price as real
            && SpreadOf(top).value + top.bid.value.price == top.ask.value.price
            && (SpreadOf(top).value < 0 <==>
                  exists b, a :: b in live && a in live && b.side == Buy && a.side == Sell && b.price > a.price))
  {
    hide ShowsPrice, Views.Top;
    TopShows(live);
  }

  /** The squared differences of all pairs. */
  function PairSpread(x: seq<real>): real {
    if x == [] then 0.0 else PairSpread(x[..|x| - 1]) + DistancesTo(x[..|x| - 1], x[|x| - 1])
  }

  function DistancesTo(x: seq<real>, v: real): real {
    if x == [] then 0.0
    else
      var d := x[|x| - 1] - v;
      DistancesTo(x[..|x| - 1], v) + EwmaDetector.Product(d, d)
  }

  lemma {:induction false} OnesSpread(x: seq<real>, v: real)
    ensures EwmaDetector.Spread(Ones(|x|), x, v) == DistancesTo(x, v)
  {
    hide EwmaDetector.Product;
    if x != [] {
      OnesSpread(x[..|x| - 1], v);
      OneMore(x, |x| - 1, v);
      assert x[..|x|] == x;
    }
  }

  lemma {:induction false} OnesTotal(n: nat)
    ensures EwmaDetector.Total(Ones(n)) == n as real
  {
    if n > 0 {
      OnesTotal(n - 1);
      assert Ones(n)[..n - 1] == Ones(n - 1);
    }
  }

  /** Sum and sum of squares. */
  function First(x: seq<real>): real {
    EwmaDetector.WeightedSum(Ones(|x|), x)
  }

  function Second(x: seq<real>): real {
    EwmaDetector.WeightedSum(Ones(|x|), EwmaDetector.Squares(x))
  }

  lemma DistanceMoments(x: seq<real>, v: real)
    ensures DistancesTo(x, v) == EwmaDetector.Moments(v, Second(x), First(x), |x| as real)
  {
    hide EwmaDetector.Product, EwmaDetector.Moments, EwmaDetector.Squares, EwmaDetector.WeightedSum;
    OnesSpread(x, v);
    OnesTotal(|x|);
    EwmaDetector.SpreadMoments(Ones(|x|), x, v);
  }

  lemma MoreMoments(x: seq<real>)
    requires x != []
    ensures var init, v := x[..|x| - 1], x[|x| - 1];
      First(x) == First(init) + v && Second(x) == Second(init) + EwmaDetector.Product(v, v)
  {
    hide EwmaDetector.Product;
    var n := |x| - 1;
    OneMore(x, n, 0.0);
    OneMore(EwmaDetector.Squares(x), n, 0.0);
    EwmaDetector.SquaresInit(x);
    assert x[..|x|] == x && EwmaDetector.Squares(x)[..|x|] == EwmaDetector.Squares(x);
  }

  lemma {:induction false} PairTotals(x: seq<real>)
    ensures PairSpread(x)
         == EwmaDetector.Product(|x| as real, Second(x)) - EwmaDetector.Product(First(x), First(x))
  {
    if x == [] {
      NoPairs(x);
    } else {
      hide EwmaDetector.Product, EwmaDetector.Moments, First, Second, DistancesTo;
      var init, v := x[..|x| - 1], x[|x| - 1];
      PairTotals(init);
      DistanceMoments(init, v);
      MoreMoments(x);
      PairStep(|init| as real, First(init), Second(init), v);
    }
  }

  lemma NoPairs(x: seq<real>)
    requires x == []
    ensures PairSpread(x) == 0.0 && First(x) == 0.0 && Second(x) == 0.0
  {
  }

  lemma PairStep(n: real, s: real, q: real, v: real)
    ensures EwmaDetector.Product(n, q) - EwmaDetector.Product(s, s) + EwmaDetector.Moments(v, q, s, n)
         == EwmaDetector.Product(n + 1.0, q + EwmaDetector.Product(v, v)) - EwmaDetector.Product(s + v, s + v)
  {
    assert (n + 1.0) * (q + v * v) == n * q + n * (v * v) + q + v * v;
    assert (s + v) * (s + v) == s * s + 2.0 * (v * s) + v * v;
  }

  /** The variance by pairwise differences: times the square of their number it is the sum of the squared
      differences of all pairs. */
  lemma VarianceByPairs(x: seq<real>)
    requires x != []
    ensures EwmaDetector.Product(Variance(x), EwmaDetector.Product(|x| as real, |x| as real)) == PairSpread(x)
  {
    hide EwmaDetector.Product, EwmaDetector.Moments, EwmaDetector.WeightedSum, EwmaDetector.Spread, PairSpread;
    var m := Mean(x);
    assert m == First(x) / |x| as real;
    OnesSpread(x, m);
    DistanceMoments(x, m);
    PairTotals(x);
    VarianceAlgebra(|x| as real, First(x), Second(x), m);
  }

  lemma VarianceAlgebra(n: real, s: real, q: real, m: real)
    requires n > 0.0 && m == s / n
    ensures EwmaDetector.Product(EwmaDetector.Moments(m, q, s, n) / n, EwmaDetector.Product(n, n))
         == EwmaDetector.Product(n, q) - EwmaDetector.Product(s, s)
  {
    var d := EwmaDetector.Moments(m, q, s, n);
    assert m * n == s;
    assert (m * m) * n == m * s;
    assert d == q - m * s;
    assert (d / n) * n == d;
    assert (d / n) * (n * n) == d * n;
    assert (m * s) * n == s * s;
    assert d * n == q * n - (m * s) * n;
  }

  // ----- depth and imbalance against their documentation -----

  lemma ShownQuantity(view: PriceLevelView, live: seq<Order>, side: Side)
    requires ShowsPrice(view, live, side)
    ensures view.quantity == Wrap(Resting(live, side, {view.price}))
  {
  }

  lemma {:induction false} ViewsResting(live: seq<Order>, side: Side, views: seq<PriceLevelView>)
    requires forall i :: 0 <= i < |views| ==> ShowsPrice(views[i], live, side)
    requires forall i, j :: 0 <= i < j < |views| ==> views[i].price != views[j].price
    ensures Wrap(SumQuantities(views)) == Wrap(Resting(live, side, PricesShown(views)))
  {
    hide Wrap, Resting, Sum, Queue, ShowsPrice;
    if views == [] {
      assert PricesShown(views) == {};
      NothingRests(live, side);
    } else {
      var init, last := views[..|views| - 1], views[|views| - 1];
      ViewsResting(live, side, init);
      assert views == init + [last];
      assert PricesShown(views) == PricesShown(init) + {last.price};
      OnePriceMore(live, side, PricesShown(init), last.price);
      QueueTotal(live, side, last.price);
      var q := Resting(live, side, {last.price});
      ShownQuantity(last, live, side);
      WrapSum(SumQuantities(init), Resting(live, side, PricesShown(init)), last.quantity, q);
    }
  }

  lemma WrapSum(a: int, b: int, c: int, d: int)
    requires Wrap(a) == Wrap(b) && c == Wrap(d)
    ensures Wrap(a + c) == Wrap(b + d)
  {
    WrapAdd(a, c);
    WrapAdd(b, c);
    WrapAdd(d, b);
  }

  /** A depth feature is the documented aggregate quantity of the best levels exactly when that is below
      2^64. */
  lemma DepthAsDocumented(live: seq<Order>, side: Side, levels: nat, best: set<I64>)
    requires BestPrices(live, side, levels, best)
    ensures var depth, aggregate := Wrap(SumQuantities(Views.SideDepth(live, side, levels))), Resting(live, side, best);
      && depth == Wrap(aggregate)
      && (depth == aggregate <==> aggregate < TWO64)
  {
    hide Wrap, Resting, SumQuantities, BestPrices, ShowsPrice;
    var views := Views.SideDepth(live, side, levels);
    SideDepthShows(live, side, levels);
    forall i, j | 0 <= i < j < |views| ensures views[i].price != views[j].price {
      var prices := seq(|views|, k requires 0 <= k < |views| => views[k].price);
      assert prices[i] != prices[j];
    }
    ViewsResting(live, side, views);
    BestPricesUnique(live, side, levels, best, PricesShown(views));
    WrapFixes(Resting(live, side, best));
  }

  lemma WrapFixes(x: nat)
    ensures Wrap(x) == x <==> x < TWO64
  {
  }

  ghost function Quotient(bids: nat, asks: nat): real
    requires bids + asks > 0
  {
    (bids as real - asks as real) / (bids + asks) as real
  }

  /** What is left of two aggregates after wrapping, and how often each has wrapped, when the quotient comes
      out as documented: sums of what is left of 0 or 2^64 never do. */
  predicate Unharmed(bids: nat, asks: nat) {
    var b, a := bids % TWO64, asks % TWO64;
    var p, q := bids / TWO64, asks / TWO64;
    if b + a == 0 || b + a == TWO64 then false
    else if b + a < TWO64 then b * q == a * p
    else (2 * q + 1) * (2 * b - TWO64) == (2 * p + 1) * (2 * a - TWO64)
  }

  /** Of the aggregates themselves the imbalance is the documented quotient exactly when wrapping leaves it
      unharmed; with a sum below 2^64 it does. */
  lemma ImbalanceOfAggregates(bids: nat, asks: nat)
    requires bids + asks > 0
    ensures Imbalance(Wrap(bids), Wrap(asks)) == Some(Quotient(bids, asks)) <==> Unharmed(bids, asks)
    ensures bids + asks < TWO64 ==> Unharmed(bids, asks)
  {
    hide Wrap;
    var b, a, p, q := bids % TWO64, asks % TWO64, bids / TWO64, asks / TWO64;
    Parts(bids, asks);
    if b + a != 0 && b + a != TWO64 {
      var sum := if b + a < TWO64 then b + a else b + a - TWO64;
      assert b as real - a as real == (b - a) as real && bids as real - asks as real == (bids - asks) as real;
      SameQuotient(b - a, sum, bids - asks, bids + asks);
      if b + a < TWO64 {
        NoCarry(b, a, p, q);
      } else {
        Carry(b, a, p, q);
      }
    }
  }

  lemma Parts(bids: nat, asks: nat)
    ensures var b, a, p, q := bids % TWO64, asks % TWO64, bids / TWO64, asks / TWO64;
      && bids == b + TWO64 * p && asks == a + TWO64 * q
      && Wrap(bids) == b && Wrap(asks) == a
      && Wrap(b + a) == (if b + a < TWO64 then b + a else b + a - TWO64)
      && (bids + asks < TWO64 ==> p == 0 && q == 0)
  {
  }

  lemma NoCarry(b: int, a: int, p: int, q: int)
    ensures (b - a) * (b + a + TWO64 * (p + q)) == (b - a + TWO64 * (p - q)) * (b + a) <==> b * q == a * p
  {
    assert (b - a) * (b + a + TWO64 * (p + q)) - (b - a + TWO64 * (p - q)) * (b + a)
        == 2 * TWO64 * (b * q - a * p);
  }

  lemma Carry(b: int, a: int, p: int, q: int)
    ensures (b - a) * (b + a + TWO64 * (p + q)) == (b - a + TWO64 * (p - q)) * (b + a - TWO64)
       <==> (2 * q + 1) * (2 * b - TWO64) == (2 * p + 1) * (2 * a - TWO64)
  {
    assert 2 * ((b - a) * (b + a + TWO64 * (p + q)) - (b - a + TWO64 * (p - q)) * (b + a - TWO64))
        == TWO64 * ((2 * q + 1) * (2 * b - TWO64) - (2 * p + 1) * (2 * a - TWO64));
  }

  lemma SameQuotient(a: int, b: int, c: int, d: int)
    requires b > 0 && d > 0
    ensures a as real / b as real == c as real / d as real <==> a * d == c * b
  {
  }

  /** Of two depths as the code has them, it is exactly when their sum does not wrap, or they are equal and
      it does not wrap to 0. */
  lemma ImbalanceAsDocumented(bid: U64, ask: U64)
    requires bid + ask > 0
    ensures Imbalance(bid, ask) == Some(Quotient(bid, ask)) <==>
      bid + ask < TWO64 || (bid == ask && bid + ask != TWO64)
  {
    hide Quotient, Imbalance;
    ImbalanceOfAggregates(bid, ask);
  }

  /** Depths of 2^64 - 1 and 2 wrap to a sum of 1: the imbalance is near 2^64 where documented below 1. */
  lemma WrappedImbalance()
    ensures Imbalance(TWO64 - 1, 2) == Some(18446744073709551613.0) && Quotient(TWO64 - 1, 2) < 1.0
    ensures Imbalance(TWO63, TWO63) == None && Quotient(TWO63, TWO63) == 0.0
    ensures Imbalance(0, 0) == None
  {
    assert Wrap(TWO64 - 1 + 2) == 1 && Wrap(TWO63 + TWO63) == 0;
    assert 18446744073709551613.0 / 1.0 == 18446744073709551613.0;
  }

  lemma RestingAppend(live: seq<Order>, o: Order, side: Side, prices: set<I64>)
    ensures Resting(live + [o], side, prices)
         == Resting(live, side, prices) + if o.side == side && o.price in prices then o.quantity else 0
  {
    assert (live + [o])[..|live|] == live;
  }

  lemma RestingOfThree(x: Order, y: Order, z: Order, side: Side, prices: set<I64>)
    ensures Resting([x, y, z], side, prices)
         == (if x.side == side && x.price in prices then x.quantity else 0)
          + (if y.side == side && y.price in prices then y.quantity else 0)
          + (if z.side == side && z.price in prices then z.quantity else 0)
  {
    RestingAppend([], x, side, prices);
    RestingAppend([x], y, side, prices);
    RestingAppend([x, y], z, side, prices);
    assert [] + [x] == [x] && [x] + [y] == [x, y] && [x, y] + [z] == [x, y, z];
  }

  lemma QueueOfThree(x: Order, y: Order, z: Order, side: Side, price: I64)
    ensures Queue([x, y, z], side, price)
         == (if x.side == side && x.price == price then [x] else [])
          + (if y.side == side && y.price == price then [y] else [])
          + (if z.side == side && z.price == price then [z] else [])
  {
    QueueAppend([], x, side, price);
    QueueAppend([x], y, side, price);
    QueueAppend([x, y], z, side, price);
    assert [] + [x] == [x] && [x] + [y] == [x, y] && [x, y] + [z] == [x, y, z];
  }

  lemma SumOfOne(o: Order)
    ensures Sum([o]) == o.quantity
  {
    assert [o][..0] == [];
  }

  lemma TwoLevels(views: seq<PriceLevelView>)
    requires |views| == 2
    ensures SumQuantities(views) == views[0].quantity + views[1].quantity
  {
    assert views[..1][..0] == [] && SumQuantities([]) == 0;
    assert SumQuantities(views[..1]) == views[0].quantity;
  }

  lemma OneLevel(views: seq<PriceLevelView>)
    requires |views| == 1
    ensures SumQuantities(views) == views[0].quantity
  {
    assert views[..0] == [] && SumQuantities([]) == 0;
  }

  lemma WrappedToNothing()
    ensures Imbalance(Wrap(TWO64), Wrap(5)) == Some(-1.0) && Quotient(TWO64, 5) > 0.99
  {
    var computed := (0 as real - 5 as real) / 5 as real;
    assert computed == -1.0;
    assert Wrap(TWO64) == 0 && Wrap(5) == 5;
  }

  predicate HugeBids(live: seq<Order>) {
    live == [Order(1, Buy, 100, 1, TWO63), Order(2, Buy, 99, 2, TWO63), Order(3, Sell, 200, 3, 5)]
  }

  lemma HugeBidDepth(live: seq<Order>)
    requires HugeBids(live)
    ensures Views.SideDepth(live, Buy, 2) == [PriceLevelView(100, TWO63, 1), PriceLevelView(99, TWO63, 1)]
  {
    hide Queue, Sum, Wrap;
    var x, y, z := live[0], live[1], live[2];
    assert Views.Prices(live, Buy) == {x.price, y.price};
    Views.PriceOrderUnique(Buy, Views.Prices(live, Buy), [100, 99]);
    QueueOfThree(x, y, z, Buy, 100);
    QueueOfThree(x, y, z, Buy, 99);
    SumOfOne(x);
    SumOfOne(y);
    WrapFixes(TWO63);
    assert [x] + [] + [] == [x] && [] + [y] + [] == [y];
    assert Views.ViewOf(live, Buy, 100) == PriceLevelView(100, TWO63, 1);
    assert Views.ViewOf(live, Buy, 99) == PriceLevelView(99, TWO63, 1);
  }

  lemma HugeAskDepth(live: seq<Order>)
    requires HugeBids(live)
    ensures Views.SideDepth(live, Sell, 2) == [PriceLevelView(200, 5, 1)]
  {
    hide Queue, Sum, Wrap;
    var x, y, z := live[0], live[1], live[2];
    assert Views.Prices(live, Sell) == {z.price};
    Views.PriceOrderUnique(Sell, Views.Prices(live, Sell), [200]);
    QueueOfThree(x, y, z, Sell, 200);
    SumOfOne(z);
    WrapFixes(5);
    assert [] + [] + [z] == [z];
    assert Views.ViewOf(live, Sell, 200) == PriceLevelView(200, 5, 1);
  }

  /** Buys of 2^63 at 100 and at 99 and a sell of 5 at 200: the bid depth wraps to 0 and the imbalance is -1
      where documented above 0.99. */
  lemma WrappedDepth(live: seq<Order>)
    requires HugeBids(live)
    ensures
      var bids, asks := Views.SideDepth(live, Buy, 2), Views.SideDepth(live, Sell, 2);
      && bids == [PriceLevelView(100, TWO63, 1), PriceLevelView(99, TWO63, 1)]
      && asks == [PriceLevelView(200, 5, 1)]
      && Imbalance(Wrap(SumQuantities(bids)), Wrap(SumQuantities(asks))) == Some(-1.0)
    ensures BestPrices(live, Buy, 2, {100, 99}) && BestPrices(live, Sell, 2, {200})
    ensures
      var bids, asks := Resting(live, Buy, {100, 99}), Resting(live, Sell, {200});
      bids == TWO64 && asks == 5 && Quotient(bids, asks) > 0.99
  {
    hide Resting, SumQuantities, Imbalance, Wrap, Views.SideDepth, Quotient, ShowsPrice;
    HugeBidDepth(live);
    HugeAskDepth(live);
    var bids, asks := Views.SideDepth(live, Buy, 2), Views.SideDepth(live, Sell, 2);
    TwoLevels(bids);
    OneLevel(asks);
    WrappedToNothing();
    SideDepthShows(live, Buy, 2);
    SideDepthShows(live, Sell, 2);
    assert PricesShown(bids) == {100, 99} by { assert bids[0].price == 100 && bids[1].price == 99; }
    assert PricesShown(asks) == {200} by { assert asks[0].price == 200; }
    RestingOfThree(live[0], live[1], live[2], Buy, {100, 99});
    RestingOfThree(live[0], live[1], live[2], Sell, {200});
  }

  lemma VarianceNonNegative(x: seq<real>)
    requires x != []
    ensures Variance(x) >= 0.0
  {
    EwmaDetector.SpreadNonNegative(Ones(|x|), x, Mean(x));
  }

  /** The volatility is the standard deviation of the window's mid prices: non-negative, and its square is
      their variance. */
  lemma VolatilityIsDeviation(sqrt: real -> real, window: seq<Timed<real>>)
    requires EwmaDetector.IsRoot(sqrt)
    ensures VolatilityOf(sqrt, window).Some? <==> |window| >= 2
    ensures |window| >= 2 ==>
      var volatility := VolatilityOf(sqrt, window).value;
      volatility >= 0.0 && EwmaDetector.Product(volatility, volatility) == Variance(Values(window))
  {
    hide Variance;
    if |window| >= 2 {
      VarianceNonNegative(Values(window));
    }
  }
}
