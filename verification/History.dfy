/** Whole runs of a book, told from the event history alone: which orders rest, in which order, and
    where every accepted unit of quantity went. */
module History {
  import opened Types
  import opened Ledger

  // ----- what the history says about one add -----

  /** What is left of the order added by event i once n events have happened; 0 when it is gone. */
  function Fate(es: seq<MarketEvent>, i: nat, n: nat): U64
    requires i < n <= |es|
  {
    if n == i + 1 then es[i].quantity
    else
      var left, e := Fate(es, i, n - 1), es[n - 1];
      if left == 0 || e.orderId != es[i].orderId then left
      else match e.eventType
        case Add => left
        case Cancel => 0
        case Modify => if 0 < e.quantity <= left then e.quantity else left
        case Execute => if e.quantity <= left then left - e.quantity else left
  }

  /** Event i is an add that is accepted: no earlier accepted add of its id is still resting. */
  ghost predicate Admitted(es: seq<MarketEvent>, i: nat)
    requires i < |es|
  {
    && es[i].eventType.Add? && es[i].quantity > 0
    && forall j :: 0 <= j < i && Admitted(es, j) && es[j].orderId == es[i].orderId ==> Fate(es, j, i) == 0
  }

  ghost predicate Resting(es: seq<MarketEvent>, i: nat, n: nat)
    requires i < n <= |es|
  {
    Admitted(es, i) && Fate(es, i, n) > 0
  }

  function OrderAt(es: seq<MarketEvent>, i: nat, n: nat): Order
    requires i < n <= |es|
  {
    Order(es[i].orderId, es[i].side, es[i].price, es[i].timestamp, Fate(es, i, n))
  }

  /** The first m events' orders that still rest after n events, in the order of their adds. */
  ghost function Survivors(es: seq<MarketEvent>, m: nat, n: nat): seq<Order>
    requires m <= n <= |es|
  {
    if m == 0 then []
    else Survivors(es, m - 1, n) + if Resting(es, m - 1, n) then [OrderAt(es, m - 1, n)] else []
  }

  lemma {:induction false} SurvivorMembers(es: seq<MarketEvent>, m: nat, n: nat)
    requires m <= n <= |es|
    ensures forall o :: o in Survivors(es, m, n) <==>
      exists j :: 0 <= j < m && Resting(es, j, n) && o == OrderAt(es, j, n)
  {
    if m > 0 {
      SurvivorMembers(es, m - 1, n);
    }
  }

  lemma HasSurvivor(es: seq<MarketEvent>, n: nat, id: U64)
    requires n <= |es|
    ensures HasId(Survivors(es, n, n), id) <==> exists j :: 0 <= j < n && Resting(es, j, n) && es[j].orderId == id
  {
    SurvivorMembers(es, n, n);
    if HasId(Survivors(es, n, n), id) {
      assert OrderOf(Survivors(es, n, n), id) in Survivors(es, n, n);
    }
    if j :| 0 <= j < n && Resting(es, j, n) && es[j].orderId == id {
      var o := OrderAt(es, j, n);
      assert o in Survivors(es, n, n);
      var k :| 0 <= k < |Survivors(es, n, n)| && Survivors(es, n, n)[k] == o;
    }
  }

  // ----- one more event -----

  lemma {:induction false} UnaffectedStay(es: seq<MarketEvent>, m: nat, n: nat)
    requires m <= n < |es|
    requires forall j :: 0 <= j < m && Resting(es, j, n) ==> Fate(es, j, n + 1) == Fate(es, j, n)
    ensures Survivors(es, m, n + 1) == Survivors(es, m, n)
  {
    if m > 0 {
      UnaffectedStay(es, m - 1, n);
    }
  }

  lemma {:induction false} KilledGo(es: seq<MarketEvent>, m: nat, n: nat)
    requires m <= n < |es|
    requires forall j :: 0 <= j < m && Resting(es, j, n) ==>
      Fate(es, j, n + 1) == if es[j].orderId == es[n].orderId then 0 else Fate(es, j, n)
    ensures Survivors(es, m, n + 1) == Without(Survivors(es, m, n), es[n].orderId)
  {
    if m > 0 {
      KilledGo(es, m - 1, n);
      var init := Survivors(es, m - 1, n);
      WithoutAppend(init, OrderAt(es, m - 1, n), es[n].orderId);
      assert init + [] == init;
      assert Without(init, es[n].orderId) + [] == Without(init, es[n].orderId);
    }
  }

  lemma {:induction false} ReducedKeepPlace(es: seq<MarketEvent>, m: nat, n: nat, quantity: U64)
    requires m <= n < |es| && quantity > 0
    requires forall j :: 0 <= j < m && Resting(es, j, n) ==>
      Fate(es, j, n + 1) == if es[j].orderId == es[n].orderId then quantity else Fate(es, j, n)
    ensures Survivors(es, m, n + 1) == WithQuantity(Survivors(es, m, n), es[n].orderId, quantity)
  {
    if m > 0 {
      ReducedKeepPlace(es, m - 1, n, quantity);
      var init, o := Survivors(es, m - 1, n), OrderAt(es, m - 1, n);
      assert (init + [o])[..|init|] == init;
      assert init + [] == init;
    }
  }

  /** The last event either adds an order behind all others or acts on the one resting order of its id. */
  lemma OneMore(es: seq<MarketEvent>, n: nat, s: State)
    requires n < |es| && s.live == Survivors(es, n, n) && WellFormed(s.live)
    ensures Step(s, es[n]).0.live == Survivors(es, n + 1, n + 1)
    ensures Admitted(es, n) <==> es[n].eventType.Add? && Step(s, es[n]).1 == Applied
  {
    var e := es[n];
    HasSurvivor(es, n, e.orderId);
    SurvivorMembers(es, n, n);
    assert s.live + [] == s.live;
    if !HasId(s.live, e.orderId) {
      UnaffectedStay(es, n, n);
    } else {
      var resting := OrderOf(s.live, e.orderId);
      forall j | 0 <= j < n && Resting(es, j, n) && es[j].orderId == e.orderId
        ensures Fate(es, j, n) == resting.quantity
      {
        OrderIsUnique(s.live, OrderAt(es, j, n), resting);
      }
      AffectedMoves(es, n, s, resting);
    }
  }

  lemma AffectedMoves(es: seq<MarketEvent>, n: nat, s: State, resting: Order)
    requires n < |es| && s.live == Survivors(es, n, n) && WellFormed(s.live)
    requires HasId(s.live, es[n].orderId) && resting == OrderOf(s.live, es[n].orderId)
    requires forall j :: 0 <= j < n && Resting(es, j, n) && es[j].orderId == es[n].orderId ==>
      Fate(es, j, n) == resting.quantity
    ensures Step(s, es[n]).0.live == Survivors(es, n, n + 1)
  {
    hide Survivors, Without, WithQuantity, Wrap, Distinct, Admitted;
    var e := es[n];
    if e.eventType.Cancel? || (e.eventType.Execute? && e.quantity == resting.quantity) {
      KilledGo(es, n, n);
    } else if e.eventType.Modify? && 0 < e.quantity <= resting.quantity {
      ReducedKeepPlace(es, n, n, e.quantity);
    } else if e.eventType.Execute? && 0 < e.quantity < resting.quantity {
      ReducedKeepPlace(es, n, n, resting.quantity - e.quantity);
    } else {
      UnaffectedStay(es, n, n);
    }
  }

  /** After any run the live orders are exactly the accepted adds that are not yet cancelled or fully
      executed, in the order of acceptance, each with what is left of it. */
  lemma {:induction false} RunIsSurvivors(es: seq<MarketEvent>, n: nat)
    requires n <= |es|
    ensures Run(EMPTY, es[..n]).live == Survivors(es, n, n)
    ensures forall i :: 0 <= i < n ==>
      (Admitted(es, i) <==> es[i].eventType.Add? && Step(Run(EMPTY, es[..i]), es[i]).1 == Applied)
  {
    hide Step, Admitted, Fate, Wrap;
    if n > 0 {
      RunIsSurvivors(es, n - 1);
      assert es[..n][..n - 1] == es[..n - 1];
      RunWellFormed(EMPTY, es[..n - 1]);
      OneMore(es, n - 1, Run(EMPTY, es[..n - 1]));
    }
  }

  /** Some accepted add of the id of event n rests when event n arrives. */
  ghost predicate IdRests(es: seq<MarketEvent>, n: nat)
    requires n < |es|
  {
    exists j :: 0 <= j < n && Resting(es, j, n) && es[j].orderId == es[n].orderId
  }

  /** It does, and event n asks for more than is left of it. */
  ghost predicate AsksTooMuch(es: seq<MarketEvent>, n: nat)
    requires n < |es|
  {
    exists j :: 0 <= j < n && Resting(es, j, n) && es[j].orderId == es[n].orderId && es[n].quantity > Fate(es, j, n)
  }

  /** The answer to every event, from the history before it. */
  lemma ResultsFromHistory(es: seq<MarketEvent>, n: nat)
    requires n < |es|
    ensures var e, result := es[n], Step(Run(EMPTY, es[..n]), es[n]).1;
      && (result == InvalidQuantity <==> !e.eventType.Cancel? && e.quantity == 0)
      && (result == DuplicateOrderId <==> e.eventType.Add? && e.quantity > 0 && IdRests(es, n))
      && (result == MissingOrderId <==> !e.eventType.Add? && (e.eventType.Cancel? || e.quantity > 0) && !IdRests(es, n))
      && (result == UnsupportedModify <==> e.eventType.Modify? && e.quantity > 0 && AsksTooMuch(es, n))
      && (result == InsufficientQuantity <==> e.eventType.Execute? && e.quantity > 0 && AsksTooMuch(es, n))
      && result != CapacityExceeded
  {
    hide Survivors, Admitted, Fate;
    var live := Run(EMPTY, es[..n]).live;
    RunIsSurvivors(es, n);
    RunWellFormed(EMPTY, es[..n]);
    HasSurvivor(es, n, es[n].orderId);
    SurvivorMembers(es, n, n);
    if HasId(live, es[n].orderId) {
      var o := OrderOf(live, es[n].orderId);
      forall j | 0 <= j < n && Resting(es, j, n) && es[j].orderId == es[n].orderId ensures OrderAt(es, j, n) == o {
        OrderIsUnique(live, OrderAt(es, j, n), o);
      }
    }
  }

  // ----- price-time priority -----

  /** The resting adds at one side and price, by index. */
  ghost function Admissions(es: seq<MarketEvent>, side: Side, price: I64, m: nat, n: nat): (idx: seq<nat>)
    requires m <= n <= |es|
    ensures forall k :: 0 <= k < |idx| ==>
      idx[k] < m && Resting(es, idx[k], n) && es[idx[k]].side == side && es[idx[k]].price == price
    ensures forall k, l :: 0 <= k < l < |idx| ==> idx[k] < idx[l]
    ensures forall i :: 0 <= i < m && Resting(es, i, n) && es[i].side == side && es[i].price == price ==> i in idx
  {
    if m == 0 then []
    else
      Admissions(es, side, price, m - 1, n)
      + if Resting(es, m - 1, n) && es[m - 1].side == side && es[m - 1].price == price then [m - 1] else []
  }

  lemma {:induction false} QueueOfSurvivors(es: seq<MarketEvent>, side: Side, price: I64, m: nat, n: nat)
    requires m <= n <= |es|
    ensures var q, idx := Queue(Survivors(es, m, n), side, price), Admissions(es, side, price, m, n);
      |q| == |idx| && forall k :: 0 <= k < |q| ==> q[k] == OrderAt(es, idx[k], n)
  {
    hide Queue, Survivors, Admissions, Fate, Admitted, OrderAt;
    if m == 0 {
      NoSurvivors(es, side, price, n);
    } else {
      QueueOfSurvivors(es, side, price, m - 1, n);
      QueueStep(es, side, price, m, n);
    }
  }

  lemma NoSurvivors(es: seq<MarketEvent>, side: Side, price: I64, n: nat)
    requires n <= |es|
    ensures Queue(Survivors(es, 0, n), side, price) == [] && Admissions(es, side, price, 0, n) == []
  {
  }

  lemma QueueStep(es: seq<MarketEvent>, side: Side, price: I64, m: nat, n: nat)
    requires 0 < m <= n <= |es|
    ensures var q, idx := Queue(Survivors(es, m, n), side, price), Admissions(es, side, price, m, n);
      var q0, idx0 := Queue(Survivors(es, m - 1, n), side, price), Admissions(es, side, price, m - 1, n);
      (q == q0 && idx == idx0) || (q == q0 + [OrderAt(es, m - 1, n)] && idx == idx0 + [m - 1])
  {
    hide Queue, Fate, Admitted;
    var sv := Survivors(es, m - 1, n);
    QueueAppend(sv, OrderAt(es, m - 1, n), side, price);
    assert sv + [] == sv;
    var q0, idx0 := Queue(sv, side, price), Admissions(es, side, price, m - 1, n);
    assert q0 + [] == q0 && idx0 + [] == idx0;
  }

  /** Price-time priority: after any run, the queue at a side and price lists the resting adds there by
      the index of their acceptance, whatever their timestamps, each with what is left of it. */
  lemma PriceTimePriority(es: seq<MarketEvent>, side: Side, price: I64)
    ensures var q := Queue(Run(EMPTY, es).live, side, price);
      var idx := Admissions(es, side, price, |es|, |es|);
      |q| == |idx| && forall k :: 0 <= k < |q| ==> q[k] == OrderAt(es, idx[k], |es|)
  {
    assert es[..|es|] == es;
    RunIsSurvivors(es, |es|);
    QueueOfSurvivors(es, side, price, |es|, |es|);
  }

  // ----- conservation -----

  /** Where the quantity of accepted events went, in unbounded integers. */
  datatype Accounts = Accounts(added: nat, executed: nat, cancelled: nat, reduced: nat)

  function Entry(s: State, e: MarketEvent): Accounts {
    if Step(s, e).1 != Applied then Accounts(0, 0, 0, 0)
    else match e.eventType
      case Add => Accounts(e.quantity, 0, 0, 0)
      case Execute => Accounts(0, e.quantity, 0, 0)
      case Cancel => Accounts(0, 0, OrderOf(s.live, e.orderId).quantity, 0)
      case Modify => Accounts(0, 0, 0, OrderOf(s.live, e.orderId).quantity - e.quantity)
  }

  function Tally(s: State, es: seq<MarketEvent>): Accounts {
    if es == [] then Accounts(0, 0, 0, 0)
    else
      var before, entry := Tally(s, es[..|es| - 1]), Entry(Run(s, es[..|es| - 1]), es[|es| - 1]);
      Accounts(before.added + entry.added, before.executed + entry.executed,
               before.cancelled + entry.cancelled, before.reduced + entry.reduced)
  }

  lemma StepConserves(s: State, e: MarketEvent)
    requires WellFormed(s.live)
    ensures var a := Entry(s, e);
      Sum(s.live) + a.added == Sum(Step(s, e).0.live) + a.executed + a.cancelled + a.reduced
  {
    hide Sum, Without, WithQuantity, Wrap, Positive;
    if HasId(s.live, e.orderId) {
      var k := IndexOf(s.live, e.orderId);
      SumWithout(s.live, k);
      SumWithQuantity(s.live, k, e.quantity);
      if e.quantity <= s.live[k].quantity {
        SumWithQuantity(s.live, k, s.live[k].quantity - e.quantity);
      }
    } else if e.eventType.Add? {
      SumAppend(s.live, Order(e.orderId, e.side, e.price, e.timestamp, e.quantity));
    }
  }

  /** Every accepted unit still rests, was executed, was cancelled or was given up by a modify. */
  lemma {:induction false} QuantityConserved(s: State, es: seq<MarketEvent>)
    requires WellFormed(s.live)
    ensures var a := Tally(s, es);
      Sum(s.live) + a.added == Sum(Run(s, es).live) + a.executed + a.cancelled + a.reduced
  {
    if es != [] {
      QuantityConserved(s, es[..|es| - 1]);
      RunWellFormed(s, es[..|es| - 1]);
      StepConserves(Run(s, es[..|es| - 1]), es[|es| - 1]);
    }
  }

  // ----- accepted events -----

  function CountApplied(s: State, es: seq<MarketEvent>): nat {
    if es == [] then 0
    else
      CountApplied(s, es[..|es| - 1]) + if Step(Run(s, es[..|es| - 1]), es[|es| - 1]).1 == Applied then 1 else 0
  }

  lemma StepApplied(s: State, e: MarketEvent)
    ensures Step(s, e).0.applied == if Step(s, e).1 == Applied then Wrap(s.applied + 1) else s.applied
  {
  }

  lemma {:induction false} AppliedIsCount(s: State, es: seq<MarketEvent>)
    ensures Run(s, es).applied == Wrap(s.applied + CountApplied(s, es))
  {
    hide Step;
    if es != [] {
      var init := es[..|es| - 1];
      AppliedIsCount(s, init);
      StepApplied(Run(s, init), es[|es| - 1]);
      WrapAdd(s.applied + CountApplied(s, init), 1);
    }
  }
}
