/** The reference meaning of a limit order book: the live orders in the order in which their adds
    were accepted, and the number of accepted events. There are no levels, no cached totals and no
    lookup table here; both book classes are proved to implement this. */
module Ledger {
  import opened Types

  datatype Order = Order(id: U64, side: Side, price: I64, timestamp: I64, quantity: U64)

  datatype State = State(live: seq<Order>, applied: U64)

  const EMPTY: State := State([], 0)

  predicate HasId(q: seq<Order>, id: U64) {
    exists i :: 0 <= i < |q| && q[i].id == id
  }

  ghost predicate Distinct(q: seq<Order>) {
    forall i, j :: 0 <= i < j < |q| ==> q[i].id != q[j].id
  }

  ghost predicate Positive(q: seq<Order>) {
    forall i :: 0 <= i < |q| ==> q[i].quantity > 0
  }

  /** What every reachable ledger satisfies. */
  ghost predicate WellFormed(q: seq<Order>) {
    Distinct(q) && Positive(q)
  }

  /** The position of the live order with this id. */
  function IndexOf(q: seq<Order>, id: U64): (k: nat)
    requires HasId(q, id)
    ensures k < |q| && q[k].id == id
  {
    if q[|q| - 1].id == id then |q| - 1 else IndexOf(q[..|q| - 1], id)
  }

  function OrderOf(q: seq<Order>, id: U64): (o: Order)
    requires HasId(q, id)
    ensures o in q && o.id == id
  {
    q[IndexOf(q, id)]
  }

  function Without(q: seq<Order>, id: U64): seq<Order> {
    if q == [] then []
    else Without(q[..|q| - 1], id) + if q[|q| - 1].id == id then [] else [q[|q| - 1]]
  }

  function WithQuantity(q: seq<Order>, id: U64, quantity: U64): (r: seq<Order>)
    ensures |r| == |q|
  {
    if q == [] then []
    else
      var o := q[|q| - 1];
      WithQuantity(q[..|q| - 1], id, quantity) + [if o.id == id then o.(quantity := quantity) else o]
  }

  function Accept(live: seq<Order>, s: State): State {
    State(live, Wrap(s.applied + 1))
  }

  /** The effect and the result of one event. */
  function Step(s: State, e: MarketEvent): (State, BookResult) {
    if e.eventType.Cancel? then
      if !HasId(s.live, e.orderId) then (s, MissingOrderId)
      else (Accept(Without(s.live, e.orderId), s), Applied)
    else if e.quantity == 0 then (s, InvalidQuantity)
    else if e.eventType.Add? then
      if HasId(s.live, e.orderId) then (s, DuplicateOrderId)
      else (Accept(s.live + [Order(e.orderId, e.side, e.price, e.timestamp, e.quantity)], s), Applied)
    else if !HasId(s.live, e.orderId) then (s, MissingOrderId)
    else
      var resting := OrderOf(s.live, e.orderId).quantity;
      if e.eventType.Modify? then
        if e.quantity > resting then (s, UnsupportedModify)
        else (Accept(WithQuantity(s.live, e.orderId, e.quantity), s), Applied)
      else
        if e.quantity > resting then (s, InsufficientQuantity)
        else if e.quantity == resting then (Accept(Without(s.live, e.orderId), s), Applied)
        else (Accept(WithQuantity(s.live, e.orderId, resting - e.quantity), s), Applied)
  }

  /** The same book with room for at most `capacity` live orders. */
  function BoundedStep(s: State, capacity: nat, e: MarketEvent): (State, BookResult) {
    if e.eventType.Add? && e.quantity > 0 && !HasId(s.live, e.orderId) && |s.live| >= capacity
    then (s, CapacityExceeded)
    else Step(s, e)
  }

  function Run(s: State, events: seq<MarketEvent>): State {
    if events == [] then s
    else Step(Run(s, events[..|events| - 1]), events[|events| - 1]).0
  }

  /** The FIFO queue at one side and price. */
  function Queue(live: seq<Order>, side: Side, price: I64): seq<Order> {
    if live == [] then []
    else
      var o := live[|live| - 1];
      Queue(live[..|live| - 1], side, price) + if o.side == side && o.price == price then [o] else []
  }

  function Sum(q: seq<Order>): nat {
    if q == [] then 0 else Sum(q[..|q| - 1]) + q[|q| - 1].quantity
  }

  // ----- members -----

  lemma OrderIsUnique(live: seq<Order>, a: Order, b: Order)
    requires Distinct(live) && a in live && b in live && a.id == b.id
    ensures a == b
  {
    var i :| 0 <= i < |live| && live[i] == a;
    var j :| 0 <= j < |live| && live[j] == b;
  }

  lemma {:induction false} WithoutMembers(q: seq<Order>, id: U64)
    ensures forall o :: o in Without(q, id) <==> o in q && o.id != id
  {
    if q != [] {
      WithoutMembers(q[..|q| - 1], id);
      assert q == q[..|q| - 1] + [q[|q| - 1]];
    }
  }

  lemma {:induction false} WithQuantityAt(q: seq<Order>, id: U64, quantity: U64)
    ensures forall i :: 0 <= i < |q| ==>
      WithQuantity(q, id, quantity)[i] == if q[i].id == id then q[i].(quantity := quantity) else q[i]
  {
    if q != [] {
      WithQuantityAt(q[..|q| - 1], id, quantity);
    }
  }

  lemma {:induction false} QueueMembers(live: seq<Order>, side: Side, price: I64)
    ensures forall o :: o in Queue(live, side, price) <==> o in live && o.side == side && o.price == price
  {
    if live != [] {
      QueueMembers(live[..|live| - 1], side, price);
      assert live == live[..|live| - 1] + [live[|live| - 1]];
    }
  }

  // ----- a single order in a queue of distinct orders -----

  lemma {:induction false} WithoutAbsent(q: seq<Order>, id: U64)
    requires !HasId(q, id)
    ensures Without(q, id) == q
  {
    if q != [] {
      assert forall i :: 0 <= i < |q| - 1 ==> q[..|q| - 1][i] == q[i];
      WithoutAbsent(q[..|q| - 1], id);
    }
  }

  lemma {:induction false} WithoutAt(q: seq<Order>, k: nat)
    requires k < |q| && Distinct(q)
    ensures Without(q, q[k].id) == q[..k] + q[k + 1..]
  {
    var init := q[..|q| - 1];
    if k == |q| - 1 {
      WithoutAbsent(init, q[k].id);
    } else {
      WithoutAt(init, k);
      assert q[..k] + q[k + 1..] == (init[..k] + init[k + 1..]) + [q[|q| - 1]];
    }
  }

  lemma {:induction false} WithQuantityIs(q: seq<Order>, k: nat, quantity: U64)
    requires k < |q| && Distinct(q)
    ensures WithQuantity(q, q[k].id, quantity) == q[k := q[k].(quantity := quantity)]
  {
    WithQuantityAt(q, q[k].id, quantity);
  }

  lemma WithOwnQuantity(q: seq<Order>, id: U64)
    requires Distinct(q) && HasId(q, id)
    ensures WithQuantity(q, id, OrderOf(q, id).quantity) == q
  {
    WithQuantityIs(q, IndexOf(q, id), OrderOf(q, id).quantity);
  }

  // ----- queues commute with the operations -----

  lemma {:induction false} QueueAppend(live: seq<Order>, o: Order, side: Side, price: I64)
    ensures Queue(live + [o], side, price)
         == Queue(live, side, price) + if o.side == side && o.price == price then [o] else []
  {
    assert (live + [o])[..|live|] == live;
  }

  lemma {:induction false} WithoutAppend(q: seq<Order>, o: Order, id: U64)
    ensures Without(q + [o], id) == Without(q, id) + if o.id == id then [] else [o]
  {
    assert (q + [o])[..|q|] == q;
  }

  lemma {:induction false} QueueWithout(live: seq<Order>, id: U64, side: Side, price: I64)
    ensures Queue(Without(live, id), side, price) == Without(Queue(live, side, price), id)
  {
    if live != [] {
      var init, o := live[..|live| - 1], live[|live| - 1];
      QueueWithout(init, id, side, price);
      QueueAppend(Without(init, id), o, side, price);
      WithoutAppend(Queue(init, side, price), o, id);
      assert Without(init, id) + [] == Without(init, id);
      assert Queue(init, side, price) + [] == Queue(init, side, price);
    }
  }

  lemma {:induction false} QueueWithQuantity(live: seq<Order>, id: U64, quantity: U64, side: Side, price: I64)
    ensures Queue(WithQuantity(live, id, quantity), side, price) == WithQuantity(Queue(live, side, price), id, quantity)
  {
    if live != [] {
      var init, o := live[..|live| - 1], live[|live| - 1];
      QueueWithQuantity(init, id, quantity, side, price);
      var o' := if o.id == id then o.(quantity := quantity) else o;
      QueueAppend(WithQuantity(init, id, quantity), o', side, price);
      var q := Queue(init, side, price);
      assert (q + [o])[..|q|] == q;
      assert q + [] == q;
    }
  }

  lemma {:induction false} QueueDistinct(live: seq<Order>, side: Side, price: I64)
    requires WellFormed(live)
    ensures WellFormed(Queue(live, side, price))
  {
    if live != [] {
      QueueDistinct(live[..|live| - 1], side, price);
      QueueMembers(live[..|live| - 1], side, price);
      var q := Queue(live[..|live| - 1], side, price);
      forall i | 0 <= i < |q| ensures q[i].id != live[|live| - 1].id {
        assert q[i] in q;
      }
    }
  }

  // ----- sums -----

  lemma SumAppend(q: seq<Order>, o: Order)
    ensures Sum(q + [o]) == Sum(q) + o.quantity
  {
    assert (q + [o])[..|q|] == q;
  }

  lemma {:induction false} SumWithout(q: seq<Order>, k: nat)
    requires k < |q| && Distinct(q)
    ensures Sum(Without(q, q[k].id)) == Sum(q) - q[k].quantity
  {
    var init := q[..|q| - 1];
    if k == |q| - 1 {
      WithoutAbsent(init, q[k].id);
      assert init + [] == init;
    } else {
      SumWithout(init, k);
      WithoutAppend(init, q[|q| - 1], q[k].id);
      assert init + [q[|q| - 1]] == q;
      var w := Without(init, q[k].id);
      assert (w + [q[|q| - 1]])[..|w|] == w;
    }
  }

  lemma {:induction false} SumWithQuantity(q: seq<Order>, k: nat, quantity: U64)
    requires k < |q| && Distinct(q)
    ensures Sum(WithQuantity(q, q[k].id, quantity)) == Sum(q) - q[k].quantity + quantity
  {
    var init := q[..|q| - 1];
    var r := WithQuantity(q, q[k].id, quantity);
    WithQuantityAt(q, q[k].id, quantity);
    WithQuantityAt(init, q[k].id, quantity);
    assert r[..|q| - 1] == WithQuantity(init, q[k].id, quantity);
    if k == |q| - 1 {
      assert WithQuantity(init, q[k].id, quantity) == init;
    } else {
      SumWithQuantity(init, k, quantity);
    }
  }

  // ----- every step keeps the ledger well formed -----

  lemma {:induction false} WithoutWellFormed(q: seq<Order>, id: U64)
    requires WellFormed(q) && HasId(q, id)
    ensures WellFormed(Without(q, id)) && |Without(q, id)| == |q| - 1
  {
    WithoutAt(q, IndexOf(q, id));
  }

  lemma {:induction false} StepWellFormed(s: State, e: MarketEvent)
    requires WellFormed(s.live)
    ensures WellFormed(Step(s, e).0.live)
  {
    if HasId(s.live, e.orderId) {
      WithoutWellFormed(s.live, e.orderId);
      var resting := OrderOf(s.live, e.orderId).quantity;
      WithQuantityAt(s.live, e.orderId, e.quantity);
      if e.quantity <= resting {
        WithQuantityAt(s.live, e.orderId, resting - e.quantity);
      }
    }
  }

  lemma {:induction false} RunWellFormed(s: State, events: seq<MarketEvent>)
    requires WellFormed(s.live)
    ensures WellFormed(Run(s, events).live)
  {
    if events != [] {
      RunWellFormed(s, events[..|events| - 1]);
      StepWellFormed(Run(s, events[..|events| - 1]), events[|events| - 1]);
    }
  }
}
