/** A ledger put together from given queues. */
module Assembly {
  import opened Types
  import opened Ledger

  /** Queues of one side by price: each order is in the queue of its price, and no id occurs twice. */
  ghost predicate Queues(side: Side, m: map<I64, seq<Order>>) {
    && (forall p, i :: p in m && 0 <= i < |m[p]| ==> m[p][i].side == side && m[p][i].price == p)
    && (forall p, i, p', i' :: p in m && p' in m && 0 <= i < |m[p]| && 0 <= i' < |m[p']| ==>
          m[p][i].id == m[p'][i'].id ==> p == p' && i == i')
  }

  ghost function QueueOf(m: map<I64, seq<Order>>, price: I64): seq<Order> {
    if price in m then m[price] else []
  }

  /** The ledger has exactly these queues on this side and no order on the other. */
  ghost predicate Has(live: seq<Order>, side: Side, m: map<I64, seq<Order>>) {
    && Distinct(live)
    && (forall o :: o in live ==> o.side == side && o in QueueOf(m, o.price))
    && (forall price :: Queue(live, side, price) == QueueOf(m, price))
  }

  lemma {:induction false} QueueConcat(a: seq<Order>, b: seq<Order>, side: Side, price: I64)
    ensures Queue(a + b, side, price) == Queue(a, side, price) + Queue(b, side, price)
  {
    if b == [] {
      assert a + b == a && Queue(a, side, price) + [] == Queue(a, side, price);
    } else {
      QueueConcat(a, b[..|b| - 1], side, price);
      assert (a + b)[..|a + b| - 1] == a + b[..|b| - 1];
    }
  }

  lemma {:induction false} OwnQueue(q: seq<Order>, side: Side, price: I64, side': Side, price': I64)
    requires forall i :: 0 <= i < |q| ==> q[i].side == side && q[i].price == price
    ensures Queue(q, side', price') == if side == side' && price == price' then q else []
  {
    if q != [] {
      var init, o := q[..|q| - 1], q[|q| - 1];
      assert forall i :: 0 <= i < |init| ==> init[i] == q[i];
      OwnQueue(init, side, price, side', price');
      assert q == init + [o];
    }
  }

  lemma DistinctConcat(a: seq<Order>, b: seq<Order>)
    requires Distinct(a) && Distinct(b)
    requires forall o, o' :: o in a && o' in b ==> o.id != o'.id
    ensures Distinct(a + b)
  {
  }

  lemma {:induction false} Assemble(side: Side, m: map<I64, seq<Order>>) returns (live: seq<Order>)
    requires Queues(side, m)
    ensures Has(live, side, m)
    decreases |m|
  {
    if m == map[] {
      live := [];
    } else {
      var p :| p in m;
      var m' := m - {p};
      assert m'.Keys == m.Keys - {p};
      var before := Assemble(side, m');
      live := before + m[p];
      OneMoreQueue(side, m, p, before);
    }
  }

  lemma OneMoreQueue(side: Side, m: map<I64, seq<Order>>, p: I64, before: seq<Order>)
    requires Queues(side, m) && p in m && Has(before, side, m - {p})
    ensures Has(before + m[p], side, m)
  {
    hide Queue, Distinct;
    var m' := m - {p};
    forall price ensures Queue(before + m[p], side, price) == QueueOf(m, price) {
      QueueConcat(before, m[p], side, price);
      OwnQueue(m[p], side, p, side, price);
      assert price in m' <==> price in m && price != p;
    }
    forall o, o' | o in before && o' in m[p] ensures o.id != o'.id {
      var i :| 0 <= i < |m[o.price]| && m[o.price][i] == o;
      var i' :| 0 <= i' < |m[p]| && m[p][i'] == o';
    }
    DistinctOwn(side, m, p);
    DistinctConcat(before, m[p]);
  }

  lemma DistinctOwn(side: Side, m: map<I64, seq<Order>>, p: I64)
    requires Queues(side, m) && p in m
    ensures Distinct(m[p])
  {
  }

  /** Two sides without a common id make one ledger. */
  lemma Join(bids: map<I64, seq<Order>>, asks: map<I64, seq<Order>>) returns (live: seq<Order>)
    requires Queues(Buy, bids) && Queues(Sell, asks)
    requires forall p, i, p', i' :: p in bids && p' in asks && 0 <= i < |bids[p]| && 0 <= i' < |asks[p']| ==>
      bids[p][i].id != asks[p'][i'].id
    ensures Distinct(live)
    ensures forall o :: o in live ==> o in QueueOf(if o.side.Buy? then bids else asks, o.price)
    ensures forall side, price :: Queue(live, side, price) == QueueOf(if side.Buy? then bids else asks, price)
  {
    hide Queue, Queues;
    var a := Assemble(Buy, bids);
    var b := Assemble(Sell, asks);
    live := a + b;
    forall side, price ensures Queue(live, side, price) == QueueOf(if side.Buy? then bids else asks, price) {
      QueueConcat(a, b, side, price);
      if side.Buy? {
        OtherSide(b, Sell, Buy, price);
      } else {
        OtherSide(a, Buy, Sell, price);
      }
    }
    forall o, o' | o in a && o' in b ensures o.id != o'.id {
      var i :| 0 <= i < |bids[o.price]| && bids[o.price][i] == o;
      var i' :| 0 <= i' < |asks[o'.price]| && asks[o'.price][i'] == o';
    }
    DistinctConcat(a, b);
  }

  lemma {:induction false} OtherSide(live: seq<Order>, side: Side, other: Side, price: I64)
    requires side != other && forall o :: o in live ==> o.side == side
    ensures Queue(live, other, price) == []
  {
    if live != [] {
      OtherSide(live[..|live| - 1], side, other, price);
    }
  }
}
