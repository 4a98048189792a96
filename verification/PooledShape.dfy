/** The memory of the pooled book as a value, the shape it keeps, and what each pointer update does
    to that shape. */
module PooledShape {
  import opened Types
  import opened Ledger

  const NPOS: nat := 0xFFFF_FFFF_FFFF_FFFF

  datatype OrderNode = OrderNode(
    orderId: U64, timestamp: I64, quantity: U64, prev: nat, next: nat, active: bool)

  const FREE_NODE: OrderNode := OrderNode(0, 0, 0, NPOS, NPOS, false)

  datatype PriceLevel = PriceLevel(totalQuantity: U64, orderCount: nat, head: nat, tail: nat)

  const EMPTY_LEVEL: PriceLevel := PriceLevel(0, 0, NPOS, NPOS)

  datatype OrderRecord = OrderRecord(
    side: Side, price: I64, timestamp: I64, quantity: U64, nodeIndex: nat)

  datatype Store = Store(
    nodes: seq<OrderNode>,
    free: seq<nat>,
    bids: map<I64, PriceLevel>,
    asks: map<I64, PriceLevel>,
    lookup: map<U64, OrderRecord>)
  {
    function Levels(side: Side): map<I64, PriceLevel> {
      if side.Buy? then bids else asks
    }
  }

  // ----- the shape -----

  /** The nodes that hold the orders of a queue, front to back. */
  function Chain(lookup: map<U64, OrderRecord>, q: seq<Order>): (c: seq<nat>)
    ensures |c| == |q|
  {
    seq(|q|, i requires 0 <= i < |q| => if q[i].id in lookup then lookup[q[i].id].nodeIndex else NPOS)
  }

  function Link(c: seq<nat>, i: int): nat {
    if 0 <= i < |c| then c[i] else NPOS
  }

  /** Following next from the front visits the chain in order, following prev from the back visits it
      in reverse, and both end in NPOS. */
  ghost predicate Threaded(nodes: seq<OrderNode>, c: seq<nat>) {
    forall i {:trigger ThreadedAt(nodes, c, i)} :: 0 <= i < |c| ==> ThreadedAt(nodes, c, i)
  }

  ghost predicate ThreadedAt(nodes: seq<OrderNode>, c: seq<nat>, i: int)
    requires 0 <= i < |c|
  {
    c[i] < |nodes| && nodes[c[i]].prev == Link(c, i - 1) && nodes[c[i]].next == Link(c, i + 1)
  }

  /** The lookup record and the node of a live order both say what the order says. */
  ghost predicate Filed(nodes: seq<OrderNode>, lookup: map<U64, OrderRecord>, o: Order) {
    && o.id in lookup
    && var r := lookup[o.id];
    && r == OrderRecord(o.side, o.price, o.timestamp, o.quantity, r.nodeIndex)
    && r.nodeIndex < |nodes|
    && var n := nodes[r.nodeIndex];
    && n == OrderNode(o.id, o.timestamp, o.quantity, n.prev, n.next, true)
  }

  ghost predicate LevelOk(s: Store, live: seq<Order>, side: Side, price: I64) {
    var q := Queue(live, side, price);
    var c := Chain(s.lookup, q);
    && Threaded(s.nodes, c)
    && (price in s.Levels(side) <==> q != [])
    && (q != [] ==> s.Levels(side)[price] == PriceLevel(Wrap(Sum(q)), |q|, c[0], c[|c| - 1]))
  }

  ghost predicate NoDuplicates(c: seq<nat>) {
    forall i, j :: 0 <= i < j < |c| ==> c[i] != c[j]
  }

  /** The free list names every unused node once, and every other node belongs to a live order. */
  ghost predicate FreeOk(s: Store) {
    && NoDuplicates(s.free)
    && (forall f :: f in s.free ==> f < |s.nodes| && s.nodes[f] == FREE_NODE)
    && (forall n :: 0 <= n < |s.nodes| && n !in s.free ==>
          s.nodes[n].orderId in s.lookup && s.lookup[s.nodes[n].orderId].nodeIndex == n)
    && |s.free| + |s.lookup| == |s.nodes|
  }

  ghost predicate LookupOk(s: Store, live: seq<Order>) {
    && (forall id :: id in s.lookup ==> HasId(live, id))
    && (forall o :: o in live ==> Filed(s.nodes, s.lookup, o))
    && |s.lookup| == |live|
  }

  ghost predicate Shape(s: Store, live: seq<Order>) {
    && WellFormed(live)
    && |s.nodes| < NPOS
    && LookupOk(s, live)
    && FreeOk(s)
    && (forall side, price :: LevelOk(s, live, side, price))
  }

  // ----- consequences of the shape -----

  lemma QueueFiled(s: Store, live: seq<Order>, side: Side, price: I64)
    requires Shape(s, live)
    ensures var q := Queue(live, side, price);
      && WellFormed(q)
      && (forall i :: 0 <= i < |q| ==>
            && q[i] in live && q[i].side == side && q[i].price == price
            && Filed(s.nodes, s.lookup, q[i])
            && Chain(s.lookup, q)[i] == s.lookup[q[i].id].nodeIndex)
      && NoDuplicates(Chain(s.lookup, q))
  {
    QueueMembers(live, side, price);
    QueueDistinct(live, side, price);
    var q := Queue(live, side, price);
    forall i | 0 <= i < |q| ensures q[i] in live && q[i].side == side && q[i].price == price {
      assert q[i] in q;
    }
  }

  /** A live order's position in its queue. */
  lemma QueuePosition(live: seq<Order>, o: Order) returns (k: nat)
    requires o in live
    ensures k < |Queue(live, o.side, o.price)| && Queue(live, o.side, o.price)[k] == o
  {
    QueueMembers(live, o.side, o.price);
    k :| k < |Queue(live, o.side, o.price)| && Queue(live, o.side, o.price)[k] == o;
  }

  // ----- pointer updates -----

  lemma CutAt<T>(s: seq<T>, k: nat, i: nat)
    requires k < |s| && i < |s| - 1
    ensures (s[..k] + s[k + 1..])[i] == s[if i < k then i else i + 1]
  {
  }

  /** The nodes after linking node n behind `tail`. */
  function Linked(nodes: seq<OrderNode>, tail: nat, n: nat): (r: seq<OrderNode>)
    requires n < |nodes| && (tail != NPOS ==> tail < |nodes|)
    ensures |r| == |nodes|
  {
    var own := nodes[n := nodes[n].(prev := tail, next := NPOS)];
    if tail != NPOS then own[tail := own[tail].(next := n)] else own
  }

  /** The nodes after bypassing node n. */
  function Unlinked(nodes: seq<OrderNode>, n: nat): (r: seq<OrderNode>)
    requires n < |nodes|
    requires nodes[n].prev != NPOS ==> nodes[n].prev < |nodes|
    requires nodes[n].next != NPOS ==> nodes[n].next < |nodes|
    ensures |r| == |nodes|
  {
    var prev, next := nodes[n].prev, nodes[n].next;
    var a := if prev != NPOS then nodes[prev := nodes[prev].(next := next)] else nodes;
    if next != NPOS then a[next := a[next].(prev := prev)] else a
  }

  function LevelAppended(level: PriceLevel, n: nat): PriceLevel {
    level.(head := if level.tail != NPOS then level.head else n, tail := n, orderCount := level.orderCount + 1)
  }

  function LevelUnlinked(level: PriceLevel, prev: nat, next: nat): PriceLevel
    requires level.orderCount > 0
  {
    level.(head := if prev != NPOS then level.head else next,
           tail := if next != NPOS then level.tail else prev,
           orderCount := level.orderCount - 1)
  }

  /** Linking a fresh node behind the last one extends the chain by it. */
  lemma LinkedThreads(nodes: seq<OrderNode>, c: seq<nat>, n: nat)
    requires |nodes| < NPOS && Threaded(nodes, c) && NoDuplicates(c)
    requires n < |nodes| && forall i :: 0 <= i < |c| ==> c[i] != n
    requires c != [] ==> c[|c| - 1] < |nodes|
    ensures Threaded(Linked(nodes, Link(c, |c| - 1), n), c + [n])
  {
    var r, d := Linked(nodes, Link(c, |c| - 1), n), c + [n];
    forall i | 0 <= i < |d| ensures ThreadedAt(r, d, i) {
      if i < |c| {
        assert ThreadedAt(nodes, c, i);
      }
    }
  }

  lemma UnlinkReady(nodes: seq<OrderNode>, c: seq<nat>, k: nat)
    requires Threaded(nodes, c) && k < |c|
    ensures c[k] < |nodes|
    ensures nodes[c[k]].prev == Link(c, k - 1) && nodes[c[k]].next == Link(c, k + 1)
    ensures nodes[c[k]].prev != NPOS ==> nodes[c[k]].prev < |nodes|
    ensures nodes[c[k]].next != NPOS ==> nodes[c[k]].next < |nodes|
  {
    assert ThreadedAt(nodes, c, k);
    if k > 0 { assert ThreadedAt(nodes, c, k - 1); }
    if k + 1 < |c| { assert ThreadedAt(nodes, c, k + 1); }
  }

  /** Bypassing the k-th node removes exactly it from the chain. */
  lemma UnlinkedThreads(nodes: seq<OrderNode>, c: seq<nat>, k: nat)
    requires |nodes| < NPOS && Threaded(nodes, c) && NoDuplicates(c) && k < |c|
    requires c[k] < |nodes|
    requires nodes[c[k]].prev != NPOS ==> nodes[c[k]].prev < |nodes|
    requires nodes[c[k]].next != NPOS ==> nodes[c[k]].next < |nodes|
    ensures Threaded(Unlinked(nodes, c[k]), c[..k] + c[k + 1..])
  {
    UnlinkReady(nodes, c, k);
    var r, d := Unlinked(nodes, c[k]), c[..k] + c[k + 1..];
    forall i | 0 <= i < |d| ensures ThreadedAt(r, d, i) {
      if i < k {
        assert ThreadedAt(nodes, c, i);
      } else {
        assert ThreadedAt(nodes, c, i + 1);
      }
    }
  }

  lemma ThreadedFrame(nodes: seq<OrderNode>, nodes': seq<OrderNode>, c: seq<nat>)
    requires Threaded(nodes, c) && |nodes'| == |nodes|
    requires forall i :: 0 <= i < |c| ==> c[i] < |nodes|
    requires forall i :: 0 <= i < |c| ==>
      nodes'[c[i]].prev == nodes[c[i]].prev && nodes'[c[i]].next == nodes[c[i]].next
    ensures Threaded(nodes', c)
  {
    forall i | 0 <= i < |c| ensures ThreadedAt(nodes', c, i) {
      assert ThreadedAt(nodes, c, i);
    }
  }

  lemma ShapedLedger(s: Store, live: seq<Order>)
    requires Shape(s, live)
    ensures WellFormed(live)
  {
  }
}
