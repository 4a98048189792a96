/** When the memory of a pooled book is coherent, said without reference to how it came about: it may
    be any memory at all, with cyclic or dangling links. */
module PooledCoherence {
  import opened Types
  import opened Ledger
  import opened PooledShape
  import Assembly
  import PooledSteps
  import Views

  /** Node n is in use and agrees with the lookup record of its order. */
  ghost predicate NodeFiled(s: Store, side: Side, price: I64, n: nat) {
    && n < |s.nodes|
    && var node := s.nodes[n];
    && node.active && node.quantity != 0
    && node.orderId in s.lookup
    && s.lookup[node.orderId] == OrderRecord(side, price, node.timestamp, node.quantity, n)
  }

  ghost function NodeSum(nodes: seq<OrderNode>, c: seq<nat>): nat
    requires forall i :: 0 <= i < |c| ==> c[i] < |nodes|
  {
    if c == [] then 0 else NodeSum(nodes, c[..|c| - 1]) + nodes[c[|c| - 1]].quantity
  }

  /** c is the doubly linked chain of the level at this side and price. */
  ghost predicate LevelChain(s: Store, side: Side, price: I64, c: seq<nat>) {
    && price in s.Levels(side)
    && var level := s.Levels(side)[price];
    && c != [] && level.head == c[0] && level.tail == c[|c| - 1] && level.orderCount == |c|
    && Threaded(s.nodes, c)
    && (forall i :: 0 <= i < |c| ==> NodeFiled(s, side, price, c[i]))
    && level.totalQuantity == Wrap(NodeSum(s.nodes, c))
  }

  ghost predicate HasChain(s: Store, side: Side, price: I64)
    ensures HasChain(s, side, price) ==> price in s.Levels(side)
  {
    exists c :: LevelChain(s, side, price, c)
  }

  /** The node named by the lookup record of this id is on the chain of the record's level. */
  ghost predicate OnChain(s: Store, id: U64)
    requires id in s.lookup
  {
    var r := s.lookup[id];
    exists c :: LevelChain(s, r.side, r.price, c) && r.nodeIndex in c && s.nodes[r.nodeIndex].orderId == id
  }

  ghost predicate SideCoherent(s: Store, side: Side) {
    forall price :: price in s.Levels(side) ==> HasChain(s, side, price)
  }

  /** Every level has its chain, and every lookup record leads to a node of its level's chain. */
  ghost predicate Coherent(s: Store) {
    && SideCoherent(s, Buy)
    && SideCoherent(s, Sell)
    && (forall id :: id in s.lookup ==> OnChain(s, id))
  }

  // ----- walking from the head -----

  function Cursor(nodes: seq<OrderNode>, head: nat, v: seq<nat>): nat
    requires v != [] ==> v[|v| - 1] < |nodes|
  {
    if v == [] then head else nodes[v[|v| - 1]].next
  }

  /** v lists the nodes met when following next from the head. */
  ghost predicate Path(nodes: seq<OrderNode>, head: nat, v: seq<nat>)
    ensures Path(nodes, head, v) && v != [] ==> v[|v| - 1] < |nodes|
  {
    v == [] ||
    var init, last := v[..|v| - 1], v[|v| - 1];
    Path(nodes, head, init) && last < |nodes| && last == Cursor(nodes, head, init)
  }

  lemma {:induction false} ChainIsPath(s: Store, side: Side, price: I64, c: seq<nat>, k: nat)
    requires LevelChain(s, side, price, c) && k <= |c|
    ensures var head := s.Levels(side)[price].head;
      Path(s.nodes, head, c[..k]) && Cursor(s.nodes, head, c[..k]) == Link(c, k)
  {
    if k > 0 {
      ChainIsPath(s, side, price, c, k - 1);
      assert c[..k][..k - 1] == c[..k - 1];
      assert ThreadedAt(s.nodes, c, k - 1);
    }
  }

  /** Every walk from the head of a level stays on the chain of that level. */
  lemma {:induction false} PathOnChain(s: Store, side: Side, price: I64, c: seq<nat>, v: seq<nat>)
    requires |s.nodes| < NPOS && LevelChain(s, side, price, c)
    requires Path(s.nodes, s.Levels(side)[price].head, v)
    ensures |v| <= |c| && v == c[..|v|]
    ensures Cursor(s.nodes, s.Levels(side)[price].head, v) == Link(c, |v|)
  {
    if v != [] {
      PathOnChain(s, side, price, c, v[..|v| - 1]);
      ChainIsPath(s, side, price, c, |v|);
      assert v == c[..|v|];
    }
  }

  // ----- chains cannot loop or share nodes -----

  /** Two positions of a chain that name the same node are the same position. */
  lemma {:induction false} ThreadedInjective(nodes: seq<OrderNode>, c: seq<nat>, i: nat, j: nat)
    requires Threaded(nodes, c) && |nodes| < NPOS && i <= j < |c| && c[i] == c[j]
    ensures i == j
  {
    assert ThreadedAt(nodes, c, i) && ThreadedAt(nodes, c, j);
    assert j > 0 ==> ThreadedAt(nodes, c, j - 1);
    if i > 0 {
      ThreadedInjective(nodes, c, i - 1, j - 1);
    }
  }

  /** A level has at most one chain, chains of different levels are disjoint, none visits a node twice. */
  lemma ChainsDisjoint(s: Store, side: Side, price: I64, c: seq<nat>, i: nat,
                       side': Side, price': I64, c': seq<nat>, i': nat)
    requires |s.nodes| < NPOS
    requires LevelChain(s, side, price, c) && i < |c|
    requires LevelChain(s, side', price', c') && i' < |c'| && c[i] == c'[i']
    ensures side == side' && price == price' && c == c' && i == i'
  {
    assert NodeFiled(s, side, price, c[i]) && NodeFiled(s, side', price', c'[i']);
    ChainIsPath(s, side, price, c, |c|);
    ChainIsPath(s, side', price', c', |c'|);
    assert c[..|c|] == c && c'[..|c'|] == c';
    PathOnChain(s, side, price, c, c');
    PathOnChain(s, side, price, c', c);
    if i <= i' { ThreadedInjective(s.nodes, c, i, i'); } else { ThreadedInjective(s.nodes, c, i', i); }
  }

  // ----- the checks of one iteration -----

  /** What the validator checks about the node under the cursor before it moves on. */
  ghost predicate Passes(s: Store, side: Side, price: I64, v: seq<nat>, index: nat, seen: set<U64>) {
    NodeFiled(s, side, price, index) && s.nodes[index].prev == Link(v, |v| - 1) && s.nodes[index].orderId !in seen
  }

  /** The ids of a walk whose nodes are all filed. */
  ghost function IdsOf(nodes: seq<OrderNode>, v: seq<nat>): set<U64>
    requires forall i :: 0 <= i < |v| ==> v[i] < |nodes|
  {
    if v == [] then {} else IdsOf(nodes, v[..|v| - 1]) + {nodes[v[|v| - 1]].orderId}
  }

  lemma {:induction false} IdsMembers(nodes: seq<OrderNode>, v: seq<nat>, id: U64)
    requires forall i :: 0 <= i < |v| ==> v[i] < |nodes|
    ensures id in IdsOf(nodes, v) <==> exists i :: 0 <= i < |v| && nodes[v[i]].orderId == id
  {
    if v != [] {
      var w := v[..|v| - 1];
      IdsMembers(nodes, w, id);
      assert forall i :: 0 <= i < |w| ==> w[i] == v[i];
    }
  }

  /** If the level has a chain then the walk is a prefix of it, and while the cursor is not past its end
      every check passes. */
  lemma ChainPasses(s: Store, side: Side, price: I64, c: seq<nat>, v: seq<nat>, seen: set<U64>)
    requires |s.nodes| < NPOS && LevelChain(s, side, price, c)
    requires Path(s.nodes, s.Levels(side)[price].head, v)
    requires forall i :: 0 <= i < |v| ==> NodeFiled(s, side, price, v[i])
    requires forall id :: id in seen ==> id in s.lookup && (s.lookup[id].side != side || s.lookup[id].price != price)
    ensures |v| <= |c| && v == c[..|v|]
    ensures var index := Cursor(s.nodes, s.Levels(side)[price].head, v);
      && index == Link(c, |v|)
      && (|v| < |c| ==> Passes(s, side, price, v, index, seen + IdsOf(s.nodes, v)))
  {
    PathOnChain(s, side, price, c, v);
    if |v| < |c| {
      var n := c[|v|];
      assert NodeFiled(s, side, price, n) && ThreadedAt(s.nodes, c, |v|);
      IdsMembers(s.nodes, v, s.nodes[n].orderId);
      if s.nodes[n].orderId in IdsOf(s.nodes, v) {
        var i :| 0 <= i < |v| && s.nodes[v[i]].orderId == s.nodes[n].orderId;
        assert NodeFiled(s, side, price, v[i]) && c[i] == n;
        ThreadedInjective(s.nodes, c, i, |v|);
      }
    }
  }

  /** A walk that passed every check so far and has its cursor at index. */
  ghost predicate Walking(s: Store, side: Side, price: I64, v: seq<nat>, index: nat) {
    && |s.nodes| < NPOS && price in s.Levels(side)
    && Path(s.nodes, s.Levels(side)[price].head, v) && index == Cursor(s.nodes, s.Levels(side)[price].head, v)
    && (forall i :: 0 <= i < |v| ==> NodeFiled(s, side, price, v[i]))
    && (forall i :: 0 <= i < |v| ==> s.nodes[v[i]].prev == Link(v, i - 1))
  }

  lemma {:induction false} PathNext(nodes: seq<OrderNode>, head: nat, v: seq<nat>, i: nat)
    requires Path(nodes, head, v) && i < |v|
    ensures v[i] < |nodes| && v[0] == head
    ensures i + 1 < |v| ==> nodes[v[i]].next == v[i + 1]
  {
    if i + 1 < |v| {
      PathNext(nodes, head, v[..|v| - 1], if i + 2 == |v| then 0 else i);
    } else if |v| > 1 {
      PathNext(nodes, head, v[..|v| - 1], 0);
    }
  }

  /** A walk that ran off the end of the links is the chain of its level exactly when tail, count and total
      agree with it. */
  lemma FinishedIsChain(s: Store, side: Side, price: I64, v: seq<nat>)
    requires Walking(s, side, price, v, NPOS) && v != []
    ensures var level := s.Levels(side)[price];
      level.tail == v[|v| - 1] && level.orderCount == |v| && level.totalQuantity == Wrap(NodeSum(s.nodes, v))
      <==> HasChain(s, side, price)
    ensures forall c :: LevelChain(s, side, price, c) ==> c == v
  {
    var head := s.Levels(side)[price].head;
    forall i | 0 <= i < |v| ensures ThreadedAt(s.nodes, v, i) {
      PathNext(s.nodes, head, v, i);
    }
    PathNext(s.nodes, head, v, 0);
    forall c | LevelChain(s, side, price, c) ensures c == v {
      PathOnChain(s, side, price, c, v);
      assert NodeFiled(s, side, price, c[if |v| < |c| then |v| else 0]);
    }
    var level := s.Levels(side)[price];
    if level.tail == v[|v| - 1] && level.orderCount == |v| && level.totalQuantity == Wrap(NodeSum(s.nodes, v)) {
      assert LevelChain(s, side, price, v);
    }
  }

  /** The ids a level contributes to the validator's set of seen ids. */
  lemma ChainIds(s: Store, side: Side, price: I64, c: seq<nat>, id: U64)
    requires |s.nodes| < NPOS && LevelChain(s, side, price, c)
    ensures id in IdsOf(s.nodes, c) <==>
      id in s.lookup && s.lookup[id].side == side && s.lookup[id].price == price && OnChain(s, id)
  {
    IdsMembers(s.nodes, c, id);
    if id in IdsOf(s.nodes, c) {
      var i :| 0 <= i < |c| && s.nodes[c[i]].orderId == id;
      assert NodeFiled(s, side, price, c[i]);
    }
    if id in s.lookup && s.lookup[id].side == side && s.lookup[id].price == price && OnChain(s, id) {
      var d :| LevelChain(s, side, price, d) && s.lookup[id].nodeIndex in d
        && s.nodes[s.lookup[id].nodeIndex].orderId == id;
      var j :| 0 <= j < |d| && d[j] == s.lookup[id].nodeIndex;
      ChainIsPath(s, side, price, d, |d|);
      assert d[..|d|] == d;
      PathOnChain(s, side, price, c, d);
      assert c[j] == d[j];
    }
  }

  /** Levels, links, nodes and lookup table hold this ledger; the free list is not looked at. */
  ghost predicate Represents(s: Store, live: seq<Order>) {
    && WellFormed(live)
    && (forall id :: id in s.lookup ==> HasId(live, id))
    && (forall o :: o in live ==> Filed(s.nodes, s.lookup, o))
    && (forall side, price :: LevelOk(s, live, side, price))
  }

  lemma RepresentedChain(s: Store, live: seq<Order>, side: Side, price: I64)
    requires Represents(s, live) && price in s.Levels(side)
    ensures LevelChain(s, side, price, Chain(s.lookup, Queue(live, side, price)))
  {
    hide Queue, Sum, Wrap;
    var q := Queue(live, side, price);
    var c := Chain(s.lookup, q);
    assert LevelOk(s, live, side, price);
    QueueMembers(live, side, price);
    QueueDistinct(live, side, price);
    forall i | 0 <= i < |c| ensures NodeFiled(s, side, price, c[i]) && s.nodes[c[i]].quantity == q[i].quantity {
      assert q[i] in q && Filed(s.nodes, s.lookup, q[i]);
    }
    NodeSumIsSum(s, c, q);
  }

  lemma RepresentedId(s: Store, live: seq<Order>, id: U64)
    requires Represents(s, live) && id in s.lookup
    ensures OnChain(s, id)
  {
    hide Queue, Sum, Wrap;
    var o := OrderOf(live, id);
    var q := Queue(live, o.side, o.price);
    assert Filed(s.nodes, s.lookup, o) && LevelOk(s, live, o.side, o.price);
    var k := QueuePosition(live, o);
    RepresentedChain(s, live, o.side, o.price);
    assert Chain(s.lookup, q)[k] == s.lookup[id].nodeIndex;
  }

  lemma RepresentedIsCoherent(s: Store, live: seq<Order>)
    requires Represents(s, live)
    ensures Coherent(s)
  {
    hide LevelOk, OnChain, Represents, LevelChain;
    forall side, price | price in s.Levels(side) ensures HasChain(s, side, price) {
      RepresentedChain(s, live, side, price);
    }
    forall id | id in s.lookup ensures OnChain(s, id) {
      RepresentedId(s, live, id);
    }
  }

  /** Every reachable memory is coherent. */
  lemma ShapeIsCoherent(s: Store, live: seq<Order>)
    requires Shape(s, live)
    ensures Coherent(s)
  {
    hide LevelOk, Coherent;
    RepresentedIsCoherent(s, live);
  }

  // ----- a coherent memory is the memory of a ledger -----

  ghost function ChainOf(s: Store, side: Side, price: I64): (c: seq<nat>)
    requires HasChain(s, side, price)
    ensures LevelChain(s, side, price, c)
  {
    var c :| LevelChain(s, side, price, c);
    c
  }

  ghost function OrderOn(s: Store, side: Side, price: I64, n: nat): Order
    requires n < |s.nodes|
  {
    Order(s.nodes[n].orderId, side, price, s.nodes[n].timestamp, s.nodes[n].quantity)
  }

  ghost function OrdersOn(s: Store, side: Side, price: I64): (q: seq<Order>)
    requires HasChain(s, side, price)
    ensures |q| == |ChainOf(s, side, price)|
  {
    var c := ChainOf(s, side, price);
    ChainNodes(s, side, price, c);
    seq(|c|, i requires 0 <= i < |c| => OrderOn(s, side, price, c[i]))
  }

  lemma ChainNodes(s: Store, side: Side, price: I64, c: seq<nat>)
    requires LevelChain(s, side, price, c)
    ensures forall i :: 0 <= i < |c| ==> c[i] < |s.nodes|
  {
  }

  ghost function QueuesOf(s: Store, side: Side): map<I64, seq<Order>>
    requires SideCoherent(s, side)
  {
    map price | price in s.Levels(side) :: OrdersOn(s, side, price)
  }

  /** What is known of the i-th order of a level. */
  lemma OrderFiled(s: Store, side: Side, price: I64, i: nat)
    requires HasChain(s, side, price) && i < |ChainOf(s, side, price)|
    ensures var o, n := OrdersOn(s, side, price)[i], ChainOf(s, side, price)[i];
      && o.side == side && o.price == price && o.quantity > 0
      && Filed(s.nodes, s.lookup, o) && s.lookup[o.id].nodeIndex == n
  {
    assert NodeFiled(s, side, price, ChainOf(s, side, price)[i]);
  }

  lemma SameRecord(s: Store, o: Order, o': Order)
    requires Filed(s.nodes, s.lookup, o) && Filed(s.nodes, s.lookup, o')
    ensures o.id == o'.id ==> o == o'
  {
  }

  /** Orders of one id on chains are at the same place. */
  lemma OnePlace(s: Store, side: Side, price: I64, i: nat, side': Side, price': I64, i': nat)
    requires |s.nodes| < NPOS && HasChain(s, side, price) && HasChain(s, side', price')
    requires i < |ChainOf(s, side, price)| && i' < |ChainOf(s, side', price')|
    ensures OrdersOn(s, side, price)[i].id == OrdersOn(s, side', price')[i'].id ==>
      side == side' && price == price' && i == i'
  {
    hide LevelChain, Filed, NodeFiled;
    OrderFiled(s, side, price, i);
    OrderFiled(s, side', price', i');
    var o, o' := OrdersOn(s, side, price)[i], OrdersOn(s, side', price')[i'];
    SameRecord(s, o, o');
    if o.id == o'.id {
      ChainsDisjoint(s, side, price, ChainOf(s, side, price), i, side', price', ChainOf(s, side', price'), i');
    }
  }

  lemma QueuesFit(s: Store, side: Side)
    requires |s.nodes| < NPOS && SideCoherent(s, side)
    ensures Assembly.Queues(side, QueuesOf(s, side))
  {
    hide LevelChain, HasChain;
    var m: map<I64, seq<Order>> := QueuesOf(s, side);
    forall p: I64, i: int | p in m && 0 <= i < |m[p]| ensures m[p][i].side == side && m[p][i].price == p {
      OrderFiled(s, side, p, i);
    }
    forall p: I64, i: int, p': I64, i': int |
      p in m && p' in m && 0 <= i < |m[p]| && 0 <= i' < |m[p']| && m[p][i].id == m[p'][i'].id
      ensures p == p' && i == i'
    {
      OnePlace(s, side, p, i, side, p', i');
    }
  }

  lemma SidesApart(s: Store)
    requires |s.nodes| < NPOS && SideCoherent(s, Buy) && SideCoherent(s, Sell)
    ensures var bids, asks := QueuesOf(s, Buy), QueuesOf(s, Sell);
      forall p, i, p', i' :: p in bids && p' in asks && 0 <= i < |bids[p]| && 0 <= i' < |asks[p']| ==>
        bids[p][i].id != asks[p'][i'].id
  {
    hide LevelChain, HasChain;
    var bids: map<I64, seq<Order>>, asks: map<I64, seq<Order>> := QueuesOf(s, Buy), QueuesOf(s, Sell);
    forall p: I64, i: int, p': I64, i': int | p in bids && p' in asks && 0 <= i < |bids[p]| && 0 <= i' < |asks[p']|
      ensures bids[p][i].id != asks[p'][i'].id
    {
      OnePlace(s, Buy, p, i, Sell, p', i');
    }
  }

  lemma AssembledLevel(s: Store, live: seq<Order>, side: Side, price: I64)
    requires SideCoherent(s, side) && Queue(live, side, price) == Assembly.QueueOf(QueuesOf(s, side), price)
    ensures LevelOk(s, live, side, price)
  {
    hide Wrap, Queue, Sum, NodeSum;
    if price in s.Levels(side) {
      var c, q := ChainOf(s, side, price), OrdersOn(s, side, price);
      forall i | 0 <= i < |c| ensures Chain(s.lookup, q)[i] == c[i] {
        OrderFiled(s, side, price, i);
      }
      assert Chain(s.lookup, q) == c;
      NodeSumIsSum(s, c, q);
    }
  }

  lemma AssembledOrder(s: Store, o: Order)
    requires SideCoherent(s, o.side) && o in Assembly.QueueOf(QueuesOf(s, o.side), o.price)
    ensures Filed(s.nodes, s.lookup, o) && o.quantity > 0
  {
    hide LevelChain, Filed;
    var q := QueuesOf(s, o.side)[o.price];
    var i :| 0 <= i < |q| && q[i] == o;
    OrderFiled(s, o.side, o.price, i);
  }

  lemma OnChainLives(s: Store, live: seq<Order>, id: U64)
    requires |s.nodes| < NPOS && SideCoherent(s, Buy) && SideCoherent(s, Sell) && id in s.lookup && OnChain(s, id)
    requires forall side, price :: Queue(live, side, price) == Assembly.QueueOf(QueuesOf(s, side), price)
    ensures HasId(live, id)
  {
    hide Queue, HasId;
    var r := s.lookup[id];
    var c :| LevelChain(s, r.side, r.price, c) && r.nodeIndex in c && s.nodes[r.nodeIndex].orderId == id;
    var i :| 0 <= i < |c| && c[i] == r.nodeIndex;
    OneChain(s, r.side, r.price, c);
    var q := Queue(live, r.side, r.price);
    assert q == OrdersOn(s, r.side, r.price) && q[i].id == id && q[i] in q;
    QueueMembers(live, r.side, r.price);
    InLedger(live, q[i]);
  }

  lemma InLedger(live: seq<Order>, o: Order)
    requires o in live
    ensures HasId(live, o.id)
  {
    var j :| 0 <= j < |live| && live[j] == o;
  }

  lemma OneChain(s: Store, side: Side, price: I64, c: seq<nat>)
    requires |s.nodes| < NPOS && LevelChain(s, side, price, c)
    ensures ChainOf(s, side, price) == c && price in s.Levels(side)
  {
    var d := ChainOf(s, side, price);
    ChainIsPath(s, side, price, d, |d|);
    assert d[..|d|] == d;
    PathOnChain(s, side, price, c, d);
    ChainIsPath(s, side, price, c, |c|);
    assert c[..|c|] == c;
    PathOnChain(s, side, price, d, c);
  }

  /** Every coherent memory is the memory of a ledger. */
  lemma CoherentIsRepresented(s: Store) returns (live: seq<Order>)
    requires |s.nodes| < NPOS && Coherent(s)
    ensures Represents(s, live)
  {
    hide LevelChain, HasChain, Filed, QueuesOf, LevelOk, OnChain, Queue;
    QueuesFit(s, Buy);
    QueuesFit(s, Sell);
    var bids, asks := QueuesOf(s, Buy), QueuesOf(s, Sell);
    SidesApart(s);
    live := Assembly.Join(bids, asks);
    assert forall side :: SideCoherent(s, side) && QueuesOf(s, side) == if side.Buy? then bids else asks;
    forall side, price ensures LevelOk(s, live, side, price) {
      AssembledLevel(s, live, side, price);
    }
    forall o | o in live ensures Filed(s.nodes, s.lookup, o) && o.quantity > 0 {
      AssembledOrder(s, o);
    }
    forall i | 0 <= i < |live| ensures live[i].quantity > 0 {
      assert live[i] in live;
    }
    forall id | id in s.lookup ensures HasId(live, id) {
      OnChainLives(s, live, id);
    }
  }

  /** What the validator decides: a memory is coherent exactly when it is the memory of some ledger. */
  lemma CoherentExactly(s: Store)
    requires |s.nodes| < NPOS
    ensures Coherent(s) <==> exists live :: Represents(s, live)
  {
    hide Coherent, Represents;
    if Coherent(s) {
      var live := CoherentIsRepresented(s);
    }
    forall live | Represents(s, live) ensures Coherent(s) {
      RepresentedIsCoherent(s, live);
    }
  }

  lemma {:induction false} NodeSumIsSum(s: Store, c: seq<nat>, q: seq<Order>)
    requires |c| == |q|
    requires forall i :: 0 <= i < |c| ==> c[i] < |s.nodes| && s.nodes[c[i]].quantity == q[i].quantity
    ensures NodeSum(s.nodes, c) == Sum(q)
  {
    if q != [] {
      NodeSumIsSum(s, c[..|c| - 1], q[..|q| - 1]);
    }
  }

  // ----- the loop of the validator -----

  /** The seen ids that came from other levels. */
  ghost predicate Foreign(s: Store, side: Side, price: I64, seen: set<U64>) {
    forall id :: id in seen ==> id in s.lookup && (s.lookup[id].side != side || s.lookup[id].price != price)
  }

  lemma ChainEnds(s: Store, side: Side, price: I64)
    requires |s.nodes| < NPOS && HasChain(s, side, price)
    ensures var level := s.Levels(side)[price];
      level.orderCount != 0 && level.head != NPOS && level.tail != NPOS
  {
    var c :| LevelChain(s, side, price, c);
    assert NodeFiled(s, side, price, c[0]) && NodeFiled(s, side, price, c[|c| - 1]);
  }

  lemma WalkStart(s: Store, side: Side, price: I64)
    requires |s.nodes| < NPOS && price in s.Levels(side)
    ensures Walking(s, side, price, [], s.Levels(side)[price].head)
    ensures Wrap(NodeSum(s.nodes, [])) == 0 && IdsOf(s.nodes, []) == {}
  {
  }

  lemma MustPass(s: Store, side: Side, price: I64, v: seq<nat>, index: nat, seen: set<U64>)
    requires Walking(s, side, price, v, index) && index != NPOS && Foreign(s, side, price, seen)
    ensures HasChain(s, side, price) ==> Passes(s, side, price, v, index, seen + IdsOf(s.nodes, v))
  {
    forall c | LevelChain(s, side, price, c) ensures Passes(s, side, price, v, index, seen + IdsOf(s.nodes, v)) {
      ChainPasses(s, side, price, c, v, seen);
    }
  }

  lemma WalkOn(s: Store, side: Side, price: I64, v: seq<nat>, index: nat)
    requires Walking(s, side, price, v, index) && NodeFiled(s, side, price, index)
    requires s.nodes[index].prev == Link(v, |v| - 1)
    ensures Walking(s, side, price, v + [index], s.nodes[index].next)
  {
    var w := v + [index];
    assert w[..|w| - 1] == v;
    forall i | 0 <= i < |w|
      ensures NodeFiled(s, side, price, w[i]) && s.nodes[w[i]].prev == Link(w, i - 1)
    {
      assert i < |v| ==> w[i] == v[i];
    }
  }

  lemma WalkAdds(nodes: seq<OrderNode>, v: seq<nat>, index: nat)
    requires index < |nodes| && forall i :: 0 <= i < |v| ==> v[i] < |nodes|
    ensures IdsOf(nodes, v + [index]) == IdsOf(nodes, v) + {nodes[index].orderId}
    ensures NodeSum(nodes, v + [index]) == NodeSum(nodes, v) + nodes[index].quantity
  {
    assert (v + [index])[..|v|] == v;
  }

  lemma WalkEnded(s: Store, side: Side, price: I64, v: seq<nat>, seen: set<U64>)
    requires Walking(s, side, price, v, NPOS) && s.Levels(side)[price].head != NPOS
    ensures v != []
    ensures var level := s.Levels(side)[price];
      HasChain(s, side, price) <==>
        level.tail == v[|v| - 1] && level.orderCount == |v| && level.totalQuantity == Wrap(NodeSum(s.nodes, v))
    ensures HasChain(s, side, price) ==> forall id :: id in IdsOf(s.nodes, v) <==>
      id in s.lookup && s.lookup[id].side == side && s.lookup[id].price == price && OnChain(s, id)
  {
    FinishedIsChain(s, side, price, v);
    if c :| LevelChain(s, side, price, c) {
      forall id {
        ChainIds(s, side, price, c, id);
      }
    }
  }

  /** The seen ids after the first i levels of a side: those seen before, and those on these levels. */
  ghost predicate SeenSide(s: Store, side: Side, prices: seq<I64>, seen0: set<U64>, seen: set<U64>) {
    forall id :: id in seen <==>
      id in seen0 || (id in s.lookup && s.lookup[id].side == side && s.lookup[id].price in prices && OnChain(s, id))
  }

  lemma OnChainLevel(s: Store)
    ensures forall id :: id in s.lookup && OnChain(s, id) ==> s.lookup[id].price in s.Levels(s.lookup[id].side)
  {
  }

  lemma OnChainNode(s: Store, id: U64)
    requires id in s.lookup && OnChain(s, id)
    ensures s.lookup[id].nodeIndex < |s.nodes| && s.nodes[s.lookup[id].nodeIndex].active
    ensures s.lookup[id].price in s.Levels(s.lookup[id].side)
  {
    var r := s.lookup[id];
    var c :| LevelChain(s, r.side, r.price, c) && r.nodeIndex in c && s.nodes[r.nodeIndex].orderId == id;
    var i :| 0 <= i < |c| && c[i] == r.nodeIndex;
    assert NodeFiled(s, r.side, r.price, c[i]);
  }

  /** What the two ordered maps show first is the top of the book. */
  lemma FirstViews(s: Store, live: seq<Order>)
    requires Shape(s, live)
    ensures forall side :: s.Levels(side).Keys == Views.Prices(live, side)
    ensures forall side, price :: price in s.Levels(side) ==>
      PriceLevelView(price, s.Levels(side)[price].totalQuantity, s.Levels(side)[price].orderCount)
        == Views.ViewOf(live, side, price)
  {
    forall side ensures s.Levels(side).Keys == Views.Prices(live, side) {
      PooledSteps.LevelKeys(s, live, side);
    }
    forall side, price | price in s.Levels(side)
      ensures PriceLevelView(price, s.Levels(side)[price].totalQuantity, s.Levels(side)[price].orderCount)
        == Views.ViewOf(live, side, price)
    {
      PooledSteps.LevelView(s, live, side, price);
    }
  }

  /** On reachable memories the coherence part always holds, so only the crossing test can fail. */
  lemma ReachableVerdict(s: Store, live: seq<Order>)
    requires Shape(s, live)
    ensures Coherent(s)
    ensures Views.CrossedPrices(s.bids.Keys, s.asks.Keys) <==> Views.Crossed(live)
  {
    ShapeIsCoherent(s, live);
    PooledSteps.LevelKeys(s, live, Buy);
    PooledSteps.LevelKeys(s, live, Sell);
  }

  /** The pool in every reachable memory: a node is active exactly when it is on the chain of some level,
      the free list names each other node once, and the two together are the whole pool. */
  lemma PoolPartition(s: Store, live: seq<Order>, n: nat)
    requires Shape(s, live) && n < |s.nodes|
    ensures s.nodes[n].active <==> exists side, price, c :: LevelChain(s, side, price, c) && n in c
    ensures s.nodes[n].active <==> n !in s.free
    ensures NoDuplicates(s.free) && |s.free| + |live| == |s.nodes|
  {
    if n !in s.free {
      var id := s.nodes[n].orderId;
      ShapeIsCoherent(s, live);
      assert OnChain(s, id);
      OnChainNode(s, id);
    }
    if side, price, c :| LevelChain(s, side, price, c) && n in c {
      var i :| 0 <= i < |c| && c[i] == n;
      assert NodeFiled(s, side, price, c[i]);
    }
  }
}
