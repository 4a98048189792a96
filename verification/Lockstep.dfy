/** The pooled book is a forward simulation of the baseline book. */
module Lockstep {
  import opened Types
  import opened Ledger
  import Views
  import Checksum
  import History
  import Baseline = LimitOrderBook
  import Pooled = PooledLimitOrderBook

  function BoundedRun(s: State, capacity: nat, es: seq<MarketEvent>): State {
    if es == [] then s
    else BoundedStep(BoundedRun(s, capacity, es[..|es| - 1]), capacity, es[|es| - 1]).0
  }

  /** The n-th event is answered with CapacityExceeded by a pooled book started empty. */
  predicate Overflows(capacity: nat, es: seq<MarketEvent>, n: nat)
    requires n < |es|
  {
    BoundedStep(BoundedRun(EMPTY, capacity, es[..n]), capacity, es[n]).1 == CapacityExceeded
  }

  lemma {:induction false} BoundedRunFits(capacity: nat, es: seq<MarketEvent>)
    ensures |BoundedRun(EMPTY, capacity, es).live| <= capacity
    ensures WellFormed(BoundedRun(EMPTY, capacity, es).live)
  {
    if es != [] {
      var s, e := BoundedRun(EMPTY, capacity, es[..|es| - 1]), es[|es| - 1];
      BoundedRunFits(capacity, es[..|es| - 1]);
      StepWellFormed(s, e);
      if HasId(s.live, e.orderId) {
        WithoutWellFormed(s.live, e.orderId);
      }
    }
  }

  /** Until the first CapacityExceeded both books answer every event alike and hold the same ledger. */
  lemma {:induction false} ForwardSimulation(capacity: nat, es: seq<MarketEvent>, n: nat)
    requires n <= |es| && forall i :: 0 <= i < n ==> !Overflows(capacity, es, i)
    ensures BoundedRun(EMPTY, capacity, es[..n]) == Run(EMPTY, es[..n])
    ensures forall i :: 0 <= i < n ==>
      BoundedStep(BoundedRun(EMPTY, capacity, es[..i]), capacity, es[i]) == Step(Run(EMPTY, es[..i]), es[i])
  {
    hide Step, HasId;
    if n > 0 {
      ForwardSimulation(capacity, es, n - 1);
      assert es[..n][..n - 1] == es[..n - 1];
      assert !Overflows(capacity, es, n - 1);
    }
  }

  /** CapacityExceeded is the answer exactly for an add of positive quantity and a non-live id while the
      live orders fill the pool, and it changes nothing. */
  lemma OverflowExactly(capacity: nat, es: seq<MarketEvent>, n: nat)
    requires n < |es|
    ensures var s := BoundedRun(EMPTY, capacity, es[..n]);
      && (Overflows(capacity, es, n) <==>
            es[n].eventType.Add? && es[n].quantity > 0 && !HasId(s.live, es[n].orderId) && |s.live| == capacity)
      && (Overflows(capacity, es, n) ==> BoundedRun(EMPTY, capacity, es[..n + 1]) == s)
  {
    BoundedRunFits(capacity, es[..n]);
    assert es[..n + 1][..n] == es[..n];
  }

  /** The events of a run that were not answered with CapacityExceeded. */
  function Admissible(capacity: nat, es: seq<MarketEvent>): seq<MarketEvent> {
    if es == [] then []
    else
      var init := es[..|es| - 1];
      var s, e := BoundedRun(EMPTY, capacity, init), es[|es| - 1];
      Admissible(capacity, init) + if BoundedStep(s, capacity, e).1 == CapacityExceeded then [] else [e]
  }

  /** Also beyond a CapacityExceeded the pooled book is a baseline book that never received the events it
      refused, so what holds over whole baseline runs holds over whole pooled runs. */
  lemma {:induction false} RefusedEventsVanish(capacity: nat, es: seq<MarketEvent>)
    ensures BoundedRun(EMPTY, capacity, es) == Run(EMPTY, Admissible(capacity, es))
  {
    hide Step, HasId;
    if es != [] {
      var init, e := es[..|es| - 1], es[|es| - 1];
      RefusedEventsVanish(capacity, init);
      var s, kept := BoundedRun(EMPTY, capacity, init), Admissible(capacity, init);
      StepNeverOverflows(s, e);
      assert (kept + [e])[..|kept|] == kept;
      assert kept + [] == kept;
    }
  }

  /** Quantity is conserved over whole pooled runs: refused events have no share in it. */
  lemma PooledQuantityConserved(capacity: nat, es: seq<MarketEvent>)
    ensures var a := History.Tally(EMPTY, Admissible(capacity, es));
      a.added == Sum(BoundedRun(EMPTY, capacity, es).live) + a.executed + a.cancelled + a.reduced
  {
    RefusedEventsVanish(capacity, es);
    History.QuantityConserved(EMPTY, Admissible(capacity, es));
    assert Sum([]) == 0;
  }

  /** Compares everything two books show. Books that hold the same ledger show the same. */
  method CompareViews(baseline: Baseline.LimitOrderBook, pooled: Pooled.PooledLimitOrderBook, levels: nat, price: I64)
      returns (same: bool)
    requires baseline.Valid() && pooled.Valid() && baseline.Book() == pooled.Book()
    ensures same
  {
    hide Baseline.LimitOrderBook.Valid, Pooled.PooledLimitOrderBook.Valid;
    hide Views.Top, Views.Depth, Views.Snapshot, Queue, Checksum.Fnv, Checksum.SnapshotBytes;
    var top := baseline.TopOfBook();
    var top' := pooled.TopOfBook();
    var depth := baseline.Depth(levels);
    var depth' := pooled.Depth(levels);
    var snapshot := baseline.Snapshot();
    var snapshot' := pooled.Snapshot();
    var checksum := Checksum.ChecksumSnapshot(snapshot);
    var checksum' := Checksum.ChecksumSnapshot(snapshot');
    var bids := baseline.OrderIdsAtPrice(Buy, price);
    var bids' := pooled.OrderIdsAtPrice(Buy, price);
    var asks := baseline.OrderIdsAtPrice(Sell, price);
    var asks' := pooled.OrderIdsAtPrice(Sell, price);
    LiveCounts(baseline, pooled);
    same := checksum == checksum' && top == top' && depth == depth' && snapshot == snapshot'
      && bids == bids' && asks == asks'
      && baseline.LiveOrderCount() == pooled.LiveOrderCount()
      && baseline.eventsApplied == pooled.eventsApplied;
  }

  /** Drives both books with the same events and compares their answers and everything they show. It
      stops at the first CapacityExceeded; up to there the two cannot be told apart. */
  method CompareBooks(baseline: Baseline.LimitOrderBook, pooled: Pooled.PooledLimitOrderBook, es: seq<MarketEvent>,
                      levels: nat, price: I64)
      returns (same: bool, n: nat)
    requires baseline.Valid() && pooled.Valid()
    requires baseline.Book() == EMPTY && pooled.Book() == EMPTY
    modifies baseline, pooled, pooled.nodes
    ensures baseline.Valid() && pooled.Valid()
    ensures same && n <= |es|
    ensures n < |es| ==> Overflows(pooled.Capacity(), es, n)
    ensures forall i :: 0 <= i < n ==> !Overflows(pooled.Capacity(), es, i)
    ensures pooled.Book() == Run(EMPTY, es[..n])
    ensures baseline.Book() == if n == |es| then Run(EMPTY, es) else Run(EMPTY, es[..n + 1])
  {
    hide Baseline.LimitOrderBook.Valid, Pooled.PooledLimitOrderBook.Valid;
    hide Baseline.LimitOrderBook.Book, Pooled.PooledLimitOrderBook.Book;
    hide Run, Step, BoundedStep, BoundedRun, Overflows;
    same, n := true, 0;
    StartEmpty(es);
    while n < |es|
      invariant 0 <= n <= |es| && same
      invariant baseline.Valid() && pooled.Valid()
      invariant forall i :: 0 <= i < n ==> !Overflows(pooled.Capacity(), es, i)
      invariant baseline.Book() == Run(EMPTY, es[..n]) && pooled.Book() == Run(EMPTY, es[..n])
      decreases |es| - n
    {
      ForwardSimulation(pooled.Capacity(), es, n);
      OneStep(pooled.Capacity(), es, n);
      var a := baseline.Apply(es[n]);
      var b := pooled.Apply(es[n]);
      if b == CapacityExceeded {
        assert n + 1 == |es| ==> es[..n + 1] == es;
        return;
      }
      var alike := CompareViews(baseline, pooled, levels, price);
      same := a == b && alike;
      n := n + 1;
    }
    assert es[..n] == es;
  }

  lemma StartEmpty(es: seq<MarketEvent>)
    ensures Run(EMPTY, es[..0]) == EMPTY
  {
  }

  lemma StepNeverOverflows(s: State, e: MarketEvent)
    ensures Step(s, e).1 != CapacityExceeded
  {
  }

  lemma LiveCounts(baseline: Baseline.LimitOrderBook, pooled: Pooled.PooledLimitOrderBook)
    requires baseline.Valid() && pooled.Valid()
    ensures |baseline.orderLookup| == |baseline.live| && |pooled.orderLookup| == |pooled.live|
  {
  }

  lemma OneStep(capacity: nat, es: seq<MarketEvent>, n: nat)
    requires n < |es| && BoundedRun(EMPTY, capacity, es[..n]) == Run(EMPTY, es[..n])
    ensures var s := Run(EMPTY, es[..n]);
      && Run(EMPTY, es[..n + 1]) == Step(s, es[n]).0
      && Overflows(capacity, es, n) == (BoundedStep(s, capacity, es[n]).1 == CapacityExceeded)
      && (if Overflows(capacity, es, n) then BoundedStep(s, capacity, es[n]).0 == s
          else BoundedStep(s, capacity, es[n]) == Step(s, es[n]))
  {
    hide Step, HasId;
    StepNeverOverflows(Run(EMPTY, es[..n]), es[n]);
    assert es[..n + 1][..n] == es[..n];
  }
}
