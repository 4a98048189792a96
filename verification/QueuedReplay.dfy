/** A producer thread that pushes an event list through the ring buffer and a consumer thread that pops
    and applies to a book, against the loop that applies the list directly. */
module QueuedReplay {
  import opened Types
  import Ledger
  import History
  import Queue = SpscProtocol
  import opened Words
  import Baseline = LimitOrderBook

  /** The consumer applies an event after its pop has returned and before it pops again. */
  datatype System = System(
    queue: Queue.State, book: Ledger.State, pending: Option<MarketEvent>, consumed: nat, failed: bool)

  datatype Step = QueueStep(step: Queue.Step) | ApplyStep

  ghost predicate Start(s: System, capacity: U64) {
    Queue.Start(s.queue, capacity) && s == System(s.queue, Ledger.EMPTY, None, 0, false)
  }

  /** The producer pushes the next event until that succeeds; the consumer pops while it has consumed
      fewer events than there are. */
  ghost predicate Enabled(s: System, capacity: U64, events: seq<MarketEvent>, step: Step) {
    match step
    case ApplyStep => s.pending.Some?
    case QueueStep(q) =>
      && Queue.Typed(s.queue, capacity) && Queue.Enabled(s.queue, capacity, q)
      && (q.BeginPush? ==> |s.queue.pushed| < |events| && q.event == events[|s.queue.pushed|])
      && (q.BeginPop? ==> s.pending.None? && s.consumed < |events|)
  }

  ghost function Next(s: System, capacity: U64, events: seq<MarketEvent>, step: Step): System
    requires Enabled(s, capacity, events, step)
  {
    match step
    case ApplyStep =>
      var (book, result) := Ledger.Step(s.book, s.pending.value);
      s.(book := book, pending := None, consumed := s.consumed + 1, failed := s.failed || result != Applied)
    case QueueStep(q) =>
      s.(queue := Queue.Next(s.queue, capacity, q),
         pending := if q.PublishRead? then Some(s.queue.consumer.out) else s.pending)
  }

  // ----- the invariant -----

  ghost predicate Rejects(events: seq<MarketEvent>, i: nat)
    requires i < |events|
  {
    Ledger.Step(Ledger.Run(Ledger.EMPTY, events[..i]), events[i]).1 != Applied
  }

  ghost predicate AnyRejected(events: seq<MarketEvent>, n: nat)
    requires n <= |events|
  {
    exists i :: 0 <= i < n && Rejects(events, i)
  }

  ghost predicate Inv(s: System, capacity: U64, events: seq<MarketEvent>) {
    && Queue.Inv(s.queue, capacity)
    && |s.queue.pushed| <= |events| && s.queue.pushed == events[..|s.queue.pushed|]
    && (match s.queue.producer
        case Idle => true
        case LoadedWrite(e, _) => |s.queue.pushed| < |events| && e == events[|s.queue.pushed|]
        case LoadedRead(e, _, _) => |s.queue.pushed| < |events| && e == events[|s.queue.pushed|]
        case WroteSlot(e, _) => |s.queue.pushed| < |events| && e == events[|s.queue.pushed|])
    && |s.queue.popped| == s.consumed + (if s.pending.Some? then 1 else 0)
    && (!s.queue.consumer.Resting? ==> s.pending.None? && s.consumed < |events|)
    && (s.pending.Some? ==> s.queue.consumer.Resting? && s.pending.value == events[s.consumed])
    && s.consumed <= |events|
    && s.book == Ledger.Run(Ledger.EMPTY, events[..s.consumed])
    && (s.failed <==> AnyRejected(events, s.consumed))
  }

  lemma StartInv(s: System, capacity: U64, events: seq<MarketEvent>)
    requires IsPow2(capacity) && Start(s, capacity)
    ensures Inv(s, capacity, events)
  {
    Queue.StartInv(s.queue, capacity);
  }

  lemma ApplyInv(s: System, capacity: U64, events: seq<MarketEvent>)
    requires Inv(s, capacity, events) && Enabled(s, capacity, events, ApplyStep)
    ensures Inv(Next(s, capacity, events, ApplyStep), capacity, events)
  {
    hide Ledger.Step, Queue.Inv;
    PoppedFit(s.queue, capacity);
    var n := s.consumed;
    assert events[..n + 1][..n] == events[..n];
    assert Rejects(events, n) <==> Ledger.Step(s.book, s.pending.value).1 != Applied;
  }

  lemma PoppedFit(q: Queue.State, capacity: U64)
    requires Queue.Inv(q, capacity)
    ensures |q.popped| <= |q.pushed|
  {
  }

  /** What a queue step may do to the parts the system invariant speaks about. */
  lemma QueueStepInv(s: System, capacity: U64, events: seq<MarketEvent>, q: Queue.Step)
    requires Inv(s, capacity, events) && Enabled(s, capacity, events, QueueStep(q))
    ensures Inv(Next(s, capacity, events, QueueStep(q)), capacity, events)
  {
    hide Ledger.Run, AnyRejected, Queue.Inv, Slot;
    Queue.NextInv(s.queue, capacity, q);
    if q.PublishWrite? {
      var n := |s.queue.pushed|;
      assert events[..n + 1] == events[..n] + [events[n]];
    }
    if q.PublishRead? {
      PublishedIs(s.queue, capacity);
    }
  }

  lemma PublishedIs(q: Queue.State, capacity: U64)
    requires Queue.Inv(q, capacity) && q.consumer.CopiedSlot?
    ensures |q.popped| < |q.pushed| && q.consumer.out == q.pushed[|q.popped|]
  {
  }

  ghost predicate Run(states: seq<System>, steps: seq<Step>, capacity: U64, events: seq<MarketEvent>) {
    && |states| == |steps| + 1
    && forall i :: 0 <= i < |steps| ==>
         Enabled(states[i], capacity, events, steps[i])
         && states[i + 1] == Next(states[i], capacity, events, steps[i])
  }

  lemma {:induction false} RunInv(
      states: seq<System>, steps: seq<Step>, capacity: U64, events: seq<MarketEvent>, n: nat)
    requires IsPow2(capacity) && Run(states, steps, capacity, events) && Start(states[0], capacity) && n < |states|
    ensures Inv(states[n], capacity, events)
  {
    hide Inv, Next, Enabled, Start;
    if n == 0 {
      StartInv(states[0], capacity, events);
    } else {
      RunInv(states, steps, capacity, events, n - 1);
      StepInv(states[n - 1], capacity, events, steps[n - 1]);
    }
  }

  // ----- queued replay equals direct application -----

  /** For every event list, capacity, interleaving and choice of stale loads: after consuming n events the
      book is the one reached by applying the first n events in order, and the failure flag says whether
      one of them was rejected. */
  lemma QueuedIsInOrder(states: seq<System>, steps: seq<Step>, capacity: U64, events: seq<MarketEvent>, n: nat)
    requires IsPow2(capacity) && Run(states, steps, capacity, events) && Start(states[0], capacity) && n < |states|
    ensures var s := states[n];
      && s.consumed <= |events|
      && s.book == Ledger.Run(Ledger.EMPTY, events[..s.consumed])
      && (s.failed <==> AnyRejected(events, s.consumed))
  {
    RunInv(states, steps, capacity, events, n);
  }

  /** The direct loop: it applies the list to a cleared book and stops at the first rejected event. */
  method DirectReplay(book: Baseline.LimitOrderBook, events: seq<MarketEvent>) returns (ok: bool, n: nat)
    modifies book
    ensures book.Valid() && n <= |events|
    ensures ok <==> !AnyRejected(events, |events|)
    ensures ok ==> n == |events|
    ensures !ok ==> n < |events| && Rejects(events, n) && !AnyRejected(events, n)
    ensures book.Book() == Ledger.Run(Ledger.EMPTY, events[..n])
  {
    hide Baseline.LimitOrderBook.Valid, Ledger.Step;
    book.Clear();
    n := 0;
    while n < |events|
      invariant 0 <= n <= |events| && book.Valid()
      invariant !AnyRejected(events, n)
      invariant book.Book() == Ledger.Run(Ledger.EMPTY, events[..n])
    {
      assert events[..n + 1][..n] == events[..n];
      var result := book.Apply(events[n]);
      if result != Applied {
        RejectedUnchanged(Ledger.Run(Ledger.EMPTY, events[..n]), events[n]);
        assert Rejects(events, n);
        return false, n;
      }
      assert !Rejects(events, n);
      n := n + 1;
    }
    ok := true;
  }

  lemma RejectedUnchanged(s: Ledger.State, e: MarketEvent)
    requires Ledger.Step(s, e).1 != Applied
    ensures Ledger.Step(s, e).0 == s
  {
  }

  /** When the direct loop meets no rejected event the two programs end with the same book; when it
      meets one at k, they do exactly if every event after k is rejected too. */
  lemma SameBookExactly(events: seq<MarketEvent>, k: nat)
    requires k < |events| < TWO64 && Rejects(events, k)
    ensures Ledger.Run(Ledger.EMPTY, events[..k]) == Ledger.Run(Ledger.EMPTY, events)
        <==> forall i :: k < i < |events| ==> Rejects(events, i)
  {
    hide Ledger.Step, Ledger.Run, History.CountApplied, Rejects;
    assert events[..|events|] == events;
    if forall i :: k < i < |events| ==> Rejects(events, i) {
      AllRejectedUnchanged(events, k, |events|);
    } else {
      CountGrows(events, k, |events|);
      AppliedSmall(events, k);
      AppliedSmall(events, |events|);
    }
  }

  /** The direct loop stops at the second add of id 1; the queued one goes on to the add of id 2. */
  lemma LoopsPart(events: seq<MarketEvent>)
    requires events == [MarketEvent(Add, 1, 1, Buy, 100, 10), MarketEvent(Add, 2, 1, Buy, 100, 10),
                        MarketEvent(Add, 3, 2, Buy, 100, 10)]
    ensures Rejects(events, 1) && !AnyRejected(events, 1)
    ensures Ledger.Run(Ledger.EMPTY, events[..1]) != Ledger.Run(Ledger.EMPTY, events)
  {
    hide Ledger.Step;
    var first := Ledger.State([Ledger.Order(1, Buy, 100, 1, 10)], 1);
    assert Ledger.HasId(first.live, 1) && !Ledger.HasId(first.live, 2) by {
      assert first.live[0].id == 1;
    }
    AddStep(Ledger.EMPTY, events[0]);
    AddStep(first, events[1]);
    AddStep(first, events[2]);
    assert events[..1][..0] == [] && events[..2][..1] == events[..1] && events[..3][..2] == events[..2];
    assert events[..0] == [] && events[..3] == events;
    assert Ledger.Run(Ledger.EMPTY, events[..1]) == first && Ledger.Run(Ledger.EMPTY, events[..2]) == first;
  }

  lemma AddStep(s: Ledger.State, e: MarketEvent)
    requires e.eventType.Add? && e.quantity > 0
    ensures Ledger.Step(s, e)
         == if Ledger.HasId(s.live, e.orderId) then (s, DuplicateOrderId)
            else (Ledger.State(s.live + [Ledger.Order(e.orderId, e.side, e.price, e.timestamp, e.quantity)],
                               Wrap(s.applied + 1)), Applied)
  {
  }

  /** A run of fewer than 2^64 events does not wrap the counter of accepted events. */
  lemma AppliedSmall(events: seq<MarketEvent>, n: nat)
    requires n <= |events| < TWO64
    ensures Ledger.Run(Ledger.EMPTY, events[..n]).applied == History.CountApplied(Ledger.EMPTY, events[..n])
  {
    hide Ledger.Step, Ledger.Run;
    History.AppliedIsCount(Ledger.EMPTY, events[..n]);
    CountBound(events, n);
  }

  lemma {:induction false} AllRejectedUnchanged(events: seq<MarketEvent>, k: nat, n: nat)
    requires k <= n <= |events| && forall i :: k <= i < n ==> Rejects(events, i)
    ensures Ledger.Run(Ledger.EMPTY, events[..k]) == Ledger.Run(Ledger.EMPTY, events[..n])
  {
    hide Ledger.Step;
    if k < n {
      AllRejectedUnchanged(events, k, n - 1);
      assert events[..n][..n - 1] == events[..n - 1];
      assert Rejects(events, n - 1);
      RejectedUnchanged(Ledger.Run(Ledger.EMPTY, events[..n - 1]), events[n - 1]);
    }
  }

  lemma {:induction false} CountGrows(events: seq<MarketEvent>, k: nat, n: nat)
    requires k <= n <= |events|
    ensures
      var a, b := History.CountApplied(Ledger.EMPTY, events[..k]), History.CountApplied(Ledger.EMPTY, events[..n]);
      a <= b && ((exists i :: k <= i < n && !Rejects(events, i)) ==> a < b)
  {
    hide Ledger.Step, Ledger.Run;
    if k < n {
      CountGrows(events, k, n - 1);
      assert events[..n][..n - 1] == events[..n - 1];
      assert Rejects(events, n - 1) || !Rejects(events, n - 1);
    }
  }

  lemma {:induction false} CountBound(events: seq<MarketEvent>, n: nat)
    requires n <= |events|
    ensures History.CountApplied(Ledger.EMPTY, events[..n]) <= n
  {
    if n > 0 {
      CountBound(events, n - 1);
      assert events[..n][..n - 1] == events[..n - 1];
    }
  }

  // ----- the two threads never block each other for good -----

  ghost predicate Done(s: System, events: seq<MarketEvent>) {
    s.consumed == |events| && s.pending.None? && s.queue.producer.Idle? && s.queue.consumer.Resting?
  }

  /** The producer's next step, with an up-to-date load. */
  ghost function ProducerMove(q: Queue.State, capacity: U64, events: seq<MarketEvent>): Step
    requires q.readOrder != [] && (q.producer.Idle? ==> |q.pushed| < |events|)
  {
    match q.producer
    case Idle => QueueStep(Queue.BeginPush(events[|q.pushed|]))
    case LoadedWrite(_, _) => QueueStep(Queue.AcquireRead(|q.readOrder| - 1))
    case LoadedRead(_, write, read) =>
      QueueStep(if Distance(write, read) >= capacity then Queue.ReturnFull else Queue.WriteSlot)
    case WroteSlot(_, _) => QueueStep(Queue.PublishWrite)
  }

  /** The consumer's next step, with an up-to-date load. */
  ghost function ConsumerMove(s: System): Step
    requires s.queue.writeOrder != []
  {
    match s.queue.consumer
    case Resting => if s.pending.Some? then ApplyStep else QueueStep(Queue.BeginPop)
    case HoldsRead(_) => QueueStep(Queue.AcquireWrite(|s.queue.writeOrder| - 1))
    case HoldsBoth(read, write) => QueueStep(if write == read then Queue.ReturnEmpty else Queue.ReadSlot)
    case CopiedSlot(_, _) => QueueStep(Queue.PublishRead)
  }

  /** A schedule that uses up-to-date loads: finish what is under way, then pop if anything is queued,
      else push. */
  ghost function Advance(s: System, capacity: U64, events: seq<MarketEvent>): Step
    requires Inv(s, capacity, events) && !Done(s, events)
  {
    var q := s.queue;
    if !q.producer.Idle? then ProducerMove(q, capacity, events)
    else if !q.consumer.Resting? || s.pending.Some? || |q.popped| < |q.pushed| then ConsumerMove(s)
    else ProducerMove(q, capacity, events)
  }

  ghost function ProducerWork(q: Queue.State, capacity: U64): nat {
    match q.producer
    case Idle => 8
    case LoadedWrite(_, _) => if |q.pushed| - |q.popped| >= capacity then 12 else 5
    case LoadedRead(_, _, _) => if |q.pushed| - q.readSeen >= capacity then 11 else 4
    case WroteSlot(_, _) => 3
  }

  ghost function ConsumerWork(s: System): nat {
    match s.queue.consumer
    case Resting => if s.pending.Some? then 1 else 8
    case HoldsRead(_) => if |s.queue.pushed| == |s.queue.popped| then 12 else 5
    case HoldsBoth(_, _) => if s.queue.writeSeen == |s.queue.popped| then 11 else 4
    case CopiedSlot(_, _) => 3
  }

  /** Remaining pushes and pops first, then what is left of the operations under way. */
  ghost function Work(s: System, capacity: U64, events: seq<MarketEvent>): int {
    20 * (2 * |events| - |s.queue.pushed| - s.consumed) + ProducerWork(s.queue, capacity) + ConsumerWork(s)
  }

  lemma TestsExact(q: Queue.State, capacity: U64)
    requires Queue.Inv(q, capacity)
    ensures q.producer.LoadedRead? ==>
      (Distance(q.producer.write, q.producer.read) >= capacity <==> |q.pushed| - q.readSeen >= capacity)
    ensures q.consumer.HoldsBoth? ==> (q.consumer.write == q.consumer.read <==> q.writeSeen == |q.popped|)
    ensures |q.readOrder| == |q.popped| + 1 && |q.writeOrder| == |q.pushed| + 1
    ensures q.readSeen <= |q.popped| <= q.writeSeen <= |q.pushed| && capacity > 0 && Queue.Typed(q, capacity)
  {
    if q.producer.LoadedRead? { Queue.FullTestExact(q, capacity); }
    if q.consumer.HoldsBoth? { Queue.EmptyTestExact(q, capacity); }
  }

  lemma AdvanceWorks(s: System, capacity: U64, events: seq<MarketEvent>)
    requires Inv(s, capacity, events) && !Done(s, events)
    ensures var step := Advance(s, capacity, events);
      && Enabled(s, capacity, events, step)
      && Work(Next(s, capacity, events, step), capacity, events) < Work(s, capacity, events)
  {
    hide Queue.Inv, Slot, Distance, Ledger.Run, Ledger.Step, AnyRejected;
    TestsExact(s.queue, capacity);
  }

  lemma StepInv(s: System, capacity: U64, events: seq<MarketEvent>, step: Step)
    requires Inv(s, capacity, events) && Enabled(s, capacity, events, step)
    ensures Inv(Next(s, capacity, events, step), capacity, events)
  {
    hide Inv, Next, Enabled;
    match step
    case ApplyStep => ApplyInv(s, capacity, events);
    case QueueStep(q) => QueueStepInv(s, capacity, events, q);
  }

  /** From every reachable state the two threads can finish, and the finished book is the book of the
      whole list. */
  lemma CanFinish(s: System, capacity: U64, events: seq<MarketEvent>) returns (states: seq<System>, steps: seq<Step>)
    requires Inv(s, capacity, events)
    ensures Run(states, steps, capacity, events) && states[0] == s
    ensures Done(states[|steps|], events)
    ensures states[|steps|].book == Ledger.Run(Ledger.EMPTY, events)
    decreases Work(s, capacity, events)
  {
    hide Advance, Next, Enabled, Queue.Inv, Ledger.Run, AnyRejected;
    if Done(s, events) {
      assert events[..|events|] == events;
      return [s], [];
    }
    AdvanceWorks(s, capacity, events);
    var step := Advance(s, capacity, events);
    StepInv(s, capacity, events, step);
    WorkBounded(s, capacity, events);
    var rest, more := CanFinish(Next(s, capacity, events, step), capacity, events);
    states, steps := [s] + rest, [step] + more;
  }

  lemma WorkBounded(s: System, capacity: U64, events: seq<MarketEvent>)
    requires Inv(s, capacity, events)
    ensures Work(s, capacity, events) >= 0
  {
  }
}
