/** Progress of the queued replay: with loads that lag at most d steps and neither thread kept waiting for
    more than c, every run is finished after a number of steps computed from the list's length, c and d. */
module QueuedProgress {
  import opened Types
  import opened Words
  import opened QueuedReplay
  import Queue = SpscProtocol
  import Ledger

  predicate ByProducer(step: Step) {
    && step.QueueStep?
    && (step.step.BeginPush? || step.step.AcquireRead? || step.step.ReturnFull? || step.step.WriteSlot?
        || step.step.PublishWrite? || step.step.ProducerLooks?)
  }

  /** A step of the two benchmark loops whose load, if it has one, returns the newest value. */
  ghost predicate UpToDate(s: System, step: Step) {
    match step
    case ApplyStep => true
    case QueueStep(q) =>
      && !q.ProducerLooks? && !q.ConsumerLooks?
      && (q.AcquireRead? ==> q.entry == |s.queue.readOrder| - 1)
      && (q.AcquireWrite? ==> q.entry == |s.queue.writeOrder| - 1)
  }

  ghost predicate CanMove(s: System, capacity: U64, events: seq<MarketEvent>, producer: bool) {
    exists step :: Enabled(s, capacity, events, step) && UpToDate(s, step) && ByProducer(step) == producer
  }

  /** Among the c + 1 steps from i on the thread takes one, or at some point could not have. */
  ghost predicate Served(
      states: seq<System>, steps: seq<Step>, capacity: U64, events: seq<MarketEvent>, c: nat, i: nat, producer: bool)
    requires |states| == |steps| + 1 && i + c < |steps|
  {
    exists j :: i <= j <= i + c
      && (ByProducer(steps[j]) == producer || !CanMove(states[j], capacity, events, producer))
  }

  /** A run in which neither thread takes more than c steps in a row while the other could take one. */
  ghost predicate FairRun(states: seq<System>, steps: seq<Step>, capacity: U64, events: seq<MarketEvent>, c: nat) {
    && Run(states, steps, capacity, events)
    && (forall i: nat, producer :: i + c < |steps| ==> Served(states, steps, capacity, events, c, i, producer))
  }

  /** All loads from step i to before step j return the newest value. */
  ghost predicate Current(states: seq<System>, steps: seq<Step>, i: nat, j: nat)
    requires |states| == |steps| + 1 && j <= |steps|
  {
    forall n :: i <= n < j ==> UpToDate(states[n], steps[n])
  }

  /** Step i is one of the two benchmark loops, and its load, if it has one, returns a value at least as new
      as the newest one of d steps before. */
  ghost predicate LagsAtMost(states: seq<System>, steps: seq<Step>, d: nat, i: nat)
    requires |states| == |steps| + 1 && i < |steps|
  {
    var past := states[if i < d then 0 else i - d].queue;
    match steps[i]
    case ApplyStep => true
    case QueueStep(q) =>
      && !q.ProducerLooks? && !q.ConsumerLooks?
      && (q.AcquireRead? ==> q.entry >= |past.readOrder| - 1)
      && (q.AcquireWrite? ==> q.entry >= |past.writeOrder| - 1)
  }

  ghost predicate Lagging(states: seq<System>, steps: seq<Step>, d: nat)
    requires |states| == |steps| + 1
  {
    forall i :: 0 <= i < |steps| ==> LagsAtMost(states, steps, d, i)
  }

  // ----- the thread whose steps bring the end nearer -----

  /** The producer while nothing is queued or pending and events are left to push, else the consumer. */
  ghost predicate ProducerHelps(s: System, events: seq<MarketEvent>) {
    |s.queue.popped| == |s.queue.pushed| && s.pending.None? && |s.queue.pushed| < |events|
  }

  /** Pushes, pops and applications still to come. */
  ghost function Remaining(s: System, events: seq<MarketEvent>): int {
    3 * |events| - |s.queue.pushed| - |s.queue.popped| - s.consumed
  }

  /** What remains, and then what the helpful thread has left of its attempt. */
  ghost function Potential(s: System, capacity: U64, events: seq<MarketEvent>): int {
    13 * Remaining(s, events)
    + if ProducerHelps(s, events) then ProducerWork(s.queue, capacity) else ConsumerWork(s)
  }

  lemma PotentialBounds(s: System, capacity: U64, events: seq<MarketEvent>)
    requires Inv(s, capacity, events)
    ensures Remaining(s, events) >= 0
    ensures 0 <= Potential(s, capacity, events) - 13 * Remaining(s, events) <= 12
  {
  }

  /** A step of the helpful thread lowers the potential. One of the other thread lowers it too, or leaves it
      and who is helpful as they are. */
  ghost predicate Lowers(s: System, s': System, capacity: U64, events: seq<MarketEvent>, producer: bool) {
    var before, after := Potential(s, capacity, events), Potential(s', capacity, events);
    || after < before
    || (after == before && ProducerHelps(s', events) == ProducerHelps(s, events)
        && producer != ProducerHelps(s, events))
  }

  lemma ProducerStepLowers(s: System, capacity: U64, events: seq<MarketEvent>, step: Step)
    requires Inv(s, capacity, events) && Enabled(s, capacity, events, step) && UpToDate(s, step) && ByProducer(step)
    ensures Lowers(s, Next(s, capacity, events, step), capacity, events, true)
  {
    hide Queue.Inv, Slot, Distance, Ledger.Run, Ledger.Step, AnyRejected;
    TestsExact(s.queue, capacity);
  }

  lemma ConsumerStepLowers(s: System, capacity: U64, events: seq<MarketEvent>, step: Step)
    requires Inv(s, capacity, events) && Enabled(s, capacity, events, step) && UpToDate(s, step) && !ByProducer(step)
    ensures Lowers(s, Next(s, capacity, events, step), capacity, events, false)
  {
    hide Queue.Inv, Slot, Distance, Ledger.Run, Ledger.Step, AnyRejected;
    TestsExact(s.queue, capacity);
    CopiedIsQueued(s.queue, capacity);
  }

  lemma CopiedIsQueued(q: Queue.State, capacity: U64)
    requires Queue.Inv(q, capacity)
    ensures q.consumer.CopiedSlot? ==> |q.popped| < |q.pushed|
  {
  }

  lemma StepLowers(s: System, capacity: U64, events: seq<MarketEvent>, step: Step)
    requires Inv(s, capacity, events) && Enabled(s, capacity, events, step) && UpToDate(s, step)
    ensures Lowers(s, Next(s, capacity, events, step), capacity, events, ByProducer(step))
  {
    hide Lowers, Inv, Next, Enabled;
    if ByProducer(step) {
      ProducerStepLowers(s, capacity, events, step);
    } else {
      ConsumerStepLowers(s, capacity, events, step);
    }
  }

  /** Until all is done the helpful thread has a step to take. */
  lemma HelpfulCanMove(s: System, capacity: U64, events: seq<MarketEvent>)
    requires Inv(s, capacity, events) && !Done(s, events)
    ensures CanMove(s, capacity, events, ProducerHelps(s, events))
  {
    hide Queue.Inv, Slot, Distance, Ledger.Run, AnyRejected;
    TestsExact(s.queue, capacity);
    var step := if ProducerHelps(s, events) then ProducerMove(s.queue, capacity, events) else ConsumerMove(s);
    assert Enabled(s, capacity, events, step) && UpToDate(s, step);
  }

  /** Once all is done neither thread has. */
  lemma DoneStops(s: System, capacity: U64, events: seq<MarketEvent>, step: Step)
    requires Inv(s, capacity, events) && Done(s, events) && UpToDate(s, step)
    ensures !Enabled(s, capacity, events, step)
  {
  }

  // ----- fair runs -----

  /** Between two points of a run the potential has dropped, or it and who is helpful are as they were and
      the helpful thread took no step. */
  lemma {:induction false} StretchLowers(
      states: seq<System>, steps: seq<Step>, capacity: U64, events: seq<MarketEvent>, c: nat, i: nat, j: nat)
    requires FairRun(states, steps, capacity, events, c) && i <= j <= |steps| && Inv(states[i], capacity, events)
    requires Current(states, steps, i, j)
    ensures Inv(states[j], capacity, events)
    ensures var before, after := Potential(states[i], capacity, events), Potential(states[j], capacity, events);
      || after < before
      || (after == before && ProducerHelps(states[j], events) == ProducerHelps(states[i], events)
          && forall n :: i <= n < j ==>
               ByProducer(steps[n]) != ProducerHelps(states[i], events)
               && CanMove(states[n], capacity, events, ProducerHelps(states[i], events)))
    decreases j
  {
    hide Inv, Enabled, Next, ByProducer, UpToDate, CanMove, Served, ProducerHelps, Potential;
    if i < j {
      StretchLowers(states, steps, capacity, events, c, i, j - 1);
      var s, step := states[j - 1], steps[j - 1];
      StepInv(s, capacity, events, step);
      StepLowers(s, capacity, events, step);
      if Done(s, events) {
        DoneStops(s, capacity, events, step);
      }
      HelpfulCanMove(s, capacity, events);
    }
  }

  /** With up-to-date loads any c + 1 steps in a row lower the potential. */
  lemma FairStretchLowers(
      states: seq<System>, steps: seq<Step>, capacity: U64, events: seq<MarketEvent>, c: nat, i: nat)
    requires FairRun(states, steps, capacity, events, c) && i + c < |steps| && Inv(states[i], capacity, events)
    requires Current(states, steps, i, i + c + 1)
    ensures Inv(states[i + c + 1], capacity, events)
    ensures Potential(states[i + c + 1], capacity, events) < Potential(states[i], capacity, events)
  {
    hide Inv, Enabled, Next, ByProducer, UpToDate, CanMove, ProducerHelps, Potential;
    StretchLowers(states, steps, capacity, events, c, i, i + c + 1);
    assert Served(states, steps, capacity, events, c, i, ProducerHelps(states[i], events));
  }

  lemma {:induction false} StepsBounded(
      states: seq<System>, steps: seq<Step>, capacity: U64, events: seq<MarketEvent>, c: nat, i: nat)
    requires FairRun(states, steps, capacity, events, c) && i <= |steps| && Inv(states[i], capacity, events)
    requires Current(states, steps, i, |steps|)
    ensures |steps| - i < (c + 1) * (Potential(states[i], capacity, events) + 1)
    decreases |steps| - i
  {
    hide Inv, Potential, Enabled, Next, UpToDate, Served;
    var p := Potential(states[i], capacity, events);
    PotentialBounds(states[i], capacity, events);
    if i + c < |steps| {
      FairStretchLowers(states, steps, capacity, events, c, i);
      StepsBounded(states, steps, capacity, events, c, i + c + 1);
      Blocks(c + 1, Potential(states[i + c + 1], capacity, events), p, |steps| - i);
    } else {
      Blocks(c + 1, -1, p, |steps| - i);
    }
  }

  lemma Blocks(size: nat, q: int, p: int, n: int)
    requires q < p && n - size < size * (q + 1)
    ensures n < size * (p + 1)
  {
    var r := p - (q + 1);
    NonNegative(size, r);
    assert size * (p + 1) == size * (q + 1) + size * r + size;
  }

  lemma NonNegative(a: nat, b: nat)
    ensures a * b >= 0
  {
  }

  lemma StartPotential(s: System, capacity: U64, events: seq<MarketEvent>)
    requires Start(s, capacity)
    ensures Potential(s, capacity, events) == 39 * |events| + 8
  {
  }

  lemma DoneBook(s: System, capacity: U64, events: seq<MarketEvent>)
    requires Inv(s, capacity, events) && Done(s, events)
    ensures s.book == Ledger.Run(Ledger.EMPTY, events)
  {
    assert events[..|events|] == events;
  }

  /** Every fair run with up-to-date loads has fewer than (c + 1) * (39 * |events| + 9) steps. Where it cannot
      go on, everything has been consumed and the book is the one of the whole list in order. */
  lemma FairRunsFinish(states: seq<System>, steps: seq<Step>, capacity: U64, events: seq<MarketEvent>, c: nat)
    requires IsPow2(capacity) && FairRun(states, steps, capacity, events, c) && Start(states[0], capacity)
    requires Current(states, steps, 0, |steps|)
    ensures |steps| < (c + 1) * (39 * |events| + 9)
    ensures var s := states[|steps|];
      (forall producer :: !CanMove(s, capacity, events, producer)) ==>
        Done(s, events) && s.book == Ledger.Run(Ledger.EMPTY, events)
  {
    hide CanMove, Served, Enabled, Next, UpToDate, Inv, Start, Potential, Done, ProducerHelps;
    StartInv(states[0], capacity, events);
    StartPotential(states[0], capacity, events);
    StepsBounded(states, steps, capacity, events, c, 0);
    StretchLowers(states, steps, capacity, events, c, 0, |steps|);
    if forall producer :: !CanMove(states[|steps|], capacity, events, producer) {
      EndIsDone(states[|steps|], capacity, events);
    }
  }

  // ----- lagging loads -----

  /** A run only adds to what was pushed, popped and consumed. */
  lemma {:induction false} RunAdds(
      states: seq<System>, steps: seq<Step>, capacity: U64, events: seq<MarketEvent>, i: nat, j: nat)
    requires Run(states, steps, capacity, events) && i <= j < |states|
    ensures |states[i].queue.pushed| <= |states[j].queue.pushed|
    ensures |states[i].queue.popped| <= |states[j].queue.popped|
    ensures states[i].consumed <= states[j].consumed
    decreases j
  {
    hide Ledger.Step, Distance, Slot;
    if i < j {
      RunAdds(states, steps, capacity, events, i, j - 1);
      assert Enabled(states[j - 1], capacity, events, steps[j - 1]);
    }
  }

  /** While nothing is published or applied, a load d steps later returns the newest value. */
  lemma LagCatchesUp(
      states: seq<System>, steps: seq<Step>, capacity: U64, events: seq<MarketEvent>, d: nat, i: nat, n: nat, j: nat)
    requires Run(states, steps, capacity, events) && i + d <= n < j <= |steps| && LagsAtMost(states, steps, d, n)
    requires Inv(states[n - d], capacity, events) && Inv(states[n], capacity, events)
    requires Remaining(states[j], events) == Remaining(states[i], events)
    ensures UpToDate(states[n], steps[n])
  {
    hide Inv, Next, Distance, Slot;
    RunAdds(states, steps, capacity, events, i, n - d);
    RunAdds(states, steps, capacity, events, n - d, n);
    RunAdds(states, steps, capacity, events, n, j);
    Histories(states[n - d], capacity, events);
    Histories(states[n], capacity, events);
    assert Enabled(states[n], capacity, events, steps[n]);
  }

  lemma Histories(s: System, capacity: U64, events: seq<MarketEvent>)
    requires Inv(s, capacity, events)
    ensures |s.queue.readOrder| == |s.queue.popped| + 1 && |s.queue.writeOrder| == |s.queue.pushed| + 1
  {
  }

  lemma {:induction false} StretchesLower(
      states: seq<System>, steps: seq<Step>, capacity: U64, events: seq<MarketEvent>, c: nat, i: nat, m: nat)
    requires FairRun(states, steps, capacity, events, c) && i + m * (c + 1) <= |steps|
    requires Inv(states[i], capacity, events) && Current(states, steps, i, i + m * (c + 1))
    ensures Potential(states[i + m * (c + 1)], capacity, events) <= Potential(states[i], capacity, events) - m
    decreases m
  {
    hide FairRun, Inv, Potential;
    if m > 0 {
      assert m * (c + 1) == (c + 1) + (m - 1) * (c + 1) && (m - 1) * (c + 1) >= 0;
      FairStretchLowers(states, steps, capacity, events, c, i);
      StretchesLower(states, steps, capacity, events, c, i + c + 1, m - 1);
    }
  }

  /** Within d + 13 (c + 1) steps something is published or applied. */
  lemma LaggingStretch(
      states: seq<System>, steps: seq<Step>, capacity: U64, events: seq<MarketEvent>, c: nat, d: nat, i: nat)
    requires IsPow2(capacity) && FairRun(states, steps, capacity, events, c) && Start(states[0], capacity)
    requires Lagging(states, steps, d) && i + d + 13 * (c + 1) <= |steps|
    ensures Remaining(states[i + d + 13 * (c + 1)], events) < Remaining(states[i], events)
  {
    hide Inv, Start, Enabled, Next, UpToDate, LagsAtMost, Served, Potential;
    var j := i + d + 13 * (c + 1);
    RunAdds(states, steps, capacity, events, i, j);
    if Remaining(states[j], events) == Remaining(states[i], events) {
      forall n | i + d <= n < j ensures UpToDate(states[n], steps[n]) {
        RunInv(states, steps, capacity, events, n - d);
        RunInv(states, steps, capacity, events, n);
        LagCatchesUp(states, steps, capacity, events, d, i, n, j);
      }
      RunInv(states, steps, capacity, events, i + d);
      RunInv(states, steps, capacity, events, j);
      StretchesLower(states, steps, capacity, events, c, i + d, 13);
      RunAdds(states, steps, capacity, events, i, i + d);
      RunAdds(states, steps, capacity, events, i + d, j);
      PotentialBounds(states[i + d], capacity, events);
      PotentialBounds(states[j], capacity, events);
    }
  }

  lemma {:induction false} LaggingStepsBounded(
      states: seq<System>, steps: seq<Step>, capacity: U64, events: seq<MarketEvent>, c: nat, d: nat, i: nat)
    requires IsPow2(capacity) && FairRun(states, steps, capacity, events, c) && Start(states[0], capacity)
    requires Lagging(states, steps, d) && i <= |steps|
    ensures |steps| - i < (d + 13 * (c + 1)) * (Remaining(states[i], events) + 1)
    decreases |steps| - i
  {
    hide Inv, Start, Enabled, Next, LagsAtMost, Served, Remaining;
    var size, left := d + 13 * (c + 1), Remaining(states[i], events);
    RunInv(states, steps, capacity, events, i);
    PotentialBounds(states[i], capacity, events);
    if i + size <= |steps| {
      LaggingStretch(states, steps, capacity, events, c, d, i);
      LaggingStepsBounded(states, steps, capacity, events, c, d, i + size);
      Blocks(size, Remaining(states[i + size], events), left, |steps| - i);
    } else {
      Blocks(size, -1, left, |steps| - i);
    }
  }

  lemma LaggingLength(
      states: seq<System>, steps: seq<Step>, capacity: U64, events: seq<MarketEvent>, c: nat, d: nat)
    requires IsPow2(capacity) && FairRun(states, steps, capacity, events, c) && Start(states[0], capacity)
    requires Lagging(states, steps, d)
    ensures |steps| < (3 * |events| + 1) * (d + 13 * (c + 1))
  {
    hide Enabled, Next, Served, Lagging, Remaining, Start, IsPow2;
    LaggingStepsBounded(states, steps, capacity, events, c, d, 0);
    StartRemaining(states[0], capacity, events);
    Exchange(d + 13 * (c + 1), Remaining(states[0], events) + 1, 3 * |events| + 1);
  }

  /** Loads may lag behind: every fair run whose loads return nothing older than the newest value of d steps
      before has fewer than (3 * |events| + 1) * (d + 13 * (c + 1)) steps. Where it cannot go on, everything
      has been consumed and the book is the one of the whole list in order. */
  lemma LaggingRunsFinish(
      states: seq<System>, steps: seq<Step>, capacity: U64, events: seq<MarketEvent>, c: nat, d: nat)
    requires IsPow2(capacity) && FairRun(states, steps, capacity, events, c) && Start(states[0], capacity)
    requires Lagging(states, steps, d)
    ensures |steps| < (3 * |events| + 1) * (d + 13 * (c + 1))
    ensures var s := states[|steps|];
      (forall producer :: !CanMove(s, capacity, events, producer)) ==>
        Done(s, events) && s.book == Ledger.Run(Ledger.EMPTY, events)
  {
    hide CanMove, Served, Enabled, Next, Lagging, Inv, Done, ProducerHelps, Start, IsPow2;
    LaggingLength(states, steps, capacity, events, c, d);
    RunInv(states, steps, capacity, events, |steps|);
    if forall producer :: !CanMove(states[|steps|], capacity, events, producer) {
      EndIsDone(states[|steps|], capacity, events);
    }
  }

  lemma Exchange(a: int, b: int, c: int)
    requires b == c
    ensures a * b == c * a
  {
  }

  lemma StartRemaining(s: System, capacity: U64, events: seq<MarketEvent>)
    requires Start(s, capacity)
    ensures Remaining(s, events) == 3 * |events|
  {
  }

  /** Where neither thread can go on, all is done. */
  lemma EndIsDone(s: System, capacity: U64, events: seq<MarketEvent>)
    requires Inv(s, capacity, events) && forall producer :: !CanMove(s, capacity, events, producer)
    ensures Done(s, events) && s.book == Ledger.Run(Ledger.EMPTY, events)
  {
    hide CanMove, Inv, Done, ProducerHelps;
    if !Done(s, events) {
      HelpfulCanMove(s, capacity, events);
    }
    DoneBook(s, capacity, events);
  }
}
