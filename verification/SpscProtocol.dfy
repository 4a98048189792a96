/** The two-thread protocol of the ring buffer, one shared access per step. Each counter is an atomic
    with a modification order; an acquire load may return any value between the one its thread saw
    last and the newest one (ISO/IEC 14882:2020, [intro.races] and [atomics.order]). */
module SpscProtocol {
  import opened Types
  import opened Words
  import Ring = SpscRingBuffer

  datatype Producer =
    | Idle
    | LoadedWrite(event: MarketEvent, write: U64)
    | LoadedRead(event: MarketEvent, write: U64, read: U64)
    | WroteSlot(event: MarketEvent, write: U64)

  datatype Consumer =
    | Resting
    | HoldsRead(read: U64)
    | HoldsBoth(read: U64, write: U64)
    | CopiedSlot(read: U64, out: MarketEvent)

  datatype State = State(
    buffer: seq<MarketEvent>,
    writeOrder: seq<U64>,       // modification order of the write sequence
    readOrder: seq<U64>,        // modification order of the read sequence
    producer: Producer,
    consumer: Consumer,
    readSeen: nat,              // newest entry of readOrder the producer has loaded
    writeSeen: nat,             // newest entry of writeOrder the consumer has loaded
    pushed: seq<MarketEvent>,   // events of the pushes that returned true
    popped: seq<MarketEvent>,   // events of the pops that returned true
    slotWriteViews: seq<nat>,   // readSeen at each slot write
    slotReadViews: seq<nat>)    // writeSeen at each slot read

  datatype Step =
    | BeginPush(event: MarketEvent)
    | AcquireRead(entry: nat)
    | ReturnFull
    | WriteSlot
    | PublishWrite
    | BeginPop
    | AcquireWrite(entry: nat)
    | ReturnEmpty
    | ReadSlot
    | PublishRead
    | ProducerLooks(entry: nat)  // the acquire load of an approximate_size call by the producer
    | ConsumerLooks(entry: nat)  // the same by the consumer

  function Last(history: seq<U64>): U64
    requires history != []
  {
    history[|history| - 1]
  }

  ghost predicate Start(s: State, capacity: U64) {
    && |s.buffer| == capacity
    && s == State(s.buffer, [0], [0], Idle, Resting, 0, 0, [], [], [], [])
  }

  /** The shape every state has; it only says that the steps below make sense. */
  ghost predicate Typed(s: State, capacity: U64) {
    IsPow2(capacity) && |s.buffer| == capacity && s.writeOrder != [] && s.readOrder != []
  }

  ghost predicate Enabled(s: State, capacity: U64, step: Step) {
    match step
    case BeginPush(_) => s.producer.Idle?
    case AcquireRead(entry) => s.producer.LoadedWrite? && s.readSeen <= entry < |s.readOrder|
    case ReturnFull => s.producer.LoadedRead? && Distance(s.producer.write, s.producer.read) >= capacity
    case WriteSlot => s.producer.LoadedRead? && Distance(s.producer.write, s.producer.read) < capacity
    case PublishWrite => s.producer.WroteSlot?
    case BeginPop => s.consumer.Resting?
    case AcquireWrite(entry) => s.consumer.HoldsRead? && s.writeSeen <= entry < |s.writeOrder|
    case ReturnEmpty => s.consumer.HoldsBoth? && s.consumer.write == s.consumer.read
    case ReadSlot => s.consumer.HoldsBoth? && s.consumer.write != s.consumer.read
    case PublishRead => s.consumer.CopiedSlot?
    case ProducerLooks(entry) => s.producer.Idle? && s.readSeen <= entry < |s.readOrder|
    case ConsumerLooks(entry) => s.consumer.Resting? && s.writeSeen <= entry < |s.writeOrder|
  }

  ghost function Next(s: State, capacity: U64, step: Step): State
    requires Typed(s, capacity) && Enabled(s, capacity, step)
  {
    match step
    case BeginPush(event) => s.(producer := LoadedWrite(event, Last(s.writeOrder)))
    case AcquireRead(entry) =>
      s.(producer := LoadedRead(s.producer.event, s.producer.write, s.readOrder[entry]), readSeen := entry)
    case ReturnFull => s.(producer := Idle)
    case WriteSlot =>
      s.(producer := WroteSlot(s.producer.event, s.producer.write),
         buffer := s.buffer[Slot(s.producer.write, capacity) := s.producer.event],
         slotWriteViews := s.slotWriteViews + [s.readSeen])
    case PublishWrite =>
      s.(producer := Idle,
         writeOrder := s.writeOrder + [Successor(s.producer.write)],
         pushed := s.pushed + [s.producer.event])
    case BeginPop => s.(consumer := HoldsRead(Last(s.readOrder)))
    case AcquireWrite(entry) =>
      s.(consumer := HoldsBoth(s.consumer.read, s.writeOrder[entry]), writeSeen := entry)
    case ReturnEmpty => s.(consumer := Resting)
    case ReadSlot =>
      s.(consumer := CopiedSlot(s.consumer.read, s.buffer[Slot(s.consumer.read, capacity)]),
         slotReadViews := s.slotReadViews + [s.writeSeen])
    case PublishRead =>
      s.(consumer := Resting,
         readOrder := s.readOrder + [Successor(s.consumer.read)],
         popped := s.popped + [s.consumer.out])
    case ProducerLooks(entry) => s.(readSeen := entry)
    case ConsumerLooks(entry) => s.(writeSeen := entry)
  }

  // ----- the invariant -----

  /** The i-th entry of a modification order is i, wrapped. */
  ghost predicate Counts(history: seq<U64>, n: nat) {
    |history| == n + 1 && forall i :: 0 <= i <= n ==> history[i] == Wrap(i)
  }

  /** Slot of the i-th event ever pushed. */
  function SlotOf(i: nat, capacity: U64): (slot: nat)
    requires IsPow2(capacity)
    ensures slot < capacity
  {
    Slot(Wrap(i), capacity)
  }

  ghost predicate CountersOk(s: State, capacity: U64) {
    && Typed(s, capacity)
    && Counts(s.writeOrder, |s.pushed|) && Counts(s.readOrder, |s.popped|)
    && s.readSeen <= |s.popped| <= s.writeSeen <= |s.pushed| <= s.readSeen + capacity
  }

  ghost predicate ProducerOk(s: State, capacity: U64)
    requires Typed(s, capacity)
  {
    match s.producer
    case Idle => true
    case LoadedWrite(_, write) => write == Wrap(|s.pushed|)
    case LoadedRead(_, write, read) => write == Wrap(|s.pushed|) && read == Wrap(s.readSeen)
    case WroteSlot(event, write) =>
      && write == Wrap(|s.pushed|) && |s.pushed| < s.readSeen + capacity
      && s.buffer[SlotOf(|s.pushed|, capacity)] == event
  }

  ghost predicate ConsumerOk(s: State) {
    match s.consumer
    case Resting => true
    case HoldsRead(read) => read == Wrap(|s.popped|)
    case HoldsBoth(read, write) => read == Wrap(|s.popped|) && write == Wrap(s.writeSeen)
    case CopiedSlot(read, out) =>
      read == Wrap(|s.popped|) && |s.popped| < s.writeSeen <= |s.pushed| && out == s.pushed[|s.popped|]
  }

  /** What was popped is a prefix of what was pushed, and the slots hold the rest. */
  ghost predicate ContentsOk(s: State, capacity: U64)
    requires Typed(s, capacity)
  {
    && |s.popped| <= |s.pushed| && s.popped == s.pushed[..|s.popped|]
    && forall i :: |s.popped| <= i < |s.pushed| ==> s.buffer[SlotOf(i, capacity)] == s.pushed[i]
  }

  /** Before writing slot i the producer had seen the read of event i - capacity published; before reading
      slot i the consumer had seen the write of event i published. */
  ghost predicate ViewsOk(s: State, capacity: U64) {
    && |s.slotWriteViews| == |s.pushed| + (if s.producer.WroteSlot? then 1 else 0)
    && |s.slotReadViews| == |s.popped| + (if s.consumer.CopiedSlot? then 1 else 0)
    && (forall i :: 0 <= i < |s.slotWriteViews| ==> i < s.slotWriteViews[i] + capacity)
    && (forall i :: 0 <= i < |s.slotReadViews| ==> i < s.slotReadViews[i])
  }

  ghost predicate Inv(s: State, capacity: U64) {
    && CountersOk(s, capacity)
    && ProducerOk(s, capacity)
    && ConsumerOk(s)
    && ContentsOk(s, capacity)
    && ViewsOk(s, capacity)
  }

  lemma StartInv(s: State, capacity: U64)
    requires IsPow2(capacity) && Start(s, capacity)
    ensures Inv(s, capacity)
  {
  }

  // ----- what the loaded counters mean -----

  /** The producer's full test, on a possibly stale read counter, is the test on the true counts. */
  lemma FullTestExact(s: State, capacity: U64)
    requires Inv(s, capacity) && s.producer.LoadedRead?
    ensures Distance(s.producer.write, s.producer.read) == |s.pushed| - s.readSeen
  {
    var m := Pow2Divides(capacity);
    WrappedDistance(|s.pushed|, s.readSeen);
  }

  /** So is the consumer's empty test on a possibly stale write counter. */
  lemma EmptyTestExact(s: State, capacity: U64)
    requires Inv(s, capacity) && s.consumer.HoldsBoth?
    ensures s.consumer.write == s.consumer.read <==> s.writeSeen == |s.popped|
  {
    var m := Pow2Divides(capacity);
    WrappedDistance(s.writeSeen, |s.popped|);
    DistanceReaches(s.consumer.write, s.consumer.read);
  }

  lemma SlotsApart(i: nat, j: nat, capacity: U64)
    requires IsPow2(capacity) && i < j < i + capacity
    ensures SlotOf(i, capacity) != SlotOf(j, capacity)
  {
    SlotsDistinct(i, j, capacity);
  }

  // ----- every step keeps the invariant -----

  lemma ProducerStepInv(s: State, capacity: U64, step: Step)
    requires Inv(s, capacity) && Enabled(s, capacity, step)
    requires step.BeginPush? || step.AcquireRead? || step.ReturnFull? || step.ProducerLooks?
    ensures Inv(Next(s, capacity, step), capacity)
  {
    hide Slot, Wrap, Distance;
  }

  lemma WriteSlotInv(s: State, capacity: U64)
    requires Inv(s, capacity) && Enabled(s, capacity, WriteSlot)
    ensures Inv(Next(s, capacity, WriteSlot), capacity)
  {
    hide Slot, Wrap, Distance;
    FullTestExact(s, capacity);
    forall i | |s.popped| <= i < |s.pushed| ensures SlotOf(i, capacity) != SlotOf(|s.pushed|, capacity) {
      SlotsApart(i, |s.pushed|, capacity);
    }
  }

  lemma PublishWriteInv(s: State, capacity: U64)
    requires Inv(s, capacity) && Enabled(s, capacity, PublishWrite)
    ensures Inv(Next(s, capacity, PublishWrite), capacity)
  {
    hide Slot, Wrap, Distance, Successor;
    SuccessorWraps(|s.pushed|);
  }

  lemma SuccessorWraps(i: nat)
    ensures Successor(Wrap(i)) == Wrap(i + 1)
  {
  }

  lemma ConsumerStepInv(s: State, capacity: U64, step: Step)
    requires Inv(s, capacity) && Enabled(s, capacity, step)
    requires step.BeginPop? || step.AcquireWrite? || step.ReturnEmpty? || step.ConsumerLooks?
    ensures Inv(Next(s, capacity, step), capacity)
  {
    hide Slot, Wrap, Distance;
  }

  lemma ReadSlotInv(s: State, capacity: U64)
    requires Inv(s, capacity) && Enabled(s, capacity, ReadSlot)
    ensures Inv(Next(s, capacity, ReadSlot), capacity)
  {
    hide Slot, Wrap, Distance;
    EmptyTestExact(s, capacity);
  }

  lemma PublishReadInv(s: State, capacity: U64)
    requires Inv(s, capacity) && Enabled(s, capacity, PublishRead)
    ensures Inv(Next(s, capacity, PublishRead), capacity)
  {
    hide Slot, Wrap, Distance, Successor;
    SuccessorWraps(|s.popped|);
  }

  lemma NextInv(s: State, capacity: U64, step: Step)
    requires Inv(s, capacity) && Enabled(s, capacity, step)
    ensures Inv(Next(s, capacity, step), capacity)
  {
    hide Inv, Next, Enabled;
    match step
    case WriteSlot => WriteSlotInv(s, capacity);
    case PublishWrite => PublishWriteInv(s, capacity);
    case ReadSlot => ReadSlotInv(s, capacity);
    case PublishRead => PublishReadInv(s, capacity);
    case BeginPop => ConsumerStepInv(s, capacity, step);
    case AcquireWrite(_) => ConsumerStepInv(s, capacity, step);
    case ReturnEmpty => ConsumerStepInv(s, capacity, step);
    case ConsumerLooks(_) => ConsumerStepInv(s, capacity, step);
    case _ => ProducerStepInv(s, capacity, step);
  }

  // ----- runs: any interleaving, any stale loads -----

  ghost predicate Run(states: seq<State>, steps: seq<Step>, capacity: U64) {
    && |states| == |steps| + 1
    && forall i :: 0 <= i < |steps| ==>
         Typed(states[i], capacity) && Enabled(states[i], capacity, steps[i])
         && states[i + 1] == Next(states[i], capacity, steps[i])
  }

  lemma {:induction false} RunInv(states: seq<State>, steps: seq<Step>, capacity: U64, n: nat)
    requires IsPow2(capacity) && Run(states, steps, capacity) && Start(states[0], capacity) && n < |states|
    ensures Inv(states[n], capacity)
  {
    hide Inv, Next, Enabled, Start;
    if n == 0 {
      StartInv(states[0], capacity);
    } else {
      RunInv(states, steps, capacity, n - 1);
      NextInv(states[n - 1], capacity, steps[n - 1]);
    }
  }

  /** The events still queued, read out of the slots. */
  ghost function Queued(s: State, capacity: U64): seq<MarketEvent>
    requires Typed(s, capacity) && |s.popped| <= |s.pushed|
  {
    seq(|s.pushed| - |s.popped|, i requires 0 <= i < |s.pushed| - |s.popped| =>
      s.buffer[SlotOf(|s.popped| + i, capacity)])
  }

  /** In every interleaving the events popped followed by the events queued are the events pushed, and at
      most a capacity of them is queued. */
  lemma Fifo(states: seq<State>, steps: seq<Step>, capacity: U64, n: nat)
    requires IsPow2(capacity) && Run(states, steps, capacity) && Start(states[0], capacity) && n < |states|
    ensures var s := states[n];
      && Typed(s, capacity) && |s.popped| <= |s.pushed| <= |s.popped| + capacity
      && s.pushed == s.popped + Queued(s, capacity)
  {
    hide Slot, Wrap, Distance, Next, Enabled;
    RunInv(states, steps, capacity, n);
    var s := states[n];
    assert s.pushed == s.pushed[..|s.popped|] + s.pushed[|s.popped|..];
    assert Queued(s, capacity) == s.pushed[|s.popped|..];
  }

  /** The protocol and the object agree on what is queued: the slots between the two newest counters. */
  lemma QueuedIsWaiting(s: State, capacity: U64)
    requires Inv(s, capacity)
    ensures Queued(s, capacity) == Ring.Waiting(s.buffer, Last(s.writeOrder), Last(s.readOrder), capacity)
  {
    hide Slot, Wrap, Distance, ProducerOk, ConsumerOk, ContentsOk, ViewsOk;
    var m := Pow2Divides(capacity);
    assert ContentsOk(s, capacity);
    CountsFit(s, capacity);
    WrappedDistance(|s.pushed|, |s.popped|);
    var queued, waiting := Queued(s, capacity), Ring.Waiting(s.buffer, Last(s.writeOrder), Last(s.readOrder), capacity);
    assert Last(s.readOrder) == Wrap(|s.popped|) && Last(s.writeOrder) == Wrap(|s.pushed|);
    forall i | 0 <= i < |queued| ensures queued[i] == waiting[i] {
      WrapAdd(|s.popped|, i);
      assert SlotOf(|s.popped| + i, capacity) == Slot(Wrap(Wrap(|s.popped|) + i), capacity);
    }
  }

  lemma CountsFit(s: State, capacity: U64)
    requires Inv(s, capacity)
    ensures |s.popped| <= |s.pushed| <= |s.popped| + capacity
  {
  }

  /** The slot the producer is about to write is never the slot the consumer is about to read or is
      copying. */
  lemma SlotsNeverShared(states: seq<State>, steps: seq<Step>, capacity: U64, n: nat)
    requires IsPow2(capacity) && Run(states, steps, capacity) && Start(states[0], capacity) && n < |states|
    requires Typed(states[n], capacity) && Enabled(states[n], capacity, WriteSlot)
    requires Enabled(states[n], capacity, ReadSlot) || states[n].consumer.CopiedSlot?
    ensures Slot(states[n].producer.write, capacity) != Slot(states[n].consumer.read, capacity)
  {
    hide Slot, Wrap, Distance, Next;
    RunInv(states, steps, capacity, n);
    var s := states[n];
    FullTestExact(s, capacity);
    if s.consumer.HoldsBoth? {
      EmptyTestExact(s, capacity);
    }
    SlotsApart(|s.popped|, |s.pushed|, capacity);
  }

  /** No data race: of a slot write and a slot read that touch the same slot, one happens before the
      other. Either the write was published in a counter value the reader had acquired, or the read was
      published in a counter value the writer had acquired. */
  lemma RaceFree(states: seq<State>, steps: seq<Step>, capacity: U64, n: nat, w: nat, r: nat)
    requires IsPow2(capacity) && Run(states, steps, capacity) && Start(states[0], capacity) && n < |states|
    requires w < |states[n].slotWriteViews| && r < |states[n].slotReadViews|
    requires SlotOf(w, capacity) == SlotOf(r, capacity)
    ensures w < states[n].slotReadViews[r] || r < states[n].slotWriteViews[w]
  {
    hide Slot, Wrap, Distance, Next, Enabled;
    RunInv(states, steps, capacity, n);
    if r < w {
      if w < r + capacity {
        SlotsApart(r, w, capacity);
      }
    }
  }

  // ----- what an owner thread observes -----

  /** A size computed by the producer with any admissible load, and by the consumer with any. */
  function ProducerSize(s: State, entry: nat): U64
    requires s.writeOrder != [] && entry < |s.readOrder|
  {
    Distance(Last(s.writeOrder), s.readOrder[entry])
  }

  function ConsumerSize(s: State, entry: nat): U64
    requires s.readOrder != [] && entry < |s.writeOrder|
  {
    Distance(s.writeOrder[entry], Last(s.readOrder))
  }

  lemma OwnerSizes(s: State, capacity: U64)
    requires Inv(s, capacity)
    ensures forall entry :: s.readSeen <= entry < |s.readOrder| ==>
      ProducerSize(s, entry) == |s.pushed| - entry <= capacity
    ensures forall entry :: s.writeSeen <= entry < |s.writeOrder| ==>
      ConsumerSize(s, entry) == entry - |s.popped| <= capacity
  {
    hide Slot, Wrap, Distance, ProducerOk, ConsumerOk, ContentsOk, ViewsOk;
    var m := Pow2Divides(capacity);
    forall entry | s.readSeen <= entry < |s.readOrder|
      ensures ProducerSize(s, entry) == |s.pushed| - entry <= capacity
    {
      WrappedDistance(|s.pushed|, entry);
    }
    forall entry | s.writeSeen <= entry < |s.writeOrder|
      ensures ConsumerSize(s, entry) == entry - |s.popped| <= capacity
    {
      WrappedDistance(entry, |s.popped|);
    }
  }

  /** Along a run what was seen, pushed and popped only grows. */
  lemma {:induction false} RunGrows(states: seq<State>, steps: seq<Step>, capacity: U64, i: nat, j: nat)
    requires Run(states, steps, capacity) && i <= j < |states|
    ensures states[i].readSeen <= states[j].readSeen && states[i].writeSeen <= states[j].writeSeen
    ensures |states[i].pushed| <= |states[j].pushed| && |states[i].popped| <= |states[j].popped|
    decreases j
  {
    if i < j {
      RunGrows(states, steps, capacity, i, j - 1);
      assert Enabled(states[j - 1], capacity, steps[j - 1]);
    }
  }

  /** Once the producer has observed that the queue is not full, its next push succeeds whatever the
      consumer does in between and however stale its load is: the full test can only answer "not full". */
  lemma NotFullStays(states: seq<State>, steps: seq<Step>, capacity: U64, i: nat, j: nat)
    requires IsPow2(capacity) && Run(states, steps, capacity) && Start(states[0], capacity) && i < j < |states|
    requires steps[i].ProducerLooks? && ProducerSize(states[i], steps[i].entry) < capacity
    requires states[j].pushed == states[i].pushed && states[j].producer.LoadedRead?
    ensures Enabled(states[j], capacity, WriteSlot) && !Enabled(states[j], capacity, ReturnFull)
  {
    hide Slot, Wrap, Distance;
    RunInv(states, steps, capacity, i);
    RunInv(states, steps, capacity, j);
    OwnerSizes(states[i], capacity);
    assert Enabled(states[i], capacity, steps[i]) && states[i + 1].readSeen == steps[i].entry;
    RunGrows(states, steps, capacity, i + 1, j);
    FullTestExact(states[j], capacity);
  }

  /** Once the consumer has observed that the queue is not empty, its next pop succeeds. */
  lemma NotEmptyStays(states: seq<State>, steps: seq<Step>, capacity: U64, i: nat, j: nat)
    requires IsPow2(capacity) && Run(states, steps, capacity) && Start(states[0], capacity) && i < j < |states|
    requires steps[i].ConsumerLooks? && ConsumerSize(states[i], steps[i].entry) != 0
    requires states[j].popped == states[i].popped && states[j].consumer.HoldsBoth?
    ensures Enabled(states[j], capacity, ReadSlot) && !Enabled(states[j], capacity, ReturnEmpty)
  {
    hide Slot, Wrap, Distance;
    RunInv(states, steps, capacity, i);
    RunInv(states, steps, capacity, j);
    OwnerSizes(states[i], capacity);
    assert Enabled(states[i], capacity, steps[i]) && states[i + 1].writeSeen == steps[i].entry;
    RunGrows(states, steps, capacity, i + 1, j);
    EmptyTestExact(states[j], capacity);
  }
}
