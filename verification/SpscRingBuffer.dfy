/** The ring buffer as one object, called by one thread at a time. The counters are 64-bit and wrap;
    any pair of counters at most a capacity apart is a legal state. */
module SpscRingBuffer {
  import opened Types
  import opened Words

  const NO_EVENT: MarketEvent := MarketEvent(Add, 0, 0, Buy, 0, 0)

  /** The constructor's test on a requested capacity. */
  predicate IsPowerOfTwo(value: U64) {
    And(value, Wrap(value - 1)) == 0
  }

  /** The accepted capacities are the powers of two that fit a word, and every one of them. */
  lemma CapacitiesAccepted(value: U64)
    ensures value != 0 && IsPowerOfTwo(value) <==> IsPow2(value)
  {
    if value != 0 {
      PowerOfTwoTest(value);
    }
  }

  /** The events waiting between two counters. */
  function Waiting(buffer: seq<MarketEvent>, write: U64, read: U64, capacity: U64): (queued: seq<MarketEvent>)
    requires IsPow2(capacity) && |buffer| == capacity
    ensures |queued| == Distance(write, read)
  {
    seq(Distance(write, read), i requires 0 <= i < Distance(write, read) => buffer[Slot(Wrap(read + i), capacity)])
  }

  class SpscRingBuffer {
    const capacity: U64
    const mask: U64
    const buffer: array<MarketEvent>
    var writeSequence: U64
    var readSequence: U64

    ghost predicate Valid()
      reads this
    {
      && IsPow2(capacity) && mask == capacity - 1 && buffer.Length == capacity
      && Distance(writeSequence, readSequence) <= capacity
    }

    ghost function Contents(): seq<MarketEvent>
      requires Valid()
      reads this, buffer
    {
      Waiting(buffer[..], writeSequence, readSequence, capacity)
    }

    constructor (capacityPowerOfTwo: U64)
      requires capacityPowerOfTwo != 0 && IsPowerOfTwo(capacityPowerOfTwo)
      ensures Valid() && fresh(buffer) && capacity == capacityPowerOfTwo && Contents() == []
    {
      capacity, mask := capacityPowerOfTwo, capacityPowerOfTwo - 1;
      buffer := new MarketEvent[capacityPowerOfTwo](_ => NO_EVENT);
      writeSequence, readSequence := 0, 0;
      new;
      CapacitiesAccepted(capacity);
    }

    /** Construction with its error paths: None stands for an exception. The buffer, which is allocated
        first, can be had for at most `available` events. */
    static method Create(capacityPowerOfTwo: U64, available: nat) returns (queue: Option<SpscRingBuffer>)
      ensures queue.Some? <==> capacityPowerOfTwo <= available && IsPow2(capacityPowerOfTwo)
      ensures queue.Some? ==> queue.value.Valid() && fresh(queue.value) && fresh(queue.value.buffer)
      ensures queue.Some? ==> queue.value.capacity == capacityPowerOfTwo && queue.value.Contents() == []
    {
      CapacitiesAccepted(capacityPowerOfTwo);
      if capacityPowerOfTwo > available {
        return None;
      }
      if capacityPowerOfTwo == 0 || !IsPowerOfTwo(capacityPowerOfTwo) {
        return None;
      }
      var made := new SpscRingBuffer(capacityPowerOfTwo);
      return Some(made);
    }

    method TryPush(event: MarketEvent) returns (pushed: bool)
      requires Valid()
      modifies this`writeSequence, buffer
      ensures Valid()
      ensures pushed <==> |old(Contents())| < capacity
      ensures Contents() == if pushed then old(Contents()) + [event] else old(Contents())
    {
      var write, read := writeSequence, readSequence;
      if Distance(write, read) >= capacity {
        return false;
      }
      PushSlots(buffer[..], write, read, capacity, event);
      assert And(write, mask) == Slot(write, capacity);
      buffer[And(write, mask)] := event;
      writeSequence := Successor(write);
      return true;
    }

    method TryPop() returns (out: Option<MarketEvent>)
      requires Valid()
      modifies this`readSequence
      ensures Valid()
      ensures out.Some? <==> old(Contents()) != []
      ensures out.Some? ==> old(Contents()) == [out.value] + Contents()
      ensures out.None? ==> Contents() == old(Contents())
    {
      var read, write := readSequence, writeSequence;
      if write == read {
        return None;
      }
      PopSlots(buffer[..], write, read, capacity);
      assert And(read, mask) == Slot(read, capacity);
      out := Some(buffer[And(read, mask)]);
      readSequence := Successor(read);
    }

    function ApproximateSize(): (size: U64)
      requires Valid()
      reads this, buffer
      ensures size == |Contents()|
    {
      Distance(writeSequence, readSequence)
    }

    predicate Empty()
      requires Valid()
      reads this, buffer
      ensures Empty() <==> Contents() == []
    {
      ApproximateSize() == 0
    }

    predicate Full()
      requires Valid()
      reads this, buffer
      ensures Full() <==> |Contents()| == capacity
    {
      ApproximateSize() >= capacity
    }
  }

  // ----- one slot in, one slot out -----

  lemma PushSlots(buffer: seq<MarketEvent>, write: U64, read: U64, capacity: U64, event: MarketEvent)
    requires IsPow2(capacity) && |buffer| == capacity && Distance(write, read) < capacity
    ensures Distance(Successor(write), read) == Distance(write, read) + 1
    ensures Waiting(buffer[Slot(write, capacity) := event], Successor(write), read, capacity)
         == Waiting(buffer, write, read, capacity) + [event]
  {
    hide Slot, Wrap, Distance, Successor;
    var n := Distance(write, read);
    var m := Pow2Divides(capacity);
    DistanceReaches(write, read);
    DistanceSteps(write, read);
    var before := Waiting(buffer, write, read, capacity);
    var after := Waiting(buffer[Slot(write, capacity) := event], Successor(write), read, capacity);
    forall i | 0 <= i < n ensures after[i] == before[i] {
      SlotsDistinct(read + i, read + n, capacity);
    }
    assert after[n] == event;
  }

  lemma PopSlots(buffer: seq<MarketEvent>, write: U64, read: U64, capacity: U64)
    requires IsPow2(capacity) && |buffer| == capacity && write != read && Distance(write, read) <= capacity
    ensures Distance(write, Successor(read)) == Distance(write, read) - 1
    ensures Waiting(buffer, write, read, capacity)
         == [buffer[Slot(read, capacity)]] + Waiting(buffer, write, Successor(read), capacity)
  {
    hide Slot, Wrap, Distance, Successor;
    DistanceSteps(write, read);
    DistanceReaches(write, read);
    var before := Waiting(buffer, write, read, capacity);
    var after := Waiting(buffer, write, Successor(read), capacity);
    WordWraps(read);
    forall i | 0 <= i < |after| ensures after[i] == before[i + 1] {
      SuccessorAdds(read, i);
    }
  }

  lemma WordWraps(word: U64)
    ensures Wrap(word) == word && Wrap(word + 0) == word
  {
  }
}
