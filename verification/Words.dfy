/** Bitwise operations on unsigned words, by binary digits, and the facts about powers of two that
    masking relies on. */
module Words {
  import opened Types

  function And(a: nat, b: nat): nat {
    if a == 0 || b == 0 then 0
    else (if a % 2 == 1 && b % 2 == 1 then 1 else 0) + 2 * And(a / 2, b / 2)
  }

  function Xor(a: nat, b: nat): nat {
    if a == 0 && b == 0 then 0
    else (a + b) % 2 + 2 * Xor(a / 2, b / 2)
  }

  function Pow2(k: nat): nat
    ensures Pow2(k) > 0
  {
    if k == 0 then 1 else 2 * Pow2(k - 1)
  }

  function ShiftRight(value: nat, bits: nat): nat {
    QuotientNonNegative(value, Pow2(bits));
    value / Pow2(bits)
  }

  lemma QuotientNonNegative(value: nat, d: nat)
    requires d > 0
    ensures value / d >= 0
  {
    Division(value, d);
  }

  ghost predicate IsPow2(n: nat) {
    exists k: nat :: Pow2(k) == n
  }

  // ----- powers of two -----

  /** Clearing the lowest set bit leaves nothing exactly when the word is a power of two. */
  lemma {:induction false} PowerOfTwoTest(v: nat)
    requires v > 0
    ensures And(v, v - 1) == 0 <==> IsPow2(v)
  {
    hide And, IsPow2;
    var h := v / 2;
    if v == 1 {
      OneIsPow2();
    } else if v % 2 == 0 {
      PowerOfTwoTest(h);
      assert v == 2 * h;
      EvenAnd(h);
      EvenPow2(h);
    } else {
      assert v == 2 * h + 1;
      OddAnd(h);
      OddNotPow2(h);
    }
  }

  lemma OneIsPow2()
    ensures And(1, 0) == 0 && IsPow2(1)
  {
    assert Pow2(0) == 1;
  }

  lemma EvenAnd(h: nat)
    requires h > 0
    ensures And(2 * h, 2 * h - 1) == 2 * And(h, h - 1)
  {
    assert (2 * h) / 2 == h && (2 * h - 1) / 2 == h - 1;
  }

  lemma EvenPow2(h: nat)
    requires h > 0
    ensures IsPow2(2 * h) <==> IsPow2(h)
  {
    if k: nat :| Pow2(k) == h {
      assert Pow2(k + 1) == 2 * h;
    }
    if k: nat :| Pow2(k) == 2 * h {
      assert Pow2(k - 1) == h;
    }
  }

  lemma OddAnd(h: nat)
    requires h > 0
    ensures And(2 * h + 1, 2 * h) == 2 * h
  {
    assert (2 * h + 1) / 2 == h && (2 * h) / 2 == h;
    AndSelf(h);
  }

  lemma OddNotPow2(h: nat)
    requires h > 0
    ensures !IsPow2(2 * h + 1)
  {
    forall k: nat ensures Pow2(k) != 2 * h + 1 {
    }
  }

  lemma {:induction false} AndSelf(a: nat)
    ensures And(a, a) == a
  {
    if a > 0 {
      AndSelf(a / 2);
    }
  }

  lemma {:induction false} Pow2Add(j: nat, k: nat)
    ensures Pow2(j + k) == Pow2(j) * Pow2(k)
  {
    if j > 0 {
      Pow2Add(j - 1, k);
    }
  }

  lemma {:induction false} Pow2Grows(j: nat, k: nat)
    requires j <= k
    ensures Pow2(j) <= Pow2(k)
  {
    if j < k {
      Pow2Grows(j, k - 1);
    }
  }

  lemma Pow2Is64()
    ensures Pow2(64) == TWO64 && Pow2(63) == TWO63
  {
    assert Pow2(8) == 256;
    Pow2Add(8, 8);
    Pow2Add(16, 16);
    Pow2Add(32, 32);
  }

  /** A 64-bit power of two divides 2^64. */
  lemma Pow2Divides(n: U64) returns (m: nat)
    requires IsPow2(n)
    ensures n * m == TWO64 && n <= TWO63
  {
    var k: nat :| Pow2(k) == n;
    Pow2Is64();
    if k >= 64 {
      Pow2Grows(64, k);
    }
    m := Pow2(64 - k);
    Pow2Add(k, 64 - k);
    Pow2Grows(k, 63);
  }

  // ----- remainders -----

  lemma MulAtLeast(d: int, t: int)
    requires d > 0 && t >= 1
    ensures d * t >= d
  {
  }

  lemma DivisionUnique(d: int, q: int, r: int, q': int, r': int)
    requires 0 <= r < d && 0 <= r' < d && d * q + r == d * q' + r'
    ensures q == q' && r == r'
  {
    assert d * (q - q') == r' - r;
    if q > q' {
      MulAtLeast(d, q - q');
    } else if q < q' {
      MulAtLeast(d, q' - q);
    }
  }

  lemma Division(x: int, d: int)
    requires d > 0
    ensures x == d * (x / d) + x % d && 0 <= x % d < d
  {
  }

  lemma ModUnique(x: int, d: int, q: int, r: int)
    requires 0 <= r < d && x == d * q + r
    ensures x % d == r
  {
    Division(x, d);
    DivisionUnique(d, q, r, x / d, x % d);
  }

  lemma ModShift(x: int, d: int, m: int)
    requires d > 0
    ensures (x + d * m) % d == x % d
  {
    assert x + d * m == d * (x / d + m) + x % d;
    ModUnique(x + d * m, d, x / d + m, x % d);
  }

  lemma ModDouble(a: nat, h: nat)
    requires h > 0
    ensures a % (2 * h) == a % 2 + 2 * ((a / 2) % h)
  {
    Division(a / 2, h);
    var q, r := (a / 2) / h, (a / 2) % h;
    assert (2 * h) * q == 2 * (h * q);
    ModUnique(a, 2 * h, q, 2 * r + a % 2);
  }

  lemma AndOdd(a: nat, h: nat)
    requires h > 0
    ensures And(a, 2 * h - 1) == a % 2 + 2 * And(a / 2, h - 1)
  {
    assert (2 * h - 1) / 2 == h - 1 && (2 * h - 1) % 2 == 1;
  }

  /** Masking with 2^k - 1 takes the remainder. */
  lemma {:induction false} AndMask(a: nat, k: nat)
    ensures And(a, Pow2(k) - 1) == a % Pow2(k)
  {
    if k > 0 {
      var h := Pow2(k - 1);
      AndMask(a / 2, k - 1);
      AndOdd(a, h);
      ModDouble(a, h);
    }
  }

  /** Numbers that leave the same remainder and are less than the divisor apart are equal. */
  lemma ModInjective(i: int, j: int, d: int)
    requires d > 0 && i <= j < i + d && i % d == j % d
    ensures i == j
  {
    Division(i, d);
    Division(j, d);
    var t := j / d - i / d;
    assert d * t == d * (j / d) - d * (i / d);
    if t >= 1 {
      MulAtLeast(d, t);
    } else if t <= -1 {
      MulAtLeast(d, -t);
    }
  }

  // ----- sequence numbers -----

  function Successor(sequence: U64): U64 {
    Wrap(sequence + 1)
  }

  function Distance(write: U64, read: U64): U64 {
    Wrap(write - read)
  }

  /** The slot a sequence number is masked to. */
  function Slot(sequence: U64, capacity: U64): (slot: nat)
    requires IsPow2(capacity)
    ensures slot < capacity && slot == sequence % capacity
  {
    assert Wrap(sequence) == sequence;
    SlotIs(sequence, capacity);
    And(sequence, capacity - 1)
  }

  /** The slot of a sequence number that has wrapped any number of times. */
  lemma SlotIs(i: nat, capacity: U64)
    requires IsPow2(capacity)
    ensures And(Wrap(i), capacity - 1) == i % capacity
  {
    var k: nat :| Pow2(k) == capacity;
    AndMask(Wrap(i), k);
    var m := Pow2Divides(capacity);
    var w := i / TWO64;
    assert i == Wrap(i) + TWO64 * w;
    assert TWO64 * w == capacity * (m * w);
    ModShift(Wrap(i), capacity, m * w);
  }

  /** The difference of two wrapped counters is their true distance. */
  lemma WrappedDistance(w: nat, r: nat)
    requires r <= w < r + TWO64
    ensures Distance(Wrap(w), Wrap(r)) == w - r
  {
  }

  lemma DistanceReaches(write: U64, read: U64)
    ensures Wrap(read + Distance(write, read)) == write
    ensures Distance(write, read) == 0 <==> write == read
  {
  }

  lemma DistanceSteps(write: U64, read: U64)
    ensures Distance(write, read) < TWO64 - 1 ==> Distance(Successor(write), read) == Distance(write, read) + 1
    ensures write != read ==> Distance(write, Successor(read)) == Distance(write, read) - 1
  {
    hide Wrap;
    WrapSub(write + 1, read);
    WrapNext(write - read);
    WrapTaken(write, read + 1);
    WrapPrevious(write - read);
    DistanceReaches(write, read);
  }

  lemma WrapNext(x: int)
    ensures Wrap(x) < TWO64 - 1 ==> Wrap(x + 1) == Wrap(x) + 1
  {
  }

  lemma WrapPrevious(x: int)
    ensures Wrap(x) > 0 ==> Wrap(x - 1) == Wrap(x) - 1
  {
  }

  lemma WrapTaken(a: int, b: int)
    ensures Wrap(a - Wrap(b)) == Wrap(a - b)
  {
  }

  lemma SuccessorAdds(sequence: nat, i: nat)
    ensures Wrap(Successor(Wrap(sequence)) + i) == Wrap(sequence + i + 1)
  {
  }

  /** Any window of at most `capacity` consecutive sequence numbers occupies distinct slots, also when
      the window runs across 2^64. */
  lemma SlotsDistinct(i: nat, j: nat, capacity: U64)
    requires IsPow2(capacity) && i < j < i + capacity
    ensures Slot(Wrap(i), capacity) != Slot(Wrap(j), capacity)
  {
    SlotIs(i, capacity);
    SlotIs(j, capacity);
    if i % capacity == j % capacity {
      ModInjective(i, j, capacity);
    }
  }

  // ----- exclusive or -----

  lemma XorDigit(a: nat, b: nat)
    ensures Xor(a, b) % 2 == (a + b) % 2 && Xor(a, b) / 2 == Xor(a / 2, b / 2)
  {
    if a > 0 || b > 0 {
      LowDigit((a + b) % 2, Xor(a / 2, b / 2));
    }
  }

  lemma LowDigit(d: nat, h: nat)
    requires d < 2
    ensures (d + 2 * h) % 2 == d && (d + 2 * h) / 2 == h
  {
  }

  lemma HalvesDecide(x: nat, a: nat)
    requires x / 2 == a / 2 && x % 2 == a % 2
    ensures x == a
  {
  }

  lemma ParityReturns(y: nat, a: nat, b: nat)
    requires y % 2 == (a + b) % 2
    ensures (y + b) % 2 == a % 2
  {
  }

  lemma {:induction false} XorInvolutive(a: nat, b: nat)
    ensures Xor(Xor(a, b), b) == a
  {
    if a > 0 || b > 0 {
      XorInvolutive(a / 2, b / 2);
      XorReturns(a, b);
    }
  }

  lemma XorReturns(a: nat, b: nat)
    requires Xor(Xor(a / 2, b / 2), b / 2) == a / 2
    ensures Xor(Xor(a, b), b) == a
  {
    hide Xor;
    var y := Xor(a, b);
    XorDigit(a, b);
    XorDigit(y, b);
    ParityReturns(y, a, b);
    HalvesDecide(Xor(y, b), a);
  }

  lemma {:induction false} XorBound(a: nat, b: nat, k: nat)
    requires a < Pow2(k) && b < Pow2(k)
    ensures Xor(a, b) < Pow2(k)
  {
    if (a > 0 || b > 0) && k > 0 {
      XorBound(a / 2, b / 2, k - 1);
    }
  }

  lemma {:induction false} XorCommutes(a: nat, b: nat)
    ensures Xor(a, b) == Xor(b, a)
  {
    if a > 0 || b > 0 {
      XorCommutes(a / 2, b / 2);
    }
  }
}
