/** The checksum that the repository's documentation prints for its example replay, and published values
    of the hash, worked out byte by byte. */
module DocumentedChecksum {
  import opened Types
  import opened Checksum
  import opened Words

  // ----- hashing by hand -----

  lemma {:induction false} XorNothing(a: nat)
    ensures Xor(a, 0) == a
  {
    if a > 0 {
      XorNothing(a / 2);
    }
  }

  /** A byte only changes the low bits. */
  lemma {:induction false} XorLow(high: nat, low: nat, b: nat, k: nat)
    requires low < Pow2(k) && b < Pow2(k)
    ensures Xor(Pow2(k) * high + low, b) == Pow2(k) * high + Xor(low, b)
  {
    hide Xor;
    if k == 0 {
      XorNothing(high);
      XorNothing(0);
    } else {
      var p := Pow2(k - 1);
      XorLow(high, low / 2, b / 2, k - 1);
      XorOneUp(p * high, low, b);
      Doubled(p, high);
    }
  }

  lemma Doubled(p: nat, high: nat)
    ensures 2 * p * high == 2 * (p * high) && p * high >= 0
  {
  }

  lemma XorOneUp(h: nat, low: nat, b: nat)
    requires Xor(h + low / 2, b / 2) == h + Xor(low / 2, b / 2)
    ensures Xor(2 * h + low, b) == 2 * h + Xor(low, b)
  {
    hide Xor;
    Halved(h, low);
    XorDigit(2 * h + low, b);
    XorDigit(low, b);
    SameDigits(Xor(2 * h + low, b), h, Xor(low, b));
  }

  lemma Halved(h: nat, low: nat)
    ensures (2 * h + low) / 2 == h + low / 2 && (2 * h + low) % 2 == low % 2
  {
  }

  lemma SameDigits(x: nat, h: nat, y: nat)
    requires x / 2 == h + y / 2 && x % 2 == y % 2
    ensures x == 2 * h + y
  {
  }

  lemma XorPair(a: nat, x: nat, b: nat, y: nat)
    requires x < 2 && y < 2
    ensures Xor(2 * a + x, 2 * b + y) == 2 * Xor(a, b) + (x + y) % 2
  {
    hide Xor;
    XorDigit(2 * a + x, 2 * b + y);
  }

  /** The exclusive or of two bytes given by their bits. */
  lemma XorByte(a7: nat, a6: nat, a5: nat, a4: nat, a3: nat, a2: nat, a1: nat, a0: nat,
                b7: nat, b6: nat, b5: nat, b4: nat, b3: nat, b2: nat, b1: nat, b0: nat)
    requires a7 < 2 && a6 < 2 && a5 < 2 && a4 < 2 && a3 < 2 && a2 < 2 && a1 < 2 && a0 < 2
    requires b7 < 2 && b6 < 2 && b5 < 2 && b4 < 2 && b3 < 2 && b2 < 2 && b1 < 2 && b0 < 2
    ensures Xor(128 * a7 + 64 * a6 + 32 * a5 + 16 * a4 + 8 * a3 + 4 * a2 + 2 * a1 + a0,
                128 * b7 + 64 * b6 + 32 * b5 + 16 * b4 + 8 * b3 + 4 * b2 + 2 * b1 + b0)
         == 128 * ((a7 + b7) % 2) + 64 * ((a6 + b6) % 2) + 32 * ((a5 + b5) % 2) + 16 * ((a4 + b4) % 2)
            + 8 * ((a3 + b3) % 2) + 4 * ((a2 + b2) % 2) + 2 * ((a1 + b1) % 2) + (a0 + b0) % 2
  {
    hide Xor;
    var a, b := 8 * a7 + 4 * a6 + 2 * a5 + a4, 8 * b7 + 4 * b6 + 2 * b5 + b4;
    XorNibble(0, 0, a7, a6, a5, a4, b7, b6, b5, b4);
    XorNothing(0);
    XorNibble(a, b, a3, a2, a1, a0, b3, b2, b1, b0);
  }

  lemma XorNibble(a: nat, b: nat, a3: nat, a2: nat, a1: nat, a0: nat, b3: nat, b2: nat, b1: nat, b0: nat)
    requires a3 < 2 && a2 < 2 && a1 < 2 && a0 < 2 && b3 < 2 && b2 < 2 && b1 < 2 && b0 < 2
    ensures Xor(16 * a + 8 * a3 + 4 * a2 + 2 * a1 + a0, 16 * b + 8 * b3 + 4 * b2 + 2 * b1 + b0)
         == 16 * Xor(a, b) + 8 * ((a3 + b3) % 2) + 4 * ((a2 + b2) % 2) + 2 * ((a1 + b1) % 2) + (a0 + b0) % 2
  {
    hide Xor;
    XorPair(a, a3, b, b3);
    XorPair(2 * a + a3, a2, 2 * b + b3, b2);
    XorPair(4 * a + 2 * a3 + a2, a1, 4 * b + 2 * b3 + b2, b1);
    XorPair(8 * a + 4 * a3 + 2 * a2 + a1, a0, 8 * b + 4 * b3 + 2 * b2 + b1, b0);
  }

  /** One step of the hash: byte turns the low byte of the hash into `mixed`, and the product with the prime
      has this quotient and remainder. */
  lemma Step(high: nat, low: Byte, byte: Byte, mixed: Byte, quotient: nat, next: U64)
    requires 256 * high + low < TWO64 && Xor(low, byte) == mixed
    requires (256 * high + mixed) * 1099511628211 == quotient * 0x1_0000_0000_0000_0000 + next
    ensures Fnv(256 * high + low, [byte]) == next
  {
    hide Xor;
    assert Pow2(8) == 256;
    XorLow(high, low, byte, 8);
    FnvOne(256 * high + low, byte);
    Remainder((256 * high + mixed) * 1099511628211, quotient, next);
  }

  lemma FnvOne(hash: U64, byte: Byte)
    ensures Fnv(hash, [byte]) == HashStep(hash, byte)
  {
    assert [byte][..0] == [];
  }

  lemma Remainder(x: nat, quotient: nat, r: U64)
    requires x == quotient * 0x1_0000_0000_0000_0000 + r
    ensures Wrap(x) == r
  {
  }

  /** Hashing k zero bytes multiplies by the k-th power of the prime. */
  function PrimePower(k: nat): U64 {
    if k == 0 then 1 else Wrap(PrimePower(k - 1) * PRIME)
  }

  function ZeroBytes(k: nat): (bytes: seq<Byte>)
    ensures |bytes| == k
  {
    seq(k, i => 0)
  }

  lemma {:induction false} ZeroRun(hash: U64, k: nat)
    ensures Fnv(hash, ZeroBytes(k)) == Wrap(hash * PrimePower(k))
  {
    hide Wrap, PrimePower, Xor;
    if k == 0 {
      NoZeros(hash);
    } else {
      var p := PrimePower(k - 1);
      ZeroRun(hash, k - 1);
      assert ZeroBytes(k)[..k - 1] == ZeroBytes(k - 1);
      XorNothing(Fnv(hash, ZeroBytes(k - 1)));
      WrapTimes(hash * p, PRIME);
      WrapTimes(p * PRIME, hash);
      Exchanged(hash, p);
      NextPower(k);
    }
  }

  lemma NoZeros(hash: U64)
    ensures Fnv(hash, ZeroBytes(0)) == hash == Wrap(hash * PrimePower(0))
  {
  }

  lemma NextPower(k: nat)
    requires k > 0
    ensures PrimePower(k) == Wrap(PrimePower(k - 1) * PRIME)
  {
  }

  lemma Exchanged(hash: int, p: int)
    ensures (hash * p) * PRIME == (p * PRIME) * hash
    ensures forall x: int :: x * hash == hash * x
  {
  }

  lemma WrapTimes(a: int, b: int)
    ensures Wrap(Wrap(a) * b) == Wrap(a * b)
  {
    Division(a, TWO64);
    var q, r: int := a / TWO64, Wrap(a);
    assert a * b == TWO64 * (q * b) + r * b;
    WrapShift(r * b, q * b);
  }

  lemma WrapShift(x: int, k: int)
    ensures Wrap(TWO64 * k + x) == Wrap(x)
  {
  }

  /** A word with a short prefix of bytes, all others zero. */
  lemma HashWord(hash: U64, value: U64, prefix: seq<Byte>, after: U64, power: U64, quotient: nat, next: U64)
    requires |prefix| <= 8 && WordBytes(value) == prefix + ZeroBytes(8 - |prefix|)
    requires Fnv(hash, prefix) == after && PrimePower(8 - |prefix|) == power
    requires after * power == quotient * 0x1_0000_0000_0000_0000 + next
    ensures Fnv(hash, WordBytes(value)) == next
  {
    hide Fnv, WordBytes, PrimePower, Wrap;
    FnvConcat(hash, prefix, ZeroBytes(8 - |prefix|));
    ZeroRun(after, 8 - |prefix|);
    Remainder(after * power, quotient, next);
  }

  lemma TwoBytes(hash: U64, a: seq<Byte>, b: Byte, after: U64, next: U64)
    requires Fnv(hash, a) == after && Fnv(after, [b]) == next
    ensures Fnv(hash, a + [b]) == next
  {
    FnvConcat(hash, a, [b]);
  }

  lemma Power(k: nat, before: U64, quotient: nat, next: U64)
    requires k > 0 && PrimePower(k - 1) == before
    requires before * 1099511628211 == quotient * 0x1_0000_0000_0000_0000 + next
    ensures PrimePower(k) == next
  {
    hide Wrap;
    Remainder(before * 1099511628211, quotient, next);
  }

  lemma PrimePowers()
    ensures PrimePower(4) == 11527715348014283921
    ensures PrimePower(6) == 15895002104753931833
    ensures PrimePower(7) == 14218562807570617051
    ensures PrimePower(8) == 2232315406967589409
  {
    hide PrimePower;
    PowerZero();
    Power(1, 1, 0, 1099511628211);
    Power(2, 1099511628211, 65536, 956575116354345);
    Power(3, 956575116354345, 57016320, 624165263380053675);
    Power(4, 624165263380053675, 37203148819, 11527715348014283921);
    Power(5, 11527715348014283921, 687105378662, 913917546033277539);
    Power(6, 913917546033277539, 54473730706, 15895002104753931833);
    Power(7, 15895002104753931833, 947415954532, 14218562807570617051);
    Power(8, 14218562807570617051, 847492385697, 2232315406967589409);
  }

  lemma PowerZero()
    ensures PrimePower(0) == 1
  {
  }

  // ----- published values of 64-bit FNV-1a: the empty text and "a" -----

  lemma PublishedValues()
    ensures Fnv(OFFSET_BASIS, []) == 0xcbf29ce484222325
    ensures Fnv(OFFSET_BASIS, [97]) == 0xaf63dc4c8601ec8c
  {
    hide Fnv, Xor;
    FnvEmpty(OFFSET_BASIS);
    XorByte(0, 0, 1, 0, 0, 1, 0, 1, 0, 1, 1, 0, 0, 0, 0, 1);
    Step(57406175934947875, 37, 97, 68, 875948729822, 12638187200555641996);
  }

  // ----- the documented final book: one sell of 25 at 10030 -----

  const RESTING: OrderView := OrderView(2, 100000004, 25)
  const LEVEL: PriceLevelSnapshot := PriceLevelSnapshot(10030, 25, [RESTING])
  const FINAL: BookSnapshot := BookSnapshot([], [LEVEL])

  lemma FnvEmpty(hash: U64)
    ensures Fnv(hash, []) == hash
  {
  }

  lemma BytesNone()
    ensures WordBytes(0) == [] + ZeroBytes(8)
  {
    assert LittleEndian(0, 8) == [0, 0, 0, 0, 0, 0, 0, 0];
  }

  lemma Bytes1()
    ensures WordBytes(1) == [1] + ZeroBytes(7)
  {
    assert LittleEndian(1, 8) == [1, 0, 0, 0, 0, 0, 0, 0];
  }

  lemma Bytes2()
    ensures WordBytes(2) == [2] + ZeroBytes(7)
  {
    assert LittleEndian(2, 8) == [2, 0, 0, 0, 0, 0, 0, 0];
  }

  lemma Bytes25()
    ensures WordBytes(25) == [25] + ZeroBytes(7)
  {
    assert LittleEndian(25, 8) == [25, 0, 0, 0, 0, 0, 0, 0];
  }

  lemma Bytes10030()
    ensures WordBytes(10030) == [46, 39] + ZeroBytes(6)
  {
    assert LittleEndian(10030, 8) == [46, 39, 0, 0, 0, 0, 0, 0];
  }

  lemma Bytes100000004()
    ensures WordBytes(100000004) == [4, 225, 245, 5] + ZeroBytes(4)
  {
    assert LittleEndian(100000004, 8) == [4, 225, 245, 5, 0, 0, 0, 0];
  }

  lemma HashTags()
    ensures Fnv(OFFSET_BASIS, [TAG_D, TAG_G]) == 648009305569116796
  {
    hide Fnv, Xor;
    XorByte(0, 0, 1, 0, 0, 1, 0, 1, 0, 1, 0, 0, 0, 1, 0, 0);
    Step(57406175934947875, 37, 68, 97, 875948729822, 12638219086392860115);
    XorByte(1, 1, 0, 1, 0, 0, 1, 1, 0, 1, 0, 0, 0, 1, 1, 1);
    Step(49368043306222109, 211, 71, 148, 753296559536, 648009305569116796);
    TwoBytes(OFFSET_BASIS, [68], 71, 12638219086392860115, 648009305569116796);
    assert [68] + [71] == [TAG_D, TAG_G];
  }

  lemma HashNoBids()
    ensures Fnv(648009305569116796, WordBytes(0)) == 16815247588950043132
  {
    hide Fnv, WordBytes, PrimePower, LittleEndian, Xor;
    PrimePowers();
    FnvEmpty(648009305569116796);
    BytesNone();
    HashWord(648009305569116796, 0, [], 648009305569116796, 2232315406967589409, 78418237435296702,
             16815247588950043132);
  }

  lemma HashOneAsk()
    ensures Fnv(16815247588950043132, WordBytes(1)) == 17269688637117680541
  {
    hide Fnv, WordBytes, PrimePower, LittleEndian, Xor;
    PrimePowers();
    XorByte(1, 1, 1, 1, 1, 1, 0, 0, 0, 0, 0, 0, 0, 0, 0, 1);
    Step(65684560894336105, 252, 1, 253, 1002266859746, 2546121649489975527);
    Bytes1();
    HashWord(16815247588950043132, 1, [1], 2546121649489975527, 14218562807570617051,
             1962524684265781671, 17269688637117680541);
  }

  lemma HashAsk()
    ensures Fnv(17269688637117680541, [TAG_ASK]) == 4475042865196000980
  {
    hide Fnv, Xor;
    XorByte(1, 0, 0, 1, 1, 1, 0, 1, 0, 1, 0, 0, 0, 0, 0, 1);
    Step(67459721238740939, 157, 65, 220, 1029353657004, 4475042865196000980);
  }

  lemma HashPrice()
    ensures Fnv(4475042865196000980, WordBytes(10030)) == 16134435697486841683
  {
    hide Fnv, WordBytes, PrimePower, LittleEndian, Xor;
    PrimePowers();
    XorByte(1, 1, 0, 1, 0, 1, 0, 0, 0, 0, 1, 0, 1, 1, 1, 0);
    Step(17480636192171878, 212, 46, 250, 266733340440, 3351378076913367758);
    XorByte(1, 1, 0, 0, 1, 1, 1, 0, 0, 0, 1, 0, 0, 1, 1, 1);
    Step(13091320612942842, 206, 39, 233, 199757699861, 8913929879009057259);
    TwoBytes(4475042865196000980, [46], 39, 3351378076913367758, 8913929879009057259);
    assert [46] + [39] == [46, 39];
    Bytes10030();
    HashWord(4475042865196000980, 10030, [46, 39], 8913929879009057259, 15895002104753931833,
             7680864092997922979, 16134435697486841683);
  }

  lemma HashQuantity()
    ensures Fnv(16134435697486841683, WordBytes(25)) == 8844496774019159178
  {
    hide Fnv, WordBytes, PrimePower, LittleEndian, Xor;
    PrimePowers();
    XorByte(0, 1, 0, 1, 0, 0, 1, 1, 0, 0, 0, 1, 1, 0, 0, 1);
    Step(63025139443307975, 83, 25, 74, 961687308780, 10286084756168876734);
    Bytes25();
    HashWord(16134435697486841683, 25, [25], 10286084756168876734, 14218562807570617051,
             7928409564592122916, 8844496774019159178);
  }

  lemma HashOrders()
    ensures Fnv(8844496774019159178, WordBytes(1)) == 17828658918087709675
  {
    hide Fnv, WordBytes, PrimePower, LittleEndian, Xor;
    PrimePowers();
    XorByte(1, 0, 0, 0, 1, 0, 1, 0, 0, 0, 0, 0, 0, 0, 0, 1);
    Step(34548815523512340, 138, 1, 139, 527173088641, 1215739661543204913);
    Bytes1();
    HashWord(8844496774019159178, 1, [1], 1215739661543204913, 14218562807570617051, 937079772247881443,
             17828658918087709675);
  }

  lemma HashId()
    ensures Fnv(17828658918087709675, WordBytes(2)) == 5206871706030484233
  {
    hide Fnv, WordBytes, PrimePower, LittleEndian, Xor;
    PrimePowers();
    XorByte(1, 1, 1, 0, 1, 0, 1, 1, 0, 0, 0, 0, 0, 0, 1, 0);
    Step(69643198898780115, 235, 2, 233, 1062670882054, 11856933488523285739);
    Bytes2();
    HashWord(17828658918087709675, 2, [2], 11856933488523285739, 14218562807570617051,
             9139203798681713491, 5206871706030484233);
  }

  lemma HashTime()
    ensures Fnv(5206871706030484233, WordBytes(100000004)) == 17829383424041753616
  {
    hide Fnv, WordBytes, PrimePower, LittleEndian, Xor;
    PrimePowers();
    XorByte(0, 0, 0, 0, 1, 0, 0, 1, 0, 0, 0, 0, 0, 1, 0, 0);
    Step(20339342601681579, 9, 4, 13, 310353738551, 14102216081136461591);
    XorByte(0, 0, 0, 1, 0, 1, 1, 1, 1, 1, 1, 0, 0, 0, 0, 1);
    Step(55086781566939303, 23, 225, 246, 840557580394, 9039318119154018050);
    TwoBytes(5206871706030484233, [4], 225, 14102216081136461591, 9039318119154018050);
    assert [4] + [225] == [4, 225];
    XorByte(0, 0, 0, 0, 0, 0, 1, 0, 1, 1, 1, 1, 0, 1, 0, 1);
    Step(35309836402945383, 2, 245, 247, 538785345717, 1607063347116091573);
    TwoBytes(5206871706030484233, [4, 225], 245, 9039318119154018050, 1607063347116091573);
    assert [4, 225] + [245] == [4, 225, 245];
    XorByte(1, 0, 1, 1, 0, 1, 0, 1, 0, 0, 0, 0, 0, 1, 0, 1);
    Step(6277591199672232, 181, 5, 176, 95788439974, 5565694690577326864);
    TwoBytes(5206871706030484233, [4, 225, 245], 5, 1607063347116091573, 5565694690577326864);
    assert [4, 225, 245] + [5] == [4, 225, 245, 5];
    Bytes100000004();
    HashWord(5206871706030484233, 100000004, [4, 225, 245, 5], 5565694690577326864,
             11527715348014283921, 3478106697342369833, 17829383424041753616);
  }

  lemma HashLeft()
    ensures Fnv(17829383424041753616, WordBytes(25)) == 1500019388078896937
  {
    hide Fnv, WordBytes, PrimePower, LittleEndian, Xor;
    PrimePowers();
    XorByte(0, 0, 0, 1, 0, 0, 0, 0, 0, 0, 0, 1, 1, 0, 0, 1);
    Step(69646029000163100, 16, 25, 9, 1062714065974, 12696798119493149515);
    Bytes25();
    HashWord(17829383424041753616, 25, [25], 12696798119493149515, 14218562807570617051,
             9786562918404173783, 1500019388078896937);
  }

  lemma HashLevel()
    ensures Fnv(4475042865196000980, LevelBytes(LEVEL)) == 1500019388078896937
  {
    hide Fnv, WordBytes;
    HashPrice();
    HashQuantity();
    HashOrders();
    HashId();
    HashTime();
    HashLeft();
    FnvConcat(17828658918087709675, WordBytes(2), WordBytes(100000004));
    FnvConcat(17828658918087709675, WordBytes(2) + WordBytes(100000004), WordBytes(25));
    assert OrdersBytes([RESTING]) == OrderBytes(RESTING) + [] by { assert [RESTING][1..] == []; }
    assert OrderBytes(RESTING) + [] == OrderBytes(RESTING);
    FnvFour(4475042865196000980, WordBytes(10030), WordBytes(25), WordBytes(1), OrdersBytes([RESTING]));
  }

  /** The checksum of the documented final book is the documented one. */
  lemma DocumentedChecksum()
    ensures Fnv(OFFSET_BASIS, SnapshotBytes(FINAL)) == 0x14d123af9ea43729
  {
    hide Fnv, LevelBytes, WordBytes;
    HashTags();
    HashNoBids();
    HashOneAsk();
    HashAsk();
    HashLevel();
    FinalBytes();
    var bids, asks := WordBytes(0), WordBytes(1);
    FnvConcat(OFFSET_BASIS, [TAG_D, TAG_G], bids + (asks + ([TAG_ASK] + LevelBytes(LEVEL))));
    FnvConcat(648009305569116796, bids, asks + ([TAG_ASK] + LevelBytes(LEVEL)));
    FnvConcat(16815247588950043132, asks, [TAG_ASK] + LevelBytes(LEVEL));
    FnvConcat(17269688637117680541, [TAG_ASK], LevelBytes(LEVEL));
  }

  lemma FinalBytes()
    ensures SnapshotBytes(FINAL) == [TAG_D, TAG_G] + (WordBytes(0) + (WordBytes(1) + ([TAG_ASK] + LevelBytes(LEVEL))))
  {
    hide WordBytes, LevelBytes;
    assert [LEVEL][1..] == [] && LevelsBytes(TAG_ASK, []) == [] && LevelsBytes(TAG_BID, []) == [];
    assert LevelsBytes(TAG_ASK, [LEVEL]) == [TAG_ASK] + (LevelBytes(LEVEL) + []);
    assert LevelBytes(LEVEL) + [] == LevelBytes(LEVEL);
    var rest := WordBytes(1) + ([TAG_ASK] + LevelBytes(LEVEL));
    assert [] + rest == rest;
  }
}
