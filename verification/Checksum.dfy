/** The 64-bit FNV-1a checksum of a snapshot: the byte stream that feeds it, a decoder for that stream,
    and what the hash can and cannot miss. */
module Checksum {
  import opened Types
  import opened Words

  type Byte = b: int | 0 <= b < 256

  const OFFSET_BASIS: U64 := 14695981039346656037
  const PRIME: U64 := 1099511628211

  // ----- the hash of a byte stream -----

  function HashStep(hash: U64, byte: Byte): U64 {
    Wrap(Xor(hash, byte) * PRIME)
  }

  function Fnv(hash: U64, bytes: seq<Byte>): U64 {
    if bytes == [] then hash else HashStep(Fnv(hash, bytes[..|bytes| - 1]), bytes[|bytes| - 1])
  }

  lemma {:induction false} FnvConcat(hash: U64, a: seq<Byte>, b: seq<Byte>)
    ensures Fnv(hash, a + b) == Fnv(Fnv(hash, a), b)
  {
    if b == [] {
      assert a + b == a;
    } else {
      FnvConcat(hash, a, b[..|b| - 1]);
      assert (a + b)[..|a + b| - 1] == a + b[..|b| - 1];
    }
  }

  // ----- the byte stream of a snapshot -----

  /** The n low bytes of a word, least significant first. */
  function LittleEndian(value: nat, n: nat): (bytes: seq<Byte>)
    ensures |bytes| == n
  {
    if n == 0 then [] else [value % 256] + LittleEndian(value / 256, n - 1)
  }

  function WordBytes(value: U64): (bytes: seq<Byte>)
    ensures |bytes| == 8
  {
    LittleEndian(value, 8)
  }

  function OrderBytes(order: OrderView): (bytes: seq<Byte>)
    ensures |bytes| == 24
  {
    WordBytes(order.orderId) + WordBytes(Wrap(order.timestamp)) + WordBytes(order.quantity)
  }

  function OrdersBytes(orders: seq<OrderView>): seq<Byte> {
    if orders == [] then [] else OrderBytes(orders[0]) + OrdersBytes(orders[1..])
  }

  function LevelBytes(level: PriceLevelSnapshot): seq<Byte> {
    WordBytes(Wrap(level.price))
    + (WordBytes(level.quantity) + (WordBytes(Wrap(|level.orders|)) + OrdersBytes(level.orders)))
  }

  function LevelsBytes(tag: Byte, levels: seq<PriceLevelSnapshot>): seq<Byte> {
    if levels == [] then [] else [tag] + (LevelBytes(levels[0]) + LevelsBytes(tag, levels[1..]))
  }

  const TAG_D: Byte := 68
  const TAG_G: Byte := 71
  const TAG_BID: Byte := 66
  const TAG_ASK: Byte := 65

  function SnapshotBytes(snapshot: BookSnapshot): seq<Byte> {
    [TAG_D, TAG_G]
    + (WordBytes(Wrap(|snapshot.bids|)) + (LevelsBytes(TAG_BID, snapshot.bids)
    + (WordBytes(Wrap(|snapshot.asks|)) + LevelsBytes(TAG_ASK, snapshot.asks))))
  }

  // ----- the hashing code -----

  method HashByte(hash: U64, byte: Byte) returns (hash': U64)
    ensures hash' == Fnv(hash, [byte])
  {
    assert [byte][..0] == [];
    XorFits(hash, byte);
    var mixed: U64 := Xor(hash, byte);
    hash' := Wrap(mixed * PRIME);
  }

  lemma XorFits(hash: U64, byte: Byte)
    ensures Xor(hash, byte) < TWO64
  {
    Pow2Is64();
    XorBound(hash, byte, 64);
  }

  /** Byte k of a word is what shifting it right by 8k bits leaves in the low byte. */
  lemma {:induction false} ShiftedByte(value: nat, n: nat, k: nat)
    requires k < n
    ensures LittleEndian(value, n)[k] == And(ShiftRight(value, 8 * k), 0xff)
  {
    assert Pow2(8) == 256;
    if k == 0 {
      AndMask(value, 8);
      assert value / Pow2(0) == value;
    } else {
      ShiftedByte(value / 256, n - 1, k - 1);
      Pow2Add(8, 8 * (k - 1));
      DivisionTwice(value, 256, Pow2(8 * (k - 1)));
    }
  }

  lemma DivisionTwice(value: nat, a: nat, b: nat)
    requires a > 0 && b > 0
    ensures a * b > 0 && value / (a * b) == (value / a) / b
  {
    Division(value, a);
    Division(value / a, b);
    var q, r, s := (value / a) / b, (value / a) % b, value % a;
    assert value == a * (b * q + r) + s;
    assert a * (b * q + r) == (a * b) * q + a * r;
    assert 0 <= a * r + s < a * b by {
      MulMonotone(a, r, b - 1);
      assert a * (b - 1) == a * b - a;
    }
    Division(value, a * b);
    DivisionUnique(a * b, q, a * r + s, value / (a * b), value % (a * b));
  }

  lemma MulMonotone(a: int, x: int, y: int)
    requires a >= 0 && 0 <= x <= y
    ensures 0 <= a * x <= a * y
  {
  }

  method HashU64(hash: U64, value: U64) returns (hash': U64)
    ensures hash' == Fnv(hash, WordBytes(value))
  {
    hide Fnv, LittleEndian, And, ShiftRight;
    hash' := hash;
    var shift := 0;
    ghost var bytes := WordBytes(value);
    FnvNothing(hash, bytes);
    while shift < 64
      invariant 0 <= shift <= 64 && shift % 8 == 0
      invariant hash' == Fnv(hash, bytes[..shift / 8])
    {
      ghost var k := shift / 8;
      ShiftedByte(value, 8, k);
      assert shift == 8 * k;
      var byte := And(ShiftRight(value, shift), 0xff);
      var next := HashByte(hash', byte);
      FnvConcat(hash, bytes[..k], [bytes[k]]);
      assert bytes[..k + 1] == bytes[..k] + [bytes[k]];
      hash' := next;
      shift := shift + 8;
    }
    assert bytes[..8] == bytes;
  }

  lemma FnvNothing(hash: U64, bytes: seq<Byte>)
    ensures Fnv(hash, bytes[..0]) == hash
  {
  }

  method HashI64(hash: U64, value: I64) returns (hash': U64)
    ensures hash' == Fnv(hash, WordBytes(Wrap(value)))
  {
    hash' := HashU64(hash, Wrap(value));
  }

  lemma {:induction false} OrdersSnoc(orders: seq<OrderView>, n: nat)
    requires n < |orders|
    ensures OrdersBytes(orders[..n + 1]) == OrdersBytes(orders[..n]) + OrderBytes(orders[n])
  {
    hide OrderBytes;
    if n == 0 {
      assert orders[..1] == [orders[0]] && orders[..1][1..] == [];
      assert OrdersBytes([]) == [];
    } else {
      OrdersSnoc(orders[1..], n - 1);
      assert orders[..n + 1][1..] == orders[1..][..n] && orders[..n][1..] == orders[1..][..n - 1];
    }
  }

  lemma {:induction false} LevelsSnoc(tag: Byte, levels: seq<PriceLevelSnapshot>, n: nat)
    requires n < |levels|
    ensures LevelsBytes(tag, levels[..n + 1]) == LevelsBytes(tag, levels[..n]) + ([tag] + LevelBytes(levels[n]))
  {
    hide LevelBytes;
    if n == 0 {
      assert levels[..1] == [levels[0]] && levels[..1][1..] == [];
      assert LevelsBytes(tag, []) == [];
    } else {
      LevelsSnoc(tag, levels[1..], n - 1);
      assert levels[..n + 1][1..] == levels[1..][..n] && levels[..n][1..] == levels[1..][..n - 1];
    }
  }

  method HashPriceLevel(hash: U64, level: PriceLevelSnapshot) returns (hash': U64)
    ensures hash' == Fnv(hash, LevelBytes(level))
  {
    hide Fnv, WordBytes;
    hash' := HashI64(hash, level.price);
    hash' := HashU64(hash', level.quantity);
    hash' := HashU64(hash', Wrap(|level.orders|));
    ghost var start := hash';
    FnvNothing(start, []);
    assert OrdersBytes(level.orders[..0]) == [] == [][..0];
    for i := 0 to |level.orders|
      invariant hash' == Fnv(start, OrdersBytes(level.orders[..i]))
    {
      var order := level.orders[i];
      ghost var before := hash';
      hash' := HashU64(hash', order.orderId);
      hash' := HashI64(hash', order.timestamp);
      hash' := HashU64(hash', order.quantity);
      FnvConcat(before, WordBytes(order.orderId), WordBytes(Wrap(order.timestamp)));
      FnvConcat(before, WordBytes(order.orderId) + WordBytes(Wrap(order.timestamp)), WordBytes(order.quantity));
      OrdersSnoc(level.orders, i);
      FnvConcat(start, OrdersBytes(level.orders[..i]), OrderBytes(order));
    }
    assert level.orders[..|level.orders|] == level.orders;
    FnvFour(hash, WordBytes(Wrap(level.price)), WordBytes(level.quantity), WordBytes(Wrap(|level.orders|)),
            OrdersBytes(level.orders));
  }

  lemma FnvFour(hash: U64, a: seq<Byte>, b: seq<Byte>, c: seq<Byte>, d: seq<Byte>)
    ensures Fnv(hash, a + (b + (c + d))) == Fnv(Fnv(Fnv(Fnv(hash, a), b), c), d)
  {
    FnvConcat(hash, a, b + (c + d));
    FnvConcat(Fnv(hash, a), b, c + d);
    FnvConcat(Fnv(Fnv(hash, a), b), c, d);
  }

  method HashLevels(hash: U64, tag: Byte, levels: seq<PriceLevelSnapshot>) returns (hash': U64)
    ensures hash' == Fnv(hash, LevelsBytes(tag, levels))
  {
    hide Fnv, LevelBytes;
    hash' := hash;
    FnvNothing(hash, []);
    assert LevelsBytes(tag, levels[..0]) == [] == [][..0];
    for i := 0 to |levels|
      invariant hash' == Fnv(hash, LevelsBytes(tag, levels[..i]))
    {
      ghost var before := hash';
      hash' := HashByte(hash', tag);
      hash' := HashPriceLevel(hash', levels[i]);
      FnvConcat(before, [tag], LevelBytes(levels[i]));
      LevelsSnoc(tag, levels, i);
      FnvConcat(hash, LevelsBytes(tag, levels[..i]), [tag] + LevelBytes(levels[i]));
    }
    assert levels[..|levels|] == levels;
  }

  /** The checksum is the FNV-1a hash of the snapshot's byte stream. */
  method ChecksumSnapshot(snapshot: BookSnapshot) returns (hash: U64)
    ensures hash == Fnv(OFFSET_BASIS, SnapshotBytes(snapshot))
  {
    hide Fnv, WordBytes, LevelsBytes;
    hash := OFFSET_BASIS;
    hash := HashByte(hash, TAG_D);
    hash := HashByte(hash, TAG_G);
    FnvConcat(OFFSET_BASIS, [TAG_D], [TAG_G]);
    assert [TAG_D] + [TAG_G] == [TAG_D, TAG_G];
    ghost var start := hash;
    hash := HashU64(hash, Wrap(|snapshot.bids|));
    hash := HashLevels(hash, TAG_BID, snapshot.bids);
    hash := HashU64(hash, Wrap(|snapshot.asks|));
    hash := HashLevels(hash, TAG_ASK, snapshot.asks);
    var a, b := WordBytes(Wrap(|snapshot.bids|)), LevelsBytes(TAG_BID, snapshot.bids);
    var c, d := WordBytes(Wrap(|snapshot.asks|)), LevelsBytes(TAG_ASK, snapshot.asks);
    FnvFour(start, a, b, c, d);
    FnvConcat(OFFSET_BASIS, [TAG_D, TAG_G], a + (b + (c + d)));
  }

  // ----- a decoder for the byte stream -----

  function ReadBytes(bytes: seq<Byte>, n: nat): nat
    requires n <= |bytes|
  {
    if n == 0 then 0 else bytes[0] + 256 * ReadBytes(bytes[1..], n - 1)
  }

  lemma {:induction false} ReadBytesBound(bytes: seq<Byte>, n: nat)
    requires n <= |bytes|
    ensures ReadBytes(bytes, n) < Pow2(8 * n)
  {
    if n > 0 {
      ReadBytesBound(bytes[1..], n - 1);
      assert Pow2(8) == 256;
      Pow2Add(8, 8 * (n - 1));
    }
  }

  function Word(bytes: seq<Byte>): U64
    requires |bytes| >= 8
  {
    ReadBytesBound(bytes, 8);
    Pow2Is64();
    ReadBytes(bytes, 8)
  }

  /** Two's complement. */
  function Signed(word: U64): I64 {
    if word < TWO63 then word else word - TWO64
  }

  datatype Decoded<T> = Decoded(value: T, rest: seq<Byte>)

  function DecodeOrder(bytes: seq<Byte>): (d: Option<Decoded<OrderView>>)
    ensures d.Some? ==> |d.value.rest| < |bytes|
  {
    if |bytes| < 24 then None
    else Some(Decoded(OrderView(Word(bytes), Signed(Word(bytes[8..])), Word(bytes[16..])), bytes[24..]))
  }

  function DecodeOrders(bytes: seq<Byte>, n: nat): Option<Decoded<seq<OrderView>>>
    decreases n
  {
    if n == 0 then Some(Decoded([], bytes))
    else
      var first := DecodeOrder(bytes);
      if first.None? then None
      else
        var others := DecodeOrders(first.value.rest, n - 1);
        if others.None? then None
        else Some(Decoded([first.value.value] + others.value.value, others.value.rest))
  }

  function DecodeLevel(bytes: seq<Byte>): Option<Decoded<PriceLevelSnapshot>> {
    if |bytes| < 24 then None
    else
      var orders := DecodeOrders(bytes[24..], Word(bytes[16..]));
      if orders.None? then None
      else
        Some(Decoded(PriceLevelSnapshot(Signed(Word(bytes)), Word(bytes[8..]), orders.value.value), orders.value.rest))
  }

  function DecodeLevels(tag: Byte, bytes: seq<Byte>, n: nat): Option<Decoded<seq<PriceLevelSnapshot>>>
    decreases n
  {
    if n == 0 then Some(Decoded([], bytes))
    else if bytes == [] || bytes[0] != tag then None
    else
      var first := DecodeLevel(bytes[1..]);
      if first.None? then None
      else
        var others := DecodeLevels(tag, first.value.rest, n - 1);
        if others.None? then None
        else Some(Decoded([first.value.value] + others.value.value, others.value.rest))
  }

  function DecodeSnapshot(bytes: seq<Byte>): Option<BookSnapshot> {
    if |bytes| < 10 || bytes[..2] != [TAG_D, TAG_G] then None
    else
      var bids := DecodeLevels(TAG_BID, bytes[10..], Word(bytes[2..]));
      if bids.None? || |bids.value.rest| < 8 then None
      else
        var asks := DecodeLevels(TAG_ASK, bids.value.rest[8..], Word(bids.value.rest));
        if asks.None? || asks.value.rest != [] then None
        else Some(BookSnapshot(bids.value.value, asks.value.value))
  }

  // ----- decoding what was encoded -----

  /** Sizes are words, as every size of a vector is. */
  ghost predicate SizesFit(snapshot: BookSnapshot) {
    && |snapshot.bids| < TWO64 && |snapshot.asks| < TWO64
    && (forall level :: level in snapshot.bids ==> |level.orders| < TWO64)
    && (forall level :: level in snapshot.asks ==> |level.orders| < TWO64)
  }

  lemma {:induction false} ReadLittleEndian(value: nat, n: nat, rest: seq<Byte>)
    requires value < Pow2(8 * n)
    ensures ReadBytes(LittleEndian(value, n) + rest, n) == value
  {
    if n > 0 {
      assert Pow2(8) == 256;
      Pow2Add(8, 8 * (n - 1));
      ReadLittleEndian(value / 256, n - 1, rest);
      assert (LittleEndian(value, n) + rest)[1..] == LittleEndian(value / 256, n - 1) + rest;
    }
  }

  lemma WordRoundTrip(value: U64, rest: seq<Byte>)
    ensures Word(WordBytes(value) + rest) == value
    ensures (WordBytes(value) + rest)[8..] == rest
  {
    hide LittleEndian, ReadBytes;
    Pow2Is64();
    ReadLittleEndian(value, 8, rest);
  }

  lemma SignedRoundTrip(value: I64)
    ensures Signed(Wrap(value)) == value
  {
  }

  lemma SmallWord(n: nat)
    requires n < TWO64
    ensures Wrap(n) == n
  {
  }

  lemma OrderRoundTrip(order: OrderView, rest: seq<Byte>)
    ensures DecodeOrder(OrderBytes(order) + rest) == Some(Decoded(order, rest))
  {
    hide WordBytes, Word, Signed, Wrap;
    var a, b, c := WordBytes(order.orderId), WordBytes(Wrap(order.timestamp)), WordBytes(order.quantity);
    var bytes := OrderBytes(order) + rest;
    assert bytes == a + (b + (c + rest));
    WordRoundTrip(order.orderId, b + (c + rest));
    assert bytes[8..] == b + (c + rest);
    WordRoundTrip(Wrap(order.timestamp), c + rest);
    assert bytes[16..] == c + rest;
    WordRoundTrip(order.quantity, rest);
    assert bytes[24..] == rest;
    SignedRoundTrip(order.timestamp);
  }

  lemma {:induction false} OrdersRoundTrip(orders: seq<OrderView>, rest: seq<Byte>)
    ensures DecodeOrders(OrdersBytes(orders) + rest, |orders|) == Some(Decoded(orders, rest))
  {
    hide OrderBytes, DecodeOrder;
    if orders == [] {
      assert [] + rest == rest;
    } else {
      OrdersRoundTrip(orders[1..], rest);
      OrderRoundTrip(orders[0], OrdersBytes(orders[1..]) + rest);
      assert OrdersBytes(orders) + rest == OrderBytes(orders[0]) + (OrdersBytes(orders[1..]) + rest);
      assert [orders[0]] + orders[1..] == orders;
    }
  }

  lemma LevelRoundTrip(level: PriceLevelSnapshot, rest: seq<Byte>)
    requires |level.orders| < TWO64
    ensures DecodeLevel(LevelBytes(level) + rest) == Some(Decoded(level, rest))
  {
    hide WordBytes, Word, Signed, Wrap, OrdersBytes, DecodeOrders;
    SmallWord(|level.orders|);
    var a, b, c := WordBytes(Wrap(level.price)), WordBytes(level.quantity), WordBytes(Wrap(|level.orders|));
    var d := OrdersBytes(level.orders);
    var bytes := LevelBytes(level) + rest;
    assert bytes == a + (b + (c + (d + rest)));
    WordRoundTrip(Wrap(level.price), b + (c + (d + rest)));
    assert bytes[8..] == b + (c + (d + rest));
    WordRoundTrip(level.quantity, c + (d + rest));
    assert bytes[16..] == c + (d + rest);
    WordRoundTrip(Wrap(|level.orders|), d + rest);
    assert bytes[24..] == d + rest;
    SignedRoundTrip(level.price);
    OrdersRoundTrip(level.orders, rest);
  }

  lemma LevelsUnfold(tag: Byte, levels: seq<PriceLevelSnapshot>, rest: seq<Byte>)
    requires levels != []
    ensures LevelsBytes(tag, levels) + rest
         == [tag] + (LevelBytes(levels[0]) + (LevelsBytes(tag, levels[1..]) + rest))
  {
    hide LevelBytes;
  }

  lemma {:induction false} LevelsRoundTrip(tag: Byte, levels: seq<PriceLevelSnapshot>, rest: seq<Byte>)
    requires forall level :: level in levels ==> |level.orders| < TWO64
    ensures DecodeLevels(tag, LevelsBytes(tag, levels) + rest, |levels|) == Some(Decoded(levels, rest))
  {
    hide LevelBytes, DecodeLevel;
    if levels == [] {
      assert [] + rest == rest;
    } else {
      LevelsRoundTrip(tag, levels[1..], rest);
      LevelsStep(tag, levels, rest);
    }
  }

  lemma LevelsStep(tag: Byte, levels: seq<PriceLevelSnapshot>, rest: seq<Byte>)
    requires levels != [] && |levels[0].orders| < TWO64
    requires DecodeLevels(tag, LevelsBytes(tag, levels[1..]) + rest, |levels| - 1) == Some(Decoded(levels[1..], rest))
    ensures DecodeLevels(tag, LevelsBytes(tag, levels) + rest, |levels|) == Some(Decoded(levels, rest))
  {
    hide LevelBytes, LevelsBytes, DecodeLevel;
    var x, y := LevelBytes(levels[0]), LevelsBytes(tag, levels[1..]) + rest;
    LevelRoundTrip(levels[0], y);
    LevelsUnfold(tag, levels, rest);
    assert ([tag] + (x + y))[1..] == x + y;
    assert [levels[0]] + levels[1..] == levels;
  }

  /** The decoder recovers every snapshot from its byte stream. */
  lemma SnapshotRoundTrip(snapshot: BookSnapshot)
    requires SizesFit(snapshot)
    ensures DecodeSnapshot(SnapshotBytes(snapshot)) == Some(snapshot)
  {
    hide WordBytes, Word, Wrap, LevelsBytes, DecodeLevels;
    SmallWord(|snapshot.bids|);
    SmallWord(|snapshot.asks|);
    var a, b := WordBytes(Wrap(|snapshot.bids|)), LevelsBytes(TAG_BID, snapshot.bids);
    var c, d := WordBytes(Wrap(|snapshot.asks|)), LevelsBytes(TAG_ASK, snapshot.asks);
    var bytes := SnapshotBytes(snapshot);
    assert bytes[..2] == [TAG_D, TAG_G];
    assert bytes[2..] == a + (b + (c + d));
    WordRoundTrip(Wrap(|snapshot.bids|), b + (c + d));
    assert bytes[10..] == b + (c + d);
    LevelsRoundTrip(TAG_BID, snapshot.bids, c + d);
    WordRoundTrip(Wrap(|snapshot.asks|), d);
    LevelsRoundTrip(TAG_ASK, snapshot.asks, []);
    assert d + [] == d;
  }

  /** Different snapshots feed different byte streams to the hash. */
  lemma StreamInjective(a: BookSnapshot, b: BookSnapshot)
    requires SizesFit(a) && SizesFit(b) && SnapshotBytes(a) == SnapshotBytes(b)
    ensures a == b
  {
    SnapshotRoundTrip(a);
    SnapshotRoundTrip(b);
  }

  // ----- sensitivity of the hash -----

  /** Multiplying by the prime loses nothing modulo 2^64: the prime has an inverse. */
  lemma PrimeInvertible(a: U64, b: U64)
    requires Wrap(a * PRIME) == Wrap(b * PRIME)
    ensures a == b
  {
    var inverse, q := 14886173955864302971, 887285111055;
    assert PRIME * inverse == 1 + q * TWO64;
    var k := a * PRIME / TWO64 - b * PRIME / TWO64;
    assert (a - b) * PRIME == TWO64 * k;
    assert a - b == TWO64 * (k * inverse - (a - b) * q);
  }

  lemma HashStepInjective(h: U64, h': U64, byte: Byte)
    requires HashStep(h, byte) == HashStep(h', byte)
    ensures h == h'
  {
    XorFits(h, byte);
    XorFits(h', byte);
    PrimeInvertible(Xor(h, byte), Xor(h', byte));
    XorInvolutive(h, byte);
    XorInvolutive(h', byte);
  }

  lemma HashStepDiscerns(h: U64, byte: Byte, byte': Byte)
    requires HashStep(h, byte) == HashStep(h, byte')
    ensures byte == byte'
  {
    XorFits(h, byte);
    XorFits(h, byte');
    PrimeInvertible(Xor(h, byte), Xor(h, byte'));
    XorCommutes(h, byte);
    XorCommutes(h, byte');
    XorInvolutive(byte, h);
    XorInvolutive(byte', h);
  }

  /** Every suffix of a stream carries a difference in the running hash through to the end. */
  lemma {:induction false} FnvInjective(h: U64, h': U64, bytes: seq<Byte>)
    requires Fnv(h, bytes) == Fnv(h', bytes)
    ensures h == h'
  {
    hide HashStep;
    if bytes != [] {
      var init := bytes[..|bytes| - 1];
      HashStepInjective(Fnv(h, init), Fnv(h', init), bytes[|bytes| - 1]);
      FnvInjective(h, h', init);
    }
  }

  /** Streams of one length that differ in exactly one byte never have the same hash. */
  lemma OneByteMatters(h: U64, a: seq<Byte>, b: seq<Byte>, k: nat)
    requires |a| == |b| && k < |a| && a[k] != b[k]
    requires forall i :: 0 <= i < |a| && i != k ==> a[i] == b[i]
    ensures Fnv(h, a) != Fnv(h, b)
  {
    hide HashStep;
    var prefix, suffix := a[..k], a[k + 1..];
    assert a == prefix + [a[k]] + suffix && b == prefix + [b[k]] + suffix;
    FnvConcat(h, prefix + [a[k]], suffix);
    FnvConcat(h, prefix + [b[k]], suffix);
    if Fnv(h, a) == Fnv(h, b) {
      FnvInjective(Fnv(h, prefix + [a[k]]), Fnv(h, prefix + [b[k]]), suffix);
      assert (prefix + [a[k]])[..k] == prefix && (prefix + [b[k]])[..k] == prefix;
      HashStepDiscerns(Fnv(h, prefix), a[k], b[k]);
    }
  }

  /** Two snapshots whose byte streams have one length and differ in one byte have different checksums. */
  lemma ChecksumSensitive(a: BookSnapshot, b: BookSnapshot, k: nat)
    requires var x, y := SnapshotBytes(a), SnapshotBytes(b);
      |x| == |y| && k < |x| && x[k] != y[k] && forall i :: 0 <= i < |x| && i != k ==> x[i] == y[i]
    ensures Fnv(OFFSET_BASIS, SnapshotBytes(a)) != Fnv(OFFSET_BASIS, SnapshotBytes(b))
  {
    OneByteMatters(OFFSET_BASIS, SnapshotBytes(a), SnapshotBytes(b), k);
  }
}
