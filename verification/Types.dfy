// Domain values of the market-data engine: fixed-width integers, events, book results and the
// views a book hands out.
module Types {
  const TWO64: int := 0x1_0000_0000_0000_0000
  const TWO63: int := 0x8000_0000_0000_0000

  type U64 = x: int | 0 <= x < 0x1_0000_0000_0000_0000
  type I64 = x: int | -0x8000_0000_0000_0000 <= x < 0x8000_0000_0000_0000

  /** Unsigned 64-bit arithmetic keeps the residue of the exact result. */
  function Wrap(x: int): U64 {
    x % 0x1_0000_0000_0000_0000
  }

  lemma WrapAdd(a: int, b: int)
    ensures Wrap(Wrap(a) + b) == Wrap(a + b)
  {
  }

  lemma WrapSub(a: int, b: int)
    ensures Wrap(Wrap(a) - b) == Wrap(a - b)
  {
  }

  datatype Option<+T> = None | Some(value: T)

  datatype Side = Buy | Sell

  datatype EventType = Add | Modify | Cancel | Execute

  datatype MarketEvent = MarketEvent(
    eventType: EventType, timestamp: I64, orderId: U64, side: Side, price: I64, quantity: U64)

  datatype BookResult =
    | Applied
    | DuplicateOrderId
    | MissingOrderId
    | InvalidQuantity
    | InsufficientQuantity
    | UnsupportedModify
    | CapacityExceeded

  datatype PriceLevelView = PriceLevelView(price: I64, quantity: U64, orderCount: nat)

  datatype TopOfBook = TopOfBook(bid: Option<PriceLevelView>, ask: Option<PriceLevelView>)

  datatype BookDepth = BookDepth(bids: seq<PriceLevelView>, asks: seq<PriceLevelView>)

  datatype OrderView = OrderView(orderId: U64, timestamp: I64, quantity: U64)

  datatype PriceLevelSnapshot = PriceLevelSnapshot(price: I64, quantity: U64, orders: seq<OrderView>)

  datatype BookSnapshot = BookSnapshot(bids: seq<PriceLevelSnapshot>, asks: seq<PriceLevelSnapshot>)

  /** What the feed parser makes of one line of input. */
  datatype ParsedRow =
    | Event(event: MarketEvent, lineNumber: nat, rawRow: string)
    | MalformedRow(message: string, lineNumber: nat, rawRow: string)

  /** A subset is the whole set exactly when it has as many members. */
  lemma SubsetSize<T>(part: set<T>, whole: set<T>)
    requires part <= whole
    ensures |part| == |whole| <==> part == whole
    ensures part != whole ==> exists x :: x in whole && x !in part
  {
    if part != whole {
      assert whole == part + (whole - part);
    }
  }
}
