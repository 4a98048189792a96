/** The example replay of the repository's documentation, from the text of its rows to what it prints. */
module DocumentedReplay {
  import opened Types
  import opened Ledger
  import opened CsvParser
  import Views
  import Checksum
  import DocumentedChecksum
  import Engine = ReplayEngine

  function Lines(): seq<string> {
    ["timestamp_ns" + ",event_type" + ",order_id" + ",side" + ",price" + ",quantity",
     "100000001,ADD,1,B,10025,200",
     "100000004,ADD,2,S,10030,100",
     "100000009,CANCEL,1,,,",
     "100000012,MODIFY,2,,10030,50",
     "100000020,EXECUTE,2,,10030,25"]
  }

  function Events(): seq<MarketEvent> {
    [MarketEvent(Add, 100000001, 1, Buy, 10025, 200),
     MarketEvent(Add, 100000004, 2, Sell, 10030, 100),
     MarketEvent(Cancel, 100000009, 1, Buy, 0, 0),
     MarketEvent(Modify, 100000012, 2, Buy, 10030, 50),
     MarketEvent(Execute, 100000020, 2, Buy, 10030, 25)]
  }

  // ----- rows -----

  lemma JoinSix(a: string, b: string, c: string, d: string, e: string, f: string)
    ensures Join([a, b, c, d, e, f]) == a + "," + b + "," + c + "," + d + "," + e + "," + f
  {
    hide Join;
    JoinOne(f);
    JoinCons(e, [f]);
    JoinCons(d, [e, f]);
    JoinCons(c, [d, e, f]);
    JoinCons(b, [c, d, e, f]);
    JoinCons(a, [b, c, d, e, f]);
    assert [e] + [f] == [e, f] && [d] + [e, f] == [d, e, f] && [c] + [d, e, f] == [c, d, e, f];
    assert [b] + [c, d, e, f] == [b, c, d, e, f] && [a] + [b, c, d, e, f] == [a, b, c, d, e, f];
  }

  /** An event written without any blanks is read back, from whatever text that is. */
  lemma RowIs(e: MarketEvent, text: string, line: nat)
    requires var f := Fields(e); text == f[0] + "," + f[1] + "," + f[2] + "," + f[3] + "," + f[4] + "," + f[5]
    ensures RowOf(text, line) == Event(Normal(e), line, text)
  {
    hide Fields, RowOf, Join;
    var f, pads := Fields(e), seq(6, i => Padding("", ""));
    RowRoundTrip(e, pads, line);
    forall i | 0 <= i < 6 ensures Pad(f, pads)[i] == f[i] {
      assert "" + f[i] + "" == f[i];
    }
    assert Pad(f, pads) == f;
    JoinSix(f[0], f[1], f[2], f[3], f[4], f[5]);
    assert f == [f[0], f[1], f[2], f[3], f[4], f[5]];
  }

  lemma DigitTexts()
    ensures Digit(0) == '0' && Digit(1) == '1' && Digit(2) == '2' && Digit(3) == '3' && Digit(4) == '4'
    ensures Digit(5) == '5' && Digit(9) == '9'
  {
  }

  lemma Thousands()
    ensures RenderNat(1000) == "1000" && RenderNat(10000) == "10000"
  {
    hide RenderNat, Digit;
    DigitTexts();
    SmallNumbers();
    RenderMore(10, 0);
    RenderMore(100, 0);
    RenderMore(1000, 0);
  }

  lemma Millions()
    ensures RenderNat(1000000) == "1000000" && RenderNat(10000000) == "10000000"
  {
    hide RenderNat, Digit;
    DigitTexts();
    Thousands();
    RenderMore(10000, 0);
    RenderMore(100000, 0);
    RenderMore(1000000, 0);
  }

  lemma AddTimes()
    ensures RenderNat(100000001) == "100000001" && RenderNat(100000004) == "100000004"
    ensures RenderNat(100000009) == "100000009"
  {
    hide RenderNat, Digit;
    DigitTexts();
    Millions();
    RenderMore(10000000, 1);
    RenderMore(10000000, 4);
    RenderMore(10000000, 9);
  }

  lemma LateTimes()
    ensures RenderNat(100000012) == "100000012" && RenderNat(100000020) == "100000020"
  {
    hide RenderNat, Digit;
    DigitTexts();
    Millions();
    RenderMore(1000000, 1);
    RenderMore(10000001, 2);
    RenderMore(1000000, 2);
    RenderMore(10000002, 0);
  }

  lemma Times()
    ensures RenderNat(100000001) == "100000001" && RenderNat(100000004) == "100000004"
    ensures RenderNat(100000009) == "100000009" && RenderNat(100000012) == "100000012"
    ensures RenderNat(100000020) == "100000020"
  {
    hide RenderNat, Digit;
    DigitTexts();
    AddTimes();
    LateTimes();
  }

  lemma SmallNumbers()
    ensures RenderNat(1) == "1" && RenderNat(2) == "2" && RenderNat(5) == "5" && RenderNat(10) == "10"
  {
  }

  lemma Quantities()
    ensures RenderNat(25) == "25" && RenderNat(50) == "50" && RenderNat(100) == "100" && RenderNat(200) == "200"
  {
    hide RenderNat, Digit;
    DigitTexts();
    SmallNumbers();
    RenderMore(2, 5);
    RenderMore(5, 0);
    RenderMore(10, 0);
    RenderMore(2, 0);
    RenderMore(20, 0);
  }

  lemma Prices()
    ensures RenderNat(10025) == "10025" && RenderNat(10030) == "10030"
  {
    hide RenderNat, Digit;
    DigitTexts();
    Quantities();
    RenderMore(100, 2);
    RenderMore(1002, 5);
    RenderMore(100, 3);
    RenderMore(1003, 0);
  }

  lemma Numbers()
    ensures RenderNat(1) == "1" && RenderNat(2) == "2" && RenderNat(25) == "25" && RenderNat(50) == "50"
    ensures RenderNat(100) == "100" && RenderNat(200) == "200"
    ensures RenderNat(10025) == "10025" && RenderNat(10030) == "10030"
  {
    hide RenderNat, Digit;
    DigitTexts();
    SmallNumbers();
    Quantities();
    Prices();
  }

  lemma FirstRow()
    ensures RowOf(Lines()[1], 2) == Event(Events()[0], 2, Lines()[1])
  {
    hide RowOf, RenderNat;
    Times();
    Numbers();
    var f := Fields(Events()[0]);
    assert f == ["100000001", "ADD", "1", "B", "10025", "200"];
    assert "100000001" + "," + "ADD" + "," + "1" + "," + "B" + "," + "10025" + "," + "200" == Lines()[1];
    RowIs(Events()[0], Lines()[1], 2);
  }

  lemma SecondRow()
    ensures RowOf(Lines()[2], 3) == Event(Events()[1], 3, Lines()[2])
  {
    hide RowOf, RenderNat;
    Times();
    Numbers();
    var f := Fields(Events()[1]);
    assert f == ["100000004", "ADD", "2", "S", "10030", "100"];
    assert "100000004" + "," + "ADD" + "," + "2" + "," + "S" + "," + "10030" + "," + "100" == Lines()[2];
    RowIs(Events()[1], Lines()[2], 3);
  }

  lemma ThirdRow()
    ensures RowOf(Lines()[3], 4) == Event(Events()[2], 4, Lines()[3])
  {
    hide RowOf, RenderNat;
    Times();
    Numbers();
    var f := Fields(Events()[2]);
    assert f == ["100000009", "CANCEL", "1", "", "", ""];
    assert "100000009" + "," + "CANCEL" + "," + "1" + "," + "" + "," + "" + "," + "" == Lines()[3];
    RowIs(Events()[2], Lines()[3], 4);
  }

  lemma FourthRow()
    ensures RowOf(Lines()[4], 5) == Event(Events()[3], 5, Lines()[4])
  {
    hide RowOf, RenderNat;
    Times();
    Numbers();
    var f := Fields(Events()[3]);
    assert f == ["100000012", "MODIFY", "2", "", "10030", "50"];
    assert "100000012" + "," + "MODIFY" + "," + "2" + "," + "" + "," + "10030" + "," + "50" == Lines()[4];
    RowIs(Events()[3], Lines()[4], 5);
  }

  lemma FifthRow()
    ensures RowOf(Lines()[5], 6) == Event(Events()[4], 6, Lines()[5])
  {
    hide RowOf, RenderNat;
    Times();
    Numbers();
    var f := Fields(Events()[4]);
    assert f == ["100000020", "EXECUTE", "2", "", "10030", "25"];
    assert "100000020" + "," + "EXECUTE" + "," + "2" + "," + "" + "," + "10030" + "," + "25" == Lines()[5];
    RowIs(Events()[4], Lines()[5], 6);
  }

  lemma HeaderIs()
    ensures Trimmed(Lines()[0]) == Lines()[0]
  {
    hide Trimmed;
    var header, first := Lines()[0], "timestamp_ns";
    assert first[0] == 't' && header[0] == first[0] && header[|header| - 1] == 'y';
    TrimmedBetween("", header, "");
    assert "" + header + "" == header;
  }

  /** The documented text is the documented events. */
  lemma RowsAreEvents()
    ensures var rows := FileRows(Lines());
      |rows| == 5 && forall i :: 0 <= i < 5 ==> rows[i] == Event(Events()[i], i + 2, Lines()[i + 1])
  {
    hide RowOf, Trimmed;
    HeaderIs();
    FileRowsExactly(Lines());
    FirstRow();
    SecondRow();
    ThirdRow();
    FourthRow();
    FifthRow();
    var rows := FileRows(Lines());
    assert rows[0] == RowOf(Lines()[1], 2) && rows[1] == RowOf(Lines()[2], 3) && rows[2] == RowOf(Lines()[3], 4);
    assert rows[3] == RowOf(Lines()[4], 5) && rows[4] == RowOf(Lines()[5], 6);
  }

  // ----- the book -----

  function LedgerAt(n: nat): State {
    var buy := Order(1, Buy, 10025, 100000001, 200);
    var sell := Order(2, Sell, 10030, 100000004, 100);
    if n == 0 then EMPTY
    else if n == 1 then State([buy], 1)
    else if n == 2 then State([buy, sell], 2)
    else if n == 3 then State([sell], 3)
    else if n == 4 then State([sell.(quantity := 50)], 4)
    else State([sell.(quantity := 25)], 5)
  }

  lemma AddStep(s: State, e: MarketEvent)
    requires e.eventType.Add? && e.quantity > 0 && s.applied < 10 && !HasId(s.live, e.orderId)
    ensures Step(s, e)
         == (State(s.live + [Order(e.orderId, e.side, e.price, e.timestamp, e.quantity)], s.applied + 1), Applied)
  {
  }

  lemma CancelStep(s: State, e: MarketEvent)
    requires e.eventType.Cancel? && s.applied < 10 && HasId(s.live, e.orderId)
    ensures Step(s, e) == (State(Without(s.live, e.orderId), s.applied + 1), Applied)
  {
  }

  /** Modifying and executing the only order. */
  lemma ReduceStep(s: State, o: Order, e: MarketEvent, left: U64)
    requires s.live == [o] && s.applied < 10 && o.id == e.orderId && 0 < e.quantity < o.quantity
    requires (e.eventType.Modify? && left == e.quantity) || (e.eventType.Execute? && left == o.quantity - e.quantity)
    ensures Step(s, e) == (State([o.(quantity := left)], s.applied + 1), Applied)
  {
    assert s.live[0].id == e.orderId;
    OrderIsUnique(s.live, OrderOf(s.live, e.orderId), o);
    WithQuantityAt(s.live, e.orderId, left);
    assert WithQuantity(s.live, e.orderId, left) == [o.(quantity := left)];
  }

  lemma FirstStep()
    ensures Step(LedgerAt(0), Events()[0]) == (LedgerAt(1), Applied)
  {
    hide Step;
    AddStep(LedgerAt(0), Events()[0]);
    assert EMPTY.live + [LedgerAt(1).live[0]] == LedgerAt(1).live;
  }

  lemma SecondStep()
    ensures Step(LedgerAt(1), Events()[1]) == (LedgerAt(2), Applied)
  {
    hide Step;
    AddStep(LedgerAt(1), Events()[1]);
    assert LedgerAt(1).live + [LedgerAt(2).live[1]] == LedgerAt(2).live;
  }

  lemma ThirdStep()
    ensures Step(LedgerAt(2), Events()[2]) == (LedgerAt(3), Applied)
  {
    hide Step;
    var live := LedgerAt(2).live;
    assert live[0].id == 1;
    WithoutAt(live, 0);
    CancelStep(LedgerAt(2), Events()[2]);
    assert live[..0] + live[1..] == LedgerAt(3).live;
  }

  lemma FourthStep()
    ensures Step(LedgerAt(3), Events()[3]) == (LedgerAt(4), Applied)
  {
    hide Step;
    ReduceStep(LedgerAt(3), LedgerAt(3).live[0], Events()[3], 50);
  }

  lemma FifthStep()
    ensures Step(LedgerAt(4), Events()[4]) == (LedgerAt(5), Applied)
  {
    hide Step;
    ReduceStep(LedgerAt(4), LedgerAt(4).live[0], Events()[4], 25);
  }

  lemma StepsAre(i: nat)
    requires i < 5
    ensures Step(LedgerAt(i), Events()[i]) == (LedgerAt(i + 1), Applied)
  {
    hide Step;
    if i == 0 { FirstStep(); } else if i == 1 { SecondStep(); } else if i == 2 { ThirdStep(); }
    else if i == 3 { FourthStep(); } else { FifthStep(); }
  }

  lemma NeverCrossed(n: nat)
    requires n <= 5
    ensures !Views.Crossed(LedgerAt(n).live)
  {
    hide Views.Crossed;
    Views.CrossedByOrders(LedgerAt(n).live);
  }

  lemma {:induction false} AfterIs(rows: seq<ParsedRow>, n: nat)
    requires |rows| == 5 && forall i :: 0 <= i < 5 ==> rows[i].Event? && rows[i].event == Events()[i]
    requires n <= 5
    ensures Engine.After(rows, n) == LedgerAt(n) && Engine.CountAccepted(rows, n) == n
    ensures Engine.NoneCrosses(rows, n) && Engine.RowErrors(rows, n) == []
  {
    hide Step, LedgerAt, Views.Crossed, Events;
    if n == 0 {
      Engine.NothingTaken(rows);
      Start();
    } else {
      AfterIs(rows, n - 1);
      StepsAre(n - 1);
      NeverCrossed(n);
      Engine.OneMoreTaken(rows, n - 1);
    }
  }

  lemma Start()
    ensures LedgerAt(0) == EMPTY
  {
  }

  lemma OneQueue(o: Order)
    ensures Queue([o], o.side, o.price) == [o] && Sum([o]) == o.quantity
  {
    assert [o][..0] == [] && Queue([], o.side, o.price) == [];
  }

  lemma OnePrice(o: Order)
    requires o.side == Sell
    ensures Views.Prices([o], Buy) == {} && Views.Prices([o], Sell) == {o.price}
  {
    assert o in [o];
  }

  lemma OneEntry(price: I64)
    ensures Views.PriceOrder(Buy, {}) == [] && Views.PriceOrder(Sell, {price}) == [price]
  {
    hide Views.PriceOrder;
    Views.PriceOrderUnique(Sell, {price}, [price]);
    Views.PriceOrderUnique(Buy, {}, []);
  }

  lemma FinalBook()
    ensures Views.Snapshot(LedgerAt(5).live) == DocumentedChecksum.FINAL
    ensures Views.Top(LedgerAt(5).live) == TopOfBook(None, Some(PriceLevelView(10030, 25, 1)))
  {
    hide Queue, Sum, Views.PriceOrder, Views.Prices;
    var live := LedgerAt(5).live;
    assert live == [live[0]];
    OneQueue(live[0]);
    OnePrice(live[0]);
    OneEntry(10030);
    assert Views.OrderViews(live) == [DocumentedChecksum.RESTING];
    assert Views.LevelSnapshot(live, Sell, 10030) == DocumentedChecksum.LEVEL;
  }

  /** The documented replay: five events, none rejected, one ask left, and the documented checksum. */
  method Replay(engine: Engine.ReplayEngine, options: Engine.ReplayOptions) returns (result: Engine.ReplayResult)
    modifies engine.book
    ensures result.eventsProcessed == 5 && result.rejectedEvents == 0 && result.errors == []
    ensures !result.fileOpenFailed && !result.invariantFailed
    ensures result.finalTop == TopOfBook(None, Some(PriceLevelView(10030, 25, 1)))
    ensures result.finalChecksum == 0x14d123af9ea43729
  {
    hide FileRows, LedgerAt, Lines, Events, Views.Snapshot, Views.Top, Checksum.Fnv, Checksum.SnapshotBytes;
    var consumed;
    RowsAreEvents();
    AfterIs(FileRows(Lines()), 5);
    FinalBook();
    DocumentedChecksum.DocumentedChecksum();
    result, consumed := engine.ReplayFile("events.csv", true, Lines(), options);
  }
}
