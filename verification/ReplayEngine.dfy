/** The replay driver: it applies parsed rows to the baseline book, counts, and stops on the first
    accepted event that leaves the book crossed. */
module ReplayEngine {
  import opened Types
  import Ledger
  import Views
  import Checksum
  import Csv = CsvParser
  import History
  import Baseline = LimitOrderBook

  datatype ErrorType = ParseError | ApplyRejected | InvariantFailure | FileOpenFailure

  datatype ReplayError = ReplayError(errorType: ErrorType, lineNumber: nat, message: string, rawRow: string)

  datatype RowOutcome = Rejected(error: ReplayError) | Processed | Broken

  datatype ReplayOptions = ReplayOptions(validateAfterApply: bool, allowCrossedBook: bool)

  datatype ReplayResult = ReplayResult(
    eventsProcessed: nat,
    rejectedEvents: nat,
    fileOpenFailed: bool,
    invariantFailed: bool,
    finalChecksum: U64,
    finalTop: TopOfBook,
    finalSnapshot: BookSnapshot,
    errors: seq<ReplayError>)

  // ----- what a row list means -----

  /** The ledger after the first n rows, malformed rows being skipped. */
  function After(rows: seq<ParsedRow>, n: nat): Ledger.State
    requires n <= |rows|
  {
    if n == 0 then Ledger.EMPTY
    else match rows[n - 1]
      case Event(event, _, _) => Ledger.Step(After(rows, n - 1), event).0
      case MalformedRow(_, _, _) => After(rows, n - 1)
  }

  predicate Accepted(rows: seq<ParsedRow>, i: nat)
    requires i < |rows|
  {
    rows[i].Event? && Ledger.Step(After(rows, i), rows[i].event).1 == Applied
  }

  /** Row i is accepted and leaves the best bid strictly above the best ask. */
  predicate Crosses(rows: seq<ParsedRow>, i: nat)
    requires i < |rows|
  {
    Accepted(rows, i) && Views.Crossed(After(rows, i + 1).live)
  }

  function CountAccepted(rows: seq<ParsedRow>, n: nat): (count: nat)
    requires n <= |rows|
    ensures count <= n
  {
    if n == 0 then 0 else CountAccepted(rows, n - 1) + if Accepted(rows, n - 1) then 1 else 0
  }

  function ResultText(result: BookResult): string {
    match result
    case Applied => "applied"
    case DuplicateOrderId => "duplicate order id"
    case MissingOrderId => "missing order id"
    case InvalidQuantity => "invalid quantity"
    case InsufficientQuantity => "insufficient quantity"
    case UnsupportedModify => "unsupported modify"
    case CapacityExceeded => "capacity exceeded"
  }

  /** What is reported of row n when it is not accepted: the parser's complaint or the book's answer. */
  function RowError(rows: seq<ParsedRow>, n: nat): ReplayError
    requires n < |rows|
  {
    match rows[n]
    case MalformedRow(message, line, raw) => ReplayError(ParseError, line, message, raw)
    case Event(event, line, raw) =>
      ReplayError(ApplyRejected, line,
                  "book rejected event: " + ResultText(Ledger.Step(After(rows, n), event).1), raw)
  }

  /** One error for every row that was not accepted, in row order. */
  function RowErrors(rows: seq<ParsedRow>, n: nat): (errors: seq<ReplayError>)
    requires n <= |rows|
    ensures |errors| + CountAccepted(rows, n) == n
  {
    if n == 0 then []
    else
      RowErrors(rows, n - 1)
      + if Accepted(rows, n - 1) then [] else [RowError(rows, n - 1)]
  }

  ghost predicate NoneCrosses(rows: seq<ParsedRow>, n: nat)
    requires n <= |rows|
  {
    forall i :: 0 <= i < n ==> !Crosses(rows, i)
  }

  class ReplayEngine {
    const book: Baseline.LimitOrderBook

    constructor ()
      ensures fresh(book) && book.Valid()
    {
      book := new Baseline.LimitOrderBook();
    }

    /** One turn of the loop: applies an event row and validates the book after an accepted one. */
    method TakeRow(ghost rows: seq<ParsedRow>, ghost n: nat, parsed: ParsedRow, options: ReplayOptions)
        returns (outcome: RowOutcome)
      requires book.Valid() && n < |rows| && rows[n] == parsed && book.Book() == After(rows, n)
      modifies book
      ensures book.Valid() && book.Book() == After(rows, n + 1)
      ensures outcome.Rejected? <==> !Accepted(rows, n)
      ensures outcome.Rejected? ==> outcome.error == RowError(rows, n)
      ensures outcome == Broken <==> Crosses(rows, n) && options.validateAfterApply && !options.allowCrossedBook
    {
      hide Baseline.LimitOrderBook.Valid, Views.Crossed, Ledger.Step, ResultText;
      if parsed.MalformedRow? {
        return Rejected(ReplayError(ParseError, parsed.lineNumber, parsed.message, parsed.rawRow));
      }
      var applied := book.Apply(parsed.event);
      if applied != Applied {
        return Rejected(ReplayError(ApplyRejected, parsed.lineNumber,
                                    "book rejected event: " + ResultText(applied), parsed.rawRow));
      }
      if options.validateAfterApply {
        var ok := book.ValidateInvariants(options.allowCrossedBook);
        if !ok {
          return Broken;
        }
      }
      return Processed;
    }

    /** Replays the lines of a file, or reports that it could not be opened. `consumed` counts the rows
        taken from the parser. */
    method ReplayFile(inputPath: string, isOpen: bool, lines: seq<string>, options: ReplayOptions)
        returns (result: ReplayResult, consumed: nat)
      modifies book
      ensures book.Valid()
      ensures result.fileOpenFailed <==> !isOpen
      ensures !isOpen ==>
        consumed == 0 && book.Book() == Ledger.EMPTY && !result.invariantFailed
        && result.eventsProcessed == result.rejectedEvents == 0
        && result.errors == [ReplayError(FileOpenFailure, 0, "failed to open input file", inputPath)]
      ensures isOpen ==>
        var rows := Csv.FileRows(lines);
        && consumed <= |rows|
        && book.Book() == After(rows, consumed)
        && result.eventsProcessed == CountAccepted(rows, consumed)
        && result.eventsProcessed + result.rejectedEvents == consumed
        && (result.invariantFailed <==>
              options.validateAfterApply && !options.allowCrossedBook && !NoneCrosses(rows, |rows|))
        && (result.invariantFailed ==>
              consumed > 0 && Crosses(rows, consumed - 1) && NoneCrosses(rows, consumed - 1))
        && (!result.invariantFailed ==> consumed == |rows|)
        && result.errors == RowErrors(rows, consumed)
             + (if result.invariantFailed
                then [ReplayError(InvariantFailure, rows[consumed - 1].lineNumber, "book invariant validation failed",
                                  rows[consumed - 1].rawRow)]
                else [])
        && var es := EventsOf(rows, EventRows(rows, consumed));
        && book.Book() == Ledger.Run(Ledger.EMPTY, es)
        && result.eventsProcessed == History.CountApplied(Ledger.EMPTY, es)
      ensures result.finalTop == Views.Top(book.live)
      ensures result.finalSnapshot == Views.Snapshot(book.live)
      ensures result.finalChecksum == Checksum.Fnv(Checksum.OFFSET_BASIS, Checksum.SnapshotBytes(result.finalSnapshot))
    {
      hide Baseline.LimitOrderBook.Valid, Views.Top, Views.Snapshot, Views.Crossed, Ledger.Step, Checksum.Fnv,
        Checksum.SnapshotBytes, Csv.CsvParser.Valid, Csv.CsvParser.Remaining, Csv.FileRows,
        After, Accepted, RowError, Crosses, CountAccepted, RowErrors, NoneCrosses, EventRows, EventsOf, Ledger.Run,
        History.CountApplied;
      book.Clear();
      NothingTaken(Csv.FileRows(lines));
      var processed, rejected, failed := 0, 0, false;
      var errors: seq<ReplayError> := [];
      consumed := 0;
      if !isOpen {
        errors := [ReplayError(FileOpenFailure, 0, "failed to open input file", inputPath)];
      } else {
        ghost var rows := Csv.FileRows(lines);
        var parser := new Csv.CsvParser(isOpen, lines);
        var atEnd := false;
        while !atEnd && !failed
          invariant 0 <= consumed <= |rows| && book.Valid()
          invariant parser.isOpen && parser.Valid() && fresh(parser) && parser.Remaining() == rows[consumed..]
          invariant atEnd ==> consumed == |rows|
          invariant book.Book() == After(rows, consumed)
          invariant processed == CountAccepted(rows, consumed) && processed + rejected == consumed
          invariant failed ==>
            options.validateAfterApply && !options.allowCrossedBook && !NoneCrosses(rows, |rows|)
          invariant failed ==> consumed > 0 && Crosses(rows, consumed - 1) && NoneCrosses(rows, consumed - 1)
          invariant !failed && options.validateAfterApply && !options.allowCrossedBook ==> NoneCrosses(rows, consumed)
          invariant errors == RowErrors(rows, consumed)
            + (if failed
               then [ReplayError(InvariantFailure, rows[consumed - 1].lineNumber, "book invariant validation failed",
                                 rows[consumed - 1].rawRow)]
               else [])
          decreases |rows| - consumed, !atEnd
        {
          var next := parser.Next();
          if next.None? {
            assert rows[consumed..] == [];
            atEnd := true;
            continue;
          }
          var parsed := next.value;
          assert parsed == rows[consumed];
          assert parser.Remaining() == rows[consumed + 1..];
          OneMoreTaken(rows, consumed);
          var outcome := TakeRow(rows, consumed, parsed, options);
          consumed := consumed + 1;
          if outcome.Rejected? {
            rejected := rejected + 1;
            errors := errors + [outcome.error];
          } else {
            processed := processed + 1;
            if outcome == Broken {
              failed := true;
              errors := errors + [ReplayError(InvariantFailure, parsed.lineNumber, "book invariant validation failed",
                                              parsed.rawRow)];
            }
          }
        }
      }
      if isOpen {
        ReplayIsRun(Csv.FileRows(lines), consumed);
      }
      var top := book.TopOfBook();
      var snapshot := book.Snapshot();
      var checksum := Checksum.ChecksumSnapshot(snapshot);
      result := ReplayResult(processed, rejected, !isOpen, failed, checksum, top, snapshot, errors);
    }
  }

  // ----- whole replays -----

  /** The event rows among the first n, in order. */
  ghost function EventRows(rows: seq<ParsedRow>, n: nat): (idx: seq<nat>)
    requires n <= |rows|
    ensures forall k :: 0 <= k < |idx| ==> idx[k] < n && rows[idx[k]].Event?
    ensures forall k, l :: 0 <= k < l < |idx| ==> idx[k] < idx[l]
    ensures forall i :: 0 <= i < n && rows[i].Event? ==> i in idx
  {
    if n == 0 then [] else EventRows(rows, n - 1) + if rows[n - 1].Event? then [n - 1] else []
  }

  ghost function EventsOf(rows: seq<ParsedRow>, idx: seq<nat>): (es: seq<MarketEvent>)
    requires forall k :: 0 <= k < |idx| ==> idx[k] < |rows| && rows[idx[k]].Event?
    ensures |es| == |idx| && forall k :: 0 <= k < |es| ==> es[k] == rows[idx[k]].event
  {
    seq(|idx|, k requires 0 <= k < |idx| => rows[idx[k]].event)
  }

  /** A replay is the run of the events of its rows in order, and its processed rows are the events that run
      accepts. */
  lemma {:induction false} ReplayIsRun(rows: seq<ParsedRow>, n: nat)
    requires n <= |rows|
    ensures var es := EventsOf(rows, EventRows(rows, n));
      After(rows, n) == Ledger.Run(Ledger.EMPTY, es) && CountAccepted(rows, n) == History.CountApplied(Ledger.EMPTY, es)
  {
    hide Ledger.Step, Ledger.Run, History.CountApplied, EventRows, EventsOf, After, Accepted, CountAccepted;
    if n == 0 {
      NoEvents(rows);
      NothingTaken(rows);
    } else {
      ReplayIsRun(rows, n - 1);
      AfterRow(rows, n);
      OneMoreEvent(rows, n);
      if rows[n - 1].Event? {
        RunMore(EventsOf(rows, EventRows(rows, n - 1)), rows[n - 1].event);
      }
    }
  }

  lemma AfterRow(rows: seq<ParsedRow>, n: nat)
    requires 0 < n <= |rows|
    ensures After(rows, n)
         == if rows[n - 1].Event? then Ledger.Step(After(rows, n - 1), rows[n - 1].event).0 else After(rows, n - 1)
    ensures CountAccepted(rows, n) == CountAccepted(rows, n - 1)
      + if rows[n - 1].Event? && Ledger.Step(After(rows, n - 1), rows[n - 1].event).1 == Applied then 1 else 0
  {
    hide Ledger.Step;
  }

  lemma NoEvents(rows: seq<ParsedRow>)
    ensures EventsOf(rows, EventRows(rows, 0)) == []
    ensures Ledger.Run(Ledger.EMPTY, []) == Ledger.EMPTY && History.CountApplied(Ledger.EMPTY, []) == 0
  {
  }

  lemma OneMoreEvent(rows: seq<ParsedRow>, n: nat)
    requires 0 < n <= |rows|
    ensures var before := EventsOf(rows, EventRows(rows, n - 1));
      EventsOf(rows, EventRows(rows, n)) == if rows[n - 1].Event? then before + [rows[n - 1].event] else before
  {
  }

  lemma RunMore(es: seq<MarketEvent>, e: MarketEvent)
    ensures Ledger.Run(Ledger.EMPTY, es + [e]) == Ledger.Step(Ledger.Run(Ledger.EMPTY, es), e).0
    ensures History.CountApplied(Ledger.EMPTY, es + [e]) == History.CountApplied(Ledger.EMPTY, es)
      + if Ledger.Step(Ledger.Run(Ledger.EMPTY, es), e).1 == Applied then 1 else 0
  {
    hide Ledger.Step;
    assert (es + [e])[..|es|] == es;
  }

  /** The rows that are not accepted, in order. */
  ghost function RejectedRows(rows: seq<ParsedRow>, n: nat): (idx: seq<nat>)
    requires n <= |rows|
    ensures forall k :: 0 <= k < |idx| ==> idx[k] < n && !Accepted(rows, idx[k])
    ensures forall k, l :: 0 <= k < l < |idx| ==> idx[k] < idx[l]
    ensures forall i :: 0 <= i < n && !Accepted(rows, i) ==> i in idx
  {
    if n == 0 then [] else RejectedRows(rows, n - 1) + if Accepted(rows, n - 1) then [] else [n - 1]
  }

  /** A rejected row is reported with its line, and with the parser's message or what the book answers to the
      events before it and this one. */
  ghost predicate Reports(error: ReplayError, rows: seq<ParsedRow>, i: nat)
    requires i < |rows|
  {
    && error.lineNumber == rows[i].lineNumber && error.rawRow == rows[i].rawRow
    && match rows[i]
       case MalformedRow(message, _, _) => error.errorType == ParseError && error.message == message
       case Event(event, _, _) =>
         && error.errorType == ApplyRejected
         && match Ledger.Step(Ledger.Run(Ledger.EMPTY, EventsOf(rows, EventRows(rows, i))), event).1
            case DuplicateOrderId => error.message == "book rejected event: " + "duplicate order id"
            case MissingOrderId => error.message == "book rejected event: " + "missing order id"
            case InvalidQuantity => error.message == "book rejected event: " + "invalid quantity"
            case InsufficientQuantity => error.message == "book rejected event: " + "insufficient quantity"
            case UnsupportedModify => error.message == "book rejected event: " + "unsupported modify"
            case _ => false
  }

  lemma RejectionReported(rows: seq<ParsedRow>, i: nat)
    requires i < |rows| && !Accepted(rows, i)
    ensures Reports(RowError(rows, i), rows, i)
  {
    hide Ledger.Run, Ledger.Step, EventRows, EventsOf;
    ReplayIsRun(rows, i);
    if rows[i].Event? {
      BaselineAnswers(After(rows, i), rows[i].event);
    }
  }

  lemma BaselineAnswers(s: Ledger.State, e: MarketEvent)
    ensures Ledger.Step(s, e).1 != CapacityExceeded
  {
  }

  lemma OneMoreRow(rows: seq<ParsedRow>, n: nat)
    requires 0 < n <= |rows|
    ensures RejectedRows(rows, n) == RejectedRows(rows, n - 1) + if Accepted(rows, n - 1) then [] else [n - 1]
    ensures RowErrors(rows, n) == RowErrors(rows, n - 1) + if Accepted(rows, n - 1) then [] else [RowError(rows, n - 1)]
  {
    hide Accepted, RowError;
  }

  lemma NothingRejected(rows: seq<ParsedRow>)
    ensures RejectedRows(rows, 0) == [] && RowErrors(rows, 0) == []
  {
  }

  /** The errors report the rejected rows, one each and in order. */
  lemma {:induction false} ErrorsReport(rows: seq<ParsedRow>, n: nat)
    requires n <= |rows|
    ensures var idx, errors := RejectedRows(rows, n), RowErrors(rows, n);
      |errors| == |idx| && forall k :: 0 <= k < |errors| ==> Reports(errors[k], rows, idx[k])
  {
    hide Reports, RowError, Accepted, RejectedRows, RowErrors, CountAccepted;
    if n == 0 {
      NothingRejected(rows);
    } else {
      ErrorsReport(rows, n - 1);
      OneMoreRow(rows, n);
      if !Accepted(rows, n - 1) {
        RejectionReported(rows, n - 1);
      }
    }
  }

  lemma NothingTaken(rows: seq<ParsedRow>)
    ensures After(rows, 0) == Ledger.EMPTY && CountAccepted(rows, 0) == 0 && RowErrors(rows, 0) == []
    ensures NoneCrosses(rows, 0)
  {
  }

  lemma OneMoreTaken(rows: seq<ParsedRow>, n: nat)
    requires n < |rows|
    ensures CountAccepted(rows, n + 1) == CountAccepted(rows, n) + if Accepted(rows, n) then 1 else 0
    ensures RowErrors(rows, n + 1) == RowErrors(rows, n) + if Accepted(rows, n) then [] else [RowError(rows, n)]
    ensures NoneCrosses(rows, n + 1) <==> NoneCrosses(rows, n) && !Crosses(rows, n)
    ensures Crosses(rows, n) ==> Accepted(rows, n) && !NoneCrosses(rows, |rows|)
  {
    hide After;
  }

  /** The book's own counter of accepted events is the number of processed rows. */
  lemma {:induction false} AppliedIsProcessed(rows: seq<ParsedRow>, n: nat)
    requires n <= |rows|
    ensures After(rows, n).applied == Wrap(CountAccepted(rows, n))
  {
    hide Ledger.Step;
    if n > 0 {
      AppliedIsProcessed(rows, n - 1);
      if rows[n - 1].Event? {
        History.StepApplied(After(rows, n - 1), rows[n - 1].event);
      }
      WrapAdd(CountAccepted(rows, n - 1), 1);
    }
  }

  /** Events that are not adds never cross an uncrossed book, and rejected ones change nothing. */
  lemma OnlyAddsCross(s: Ledger.State, e: MarketEvent)
    requires Views.Crossed(Ledger.Step(s, e).0.live) && !Views.Crossed(s.live)
    ensures e.eventType.Add? && Ledger.Step(s, e).1 == Applied
  {
    hide Views.Crossed;
    var after := Ledger.Step(s, e).0.live;
    Views.CrossedByOrders(after);
    Views.CrossedByOrders(s.live);
    if !e.eventType.Add? {
      var b, a :| b in after && a in after && b.side.Buy? && a.side.Sell? && b.price > a.price;
      var b' := CameFrom(s, e, b);
      var a' := CameFrom(s, e, a);
    }
  }

  lemma CameFrom(s: Ledger.State, e: MarketEvent, o: Ledger.Order) returns (o': Ledger.Order)
    requires !e.eventType.Add? && o in Ledger.Step(s, e).0.live
    ensures o' in s.live && o'.side == o.side && o'.price == o.price
  {
    var live, after := s.live, Ledger.Step(s, e).0.live;
    Ledger.WithoutMembers(live, e.orderId);
    if after == live || o in live {
      return o;
    }
    var i :| 0 <= i < |after| && after[i] == o;
    Ledger.WithQuantityAt(live, e.orderId, e.quantity);
    if Ledger.HasId(live, e.orderId) && e.quantity <= Ledger.OrderOf(live, e.orderId).quantity {
      Ledger.WithQuantityAt(live, e.orderId, Ledger.OrderOf(live, e.orderId).quantity - e.quantity);
    }
    o' := live[i];
  }

  /** A replay that has not stopped has an uncrossed book, so the row it stops on is an accepted add. */
  lemma {:induction false} StopsOnAnAdd(rows: seq<ParsedRow>, n: nat)
    requires n <= |rows| && NoneCrosses(rows, n)
    ensures !Views.Crossed(After(rows, n).live)
    ensures n < |rows| && Crosses(rows, n) ==> rows[n].event.eventType.Add?
  {
    hide Ledger.Step, Views.Crossed;
    if n == 0 {
      Views.CrossedByOrders([]);
    } else {
      StopsOnAnAdd(rows, n - 1);
      assert !Crosses(rows, n - 1);
      if rows[n - 1].Event? && Views.Crossed(After(rows, n).live) {
        OnlyAddsCross(After(rows, n - 1), rows[n - 1].event);
      }
    }
    if n < |rows| && Crosses(rows, n) {
      OnlyAddsCross(After(rows, n), rows[n].event);
    }
  }
}
