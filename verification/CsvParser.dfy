/** The CSV feed parser: trimming, splitting, numbers, rows and the header. */
module CsvParser {
  import opened Types

  const EXPECTED_HEADER: string := "timestamp_ns" + ",event_type" + ",order_id" + ",side" + ",price" + ",quantity"

  // ----- trimming -----

  predicate IsBlank(c: char) {
    c == ' ' || c == '\t' || c == '\r'
  }

  predicate Blank(s: string) {
    forall i :: 0 <= i < |s| ==> IsBlank(s[i])
  }

  /** No blank at either end. */
  predicate Tight(s: string) {
    s != [] ==> !IsBlank(s[0]) && !IsBlank(s[|s| - 1])
  }

  function Trimmed(value: string): string
    decreases |value|
  {
    if value != [] && IsBlank(value[0]) then Trimmed(value[1..])
    else if value != [] && IsBlank(value[|value| - 1]) then Trimmed(value[..|value| - 1])
    else value
  }

  /** The trimmed text is what is left between the blanks, and there is only one such text. */
  lemma {:induction false} TrimmedBetween(left: string, text: string, right: string)
    requires Blank(left) && Tight(text) && Blank(right)
    ensures Trimmed(left + text + right) == text
    decreases |left| + |right|
  {
    var value := left + text + right;
    if left != [] {
      assert value[1..] == left[1..] + text + right;
      TrimmedBetween(left[1..], text, right);
    } else if text == [] {
      assert value == right + [] + [];
      if right != [] {
        assert value[1..] == right[1..] + text + [];
        TrimmedBetween(right[1..], text, []);
      }
    } else if right != [] {
      assert value[..|value| - 1] == left + text + right[..|right| - 1];
      TrimmedBetween(left, text, right[..|right| - 1]);
    } else {
      assert value == text;
    }
  }

  method Trim(value: string) returns (trimmed: string)
    ensures trimmed == Trimmed(value)
    ensures exists left, right :: Blank(left) && Blank(right) && value == left + trimmed + right
    ensures Tight(trimmed)
  {
    hide Trimmed;
    trimmed := value;
    ghost var i, j := 0, |value|;
    while trimmed != [] && IsBlank(trimmed[0])
      invariant 0 <= i <= j == |value| && trimmed == value[i..j]
      invariant forall n :: 0 <= n < i ==> IsBlank(value[n])
      decreases |trimmed|
    {
      assert value[i..j][1..] == value[i + 1..j];
      trimmed := trimmed[1..];
      i := i + 1;
    }
    while trimmed != [] && IsBlank(trimmed[|trimmed| - 1])
      invariant 0 <= i <= j <= |value| && trimmed == value[i..j]
      invariant trimmed != [] ==> !IsBlank(trimmed[0])
      invariant forall n :: j <= n < |value| ==> IsBlank(value[n])
      decreases |trimmed|
    {
      assert value[i..j][..j - i - 1] == value[i..j - 1];
      trimmed := trimmed[..|trimmed| - 1];
      j := j - 1;
    }
    assert Blank(value[..i]) && Blank(value[j..]);
    assert value == value[..i] + trimmed + value[j..];
    TrimmedBetween(value[..i], trimmed, value[j..]);
  }

  // ----- splitting -----

  /** The first comma at or after start, or the length of the row. */
  function FindComma(row: string, start: nat): (at: nat)
    requires start <= |row|
    ensures start <= at <= |row|
    ensures at < |row| ==> row[at] == ','
    ensures forall i :: start <= i < at ==> row[i] != ','
    decreases |row| - start
  {
    if start == |row| || row[start] == ',' then start else FindComma(row, start + 1)
  }

  /** The columns from position start on, untrimmed. */
  function ColumnsFrom(row: string, start: nat): seq<string>
    requires start <= |row|
    decreases |row| - start
  {
    var comma := FindComma(row, start);
    if comma == |row| then [row[start..]]
    else [row[start..comma]] + ColumnsFrom(row, comma + 1)
  }

  function Columns(row: string): seq<string> {
    ColumnsFrom(row, 0)
  }

  function TrimAll(columns: seq<string>): (trimmed: seq<string>)
    ensures |trimmed| == |columns|
  {
    seq(|columns|, i requires 0 <= i < |columns| => Trimmed(columns[i]))
  }

  lemma TrimAllAppend(columns: seq<string>, last: string)
    ensures TrimAll(columns + [last]) == TrimAll(columns) + [Trimmed(last)]
  {
    hide Trimmed;
  }

  method SplitCsvColumns(row: string) returns (columns: seq<string>)
    ensures columns == TrimAll(Columns(row))
  {
    hide Trimmed, TrimAll, FindComma, Tight;
    columns := [];
    var start := 0;
    ghost var done: seq<string> := [];
    NoColumns();
    while start <= |row|
      invariant 0 <= start <= |row|
      invariant done + ColumnsFrom(row, start) == Columns(row)
      invariant columns == TrimAll(done)
      decreases |row| - start
    {
      var comma := FindComma(row, start);
      if comma == |row| {
        var last := Trim(row[start..]);
        TrimAllAppend(done, row[start..]);
        columns := columns + [last];
        break;
      }
      var column := Trim(row[start..comma]);
      TrimAllAppend(done, row[start..comma]);
      columns := columns + [column];
      done := done + [row[start..comma]];
      start := comma + 1;
    }
  }

  lemma NoColumns()
    ensures TrimAll([]) == []
  {
  }

  function CountCommas(row: string): nat {
    if row == [] then 0 else (if row[0] == ',' then 1 else 0) + CountCommas(row[1..])
  }

  function Join(columns: seq<string>): string
    requires columns != []
  {
    if |columns| == 1 then columns[0] else columns[0] + "," + Join(columns[1..])
  }

  predicate CommaFree(s: string) {
    forall i :: 0 <= i < |s| ==> s[i] != ','
  }

  lemma {:induction false} CountToComma(row: string, start: nat)
    requires start <= |row|
    ensures var comma := FindComma(row, start);
      CountCommas(row[start..]) == if comma == |row| then 0 else 1 + CountCommas(row[comma + 1..])
    decreases |row| - start
  {
    if start < |row| && row[start] != ',' {
      assert row[start..][1..] == row[start + 1..];
      CountToComma(row, start + 1);
    } else if start < |row| {
      assert row[start..][1..] == row[start + 1..];
    }
  }

  /** A row has one column more than it has commas, and joining its columns gives the row back. */
  lemma {:induction false} ColumnsOfRow(row: string, start: nat)
    requires start <= |row|
    ensures var columns := ColumnsFrom(row, start);
      && |columns| == CountCommas(row[start..]) + 1
      && Join(columns) == row[start..]
      && forall i :: 0 <= i < |columns| ==> CommaFree(columns[i])
    decreases |row| - start
  {
    hide FindComma, Join, CountCommas, ColumnsFrom;
    var comma := FindComma(row, start);
    CountToComma(row, start);
    if comma == |row| {
      LastColumn(row, start);
      JoinOne(row[start..]);
    } else {
      ColumnsOfRow(row, comma + 1);
      FirstColumn(row, start);
      var first, rest := row[start..comma], ColumnsFrom(row, comma + 1);
      JoinCons(first, rest);
      assert row[start..] == first + "," + row[comma + 1..];
      forall i | 0 <= i < 1 + |rest| ensures CommaFree(([first] + rest)[i]) {
        assert i > 0 ==> ([first] + rest)[i] == rest[i - 1];
      }
    }
  }

  lemma JoinOne(column: string)
    ensures Join([column]) == column
  {
  }

  lemma JoinCons(first: string, rest: seq<string>)
    requires rest != []
    ensures Join([first] + rest) == first + "," + Join(rest)
  {
    assert ([first] + rest)[1..] == rest;
  }

  /** Columns without commas are recovered from the row they were joined into. */
  lemma {:induction false} ColumnsOfJoin(prefix: string, columns: seq<string>)
    requires columns != [] && forall i :: 0 <= i < |columns| ==> CommaFree(columns[i])
    ensures ColumnsFrom(prefix + Join(columns), |prefix|) == columns
    decreases |columns|
  {
    hide FindComma, Join, ColumnsFrom;
    var row := prefix + Join(columns);
    var first, rest := columns[0], columns[1..];
    assert columns == [first] + rest;
    if rest == [] {
      JoinOne(first);
      assert columns == [first] && row == prefix + first + "";
      NextComma(row, prefix, first, "");
      LastColumn(row, |prefix|);
      assert row[|prefix|..] == first;
    } else {
      JoinCons(first, rest);
      var tail := Join(rest);
      var prefix' := prefix + first + ",";
      assert row == prefix + first + ("," + tail);
      NextComma(row, prefix, first, "," + tail);
      FirstColumn(row, |prefix|);
      assert row == prefix' + tail;
      ColumnsOfJoin(prefix', rest);
    }
  }

  lemma LastColumn(row: string, start: nat)
    requires start <= |row| && FindComma(row, start) == |row|
    ensures ColumnsFrom(row, start) == [row[start..]]
  {
  }

  lemma FirstColumn(row: string, start: nat)
    requires start <= |row| && FindComma(row, start) < |row|
    ensures var comma := FindComma(row, start);
      ColumnsFrom(row, start) == [row[start..comma]] + ColumnsFrom(row, comma + 1)
  {
    hide FindComma;
  }

  lemma NextComma(row: string, prefix: string, first: string, tail: string)
    requires row == prefix + first + tail && CommaFree(first) && (tail != "" ==> tail[0] == ',')
    ensures FindComma(row, |prefix|) == |prefix| + |first|
    ensures row[|prefix|..|prefix| + |first|] == first
  {
    hide FindComma;
    var comma, stop := FindComma(row, |prefix|), |prefix| + |first|;
    assert forall i :: |prefix| <= i < stop ==> row[i] == first[i - |prefix|];
    if tail != "" {
      assert row[stop] == tail[0];
    }
  }

  // ----- numbers: what std::from_chars accepts in full (ISO/IEC 14882:2020, [charconv.from.chars]) -----

  predicate IsDigit(c: char) {
    '0' <= c <= '9'
  }

  function DigitValue(c: char): nat
    requires IsDigit(c)
  {
    c as int - '0' as int
  }

  function Digit(d: nat): (c: char)
    requires d < 10
    ensures IsDigit(c) && DigitValue(c) == d
  {
    ('0' as int + d) as char
  }

  predicate AllDigits(text: string) {
    forall i :: 0 <= i < |text| ==> IsDigit(text[i])
  }

  function DigitsValue(text: string): nat
    requires AllDigits(text)
  {
    if text == [] then 0 else 10 * DigitsValue(text[..|text| - 1]) + DigitValue(text[|text| - 1])
  }

  function ParseU64(text: string): Option<U64> {
    if text == [] || !AllDigits(text) || DigitsValue(text) >= TWO64 then None else Some(DigitsValue(text))
  }

  function ParseI64(text: string): Option<I64> {
    if text == [] then None
    else if text[0] == '-' then
      if text[1..] == [] || !AllDigits(text[1..]) || DigitsValue(text[1..]) > TWO63 then None
      else
        var magnitude: int := DigitsValue(text[1..]);
        Some(-magnitude)
    else if !AllDigits(text) || DigitsValue(text) >= TWO63 then None
    else Some(DigitsValue(text))
  }

  function RenderNat(n: nat): (text: string)
    ensures text != [] && AllDigits(text)
  {
    (if n < 10 then [] else RenderNat(n / 10)) + [Digit(n % 10)]
  }

  function RenderInt(i: int): string {
    if i < 0 then "-" + RenderNat(-i) else RenderNat(i)
  }

  lemma {:induction false} NatRoundTrip(n: nat)
    ensures DigitsValue(RenderNat(n)) == n
  {
    hide Digit, DigitValue;
    var text := RenderNat(n);
    if n < 10 {
      assert text == [Digit(n)] && text[..0] == [];
    } else {
      NatRoundTrip(n / 10);
      assert text[..|text| - 1] == RenderNat(n / 10);
    }
  }

  lemma U64RoundTrip(n: U64)
    ensures ParseU64(RenderNat(n)) == Some(n)
  {
    NatRoundTrip(n);
  }

  lemma I64RoundTrip(i: I64)
    ensures ParseI64(RenderInt(i)) == Some(i)
  {
    hide RenderNat, DigitsValue;
    if i < 0 {
      var magnitude: int := i;
      NatRoundTrip(-magnitude);
      assert RenderInt(i)[1..] == RenderNat(-magnitude);
    } else {
      NatRoundTrip(i);
      assert IsDigit(RenderInt(i)[0]);
    }
  }

  // ----- which texts are numbers -----

  function Zeros(k: nat): (text: string)
    ensures |text| == k
  {
    seq(k, i => '0')
  }

  /** The decimal text of n, with any number of leading zeros. */
  ghost predicate Unsigned(text: string, n: nat) {
    exists k: nat :: text == Zeros(k) + RenderNat(n)
  }

  /** The same with a minus in front, which a zero may have too. */
  ghost predicate Signed(text: string, i: int) {
    || (i >= 0 && Unsigned(text, i))
    || (i <= 0 && text != [] && text[0] == '-' && Unsigned(text[1..], -i))
  }

  lemma DigitBack(c: char)
    requires IsDigit(c)
    ensures DigitValue(c) < 10 && Digit(DigitValue(c)) == c
  {
  }

  lemma DigitsAppend(text: string, c: char)
    requires AllDigits(text) && IsDigit(c)
    ensures AllDigits(text + [c]) && DigitsValue(text + [c]) == 10 * DigitsValue(text) + DigitValue(c)
  {
    assert (text + [c])[..|text|] == text;
  }

  lemma {:induction false} ZerosAreNothing(k: nat)
    ensures AllDigits(Zeros(k)) && DigitsValue(Zeros(k)) == 0
  {
    if k > 0 {
      ZerosAreNothing(k - 1);
      assert Zeros(k) == Zeros(k - 1) + ['0'];
      DigitsAppend(Zeros(k - 1), '0');
    }
  }

  lemma {:induction false} LeadingZeros(k: nat, text: string)
    requires AllDigits(text)
    ensures AllDigits(Zeros(k) + text) && DigitsValue(Zeros(k) + text) == DigitsValue(text)
  {
    hide DigitsValue, DigitValue, Zeros;
    if text == [] {
      ZerosAreNothing(k);
      ZerosAreNothing(0);
      assert Zeros(0) == text && Zeros(k) + text == Zeros(k);
    } else {
      var init, c := text[..|text| - 1], text[|text| - 1];
      LeadingZeros(k, init);
      DigitsAppend(Zeros(k) + init, c);
      DigitsAppend(init, c);
      assert Zeros(k) + text == Zeros(k) + init + [c] && text == init + [c];
    }
  }

  lemma RenderMore(v: nat, d: nat)
    requires d < 10
    ensures RenderNat(10 * v + d) == if v == 0 then [Digit(d)] else RenderNat(v) + [Digit(d)]
  {
    assert (10 * v + d) / 10 == v && (10 * v + d) % 10 == d;
  }

  lemma NextDigit(k: nat, v: nat, c: char) returns (k': nat)
    requires IsDigit(c)
    ensures Zeros(k) + RenderNat(v) + [c] == Zeros(k') + RenderNat(10 * v + DigitValue(c))
  {
    hide RenderNat, DigitValue, Digit;
    DigitBack(c);
    RenderMore(v, DigitValue(c));
    k' := k;
    if v == 0 {
      RenderMore(0, 0);
      ZeroDigit();
      k' := k + 1;
      assert Zeros(k) + ['0'] == Zeros(k + 1);
    } else {
      assert Zeros(k) + RenderNat(v) + [c] == Zeros(k) + (RenderNat(v) + [c]);
    }
  }

  lemma OneDigit(c: char)
    requires IsDigit(c)
    ensures [c] == Zeros(0) + RenderNat(DigitValue(c)) && DigitsValue([c]) == DigitValue(c)
  {
    DigitBack(c);
    assert [c][..0] == [];
  }

  /** Every text of digits is the decimal text of its value behind some zeros. */
  lemma {:induction false} DigitsAreNumber(text: string) returns (k: nat)
    requires text != [] && AllDigits(text)
    ensures text == Zeros(k) + RenderNat(DigitsValue(text))
  {
    hide RenderNat, DigitValue, DigitsValue, Digit, Zeros;
    var init, c := text[..|text| - 1], text[|text| - 1];
    if init == [] {
      assert text == [c];
      OneDigit(c);
      k := 0;
    } else {
      k := DigitsAreNumber(init);
      assert text == init + [c];
      DigitsAppend(init, c);
      k := NextDigit(k, DigitsValue(init), c);
    }
  }

  lemma ZeroDigit()
    ensures Digit(0) == '0'
  {
  }

  /** A number column is read as n exactly when it is the decimal text of n, with any leading zeros. */
  lemma U64Exactly(text: string, n: U64)
    ensures ParseU64(text) == Some(n) <==> Unsigned(text, n)
  {
    hide DigitsValue, RenderNat;
    DigitsExactly(text, n);
  }

  lemma DigitsExactly(text: string, n: nat)
    ensures Unsigned(text, n) <==> text != [] && AllDigits(text) && DigitsValue(text) == n
  {
    hide DigitsValue, RenderNat;
    if k: nat :| text == Zeros(k) + RenderNat(n) {
      LeadingZeros(k, RenderNat(n));
      NatRoundTrip(n);
    }
    if text != [] && AllDigits(text) {
      var k := DigitsAreNumber(text);
    }
  }

  /** A signed column is read as i exactly when it is the decimal text of i, with any leading zeros; a zero
      may have a minus. */
  lemma I64Exactly(text: string, i: I64)
    ensures ParseI64(text) == Some(i) <==> Signed(text, i)
  {
    hide DigitsValue, RenderNat, Unsigned;
    var value: int := i;
    if value >= 0 {
      DigitsExactly(text, value);
    }
    if value <= 0 && text != [] {
      DigitsExactly(text[1..], -value);
    }
    assert !IsDigit('-');
  }

  // ----- rows -----

  function ParseEventType(value: string): Option<EventType> {
    if value == "ADD" then Some(Add)
    else if value == "CANCEL" then Some(Cancel)
    else if value == "MODIFY" then Some(Modify)
    else if value == "EXECUTE" then Some(Execute)
    else None
  }

  function ParseSide(value: string): Option<Side> {
    if value == "B" then Some(Buy) else if value == "S" then Some(Sell) else None
  }

  /** What a row with these trimmed columns stands for. */
  function RowOfColumns(columns: seq<string>, line: nat, row: string): ParsedRow {
    if |columns| != 6 then MalformedRow("expected 6 columns", line, row)
    else
      var timestamp := ParseI64(columns[0]);
      if timestamp.None? then MalformedRow("invalid timestamp_ns", line, row)
      else
        var eventType := ParseEventType(columns[1]);
        if eventType.None? then MalformedRow("unknown event_type", line, row)
        else
          var orderId := ParseU64(columns[2]);
          if orderId.None? then MalformedRow("invalid order_id", line, row)
          else
            var price, quantity := ParseI64(columns[4]), ParseU64(columns[5]);
            match eventType.value
            case Add =>
              var side := ParseSide(columns[3]);
              if side.None? then MalformedRow("ADD requires side B or S", line, row)
              else if price.None? then MalformedRow("ADD requires numeric price", line, row)
              else if quantity.None? then MalformedRow("ADD requires numeric quantity", line, row)
              else
                var event := MarketEvent(Add, timestamp.value, orderId.value, side.value, price.value, quantity.value);
                Event(event, line, row)
            case Cancel =>
              if columns[3] != "" || columns[4] != "" || columns[5] != ""
              then MalformedRow("CANCEL requires empty side, price, and quantity", line, row)
              else Event(MarketEvent(Cancel, timestamp.value, orderId.value, Buy, 0, 0), line, row)
            case Modify =>
              if columns[3] != "" then MalformedRow("MODIFY requires empty side", line, row)
              else if price.None? then MalformedRow("MODIFY requires numeric price", line, row)
              else if quantity.None? then MalformedRow("MODIFY requires numeric quantity", line, row)
              else
                var event := MarketEvent(Modify, timestamp.value, orderId.value, Buy, price.value, quantity.value);
                Event(event, line, row)
            case Execute =>
              if columns[3] != "" then MalformedRow("EXECUTE requires empty side", line, row)
              else if price.None? then MalformedRow("EXECUTE requires numeric price", line, row)
              else if quantity.None? then MalformedRow("EXECUTE requires numeric quantity", line, row)
              else
                var event := MarketEvent(Execute, timestamp.value, orderId.value, Buy, price.value, quantity.value);
                Event(event, line, row)
  }

  function RowOf(row: string, line: nat): ParsedRow {
    RowOfColumns(TrimAll(Columns(row)), line, row)
  }

  method ParseRow(row: string, line: nat) returns (parsed: ParsedRow)
    ensures parsed == RowOf(row, line)
  {
    var columns := SplitCsvColumns(row);
    parsed := RowOfColumns(columns, line, row);
  }

  // ----- rendering, and the round trip -----

  function TypeName(eventType: EventType): string {
    match eventType
    case Add => "ADD"
    case Cancel => "CANCEL"
    case Modify => "MODIFY"
    case Execute => "EXECUTE"
  }

  /** The six fields of an event in the feed's schema. */
  function Fields(e: MarketEvent): (fields: seq<string>)
    ensures |fields| == 6
  {
    var side := if e.eventType.Add? then if e.side.Buy? then "B" else "S" else "";
    var price := if e.eventType.Cancel? then "" else RenderInt(e.price);
    var quantity := if e.eventType.Cancel? then "" else RenderNat(e.quantity);
    [RenderInt(e.timestamp), TypeName(e.eventType), RenderNat(e.orderId), side, price, quantity]
  }

  /** What the schema can express of an event: a side only for adds, price and quantity except for cancels. */
  function Normal(e: MarketEvent): MarketEvent {
    match e.eventType
    case Add => e
    case Cancel => e.(side := Buy, price := 0, quantity := 0)
    case _ => e.(side := Buy)
  }

  datatype Padding = Padding(left: string, right: string)

  ghost predicate BlankPads(pads: seq<Padding>) {
    |pads| == 6 && forall i :: 0 <= i < 6 ==> Blank(pads[i].left) && Blank(pads[i].right)
  }

  function Pad(fields: seq<string>, pads: seq<Padding>): (columns: seq<string>)
    requires |fields| == |pads|
    ensures |columns| == |fields|
  {
    seq(|fields|, i requires 0 <= i < |fields| => pads[i].left + fields[i] + pads[i].right)
  }

  lemma DigitsPlain(text: string)
    requires AllDigits(text)
    ensures CommaFree(text) && Tight(text)
  {
  }

  lemma IntPlain(i: int)
    ensures CommaFree(RenderInt(i)) && Tight(RenderInt(i))
  {
    if i < 0 {
      DigitsPlain(RenderNat(-i));
      var text := RenderInt(i);
      assert text[|text| - 1] == RenderNat(-i)[|text| - 2];
    } else {
      DigitsPlain(RenderNat(i));
    }
  }

  lemma FieldsPlain(e: MarketEvent)
    ensures forall i :: 0 <= i < 6 ==> CommaFree(Fields(e)[i]) && Tight(Fields(e)[i])
  {
    hide RenderNat, RenderInt;
    IntPlain(e.timestamp);
    IntPlain(e.price);
    DigitsPlain(RenderNat(e.orderId));
    DigitsPlain(RenderNat(e.quantity));
  }

  lemma FieldsParse(e: MarketEvent, line: nat, row: string)
    ensures RowOfColumns(Fields(e), line, row) == Event(Normal(e), line, row)
  {
    hide RenderNat, RenderInt, ParseI64, ParseU64;
    I64RoundTrip(e.timestamp);
    I64RoundTrip(e.price);
    U64RoundTrip(e.orderId);
    U64RoundTrip(e.quantity);
  }

  lemma PaddedPlain(left: string, text: string, right: string)
    requires Blank(left) && CommaFree(text) && Blank(right)
    ensures CommaFree(left + text + right)
  {
  }

  /** Any event, written in the six-column schema with any blanks around its fields, is parsed back. */
  lemma RowRoundTrip(e: MarketEvent, pads: seq<Padding>, line: nat)
    requires BlankPads(pads)
    ensures var row := Join(Pad(Fields(e), pads));
      RowOf(row, line) == Event(Normal(e), line, row)
  {
    hide Fields, RowOfColumns, Trimmed, Join, Tight, Blank, CommaFree;
    var fields := Fields(e);
    var columns := Pad(fields, pads);
    var row := Join(columns);
    FieldsPlain(e);
    forall i | 0 <= i < 6 ensures CommaFree(columns[i]) && Trimmed(columns[i]) == fields[i] {
      PaddedPlain(pads[i].left, fields[i], pads[i].right);
      TrimmedBetween(pads[i].left, fields[i], pads[i].right);
    }
    ColumnsOfJoin("", columns);
    assert "" + row == row;
    assert TrimAll(columns) == fields;
    FieldsParse(e, line, row);
  }

  /** Every parsed event is one the schema can express, so writing it and parsing it again changes nothing. */
  lemma ParsedIsNormal(row: string, line: nat)
    requires RowOf(row, line).Event?
    ensures Normal(RowOf(row, line).event) == RowOf(row, line).event
  {
    hide Columns, Trimmed, ParseI64, ParseU64;
  }

  // ----- which rows are accepted -----

  /** The trimmed columns spell this event: the numbers of the event in decimal, its type by name, a side
      for an add and none otherwise, and neither price nor quantity for a cancel. */
  ghost predicate Spells(columns: seq<string>, e: MarketEvent) {
    && |columns| == 6
    && Signed(columns[0], e.timestamp) && Unsigned(columns[2], e.orderId)
    && match e.eventType
       case Add =>
         && columns[1] == "ADD" && columns[3] == (if e.side.Buy? then "B" else "S")
         && Signed(columns[4], e.price) && Unsigned(columns[5], e.quantity)
       case Cancel =>
         && columns[1] == "CANCEL" && columns[3] == columns[4] == columns[5] == ""
         && e.side == Buy && e.price == 0 && e.quantity == 0
       case Modify =>
         && columns[1] == "MODIFY" && columns[3] == "" && e.side == Buy
         && Signed(columns[4], e.price) && Unsigned(columns[5], e.quantity)
       case Execute =>
         && columns[1] == "EXECUTE" && columns[3] == "" && e.side == Buy
         && Signed(columns[4], e.price) && Unsigned(columns[5], e.quantity)
  }

  lemma SpelledExactly(columns: seq<string>, e: MarketEvent, line: nat, row: string)
    ensures RowOfColumns(columns, line, row) == Event(e, line, row) <==> Spells(columns, e)
  {
    hide ParseI64, ParseU64, Signed, Unsigned;
    if |columns| == 6 {
      I64Exactly(columns[0], e.timestamp);
      U64Exactly(columns[2], e.orderId);
      I64Exactly(columns[4], e.price);
      U64Exactly(columns[5], e.quantity);
    }
  }

  ghost predicate IsI64(text: string) {
    exists i: I64 :: Signed(text, i)
  }

  ghost predicate IsU64(text: string) {
    exists n: U64 :: Unsigned(text, n)
  }

  lemma NumbersExactly(text: string)
    ensures ParseI64(text).Some? <==> IsI64(text)
    ensures ParseU64(text).Some? <==> IsU64(text)
  {
    hide ParseI64, ParseU64, Signed, Unsigned;
    forall i: I64 ensures ParseI64(text) == Some(i) <==> Signed(text, i) {
      I64Exactly(text, i);
    }
    forall n: U64 ensures ParseU64(text) == Some(n) <==> Unsigned(text, n) {
      U64Exactly(text, n);
    }
    if ParseI64(text).Some? {
      assert Signed(text, ParseI64(text).value);
    }
    if ParseU64(text).Some? {
      assert Unsigned(text, ParseU64(text).value);
    }
  }

  /** What is wrong with columns that spell no event: the first of these that applies. */
  ghost function Complaint(columns: seq<string>): string {
    if |columns| != 6 then "expected 6 columns"
    else if !IsI64(columns[0]) then "invalid timestamp_ns"
    else if columns[1] !in {"ADD", "CANCEL", "MODIFY", "EXECUTE"} then "unknown event_type"
    else if !IsU64(columns[2]) then "invalid order_id"
    else if columns[1] == "ADD" && columns[3] !in {"B", "S"} then "ADD requires side B or S"
    else if columns[1] == "ADD" && !IsI64(columns[4]) then "ADD requires numeric price"
    else if columns[1] == "ADD" then "ADD requires numeric quantity"
    else if columns[1] == "CANCEL" then "CANCEL requires empty side, price, and quantity"
    else if columns[1] == "MODIFY" && columns[3] != "" then "MODIFY requires empty side"
    else if columns[1] == "MODIFY" && !IsI64(columns[4]) then "MODIFY requires numeric price"
    else if columns[1] == "MODIFY" then "MODIFY requires numeric quantity"
    else if columns[3] != "" then "EXECUTE requires empty side"
    else if !IsI64(columns[4]) then "EXECUTE requires numeric price"
    else "EXECUTE requires numeric quantity"
  }

  /** A rejected row is reported with its place and the first complaint that applies. */
  lemma FirstComplaint(columns: seq<string>, line: nat, row: string)
    ensures RowOfColumns(columns, line, row).MalformedRow? ==>
      RowOfColumns(columns, line, row) == MalformedRow(Complaint(columns), line, row)
  {
    hide ParseI64, ParseU64, IsI64, IsU64;
    if |columns| == 6 {
      NumbersExactly(columns[0]);
      NumbersExactly(columns[2]);
      NumbersExactly(columns[4]);
      NumbersExactly(columns[5]);
    }
  }

  /** A row is parsed as an event exactly when its columns spell that event, and rejected exactly when they
      spell none. In particular it has five commas. */
  lemma AcceptedExactly(row: string, line: nat, e: MarketEvent)
    ensures RowOf(row, line) == Event(e, line, row) <==> Spells(TrimAll(Columns(row)), e)
    ensures RowOf(row, line).MalformedRow? <==> forall e' :: !Spells(TrimAll(Columns(row)), e')
    ensures CountCommas(row) != 5 ==> RowOf(row, line) == MalformedRow("expected 6 columns", line, row)
  {
    hide RowOfColumns, Spells, Columns, Trimmed;
    var columns := TrimAll(Columns(row));
    forall e' ensures RowOfColumns(columns, line, row) == Event(e', line, row) <==> Spells(columns, e') {
      SpelledExactly(columns, e', line, row);
    }
    RowKeepsPlace(columns, line, row);
    ColumnCount(row);
    SixColumns(columns, line, row);
  }

  lemma RowKeepsPlace(columns: seq<string>, line: nat, row: string)
    ensures var parsed := RowOfColumns(columns, line, row);
      parsed.lineNumber == line && parsed.rawRow == row
  {
    hide ParseI64, ParseU64;
  }

  lemma ColumnCount(row: string)
    ensures |Columns(row)| == CountCommas(row) + 1
  {
    ColumnsOfRow(row, 0);
    assert row[0..] == row;
  }

  lemma SixColumns(columns: seq<string>, line: nat, row: string)
    ensures |columns| != 6 ==> RowOfColumns(columns, line, row) == MalformedRow("expected 6 columns", line, row)
  {
  }

  // ----- whole files -----

  /** The rows of a file: without a valid header there is at most one, the malformed header. */
  function FileRows(lines: seq<string>): seq<ParsedRow> {
    if lines == [] then []
    else if Trimmed(lines[0]) != EXPECTED_HEADER then [MalformedRow("invalid CSV header", 1, lines[0])]
    else RowsFrom(lines, 1)
  }

  function RowsFrom(lines: seq<string>, i: nat): seq<ParsedRow>
    requires i <= |lines|
    decreases |lines| - i
  {
    if i == |lines| then [] else [RowOf(lines[i], i + 1)] + RowsFrom(lines, i + 1)
  }

  /** A file's rows are its lines after the header, numbered from 2; without the exact header there is one
      complaint, and an empty file has nothing. */
  lemma {:induction false} RowsAreLines(lines: seq<string>, i: nat)
    requires 0 < i <= |lines|
    ensures |RowsFrom(lines, i)| == |lines| - i
    ensures forall k :: 0 <= k < |lines| - i ==> RowsFrom(lines, i)[k] == RowOf(lines[i + k], i + k + 1)
    decreases |lines| - i
  {
    hide RowOf;
    if i < |lines| {
      RowsAreLines(lines, i + 1);
    }
  }

  lemma FileRowsExactly(lines: seq<string>)
    ensures var header := "timestamp_ns" + ",event_type" + ",order_id" + ",side" + ",price" + ",quantity";
      && (lines == [] ==> FileRows(lines) == [])
      && (lines != [] && Trimmed(lines[0]) != header ==>
            FileRows(lines) == [MalformedRow("invalid CSV header", 1, lines[0])])
      && (lines != [] && Trimmed(lines[0]) == header ==>
            && |FileRows(lines)| == |lines| - 1
            && forall k :: 0 < k < |lines| ==> FileRows(lines)[k - 1] == RowOf(lines[k], k + 1))
  {
    hide RowOf, Trimmed;
    if lines != [] {
      RowsAreLines(lines, 1);
    }
  }

  /** What trimming takes off: spaces, tabs and carriage returns. */
  lemma BlanksAre(c: char)
    ensures Trimmed([c]) == if c == ' ' || c == '\t' || c == '\r' then [] else [c]
  {
    assert [c][1..] == [] && Trimmed([]) == [];
  }

  class CsvParser {
    const isOpen: bool
    /** The lines getline would deliver. */
    const lines: seq<string>
    var position: nat
    var lineNumber: nat
    var headerChecked: bool
    var headerValid: bool

    ghost predicate Valid()
      reads this
    {
      && position <= |lines| && lineNumber == position
      && (!headerChecked ==> position == 0 && !headerValid)
      && (headerChecked && position == 0 ==> lines == [] && !headerValid)
    }

    /** The rows not delivered yet. */
    ghost function Remaining(): seq<ParsedRow>
      requires Valid()
      reads this
    {
      if !headerChecked then FileRows(lines) else if !headerValid then [] else RowsFrom(lines, position)
    }

    constructor (isOpen: bool, lines: seq<string>)
      ensures Valid() && this.isOpen == isOpen && this.lines == lines && Remaining() == FileRows(lines)
    {
      this.isOpen, this.lines := isOpen, lines;
      position, lineNumber, headerChecked, headerValid := 0, 0, false, false;
    }

    /** The next row, or None at the end of the file. */
    method Next() returns (result: Option<ParsedRow>)
      requires Valid()
      modifies this
      ensures Valid()
      ensures !isOpen ==>
        result == Some(MalformedRow("input file is not open", 0, "")) && Remaining() == old(Remaining())
      ensures isOpen ==>
        match result
        case None => old(Remaining()) == [] && Remaining() == []
        case Some(row) => old(Remaining()) == [row] + Remaining()
    {
      hide RowOf, Trimmed, Tight, Blank;
      if !isOpen {
        return Some(MalformedRow("input file is not open", 0, ""));
      }
      if !headerChecked {
        headerChecked := true;
        if position == |lines| {
          return None;
        }
        var header := lines[position];
        position := position + 1;
        lineNumber := lineNumber + 1;
        var trimmed := Trim(header);
        headerValid := trimmed == EXPECTED_HEADER;
        if !headerValid {
          return Some(MalformedRow("invalid CSV header", lineNumber, header));
        }
      }
      if !headerValid {
        return None;
      }
      if position == |lines| {
        return None;
      }
      var row := lines[position];
      position := position + 1;
      lineNumber := lineNumber + 1;
      var parsed := ParseRow(row, lineNumber);
      return Some(parsed);
    }

    method Reset()
      requires Valid()
      modifies this
      ensures Valid() && Remaining() == FileRows(lines)
    {
      position, lineNumber, headerChecked, headerValid := 0, 0, false, false;
    }
  }
}
