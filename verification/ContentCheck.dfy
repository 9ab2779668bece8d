/**
 The content check on a generated CSV file: sniff, read, key the rows by the header, and compare
 with what the case expects. `fold` stands for the accent- and case-insensitive key of a string.
 */
module ContentCheck {
  import opened Text
  import opened CsvReader
  import opened CsvPrinter
  import opened NumberReader

  datatype Value = Number(amount: real) | Words(text: string)

  function Amount(d: Decimal): real {
    var magnitude := d.digits as real / PowerOfTen(d.scale) as real;
    if d.negative then -magnitude else magnitude
  }

  predicate Close(a: real, b: real) {
    -0.000001 < a - b < 0.000001
  }

  predicate CellEquals(expected: Value, actual: string, fold: string -> string) {
    var a := AsNumber(actual);
    match expected
    case Number(n) => a.Some? && Close(Amount(a.value), n)
    case Words(w) =>
      var e := AsNumber(w);
      if e.Some? && a.Some? then Close(Amount(e.value), Amount(a.value)) else fold(w) == fold(actual)
  }

  /** A row keyed by column, in the order the columns were first set. */
  type Record = seq<(string, string)>

  function Put(rec: Record, key: string, value: string): Record {
    if rec == [] then [(key, value)]
    else if rec[0].0 == key then [(key, value)] + rec[1..]
    else [rec[0]] + Put(rec[1..], key, value)
  }

  /** The first n columns of the header, each with the row's cell there or nothing. */
  function Keyed(header: seq<string>, cells: seq<string>, n: nat): Record
    requires n <= |header|
  {
    if n == 0 then []
    else Put(Keyed(header, cells, n - 1), header[n - 1], if n - 1 < |cells| then cells[n - 1] else "")
  }

  function Records(header: seq<string>, body: Grid): seq<Record> {
    seq(|body|, k requires 0 <= k < |body| => Keyed(header, body[k], |header|))
  }

  function ColValue(rec: Record, col: string, fold: string -> string): Option<string> {
    if rec == [] then None
    else if fold(rec[0].0) == fold(col) then Some(rec[0].1)
    else ColValue(rec[1..], col, fold)
  }

  type Wanted = seq<(string, Value)>

  datatype Expectation = Expectation(
    requiredColumns: seq<string>,
    rowCount: Option<int>,
    minRows: Option<int>,
    rows: seq<Wanted>)

  datatype Verdict =
    | Pass
    | Empty
    | MissingColumn(col: string)
    | WrongCount(expected: int, got: nat)
    | TooFewRows(min: int, got: nat)
    | NoRowMatched(want: Wanted)

  predicate HasColumn(header: seq<string>, col: string, fold: string -> string) {
    exists j :: 0 <= j < |header| && fold(header[j]) == fold(col)
  }

  predicate RecordMatches(rec: Record, want: Wanted, fold: string -> string) {
    forall i :: 0 <= i < |want| ==>
      var cell := ColValue(rec, want[i].0, fold);
      cell.Some? && CellEquals(want[i].1, cell.value, fold)
  }

  predicate SomeRecordMatches(recs: seq<Record>, want: Wanted, fold: string -> string) {
    exists k :: 0 <= k < |recs| && RecordMatches(recs[k], want, fold)
  }

  /** The check on the text of the presented file: the first thing wrong with it, or a pass. */
  method CheckCsv(text: string, wanted: Expectation, fold: string -> string) returns (verdict: Verdict)
    ensures verdict.Pass? <==> Accepts(Parse(text, Sniffed(text)), wanted, fold)
    ensures IsFirstFault(verdict, Parse(text, Sniffed(text)), wanted, fold)
  {
    var grid := ParseCsv(text, None);
    if |grid| == 0 {
      return Empty;
    }
    var header, rows := grid[0], Records(grid[0], grid[1..]);
    var missing := FirstMissing(header, wanted, fold);
    if missing < |wanted.requiredColumns| {
      return MissingColumn(wanted.requiredColumns[missing]);
    }
    if wanted.rowCount.Some? && |rows| != wanted.rowCount.value {
      return WrongCount(wanted.rowCount.value, |rows|);
    }
    if wanted.minRows.Some? && |rows| < wanted.minRows.value {
      return TooFewRows(wanted.minRows.value, |rows|);
    }
    var unmatched := FirstUnmatched(rows, wanted, fold);
    if unmatched < |wanted.rows| {
      return NoRowMatched(wanted.rows[unmatched]);
    }
    return Pass;
  }

  method FirstMissing(header: seq<string>, wanted: Expectation, fold: string -> string) returns (i: nat)
    ensures i <= |wanted.requiredColumns| && ColumnsUpTo(header, wanted, i, fold)
    ensures i < |wanted.requiredColumns| ==> !HasColumn(header, wanted.requiredColumns[i], fold)
  {
    i := 0;
    while i < |wanted.requiredColumns| && HasColumn(header, wanted.requiredColumns[i], fold)
      invariant i <= |wanted.requiredColumns| && ColumnsUpTo(header, wanted, i, fold)
    {
      i := i + 1;
    }
  }

  method FirstUnmatched(recs: seq<Record>, wanted: Expectation, fold: string -> string) returns (i: nat)
    ensures i <= |wanted.rows| && MatchedUpTo(recs, wanted, i, fold)
    ensures i < |wanted.rows| ==> !SomeRecordMatches(recs, wanted.rows[i], fold)
  {
    i := 0;
    while i < |wanted.rows| && SomeRecordMatches(recs, wanted.rows[i], fold)
      invariant i <= |wanted.rows| && MatchedUpTo(recs, wanted, i, fold)
    {
      i := i + 1;
    }
  }

  predicate ColumnsUpTo(header: seq<string>, wanted: Expectation, n: nat, fold: string -> string)
    requires n <= |wanted.requiredColumns|
  {
    forall j :: 0 <= j < n ==> HasColumn(header, wanted.requiredColumns[j], fold)
  }

  predicate MatchedUpTo(recs: seq<Record>, wanted: Expectation, n: nat, fold: string -> string)
    requires n <= |wanted.rows|
  {
    forall j :: 0 <= j < n ==> SomeRecordMatches(recs, wanted.rows[j], fold)
  }

  /**
   The verdict names something that is wrong, and nothing that is looked at before it is: first the
   columns as they are listed, then the exact count, the least count, and the wanted rows as listed.
   */
  ghost predicate IsFirstFault(verdict: Verdict, grid: Grid, wanted: Expectation, fold: string -> string) {
    if grid == [] then verdict == Empty
    else
      var columns, rows := |wanted.requiredColumns|, |grid| - 1;
      var recs := Records(grid[0], grid[1..]);
      match verdict
      case Pass => true
      case Empty => false
      case MissingColumn(col) =>
        exists i :: 0 <= i < columns && wanted.requiredColumns[i] == col && !HasColumn(grid[0], col, fold)
                    && ColumnsUpTo(grid[0], wanted, i, fold)
      case WrongCount(expected, got) =>
        && ColumnsUpTo(grid[0], wanted, columns, fold)
        && got == rows && wanted.rowCount == Some(expected) && got != expected
      case TooFewRows(min, got) =>
        && ColumnsUpTo(grid[0], wanted, columns, fold) && (wanted.rowCount.Some? ==> rows == wanted.rowCount.value)
        && got == rows && wanted.minRows == Some(min) && got < min
      case NoRowMatched(want) =>
        && ColumnsUpTo(grid[0], wanted, columns, fold) && CountsMet(rows, wanted)
        && exists i :: 0 <= i < |wanted.rows| && wanted.rows[i] == want && !SomeRecordMatches(recs, want, fold)
                       && MatchedUpTo(recs, wanted, i, fold)
  }

  predicate CountsMet(n: nat, wanted: Expectation) {
    (wanted.rowCount.Some? ==> n == wanted.rowCount.value) && (wanted.minRows.Some? ==> n >= wanted.minRows.value)
  }

  predicate Accepts(grid: Grid, wanted: Expectation, fold: string -> string) {
    && grid != []
    && (forall i :: 0 <= i < |wanted.requiredColumns| ==> HasColumn(grid[0], wanted.requiredColumns[i], fold))
    && CountsMet(|grid| - 1, wanted)
    && (forall i :: 0 <= i < |wanted.rows| ==>
          SomeRecordMatches(Records(grid[0], grid[1..]), wanted.rows[i], fold))
  }

  // ---- When a cell is what was wanted ----

  function Tens(k: nat): (p: nat)
    ensures p > 0
  {
    if k == 0 then 1 else 10 * Tens(k - 1)
  }

  function Signed(d: Decimal): int {
    if d.negative then 0 - d.digits else d.digits
  }

  /** The number x and the decimal of these digits differ by less than a millionth. */
  predicate NumberMet(x: real, d: Decimal) {
    var gap := x * Tens(d.scale) as real - Signed(d) as real;
    -(Tens(d.scale) as real) < gap * 1000000.0 < Tens(d.scale) as real
  }

  /** d over p and e over q differ by less than a millionth. */
  predicate FractionsMet(d: int, e: int, p: nat, q: nat) {
    -(p * q) < (d * q - e * p) * 1_000_000 < p * q
  }

  predicate DecimalsMet(d: Decimal, e: Decimal) {
    FractionsMet(Signed(d), Signed(e), Tens(d.scale), Tens(e.scale))
  }

  /** A wanted number asks for a close number; a wanted text for one if both read as numbers, else for its fold. */
  predicate CellMet(wanted: Value, cell: string, fold: string -> string) {
    match wanted
    case Number(x) => AsNumber(cell).Some? && NumberMet(x, AsNumber(cell).value)
    case Words(w) =>
      if AsNumber(w).Some? && AsNumber(cell).Some? then DecimalsMet(AsNumber(w).value, AsNumber(cell).value)
      else fold(w) == fold(cell)
  }

  lemma {:induction false} TensArePowers(k: nat)
    ensures PowerOfTen(k) == Tens(k)
  {
    if k > 0 {
      TensArePowers(k - 1);
    }
  }

  lemma AmountTimes(d: Decimal)
    ensures Amount(d) * Tens(d.scale) as real == Signed(d) as real
  {
    TensArePowers(d.scale);
    var p := Tens(d.scale) as real;
    assert d.digits as real / p * p == d.digits as real;
  }

  lemma SignTimes(t: real, p: real)
    requires p > 0.0
    ensures t < 0.0 <==> t * p < 0.0
  {
  }

  lemma MillionthTimes(gap: real, p: real)
    requires p > 0.0
    ensures gap < 0.000001 <==> gap * p * 1000000.0 < p
    ensures -0.000001 < gap <==> -p < gap * p * 1000000.0
  {
    var above, below := gap * 1000000.0 - 1.0, -1.0 - gap * 1000000.0;
    SignTimes(above, p);
    SignTimes(below, p);
    assert above * p == gap * p * 1000000.0 - p;
    assert below * p == -p - gap * p * 1000000.0;
  }

  lemma NumberMetIff(x: real, d: Decimal)
    ensures Close(Amount(d), x) <==> NumberMet(x, d)
  {
    AmountTimes(d);
    CloseToNumber(x, Amount(d), Tens(d.scale) as real, Signed(d) as real);
  }

  lemma CloseToNumber(x: real, a: real, p: real, d: real)
    requires p > 0.0 && a * p == d
    ensures Close(a, x) <==> -p < (x * p - d) * 1000000.0 < p
  {
    var gap := x - a;
    MillionthTimes(gap, p);
    assert gap * p == x * p - d;
  }

  lemma CloseToEachOther(a: real, b: real, p: real, q: real, d: real, e: real)
    requires p > 0.0 && q > 0.0 && a * p == d && b * q == e
    ensures Close(a, b) <==> -(p * q) < (d * q - e * p) * 1000000.0 < p * q
  {
    CrossTimes(a, b, p, q, d, e);
    RealProductPositive(p, q);
    CloseToNumber(a, b, p * q, e * p);
    assert Close(a, b) <==> Close(b, a);
  }

  lemma RealProductPositive(p: real, q: real)
    requires p > 0.0 && q > 0.0
    ensures p * q > 0.0
  {
  }

  lemma FractionsInReals(d: int, e: int, p: nat, q: nat)
    ensures FractionsMet(d, e, p, q)
            <==> -(p as real * q as real) < (d as real * q as real - e as real * p as real) * 1000000.0
                 < p as real * q as real
  {
    SameInReals(d, q);
    SameInReals(e, p);
    SameInReals(p, q);
    InReals(d * q - e * p, p * q);
  }

  lemma FractionsMetIff(a: real, b: real, d: int, e: int, p: nat, q: nat)
    requires p > 0 && q > 0 && a * p as real == d as real && b * q as real == e as real
    ensures Close(a, b) <==> FractionsMet(d, e, p, q)
  {
    var P, Q := p as real, q as real;
    FractionsInReals(d, e, p, q);
    CloseToEachOther(a, b, P, Q, d as real, e as real);
    assert P * Q == p as real * q as real;
    assert d as real * Q - e as real * P == d as real * q as real - e as real * p as real;
  }

  lemma DecimalsMetIff(d: Decimal, e: Decimal)
    ensures Close(Amount(d), Amount(e)) <==> DecimalsMet(d, e)
  {
    AmountTimes(d);
    AmountTimes(e);
    FractionsMetIff(Amount(d), Amount(e), Signed(d), Signed(e), Tens(d.scale), Tens(e.scale));
  }

  lemma SameInReals(a: int, b: int)
    ensures (a * b) as real == a as real * b as real
  {
  }

  lemma InReals(gap: int, bound: int)
    ensures -bound < gap * 1_000_000 < bound <==> -(bound as real) < gap as real * 1000000.0 < bound as real
  {
    assert (gap * 1_000_000) as real == gap as real * 1000000.0;
  }

  lemma CrossTimes(a: real, b: real, p: real, q: real, d: real, e: real)
    requires a * p == d && b * q == e
    ensures a * (p * q) == d * q && b * (p * q) == e * p
  {
  }

  /** What the code takes for equal is exactly that. */
  lemma CellEqualsIff(wanted: Value, cell: string, fold: string -> string)
    ensures CellEquals(wanted, cell, fold) <==> CellMet(wanted, cell, fold)
  {
    var c := AsNumber(cell);
    match wanted
    case Number(x) =>
      if c.Some? {
        NumberMetIff(x, c.value);
      }
    case Words(w) =>
      var e := AsNumber(w);
      if c.Some? && e.Some? {
        DecimalsMetIff(e.value, c.value);
      }
  }

  /** Between two texts it does not matter which one was wanted. */
  lemma TextsMeetAlike(a: string, b: string, fold: string -> string)
    ensures CellEquals(Words(a), b, fold) <==> CellEquals(Words(b), a, fold)
  {
    CellEqualsIff(Words(a), b, fold);
    CellEqualsIff(Words(b), a, fold);
    if AsNumber(a).Some? && AsNumber(b).Some? {
      MetAlike(AsNumber(a).value, AsNumber(b).value);
    }
  }

  lemma MetAlike(d: Decimal, e: Decimal)
    ensures DecimalsMet(d, e) <==> DecimalsMet(e, d)
  {
    var p, q := Tens(d.scale), Tens(e.scale);
    assert p * q == q * p;
    assert (Signed(e) * p - Signed(d) * q) * 1_000_000 == -((Signed(d) * q - Signed(e) * p) * 1_000_000);
  }

  // ---- What a table has to satisfy, said of the table and not of any text ----

  /** Some cell of the row stands under the wanted column and is what was wanted. */
  predicate CellMatches(header: seq<string>, cells: seq<string>, col: string, value: Value, fold: string -> string)
    requires |cells| == |header|
  {
    exists j :: 0 <= j < |header| && fold(header[j]) == fold(col) && CellMet(value, cells[j], fold)
  }

  predicate RowMatches(header: seq<string>, cells: seq<string>, want: Wanted, fold: string -> string)
    requires |cells| == |header|
  {
    forall i :: 0 <= i < |want| ==> CellMatches(header, cells, want[i].0, want[i].1, fold)
  }

  predicate Rectangular(header: seq<string>, body: Grid) {
    forall k :: 0 <= k < |body| ==> |body[k]| == |header|
  }

  predicate SomeRowMatches(header: seq<string>, body: Grid, want: Wanted, fold: string -> string)
    requires Rectangular(header, body)
  {
    exists k :: 0 <= k < |body| && RowMatches(header, body[k], want, fold)
  }

  /** Every wanted column is there, the rows are as many as wanted, and some row is each wanted one. */
  predicate Meets(header: seq<string>, body: Grid, wanted: Expectation, fold: string -> string)
    requires Rectangular(header, body)
  {
    && (forall i :: 0 <= i < |wanted.requiredColumns| ==>
          exists j :: 0 <= j < |header| && fold(header[j]) == fold(wanted.requiredColumns[i]))
    && (wanted.rowCount.None? || |body| == wanted.rowCount.value)
    && (wanted.minRows.None? || wanted.minRows.value <= |body|)
    && (forall i :: 0 <= i < |wanted.rows| ==> SomeRowMatches(header, body, wanted.rows[i], fold))
  }

  predicate DistinctColumns(header: seq<string>, fold: string -> string) {
    forall i, j :: 0 <= i < j < |header| ==> fold(header[i]) != fold(header[j])
  }

  // ---- Records hold the table ----

  lemma {:induction false} PutNewKey(rec: Record, key: string, value: string)
    requires forall i :: 0 <= i < |rec| ==> rec[i].0 != key
    ensures Put(rec, key, value) == rec + [(key, value)]
  {
    if rec != [] {
      PutNewKey(rec[1..], key, value);
    }
  }

  /** The first n columns beside the first n cells. */
  function Paired(header: seq<string>, cells: seq<string>, n: nat): (rec: Record)
    requires n <= |header| && n <= |cells|
    ensures |rec| == n && forall i :: 0 <= i < n ==> rec[i] == (header[i], cells[i])
  {
    seq(n, i requires 0 <= i < n => (header[i], cells[i]))
  }

  lemma {:induction false} KeyedPairsUp(header: seq<string>, cells: seq<string>, n: nat)
    requires |cells| == |header| && n <= |header|
    requires forall i, j :: 0 <= i < j < |header| ==> header[i] != header[j]
    ensures Keyed(header, cells, n) == Paired(header, cells, n)
  {
    if n > 0 {
      var before := Paired(header, cells, n - 1);
      KeyedPairsUp(header, cells, n - 1);
      PutNewKey(before, header[n - 1], cells[n - 1]);
      assert before + [(header[n - 1], cells[n - 1])] == Paired(header, cells, n);
    }
  }

  /** The value of the entry with this very key. */
  function Entry(rec: Record, key: string): Option<string> {
    if rec == [] then None else if rec[0].0 == key then Some(rec[0].1) else Entry(rec[1..], key)
  }

  lemma {:induction false} EntryAfterPut(rec: Record, key: string, value: string, other: string)
    ensures Entry(Put(rec, key, value), other) == if other == key then Some(value) else Entry(rec, other)
  {
    if rec != [] && rec[0].0 != key {
      EntryAfterPut(rec[1..], key, value, other);
    }
  }

  /** Under any header a name holds the cell of its last column, and a row too short holds empty text. */
  lemma {:induction false} KeyedHoldsLast(header: seq<string>, cells: seq<string>, n: nat, j: nat)
    requires j < n <= |header| && forall k :: j < k < n ==> header[k] != header[j]
    ensures Entry(Keyed(header, cells, n), header[j]) == Some(if j < |cells| then cells[j] else "")
  {
    EntryAfterPut(Keyed(header, cells, n - 1), header[n - 1], if n - 1 < |cells| then cells[n - 1] else "", header[j]);
    if j < n - 1 {
      KeyedHoldsLast(header, cells, n - 1, j);
    }
  }

  /** The value under a column is that of the first key with the same fold. */
  lemma {:induction false} ColValueIsFirst(rec: Record, col: string, fold: string -> string)
    ensures match ColValue(rec, col, fold)
            case None => forall i :: 0 <= i < |rec| ==> fold(rec[i].0) != fold(col)
            case Some(v) => exists i :: 0 <= i < |rec| && fold(rec[i].0) == fold(col) && rec[i].1 == v
                                        && forall j :: 0 <= j < i ==> fold(rec[j].0) != fold(col)
  {
    if rec != [] && fold(rec[0].0) != fold(col) {
      ColValueIsFirst(rec[1..], col, fold);
      if v :| ColValue(rec[1..], col, fold) == Some(v) {
        var i :| 0 <= i < |rec| - 1 && fold(rec[1..][i].0) == fold(col) && rec[1..][i].1 == v
                 && forall j :: 0 <= j < i ==> fold(rec[1..][j].0) != fold(col);
        assert rec[i + 1] == rec[1..][i];
        assert forall j :: 0 < j < i + 1 ==> rec[j] == rec[1..][j - 1];
      }
    }
  }

  lemma CellThroughRecord(header: seq<string>, cells: seq<string>, col: string, value: Value, fold: string -> string)
    requires |cells| == |header| && DistinctColumns(header, fold)
    ensures var cell := ColValue(Keyed(header, cells, |header|), col, fold);
            (cell.Some? && CellEquals(value, cell.value, fold)) <==> CellMatches(header, cells, col, value, fold)
  {
    var rec := Keyed(header, cells, |header|);
    KeyedPairsUp(header, cells, |header|);
    ColValueIsFirst(rec, col, fold);
    forall j | 0 <= j < |cells|
      ensures CellEquals(value, cells[j], fold) <==> CellMet(value, cells[j], fold)
    {
      CellEqualsIff(value, cells[j], fold);
    }
  }

  lemma RowThroughRecord(header: seq<string>, cells: seq<string>, want: Wanted, fold: string -> string)
    requires |cells| == |header| && DistinctColumns(header, fold)
    ensures RecordMatches(Keyed(header, cells, |header|), want, fold) <==> RowMatches(header, cells, want, fold)
  {
    forall i | 0 <= i < |want|
      ensures var cell := ColValue(Keyed(header, cells, |header|), want[i].0, fold);
              (cell.Some? && CellEquals(want[i].1, cell.value, fold))
              <==> CellMatches(header, cells, want[i].0, want[i].1, fold)
    {
      CellThroughRecord(header, cells, want[i].0, want[i].1, fold);
    }
  }

  lemma RowsThroughRecords(header: seq<string>, body: Grid, want: Wanted, fold: string -> string)
    requires Rectangular(header, body) && DistinctColumns(header, fold)
    ensures SomeRecordMatches(Records(header, body), want, fold) <==> SomeRowMatches(header, body, want, fold)
  {
    forall k | 0 <= k < |body|
      ensures RecordMatches(Records(header, body)[k], want, fold) <==> RowMatches(header, body[k], want, fold)
    {
      RowThroughRecord(header, body[k], want, fold);
    }
  }

  lemma AcceptsIffMeets(header: seq<string>, body: Grid, wanted: Expectation, fold: string -> string)
    requires Rectangular(header, body) && DistinctColumns(header, fold)
    ensures Accepts([header] + body, wanted, fold) <==> Meets(header, body, wanted, fold)
  {
    var grid := [header] + body;
    assert grid[0] == header && grid[1..] == body && |grid| - 1 == |body|;
    forall i | 0 <= i < |wanted.rows|
      ensures SomeRecordMatches(Records(header, body), wanted.rows[i], fold)
              <==> SomeRowMatches(header, body, wanted.rows[i], fold)
    {
      RowsThroughRecords(header, body, wanted.rows[i], fold);
    }
    assert (forall i :: 0 <= i < |wanted.requiredColumns| ==> HasColumn(grid[0], wanted.requiredColumns[i], fold))
      <==> (forall i :: 0 <= i < |wanted.requiredColumns| ==>
              exists j :: 0 <= j < |header| && fold(header[j]) == fold(wanted.requiredColumns[i]));
    assert (forall i :: 0 <= i < |wanted.rows| ==>
              SomeRecordMatches(Records(grid[0], grid[1..]), wanted.rows[i], fold))
      <==> (forall i :: 0 <= i < |wanted.rows| ==> SomeRowMatches(header, body, wanted.rows[i], fold));
  }

  // ---- From the printed table to the verdict ----

  /** The delimiter occurs in the first line more often than any other the sniffer considers. */
  predicate Dominates(delim: char, text: string) {
    && delim in CANDIDATES
    && forall d :: d in CANDIDATES && d != delim ==> Count(FirstLine(text), d) < Count(FirstLine(text), delim)
  }

  /**
   A table of at least two columns, however it is printed, passes exactly when what is in it meets the
   expectation: the whole path of printing, sniffing, reading, keying and matching.
   */
  lemma PrintedTableIsJudgedByContent(
    header: seq<string>, body: Grid, lines: seq<Line>, delim: char, finalBreak: bool,
    wanted: Expectation, fold: string -> string)
    requires Rectangular(header, body) && DistinctColumns(header, fold) && |header| >= 2
    requires Valid(lines, delim) && GridOf(lines) == [header] + body
    requires Dominates(delim, Print(lines, delim, finalBreak))
    ensures var text := Print(lines, delim, finalBreak);
            Accepts(Parse(text, Sniffed(text)), wanted, fold) <==> Meets(header, body, wanted, fold)
  {
    SniffedIsFirstMostFrequent(Print(lines, delim, finalBreak));
    RoundTrip(lines, delim, finalBreak);
    NothingToDrop([header] + body);
    AcceptsIffMeets(header, body, wanted, fold);
  }
}
