/**
 A printer for the format of section 2 of RFC 4180, with every freedom that section leaves: either
 line break on each row, quotes around cells that do not need them, and a final break or none.
 The reader inverts every text it can print.
 */
module CsvPrinter {
  import opened Text
  import opened CsvReader

  datatype Cell = Cell(text: string, quoted: bool) {
    /** A cell may go without quotes only if no character of it is special. */
    predicate Valid(delim: char) {
      quoted || (delim !in text && '"' !in text && '\n' !in text && '\r' !in text)
    }
  }

  datatype Line = Line(cells: seq<Cell>, crlf: bool) {
    predicate Valid(delim: char) {
      cells != [] && forall i :: 0 <= i < |cells| ==> cells[i].Valid(delim)
    }
  }

  predicate Separates(delim: char) {
    delim !in {'"', '\n', '\r'}
  }

  predicate Valid(lines: seq<Line>, delim: char) {
    Separates(delim) && forall i :: 0 <= i < |lines| ==> lines[i].Valid(delim)
  }

  function Escaped(text: string): string {
    if text == "" then ""
    else (if text[0] == '"' then "\"\"" else [text[0]]) + Escaped(text[1..])
  }

  function PrintCell(c: Cell): string {
    if c.quoted then "\"" + Escaped(c.text) + "\"" else c.text
  }

  function PrintCells(cells: seq<Cell>, delim: char): string
    requires cells != []
  {
    if |cells| == 1 then PrintCell(cells[0])
    else PrintCell(cells[0]) + [delim] + PrintCells(cells[1..], delim)
  }

  function Break(l: Line): string {
    if l.crlf then "\r\n" else "\n"
  }

  function Print(lines: seq<Line>, delim: char, finalBreak: bool): string
    requires Valid(lines, delim)
  {
    if lines == [] then ""
    else
      PrintCells(lines[0].cells, delim)
      + (if |lines| > 1 || finalBreak then Break(lines[0]) else "")
      + Print(lines[1..], delim, finalBreak)
  }

  function Texts(cells: seq<Cell>): seq<string> {
    if cells == [] then [] else [cells[0].text] + Texts(cells[1..])
  }

  function GridOf(lines: seq<Line>): Grid {
    if lines == [] then [] else [Texts(lines[0].cells)] + GridOf(lines[1..])
  }

  // ---- Reading one cell ----

  lemma {:induction false} ScanPlain(s: Scan, text: string, rest: string, delim: char)
    requires !s.inQuotes && Cell(text, false).Valid(delim)
    ensures ScanFrom(s, text + rest, delim) == ScanFrom(s.(field := s.field + text), rest, delim)
    decreases |text|
  {
    if text == "" {
      assert text + rest == rest && s.field + text == s.field;
    } else {
      assert (text + rest)[1..] == text[1..] + rest;
      ScanPlain(s.(field := s.field + [text[0]]), text[1..], rest, delim);
      assert s.field + [text[0]] + text[1..] == s.field + text;
    }
  }

  lemma ScanQuotedChar(s: Scan, ch: char, later: string, delim: char)
    requires s.inQuotes && ch != '"'
    ensures ScanFrom(s, [ch] + later, delim) == ScanFrom(s.(field := s.field + [ch]), later, delim)
  {
    assert ([ch] + later)[1..] == later;
  }

  lemma ScanDoubledQuote(s: Scan, later: string, delim: char)
    requires s.inQuotes
    ensures ScanFrom(s, "\"\"" + later, delim) == ScanFrom(s.(field := s.field + "\""), later, delim)
  {
    assert ("\"\"" + later)[2..] == later;
  }

  lemma ScanClosingQuote(s: Scan, rest: string, delim: char)
    requires s.inQuotes && (rest == "" || rest[0] != '"')
    ensures ScanFrom(s, "\"" + rest, delim) == ScanFrom(s.(inQuotes := false), rest, delim)
  {
    assert ("\"" + rest)[1..] == rest;
  }

  lemma FirstAndRest(field: string, text: string)
    requires text != ""
    ensures field + [text[0]] + text[1..] == field + text
  {
  }

  lemma QuoteAndRest(text: string, rest: string)
    ensures text + "\"" + rest == text + ("\"" + rest)
  {
  }

  lemma {:induction false} ScanEscaped(s: Scan, text: string, rest: string, delim: char)
    requires s.inQuotes && (rest == "" || rest[0] != '"')
    ensures ScanFrom(s, Escaped(text) + "\"" + rest, delim)
            == ScanFrom(s.(field := s.field + text, inQuotes := false), rest, delim)
    decreases |text|
  {
    if text == "" {
      assert Escaped(text) + "\"" + rest == "\"" + rest && s.field + text == s.field;
      ScanClosingQuote(s, rest, delim);
    } else {
      var s' := s.(field := s.field + [text[0]]);
      ScanEscapedChar(s, text, "\"" + rest, delim);
      QuoteAndRest(Escaped(text), rest);
      QuoteAndRest(Escaped(text[1..]), rest);
      ScanEscaped(s', text[1..], rest, delim);
      FirstAndRest(s.field, text);
    }
  }

  lemma ScanEscapedChar(s: Scan, text: string, tail: string, delim: char)
    requires s.inQuotes && text != ""
    ensures ScanFrom(s, Escaped(text) + tail, delim)
            == ScanFrom(s.(field := s.field + [text[0]]), Escaped(text[1..]) + tail, delim)
  {
    var later := Escaped(text[1..]) + tail;
    if text[0] == '"' {
      assert Escaped(text) + tail == "\"\"" + later;
      ScanDoubledQuote(s, later, delim);
    } else {
      assert Escaped(text) + tail == [text[0]] + later;
      ScanQuotedChar(s, text[0], later, delim);
    }
  }

  lemma ScanCell(s: Scan, c: Cell, rest: string, delim: char)
    requires !s.inQuotes && s.field == "" && c.Valid(delim)
    requires rest == "" || rest[0] != '"'
    ensures ScanFrom(s, PrintCell(c) + rest, delim) == ScanFrom(s.(field := c.text), rest, delim)
  {
    assert s.field + c.text == c.text;
    if c.quoted {
      var all := PrintCell(c) + rest;
      assert all == "\"" + (Escaped(c.text) + "\"" + rest) && all[1..] == Escaped(c.text) + "\"" + rest;
      ScanEscaped(s.(inQuotes := true), c.text, rest, delim);
    } else {
      ScanPlain(s, c.text, rest, delim);
    }
  }

  // ---- Reading one line ----

  /** A scan that has read a row's cells, the last of them still open. */
  function Holding(s: Scan, texts: seq<string>): Scan
    requires texts != []
  {
    s.(row := s.row + texts[..|texts| - 1], field := texts[|texts| - 1])
  }

  lemma ScanDelimiter(s: Scan, rest: string, delim: char)
    requires !s.inQuotes && Separates(delim)
    ensures ScanFrom(s, [delim] + rest, delim) == ScanFrom(EndField(s), rest, delim)
  {
    assert ([delim] + rest)[1..] == rest;
  }

  lemma ScanCellAndDelimiter(s: Scan, c: Cell, later: string, delim: char)
    requires !s.inQuotes && s.field == "" && c.Valid(delim) && Separates(delim)
    ensures ScanFrom(s, PrintCell(c) + ([delim] + later), delim)
            == ScanFrom(EndField(s.(field := c.text)), later, delim)
  {
    ScanCell(s, c, [delim] + later, delim);
    ScanDelimiter(s.(field := c.text), later, delim);
  }

  lemma EndHolding(s: Scan, texts: seq<string>)
    requires texts != [] && s.field == "" && s.row == []
    ensures EndRow(Holding(s, texts)) == s.(rows := s.rows + [texts])
  {
    var held := Holding(s, texts);
    assert held.row + [held.field] == texts;
  }

  lemma HoldingOneMore(s: Scan, text: string, texts: seq<string>)
    requires texts != []
    ensures Holding(EndField(s.(field := text)), texts) == Holding(s, [text] + texts)
  {
    assert s.row + [text] + texts[..|texts| - 1] == s.row + ([text] + texts)[..|texts|];
  }

  lemma {:induction false} ScanCells(s: Scan, cells: seq<Cell>, rest: string, delim: char)
    requires !s.inQuotes && s.field == "" && Separates(delim)
    requires Line(cells, false).Valid(delim)
    requires rest == "" || rest[0] == '\r' || rest[0] == '\n'
    ensures |Texts(cells)| == |cells|
    ensures ScanFrom(s, PrintCells(cells, delim) + rest, delim) == ScanFrom(Holding(s, Texts(cells)), rest, delim)
    decreases |cells|
  {
    var c := cells[0];
    TextsOneMore(cells);
    if |cells| == 1 {
      ScanCell(s, c, rest, delim);
      HoldingOne(s, c.text);
    } else {
      var later := PrintCells(cells[1..], delim) + rest;
      PrintOneMore(cells, rest, delim);
      ScanCellAndDelimiter(s, c, later, delim);
      ScanCells(EndField(s.(field := c.text)), cells[1..], rest, delim);
      HoldingOneMore(s, c.text, Texts(cells[1..]));
    }
  }

  lemma HoldingOne(s: Scan, text: string)
    ensures Holding(s, [text]) == s.(field := text)
  {
    assert s.row + [text][..0] == s.row;
  }

  lemma {:induction false} TextsOneMore(cells: seq<Cell>)
    requires cells != []
    ensures Texts(cells) == [cells[0].text] + Texts(cells[1..]) && |Texts(cells)| == |cells|
  {
    if |cells| > 1 {
      TextsOneMore(cells[1..]);
    }
  }

  lemma PrintOneMore(cells: seq<Cell>, rest: string, delim: char)
    requires |cells| > 1
    ensures PrintCells(cells, delim) + rest
         == PrintCell(cells[0]) + ([delim] + (PrintCells(cells[1..], delim) + rest))
  {
  }

  lemma ScanBreak(s: Scan, l: Line, rest: string, delim: char)
    requires !s.inQuotes && Separates(delim)
    ensures ScanFrom(s, Break(l) + rest, delim) == ScanFrom(EndRow(s), rest, delim)
  {
    var tail := Break(l) + rest;
    if l.crlf {
      assert tail[1..] == "\n" + rest;
      assert ("\n" + rest)[1..] == rest;
      assert Advance(s, tail, delim) == (s, 1);
    } else {
      assert tail[1..] == rest;
    }
  }

  lemma ScanLine(s: Scan, l: Line, rest: string, delim: char)
    requires !s.inQuotes && s.field == "" && s.row == [] && Separates(delim) && l.Valid(delim)
    ensures ScanFrom(s, PrintCells(l.cells, delim) + (Break(l) + rest), delim)
            == ScanFrom(s.(rows := s.rows + [Texts(l.cells)]), rest, delim)
  {
    var texts := Texts(l.cells);
    ScanCells(s, l.cells, Break(l) + rest, delim);
    ScanBreak(Holding(s, texts), l, rest, delim);
    EndHolding(s, texts);
  }

  // ---- Reading it all ----

  lemma {:induction false} ScanLines(s: Scan, lines: seq<Line>, delim: char, finalBreak: bool)
    requires !s.inQuotes && s.field == "" && s.row == [] && Valid(lines, delim)
    ensures DropBlank(Finish(ScanFrom(s, Print(lines, delim, finalBreak), delim)))
            == DropBlank(s.rows) + DropBlank(GridOf(lines))
    decreases |lines|
  {
    if lines == [] {
      assert DropBlank(s.rows) + [] == DropBlank(s.rows);
    } else if |lines| > 1 || finalBreak {
      GridOfFirst(s.rows, lines);
      var l, later := lines[0], Print(lines[1..], delim, finalBreak);
      assert Print(lines, delim, finalBreak) == PrintCells(l.cells, delim) + (Break(l) + later);
      ScanLine(s, l, later, delim);
      ScanLines(s.(rows := s.rows + [Texts(l.cells)]), lines[1..], delim, finalBreak);
    } else {
      ScanLastLine(s, lines[0], delim);
      assert Print(lines[1..], delim, finalBreak) == "" && GridOf(lines[1..]) == [];
      assert Print(lines, delim, finalBreak) == PrintCells(lines[0].cells, delim) + "";
      assert GridOf(lines) == [Texts(lines[0].cells)];
    }
  }

  lemma GridOfFirst(rows: Grid, lines: seq<Line>)
    requires lines != []
    ensures DropBlank(rows + [Texts(lines[0].cells)]) + DropBlank(GridOf(lines[1..]))
            == DropBlank(rows) + DropBlank(GridOf(lines))
  {
    DropBlankAssociates(rows, [Texts(lines[0].cells)], GridOf(lines[1..]));
  }

  lemma DropBlankAssociates(a: Grid, b: Grid, c: Grid)
    ensures DropBlank(a + b) + DropBlank(c) == DropBlank(a) + DropBlank(b + c)
  {
    DropBlankConcat(a, b);
    DropBlankConcat(b, c);
    Associates(DropBlank(a), DropBlank(b), DropBlank(c));
  }

  lemma Associates(a: Grid, b: Grid, c: Grid)
    ensures a + b + c == a + (b + c)
  {
  }

  lemma ScanLastLine(s: Scan, l: Line, delim: char)
    requires !s.inQuotes && s.field == "" && s.row == [] && Separates(delim) && l.Valid(delim)
    ensures DropBlank(Finish(ScanFrom(s, PrintCells(l.cells, delim) + "", delim)))
            == DropBlank(s.rows) + DropBlank([Texts(l.cells)])
  {
    var texts := Texts(l.cells);
    ScanCells(s, l.cells, "", delim);
    FinishHolding(s, texts);
  }

  lemma FinishHolding(s: Scan, texts: seq<string>)
    requires texts != [] && s.field == "" && s.row == []
    ensures DropBlank(Finish(Holding(s, texts))) == DropBlank(s.rows) + DropBlank([texts])
  {
    var held := Holding(s, texts);
    assert held.row + [held.field] == texts;
    DropBlankConcat(s.rows, [texts]);
  }

  /** Reading what was printed gives back every row, except rows that are one empty cell. */
  lemma RoundTrip(lines: seq<Line>, delim: char, finalBreak: bool)
    requires Valid(lines, delim)
    ensures Parse(Print(lines, delim, finalBreak), delim) == DropBlank(GridOf(lines))
  {
    ScanLines(START, lines, delim, finalBreak);
  }

  // ---- Every grid can be printed ----

  /** Quotes only where they are needed. */
  function Minimal(grid: Grid, delim: char): (lines: seq<Line>)
    requires Separates(delim) && forall i :: 0 <= i < |grid| ==> grid[i] != []
    ensures Valid(lines, delim)
    ensures GridOf(lines) == grid
  {
    if grid == [] then [] else [Line(MinimalCells(grid[0], delim), false)] + Minimal(grid[1..], delim)
  }

  function MinimalCells(row: seq<string>, delim: char): (cells: seq<Cell>)
    ensures |cells| == |row| && Texts(cells) == row
    ensures forall i :: 0 <= i < |cells| ==> cells[i].Valid(delim)
  {
    if row == [] then []
    else [Cell(row[0], !Cell(row[0], false).Valid(delim))] + MinimalCells(row[1..], delim)
  }

  /** Hence a grid without empty and without blank rows is always recovered exactly. */
  lemma GridsSurvive(grid: Grid, delim: char, finalBreak: bool)
    requires Separates(delim) && forall i :: 0 <= i < |grid| ==> grid[i] != [] && !BlankRow(grid[i])
    ensures Parse(Print(Minimal(grid, delim), delim, finalBreak), delim) == grid
  {
    RoundTrip(Minimal(grid, delim), delim, finalBreak);
    NothingToDrop(grid);
  }

  lemma {:induction false} NothingToDrop(grid: Grid)
    requires forall i :: 0 <= i < |grid| ==> !BlankRow(grid[i])
    ensures DropBlank(grid) == grid
  {
    if grid != [] {
      NothingToDrop(grid[1..]);
    }
  }

  // ---- Sniffing what was printed ----

  predicate PlainCell(c: Cell) {
    && !c.quoted && '"' !in c.text && '\n' !in c.text && '\r' !in c.text
    && forall d :: d in CANDIDATES ==> d !in c.text
  }

  /** Headers without quotes or special characters: the first line shows the delimiter alone. */
  predicate PlainHeader(l: Line) {
    forall i :: 0 <= i < |l.cells| ==> PlainCell(l.cells[i])
  }

  lemma {:induction false} PlainCellsCount(cells: seq<Cell>, delim: char, d: char)
    requires cells != [] && Separates(delim) && PlainHeader(Line(cells, false))
    requires d in CANDIDATES || d == '\n' || d == '\r'
    ensures Count(PrintCells(cells, delim), d) == if d == delim then |cells| - 1 else 0
  {
    assert d !in cells[0].text;
    CountAbsent(cells[0].text, d);
    if |cells| > 1 {
      PlainCellsCount(cells[1..], delim, d);
      CountConcat(cells[0].text + [delim], PrintCells(cells[1..], delim), d);
      CountConcat(cells[0].text, [delim], d);
      assert Count([delim], d) == if d == delim then 1 else 0;
    }
  }

  lemma {:induction false} CountZeroIsAbsent(s: string, c: char)
    requires Count(s, c) == 0
    ensures c !in s
  {
    if s != "" {
      CountZeroIsAbsent(s[1..], c);
    }
  }

  lemma {:induction false} FirstPiece(s: string, rest: string)
    requires '\n' !in s
    ensures Split(s + rest, '\n')[0] == s + Split(rest, '\n')[0]
  {
    if s == "" {
      assert s + rest == rest;
    } else {
      assert (s + rest)[1..] == s[1..] + rest;
      FirstPiece(s[1..], rest);
    }
  }

  /** A plain header of at least two columns is enough for the sniffer to find the delimiter. */
  lemma PlainHeaderIsSniffed(lines: seq<Line>, delim: char, finalBreak: bool)
    requires Valid(lines, delim) && delim in CANDIDATES
    requires lines != [] && |lines[0].cells| >= 2 && PlainHeader(lines[0])
    ensures Sniffed(Print(lines, delim, finalBreak)) == delim
  {
    var l := lines[0];
    var head := PrintCells(l.cells, delim);
    var text := Print(lines, delim, finalBreak);
    assert PlainHeader(Line(l.cells, false));
    forall d | d in CANDIDATES || d == '\n' || d == '\r'
      ensures Count(head, d) == if d == delim then |l.cells| - 1 else 0
    {
      PlainCellsCount(l.cells, delim, d);
    }
    CountZeroIsAbsent(head, '\n');
    CountZeroIsAbsent(head, '\r');
    FirstLineIsHeader(lines, delim, finalBreak);
    assert FirstLine(text) == head;
    SniffedIsFirstMostFrequent(text);
  }

  lemma FirstLineIsHeader(lines: seq<Line>, delim: char, finalBreak: bool)
    requires Valid(lines, delim) && lines != []
    requires '\n' !in PrintCells(lines[0].cells, delim) && '\r' !in PrintCells(lines[0].cells, delim)
    ensures FirstLine(Print(lines, delim, finalBreak)) == PrintCells(lines[0].cells, delim)
  {
    var head := PrintCells(lines[0].cells, delim);
    HeaderAndRest(lines, delim, finalBreak);
    if |lines| > 1 || finalBreak {
      BreakEndsFirstLine(head, lines[0], Print(lines[1..], delim, finalBreak));
    } else {
      UnbrokenIsFirstLine(head);
    }
  }

  lemma HeaderAndRest(lines: seq<Line>, delim: char, finalBreak: bool)
    requires Valid(lines, delim) && lines != []
    ensures var head := PrintCells(lines[0].cells, delim);
            Print(lines, delim, finalBreak)
            == if |lines| > 1 || finalBreak
               then head + (Break(lines[0]) + Print(lines[1..], delim, finalBreak))
               else head
  {
    if |lines| == 1 {
      assert Print(lines[1..], delim, finalBreak) == "";
    }
  }

  lemma UnbrokenIsFirstLine(head: string)
    requires '\n' !in head
    ensures FirstLine(head) == head
  {
    FirstPiece(head, "");
    assert head + "" == head;
  }

  lemma BreakEndsFirstLine(head: string, l: Line, later: string)
    requires '\n' !in head && '\r' !in head
    ensures FirstLine(head + (Break(l) + later)) == head
  {
    var tail := Break(l) + later;
    FirstPiece(head, tail);
    BreakFirst(l, later);
    if !l.crlf && head != "" {
      assert head[|head| - 1] in head;
    }
    assert (head + tail)[|head| + |Break(l)| - 1] == '\n';
  }

  lemma BreakFirst(l: Line, later: string)
    ensures Split(Break(l) + later, '\n')[0] == if l.crlf then "\r" else ""
  {
    var tail := Break(l) + later;
    if l.crlf {
      assert tail[1..] == ['\n'] + later;
      assert Split(tail[1..], '\n')[0] == "";
    } else {
      assert tail[0] == '\n';
    }
  }
}
