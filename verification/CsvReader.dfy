/**
 The lenient CSV reader: a quote-aware scan with one character of lookahead, and the sniffing of
 the delimiter from the first line.
 */
module CsvReader {
  import opened Text

  type Grid = seq<seq<string>>

  /** The reader's variables between two characters of the text. */
  datatype Scan = Scan(rows: Grid, row: seq<string>, field: string, inQuotes: bool)

  const START := Scan([], [], "", false)

  function EndField(s: Scan): Scan {
    s.(row := s.row + [s.field], field := "")
  }

  function EndRow(s: Scan): Scan {
    s.(rows := s.rows + [s.row + [s.field]], row := [], field := "")
  }

  /** The scan after the next character, and how many characters it took: two for an escaped quote. */
  function Advance(s: Scan, text: string, delim: char): (r: (Scan, nat))
    requires text != ""
    ensures 1 <= r.1 <= 2 && r.1 <= |text|
  {
    var ch := text[0];
    if s.inQuotes then
      if ch == '"' then
        if |text| > 1 && text[1] == '"' then (s.(field := s.field + "\""), 2)
        else (s.(inQuotes := false), 1)
      else (s.(field := s.field + [ch]), 1)
    else if ch == '"' then (s.(inQuotes := true), 1)
    else if ch == delim then (EndField(s), 1)
    else if ch == '\n' then (EndRow(s), 1)
    else if ch == '\r' then (s, 1)
    else (s.(field := s.field + [ch]), 1)
  }

  function ScanFrom(s: Scan, text: string, delim: char): Scan
    decreases |text|
  {
    if text == "" then s
    else
      var (s', n) := Advance(s, text, delim);
      ScanFrom(s', text[n..], delim)
  }

  /** A last row without a line break still counts, unless nothing of it was read. */
  function Finish(s: Scan): Grid {
    if s.field != "" || s.row != [] then s.rows + [s.row + [s.field]] else s.rows
  }

  predicate BlankRow(row: seq<string>) {
    row == [""]
  }

  function DropBlank(grid: Grid): Grid {
    if grid == [] then []
    else (if BlankRow(grid[0]) then [] else [grid[0]]) + DropBlank(grid[1..])
  }

  function Parse(text: string, delim: char): Grid {
    DropBlank(Finish(ScanFrom(START, text, delim)))
  }

  // ---- Sniffing ----

  /** The text before the first line break, which may be written LF or CR LF. */
  function FirstLine(text: string): string {
    var head := Split(text, '\n')[0];
    if '\n' in text && head != "" && head[|head| - 1] == '\r' then head[..|head| - 1] else head
  }

  const CANDIDATES: seq<char> := [';', ',', '\t']

  /** Keep the champion unless the challenger occurs strictly more often. */
  function Better(line: string, best: (char, nat), challenger: char): (char, nat) {
    if Count(line, challenger) > best.1 then (challenger, Count(line, challenger)) else best
  }

  function Champion(line: string, n: nat): (char, nat)
    requires n <= |CANDIDATES|
  {
    if n == 0 then (',', 0) else Better(line, Champion(line, n - 1), CANDIDATES[n - 1])
  }

  function Sniffed(text: string): char {
    Champion(FirstLine(text), |CANDIDATES|).0
  }

  method DetectDelimiter(text: string) returns (best: char)
    ensures best == Sniffed(text)
  {
    var firstLine := FirstLine(text);
    var bestCount := 0;
    best := ',';
    for k := 0 to |CANDIDATES|
      invariant (best, bestCount) == Champion(firstLine, k)
    {
      var count := |Split(firstLine, CANDIDATES[k])| - 1;
      if count > bestCount {
        best := CANDIDATES[k];
        bestCount := count;
      }
    }
  }

  /** No candidate beats the sniffed one, earlier ones do not tie with it, and a comma is the default. */
  lemma SniffedIsFirstMostFrequent(text: string)
    ensures var line := FirstLine(text);
            var best := Sniffed(text);
            && best in CANDIDATES
            && (forall d :: d in CANDIDATES ==> Count(line, d) <= Count(line, best))
            && ((forall d :: d in CANDIDATES ==> Count(line, d) == 0) ==> best == ',')
            && (forall i, j :: 0 <= i < j < |CANDIDATES| && CANDIDATES[j] == best && Count(line, best) > 0
                  ==> Count(line, CANDIDATES[i]) < Count(line, best))
  {
    var line := FirstLine(text);
    assert Champion(line, 1) == Better(line, Champion(line, 0), ';');
    assert Champion(line, 2) == Better(line, Champion(line, 1), ',');
    assert Champion(line, 3) == Better(line, Champion(line, 2), '\t');
    assert CANDIDATES[0] == ';' && CANDIDATES[1] == ',' && CANDIDATES[2] == '\t';
  }

  lemma {:induction false} HeadOfLine(line: string, rest: string)
    requires '\n' !in line
    ensures Split(line, '\n')[0] == line
    ensures Split(line + ("\n" + rest), '\n')[0] == line
  {
    var text := line + ("\n" + rest);
    if line == "" {
      assert text[0] == '\n';
    } else {
      assert text[1..] == line[1..] + ("\n" + rest);
      HeadOfLine(line[1..], rest);
      assert [line[0]] + line[1..] == line;
    }
  }

  lemma CountButCr(line: string, c: char)
    requires line != "" && line[|line| - 1] == '\r' && c != '\r'
    ensures Count(line[..|line| - 1], c) == Count(line, c)
  {
    CountConcat(line[..|line| - 1], "\r", c);
    assert line == line[..|line| - 1] + "\r";
    assert "\r"[1..] == "";
  }

  /** Semicolons, commas and tabs of the first line are counted: the most win, in that order if they tie. */
  lemma SniffedByCounts(line: string, rest: string, text: string)
    requires '\n' !in line && (text == line || text == line + ("\n" + rest))
    ensures var semicolons, commas, tabs := Count(line, ';'), Count(line, ','), Count(line, '\t');
            Sniffed(text) == if semicolons == commas == tabs == 0 then ','
                             else if commas <= semicolons && tabs <= semicolons then ';'
                             else if tabs <= commas then ',' else '\t'
  {
    HeadOfLine(line, rest);
    var first := FirstLine(text);
    if first != line {
      CountButCr(line, ';');
      CountButCr(line, ',');
      CountButCr(line, '\t');
    }
    assert Champion(first, 1) == Better(first, Champion(first, 0), ';');
    assert Champion(first, 2) == Better(first, Champion(first, 1), ',');
    assert Champion(first, 3) == Better(first, Champion(first, 2), '\t');
  }

  // ---- The reader ----

  lemma ScanStep(s: Scan, text: string, at: nat, s': Scan, next: nat, delim: char)
    requires at < next <= |text| && Advance(s, text[at..], delim) == (s', next - at)
    ensures ScanFrom(s, text[at..], delim) == ScanFrom(s', text[next..], delim)
  {
    assert text[at..][next - at..] == text[next..];
  }

  method ParseCsv(text: string, delimiter: Option<char>) returns (grid: Grid)
    ensures grid == Parse(text, if delimiter.Some? then delimiter.value else Sniffed(text))
  {
    var delim: char;
    if delimiter.Some? {
      delim := delimiter.value;
    } else {
      delim := DetectDelimiter(text);
    }
    var rows: Grid, row: seq<string>, field := [], [], "";
    var inQuotes, sawAny := false, false;
    var i := 0;
    while i < |text|
      invariant 0 <= i <= |text|
      invariant ScanFrom(START, text, delim) == ScanFrom(Scan(rows, row, field, inQuotes), text[i..], delim)
      invariant !sawAny ==> row == [] && field == ""
    {
      var ch := text[i];
      ghost var before, at := Scan(rows, row, field, inQuotes), i;
      sawAny := true;
      if inQuotes {
        if ch == '"' {
          if i + 1 < |text| && text[i + 1] == '"' {
            field := field + "\"";
            i := i + 1;
          } else {
            inQuotes := false;
          }
        } else {
          field := field + [ch];
        }
      } else if ch == '"' {
        inQuotes := true;
      } else if ch == delim {
        row := row + [field];
        field := "";
      } else if ch == '\n' {
        row := row + [field];
        rows := rows + [row];
        row := [];
        field := "";
      } else if ch != '\r' {
        field := field + [ch];
      }
      i := i + 1;
      assert Advance(before, text[at..], delim) == (Scan(rows, row, field, inQuotes), i - at);
      ScanStep(before, text, at, Scan(rows, row, field, inQuotes), i, delim);
    }
    if sawAny && (|field| > 0 || |row| > 0) {
      row := row + [field];
      rows := rows + [row];
    }
    grid := Filtered(rows);
  }

  method Filtered(rows: Grid) returns (kept: Grid)
    ensures kept == DropBlank(rows)
  {
    kept := [];
    for k := 0 to |rows|
      invariant kept + DropBlank(rows[k..]) == DropBlank(rows)
    {
      if !(|rows[k]| == 1 && rows[k][0] == "") {
        kept := kept + [rows[k]];
      }
      assert rows[k..][1..] == rows[k + 1..];
    }
  }

  // ---- Reading in pieces ----

  lemma {:induction false} DropBlankConcat(g: Grid, h: Grid)
    ensures DropBlank(g + h) == DropBlank(g) + DropBlank(h)
  {
    if g == [] {
      assert g + h == h;
    } else {
      assert (g + h)[1..] == g[1..] + h;
      DropBlankConcat(g[1..], h);
    }
  }

  /** The positions from k on that hold a row which is not blank. */
  function KeptFrom(g: Grid, k: nat): (at: seq<nat>)
    requires k <= |g|
    ensures forall j :: 0 <= j < |at| ==> k <= at[j] < |g|
    decreases |g| - k
  {
    if k == |g| then [] else (if BlankRow(g[k]) then [] else [k]) + KeptFrom(g, k + 1)
  }

  /** They are all of them, in order. */
  lemma {:induction false} KeptAreAll(g: Grid, k: nat)
    requires k <= |g|
    ensures forall i, j :: 0 <= i < j < |KeptFrom(g, k)| ==> KeptFrom(g, k)[i] < KeptFrom(g, k)[j]
    ensures forall i: nat :: i in KeptFrom(g, k) <==> k <= i < |g| && !BlankRow(g[i])
    decreases |g| - k
  {
    if k < |g| {
      KeptAreAll(g, k + 1);
    }
  }

  function RowsAt(g: Grid, at: seq<nat>): Grid
    requires forall j :: 0 <= j < |at| ==> at[j] < |g|
  {
    seq(|at|, j requires 0 <= j < |at| => g[at[j]])
  }

  lemma RowsAtBoth(g: Grid, at: seq<nat>, more: seq<nat>)
    requires forall j :: 0 <= j < |at| ==> at[j] < |g|
    requires forall j :: 0 <= j < |more| ==> more[j] < |g|
    ensures RowsAt(g, at + more) == RowsAt(g, at) + RowsAt(g, more)
  {
  }

  lemma {:induction false} DropBlankFrom(g: Grid, k: nat)
    requires k <= |g|
    ensures DropBlank(g[k..]) == RowsAt(g, KeptFrom(g, k))
    decreases |g| - k
  {
    if k < |g| {
      DropBlankFrom(g, k + 1);
      assert g[k..][1..] == g[k + 1..];
      RowsAtBoth(g, if BlankRow(g[k]) then [] else [k], KeptFrom(g, k + 1));
    }
  }

  /** Dropping blank rows keeps the rows at the positions that are not blank, in their order. */
  lemma DropBlankKeepsOrder(g: Grid)
    ensures DropBlank(g) == RowsAt(g, KeptFrom(g, 0))
    ensures forall i, j :: 0 <= i < j < |KeptFrom(g, 0)| ==> KeptFrom(g, 0)[i] < KeptFrom(g, 0)[j]
    ensures forall i: nat :: i in KeptFrom(g, 0) <==> i < |g| && !BlankRow(g[i])
  {
    DropBlankFrom(g, 0);
    KeptAreAll(g, 0);
    assert g[0..] == g;
  }

  /** No row is lost or made up, as often as it occurs. */
  lemma {:induction false} DropBlankKeepsTheRest(g: Grid)
    ensures !exists r :: r in DropBlank(g) && BlankRow(r)
    ensures multiset(DropBlank(g)) <= multiset(g)
    ensures forall r :: !BlankRow(r) ==> multiset(DropBlank(g))[r] == multiset(g)[r]
  {
    if g != [] {
      assert g == [g[0]] + g[1..];
      DropBlankKeepsTheRest(g[1..]);
    }
  }

  /** The cut comes between a quote that closes and one behind it that would have made it an escape. */
  predicate CutsEscape(s: Scan, a: string, b: string, delim: char) {
    && a != "" && a[|a| - 1] == '"' && b != "" && b[0] == '"'
    && !ScanFrom(s, a, delim).inQuotes
  }

  lemma {:induction false} ScanInTwoParts(s: Scan, a: string, b: string, delim: char)
    requires !CutsEscape(s, a, b, delim)
    ensures ScanFrom(s, a + b, delim) == ScanFrom(ScanFrom(s, a, delim), b, delim)
    decreases |a|
  {
    if a == "" {
      assert a + b == b;
    } else {
      var (s', n) := Advance(s, a, delim);
      if a == "\"" && s.inQuotes {
        assert ScanFrom(s', a[1..], delim) == s';
      }
      assert Advance(s, a + b, delim) == (s', n);
      assert (a + b)[n..] == a[n..] + b;
      ScanInTwoParts(s', a[n..], b, delim);
    }
  }

  /** Different readings of what came before stay different, whatever is read next. */
  lemma {:induction false} ScanForgetsNothing(s: Scan, t: Scan, text: string, delim: char)
    requires s != t && s.inQuotes == t.inQuotes
    ensures ScanFrom(s, text, delim) != ScanFrom(t, text, delim)
    decreases |text|
  {
    if text != "" {
      var (s', n) := Advance(s, text, delim);
      var (t', m) := Advance(t, text, delim);
      assert n == m && s'.inQuotes == t'.inQuotes;
      AdvanceForgetsNothing(s, t, text, delim);
      ScanForgetsNothing(s', t', text[n..], delim);
    }
  }

  lemma AdvanceForgetsNothing(s: Scan, t: Scan, text: string, delim: char)
    requires s != t && s.inQuotes == t.inQuotes && text != ""
    ensures Advance(s, text, delim).0 != Advance(t, text, delim).0
  {
    LastOfSame(s.field, text[0], t.field, text[0]);
    LastOfSame(s.row, s.field, t.row, t.field);
    LastOfSame(s.rows, s.row + [s.field], t.rows, t.row + [t.field]);
  }

  lemma LastOfSame<T>(a: seq<T>, x: T, b: seq<T>, y: T)
    ensures a + [x] == b + [y] <==> a == b && x == y
  {
    if a + [x] == b + [y] {
      assert (a + [x])[..|a|] == a && (b + [y])[..|b|] == b;
      assert (a + [x])[|a|] == x && (b + [y])[|b|] == y;
    }
  }

  lemma {:induction false} EscapeIsLost(s: Scan, a: string, b: string, delim: char)
    requires CutsEscape(s, a, b, delim)
    ensures ScanFrom(s, a + b, delim) != ScanFrom(ScanFrom(s, a, delim), b, delim)
    decreases |a|
  {
    var (s', n) := Advance(s, a, delim);
    if a == "\"" && s.inQuotes {
      var escaped := s.(field := s.field + "\"");
      assert ScanFrom(s', a[1..], delim) == s';
      assert (a + b)[2..] == b[1..];
      assert ScanFrom(s, a + b, delim) == ScanFrom(escaped, b[1..], delim);
      assert ScanFrom(s', b, delim) == ScanFrom(s, b[1..], delim);
      assert |escaped.field| != |s.field|;
      ScanForgetsNothing(escaped, s, b[1..], delim);
    } else {
      assert Advance(s, a + b, delim) == (s', n);
      assert (a + b)[n..] == a[n..] + b;
      assert |a| == n ==> s'.inQuotes && ScanFrom(s, a, delim) == s';
      EscapeIsLost(s', a[n..], b, delim);
    }
  }

  /** The text can be read in two parts exactly when the cut does not take an escape apart. */
  lemma ScanInTwoPartsIff(s: Scan, a: string, b: string, delim: char)
    ensures ScanFrom(s, a + b, delim) == ScanFrom(ScanFrom(s, a, delim), b, delim)
            <==> !CutsEscape(s, a, b, delim)
  {
    if CutsEscape(s, a, b, delim) {
      EscapeIsLost(s, a, b, delim);
    } else {
      ScanInTwoParts(s, a, b, delim);
    }
  }

  /** Rows already completed ride along untouched. */
  lemma {:induction false} ScanKeepsRows(done: Grid, s: Scan, text: string, delim: char)
    ensures ScanFrom(s.(rows := done + s.rows), text, delim)
            == ScanFrom(s, text, delim).(rows := done + ScanFrom(s, text, delim).rows)
    decreases |text|
  {
    if text != "" {
      var (s', n) := Advance(s, text, delim);
      assert done + (s.rows + [s.row + [s.field]]) == (done + s.rows) + [s.row + [s.field]];
      assert Advance(s.(rows := done + s.rows), text, delim) == (s'.(rows := done + s'.rows), n);
      ScanKeepsRows(done, s', text[n..], delim);
    }
  }

  lemma ParseIsCompositional(a: string, b: string, delim: char)
    requires delim != '\n'
    requires !ScanFrom(START, a, delim).inQuotes
    ensures Parse(a + "\n" + b, delim) == Parse(a, delim) + Parse(b, delim)
  {
    var s := ScanFrom(START, a, delim);
    assert a + "\n" + b == a + ("\n" + b);
    ScanInTwoParts(START, a, "\n" + b, delim);
    ScanBreakThen(s, b, delim);
    FinishInTwoParts(s, ScanFrom(START, b, delim));
  }

  lemma ScanBreakThen(s: Scan, b: string, delim: char)
    requires delim != '\n' && !s.inQuotes
    ensures var t := ScanFrom(START, b, delim);
            ScanFrom(s, "\n" + b, delim) == t.(rows := EndRow(s).rows + t.rows)
  {
    assert ("\n" + b)[1..] == b;
    var done := EndRow(s).rows;
    assert EndRow(s) == START.(rows := done + START.rows);
    ScanKeepsRows(done, START, b, delim);
  }

  /** Whether the first part's last row counts is the same with a break after it: blank rows go anyway. */
  lemma FinishInTwoParts(s: Scan, t: Scan)
    ensures DropBlank(Finish(t.(rows := EndRow(s).rows + t.rows))) == DropBlank(Finish(s)) + DropBlank(Finish(t))
  {
    var done := EndRow(s).rows;
    assert Finish(t.(rows := done + t.rows)) == done + Finish(t);
    DropBlankConcat(done, Finish(t));
    BreakFinishes(s);
  }

  lemma BreakFinishes(s: Scan)
    ensures DropBlank(EndRow(s).rows) == DropBlank(Finish(s))
  {
    if s.field == "" && s.row == [] {
      assert s.row + [s.field] == [""];
      DropBlankConcat(s.rows, [[""]]);
      assert DropBlank([[""]]) == [];
    }
  }

  /** A part composes with every other part exactly when it ends outside quotes. */
  lemma ParseComposesIff(a: string, delim: char)
    requires delim != '\n'
    ensures (forall b :: Parse(a + "\n" + b, delim) == Parse(a, delim) + Parse(b, delim))
            <==> !ScanFrom(START, a, delim).inQuotes
  {
    if ScanFrom(START, a, delim).inQuotes {
      OpenPartDoesNot(a, delim);
    } else {
      forall b
        ensures Parse(a + "\n" + b, delim) == Parse(a, delim) + Parse(b, delim)
      {
        ParseIsCompositional(a, b, delim);
      }
    }
  }

  lemma OpenPartDoesNot(a: string, delim: char)
    requires ScanFrom(START, a, delim).inQuotes
    ensures Parse(a + "\n" + "", delim) != Parse(a, delim) + Parse("", delim)
  {
    var s := ScanFrom(START, a, delim);
    var t := s.(field := s.field + "\n");
    assert a + "\n" + "" == a + "\n";
    ScanInTwoParts(START, a, "\n", delim);
    assert "\n"[1..] == "";
    assert ScanFrom(START, a + "\n", delim) == t;
    DropBlankConcat(s.rows, [s.row + [t.field]]);
    DropBlankConcat(s.rows, [s.row + [s.field]]);
    LastOfSame(s.row, t.field, [], "");
    LastOfSame(s.row, s.field, [], "");
    OneRow(s.row + [t.field]);
    OneRow(s.row + [s.field]);
    assert Parse("", delim) == [];
    if s.field != "" || s.row != [] {
      assert |t.field| != |s.field|;
      LastOfSame(s.row, t.field, s.row, s.field);
      LastOfSame(DropBlank(s.rows), s.row + [t.field], DropBlank(s.rows), s.row + [s.field]);
    }
  }

  lemma OneRow(row: seq<string>)
    ensures DropBlank([row]) == if BlankRow(row) then [] else [row]
  {
  }

  predicate Ordinary(text: string, delim: char) {
    delim !in text && '"' !in text && '\n' !in text && '\r' !in text
  }

  /** Outside quotes is needed: a line break inside them is content, and the two parts are one field. */
  lemma QuotedBreakIsContent(a: string, b: string, delim: char)
    requires delim !in {'"', '\n', '\r'} && a != "" && b != ""
    requires Ordinary(a, delim) && Ordinary(b, delim)
    ensures Parse("\"" + a + "\n" + b, delim) == [[a + "\n" + b]]
    ensures Parse("\"" + a, delim) + Parse(b, delim) == [[a], [b]]
  {
    var whole := a + "\n" + b;
    assert "\"" + a + "\n" + b == "\"" + whole;
    OpenQuote(whole, delim);
    OpenQuote(a, delim);
    ScanWords(START, b, delim);
    assert "" + b == b;
    OneField("\"" + whole, whole, delim);
    OneField("\"" + a, a, delim);
    OneField(b, b, delim);
  }

  /** Quotes need not stand around a cell: wherever they are they only switch, and are no content. */
  lemma QuotesOnlySwitch(a: string, b: string, c: string, delim: char)
    requires delim !in {'"', '\n', '\r'} && Ordinary(a, delim) && '"' !in b && Ordinary(c, delim)
    requires a + b + c != ""
    ensures Parse(a + ("\"" + (b + ("\"" + c))), delim) == [[a + b + c]]
  {
    var inside, tail := b + ("\"" + c), "\"" + (b + ("\"" + c));
    var quoted := START.(field := a, inQuotes := true);
    ScanWords(START, a, delim);
    assert "" + a == a;
    ScanInTwoParts(START, a, tail, delim);
    assert tail[1..] == inside;
    ScanWords(quoted, b, delim);
    ScanInTwoParts(quoted, b, "\"" + c, delim);
    assert ("\"" + c)[1..] == c;
    ScanWords(START.(field := a + b), c, delim);
    OneField(a + tail, a + b + c, delim);
  }

  lemma OpenQuote(text: string, delim: char)
    requires '"' !in text
    ensures ScanFrom(START, "\"" + text, delim) == START.(field := text, inQuotes := true)
  {
    assert ("\"" + text)[1..] == text;
    ScanWords(START.(inQuotes := true), text, delim);
    assert "" + text == text;
  }

  lemma {:induction false} ScanWords(s: Scan, text: string, delim: char)
    requires '"' !in text
    requires s.inQuotes || Ordinary(text, delim)
    ensures ScanFrom(s, text, delim) == s.(field := s.field + text)
    decreases |text|
  {
    if text == "" {
      assert s.field + text == s.field;
    } else {
      ScanWords(s.(field := s.field + [text[0]]), text[1..], delim);
      assert s.field + [text[0]] + text[1..] == s.field + text;
    }
  }

  lemma OneField(text: string, field: string, delim: char)
    requires field != ""
    requires ScanFrom(START, text, delim).(inQuotes := false) == START.(field := field)
    ensures Parse(text, delim) == [[field]]
  {
    assert [field][0] != [""][0];
    var s := ScanFrom(START, text, delim);
    assert s.row + [s.field] == [field] && s.rows + [[field]] == [[field]];
    assert DropBlank([[field]]) == [[field]];
  }

  // ---- Text without quotes ----

  function SplitRows(lines: seq<string>, delim: char): Grid {
    seq(|lines|, i requires 0 <= i < |lines| => Split(lines[i], delim))
  }

  /** What the naive reader gives: break lines, break cells, ignore every CR. */
  function NaiveRows(text: string, delim: char): Grid {
    SplitRows(Split(Without(text, '\r'), '\n'), delim)
  }

  /** A row and field under construction, continued by the cells of the rest of its line. */
  function Continue(row: seq<string>, field: string, cells: seq<string>): seq<string>
    requires cells != []
  {
    row + [field + cells[0]] + cells[1..]
  }

  lemma ContinueFromNothing(cells: seq<string>)
    requires cells != []
    ensures Continue([], "", cells) == cells
  {
    assert "" + cells[0] == cells[0];
  }

  lemma {:induction false} QuoteFreeScan(s: Scan, text: string, delim: char)
    requires delim !in {'"', '\n', '\r'} && !s.inQuotes && '"' !in text
    ensures var naive := NaiveRows(text, delim);
            DropBlank(Finish(ScanFrom(s, text, delim)))
            == DropBlank(s.rows + [Continue(s.row, s.field, naive[0])] + naive[1..])
    decreases |text|
  {
    if text == "" {
      assert NaiveRows(text, delim) == [[""]];
      NothingMore(s);
    } else {
      var ch, rest := text[0], text[1..];
      var s' := Advance(s, text, delim).0;
      QuoteFreeScan(s', rest, delim);
      assert text == [ch] + rest;
      if ch == '\n' {
        NaiveBreak(rest, delim);
        BrokenOff(s, NaiveRows(rest, delim));
      } else {
        NaiveStep(ch, rest, delim);
        ContinueStep(s.row, s.field, ch, NaiveRows(rest, delim)[0], delim);
      }
    }
  }

  lemma NothingMore(s: Scan)
    ensures DropBlank(Finish(s)) == DropBlank(s.rows + [Continue(s.row, s.field, [""])] + [])
  {
    assert s.field + "" == s.field;
    assert Continue(s.row, s.field, [""]) == s.row + [s.field];
    assert s.rows + [s.row + [s.field]] + [] == s.rows + [s.row + [s.field]];
    DropBlankConcat(s.rows, [s.row + [s.field]]);
  }

  lemma NaiveBreak(rest: string, delim: char)
    ensures NaiveRows("\n" + rest, delim) == [[""]] + NaiveRows(rest, delim)
  {
    assert ("\n" + rest)[1..] == rest;
    var clean := Without(rest, '\r');
    assert Without("\n" + rest, '\r') == ['\n'] + clean;
    assert (['\n'] + clean)[1..] == clean;
  }

  lemma BrokenOff(s: Scan, later: Grid)
    requires later != [] && later[0] != []
    ensures var s' := EndRow(s);
            s'.rows + [Continue(s'.row, s'.field, later[0])] + later[1..]
            == s.rows + [Continue(s.row, s.field, [""])] + later
  {
    ContinueFromNothing(later[0]);
    assert s.field + "" == s.field;
    assert Continue(s.row, s.field, [""]) == s.row + [s.field];
  }

  /** A line's cells with one more character in front. */
  function CellsWith(ch: char, cells: seq<string>, delim: char): seq<string>
    requires cells != []
  {
    if ch == '\r' then cells
    else if ch == delim then [""] + cells
    else [[ch] + cells[0]] + cells[1..]
  }

  lemma ContinueStep(row: seq<string>, field: string, ch: char, cells: seq<string>, delim: char)
    requires cells != []
    ensures Continue(row, field, CellsWith(ch, cells, delim))
            == if ch == '\r' then Continue(row, field, cells)
               else if ch == delim then Continue(row + [field], "", cells)
               else Continue(row, field + [ch], cells)
  {
    assert field + "" == field && "" + cells[0] == cells[0];
    assert (field + [ch]) + cells[0] == field + ([ch] + cells[0]);
    assert row + [field] + [cells[0]] + cells[1..] == row + [field] + cells;
  }

  /** How one more character in front changes the naive rows. */
  lemma NaiveStep(ch: char, rest: string, delim: char)
    requires ch != '\n'
    ensures var naive, later := NaiveRows([ch] + rest, delim), NaiveRows(rest, delim);
            naive[1..] == later[1..] && naive[0] == CellsWith(ch, later[0], delim)
  {
    assert ([ch] + rest)[1..] == rest;
    var lines := Split(Without(rest, '\r'), '\n');
    if ch != '\r' {
      assert Without([ch] + rest, '\r') == [ch] + Without(rest, '\r');
      assert ([ch] + Without(rest, '\r'))[1..] == Without(rest, '\r');
      assert Split([ch] + Without(rest, '\r'), '\n') == [[ch] + lines[0]] + lines[1..];
      assert ([ch] + lines[0])[1..] == lines[0];
    }
  }

  lemma QuoteFreeTextIsSplitNaively(text: string, delim: char)
    requires delim !in {'"', '\n', '\r'} && '"' !in text
    ensures Parse(text, delim) == DropBlank(NaiveRows(text, delim))
  {
    QuoteFreeScan(START, text, delim);
    var naive := NaiveRows(text, delim);
    ContinueFromNothing(naive[0]);
    assert [] + [naive[0]] + naive[1..] == naive;
  }
}
