/**
 Generated histories of a wanted size: a seeded 32-bit generator, a block of table rows grown until it
 is long enough, and two corrections of the block size from the measured total.
 */
module HistoryGenerator {
  import opened Text

  const WORD := 0x1_0000_0000
  const INCREMENT := 0x6d2b79f5

  type Word = u: nat | u < WORD

  // ---- The generator ----

  function Stirred(h: bv32, unit: bv16): bv32 {
    (h ^ (unit as bv32)) * 16_777_619
  }

  /** The hash of the seed's UTF-16 units the state starts from. */
  function Hash(seed: seq<bv16>): bv32 {
    if seed == [] then 2_166_136_261
    else Stirred(Hash(seed[..|seed| - 1]), seed[|seed| - 1])
  }

  function FirstState(seed: seq<bv16>): Word {
    Hash(seed) as nat
  }

  function Mixed(s: bv32): bv32 {
    var t := (s ^ (s >> 15)) * (s | 1);
    var t := t ^ (t + (t ^ (t >> 7)) * (t | 61));
    t ^ (t >> 14)
  }

  /** The output scrambled from a state: the numerator of a fraction of 2^32. */
  function Mix(state: Word): Word {
    WordOf(Mixed(BitsOf(state)))
  }

  function BitsOf(u: Word): bv32 {
    u as bv32
  }

  function WordOf(bits: bv32): Word {
    bits as nat
  }

  /** The generator is mulberry32, seeded by 32-bit FNV-1a: values both are known to have. */
  lemma KnownValues()
    ensures Mixed(0x6d2b79f5) == 1_144_304_738 && Mixed(0xda56f3ea) == 1_416_247
    ensures Mixed(1) == 63 && Mixed(0xffff_ffff) == 142_530_043
    ensures Hash([]) == 0x811c_9dc5 && Hash([97]) == 0xe40c_292c
  {
    assert [97 as bv16][..0] == [];
    assert Hash([97]) == Stirred(Hash([]), 97);
  }

  /** How a state becomes an output; the generator uses Mix. */
  type Scramble = Word -> Word

  function Advanced(state: Word): Word {
    (state + INCREMENT) % WORD
  }

  /** The state k draws after `start`. */
  function StateAfter(start: nat, k: nat): Word {
    (start + k * INCREMENT) % WORD
  }

  /** The k-th draw after `start`, counting from one. */
  function Draw(scramble: Scramble, start: nat, k: nat): Word {
    scramble(StateAfter(start, k))
  }

  class Rng {
    var state: Word
    const scramble: Scramble

    constructor (seed: seq<bv16>)
      ensures state == FirstState(seed) && scramble == Mix
    {
      var h: bv32 := 2_166_136_261;
      for i := 0 to |seed|
        invariant h == Hash(seed[..i])
      {
        assert seed[..i + 1][..i] == seed[..i];
        h := Stirred(h, seed[i]);
      }
      assert seed[..|seed|] == seed;
      state := h as nat;
      scramble := Mix;
    }

    method Next(ghost start: nat, ghost k: nat) returns (u: Word)
      requires state == StateAfter(start, k)
      modifies this
      ensures state == StateAfter(start, k + 1) && u == Draw(scramble, start, k + 1)
    {
      NextState(start, k);
      state := Advanced(state);
      u := scramble(state);
    }
  }

  lemma NextState(start: nat, k: nat)
    ensures Advanced(StateAfter(start, k)) == StateAfter(start, k + 1)
  {
    var x := start + k * INCREMENT;
    assert start + (k + 1) * INCREMENT == x + INCREMENT;
    ModAbsorbs(x, INCREMENT);
  }

  lemma ModAbsorbs(x: nat, y: nat)
    ensures (x % WORD + y) % WORD == (x + y) % WORD
  {
    assert x == WORD * (x / WORD) + x % WORD;
  }

  // ---- Its period ----

  /** The inverse of the increment modulo 2^32, and the multiple of 2^32 that is left over. */
  const INVERSE := 0xdc58aa5d
  const QUOTIENT := 1_576_479_847

  lemma MultipleOfWord(m: int)
    ensures (WORD * m) % WORD == 0
  {
  }

  lemma IncrementIsInvertible(d: int)
    requires (d * INCREMENT) % WORD == 0
    ensures d % WORD == 0
  {
    var q := d * INCREMENT / WORD;
    assert d * INCREMENT == WORD * q;
    assert INCREMENT * INVERSE == 1 + WORD * QUOTIENT;
    assert d * (INCREMENT * INVERSE) == d * INCREMENT * INVERSE;
    assert d * (1 + WORD * QUOTIENT) == d + WORD * (d * QUOTIENT);
    assert WORD * q * INVERSE == WORD * (q * INVERSE);
    assert d == WORD * (q * INVERSE - d * QUOTIENT);
    MultipleOfWord(q * INVERSE - d * QUOTIENT);
  }

  lemma SameRemainder(x: int, y: int)
    ensures x % WORD == y % WORD <==> (x - y) % WORD == 0
  {
    assert x == WORD * (x / WORD) + x % WORD && y == WORD * (y / WORD) + y % WORD;
  }

  /** The states after j and after k draws agree exactly when j and k differ by a multiple of 2^32. */
  lemma StatesRepeatIff(start: nat, j: nat, k: nat)
    ensures StateAfter(start, j) == StateAfter(start, k) <==> (j - k) % WORD == 0
  {
    var d := j - k;
    SameRemainder(start + j * INCREMENT, start + k * INCREMENT);
    assert (start + j * INCREMENT) - (start + k * INCREMENT) == d * INCREMENT;
    if (d * INCREMENT) % WORD == 0 {
      IncrementIsInvertible(d);
    }
    if d % WORD == 0 {
      var m := d / WORD;
      assert d == WORD * m;
      assert d * INCREMENT == WORD * (m * INCREMENT);
      MultipleOfWord(m * INCREMENT);
    }
  }

  // ---- Table rows ----

  /** A draw scaled to [0, n): the floor of the fraction times n. */
  function Pick(u: Word, n: nat): (i: nat)
    requires n > 0
    ensures i < n
  {
    PickInRange(u, n);
    u * n / WORD
  }

  lemma PickInRange(u: Word, n: nat)
    requires n > 0
    ensures u * n / WORD < n
  {
    TimesAtLeast(WORD - u, n);
    Shared(WORD, u, n);
    Below(u * n, n);
  }

  lemma {:induction false} TimesAtLeast(x: nat, n: nat)
    requires x > 0
    ensures x * n >= n
  {
    if x > 1 {
      TimesAtLeast(x - 1, n);
      assert x * n == (x - 1) * n + n;
    }
  }

  lemma Shared(whole: nat, part: nat, n: nat)
    requires part <= whole
    ensures part * n + (whole - part) * n == whole * n
  {
  }

  lemma Below(x: nat, n: nat)
    requires x + n <= WORD * n && n > 0
    ensures x / WORD < n
  {
  }

  function CostCentre(i: nat): (name: string)
    requires i < 8
    ensures 7 <= |name| <= 11
  {
    match i
    case 0 => "operations"
    case 1 => "logistics"
    case 2 => "procurement"
    case 3 => "facilities"
    case 4 => "support"
    case 5 => "marketing"
    case 6 => "engineering"
    case _ => "finance"
  }

  function StatusName(i: nat): (name: string)
    requires i < 4
    ensures 7 <= |name| <= 10
  {
    match i
    case 0 => "settled"
    case 1 => "pending"
    case 2 => "disputed"
    case _ => "reconciled"
  }

  const HEADER := "batch_id,cost_centre,posted_on,amount_eur,status,counterparty_ref"

  function DigitChar(d: nat): char
    requires d < 36
  {
    if d < 10 then '0' + d as char else 'A' + (d - 10) as char
  }

  /** A number written in a base, without leading zeros. */
  function Digits(n: nat, base: nat): (s: string)
    requires 2 <= base <= 36
    ensures |s| >= 1
  {
    if n < base then [DigitChar(n)]
    else
      QuotientIsLess(n, base);
      Digits(n / base, base) + [DigitChar(n % base)]
  }

  lemma QuotientIsLess(n: nat, base: nat)
    requires 2 <= base <= n
    ensures n / base < n
  {
    assert n == base * (n / base) + n % base;
  }

  function PadStart(s: string, width: nat): (r: string)
    ensures |r| == if |s| < width then width else |s|
    decreases width - |s|
  {
    if |s| >= width then s else PadStart("0" + s, width)
  }

  /** The amount in cents, a half rounded up: the fraction times 90 000, plus 120. */
  function Cents(u: Word): (cents: nat)
    ensures 12_000 <= cents <= 9_012_000
  {
    (2 * (u * 9_000_000 + 12_000 * WORD) + WORD) / (2 * WORD)
  }

  function Amount(cents: nat): string {
    Digits(cents / 100, 10) + "." + PadStart(Digits(cents % 100, 10), 2)
  }

  function Ref(u: Word): string {
    PadStart(Digits(Pick(u, 1_000_000), 36), 5)
  }

  function Line(
    r: nat, centre: string, month: string, day: string, amount: string, status: string, ref: string): string
  {
    "B-" + PadStart(Digits(r, 10), 6) + "," + centre + ",2025-" + month + "-" + day + "," + amount + "," + status
    + ",CP-" + ref
  }

  /** The row numbered r + 1, written from its six draws. */
  function RowOf(r: nat, u1: Word, u2: Word, u3: Word, u4: Word, u5: Word, u6: Word): string {
    var centre := CostCentre(Pick(u1, 8));
    var status := StatusName(Pick(u2, 4));
    var amount := Amount(Cents(u3));
    var day := PadStart(Digits(Pick(u4, 28) + 1, 10), 2);
    var month := PadStart(Digits(Pick(u5, 12) + 1, 10), 2);
    Line(r + 1, centre, month, day, amount, status, Ref(u6))
  }

  /** The rows of a block whose first draw is number `from` + 1 after `start`: six draws each, in order. */
  function TableRow(scramble: Scramble, start: nat, from: nat, r: nat): string {
    var k := from + 6 * r;
    RowOf(r, Draw(scramble, start, k + 1), Draw(scramble, start, k + 2), Draw(scramble, start, k + 3),
          Draw(scramble, start, k + 4), Draw(scramble, start, k + 5), Draw(scramble, start, k + 6))
  }

  function TableRows(scramble: Scramble, start: nat, from: nat): nat -> string {
    (r: nat) => TableRow(scramble, start, from, r)
  }

  ghost predicate AreTableRows(row: nat -> string, scramble: Scramble, start: nat, from: nat) {
    forall r: nat {:trigger TableRow(scramble, start, from, r)} :: row(r) == TableRow(scramble, start, from, r)
  }

  /** A header and rows under it. */
  datatype Sheet = Sheet(header: string, row: nat -> string) {

    function Lines(n: nat): (lines: seq<string>)
      ensures |lines| == n + 1
    {
      if n == 0 then [header] else Lines(n - 1) + [row(n - 1)]
    }

    /** The header and the first n rows, one to a line. */
    function Text(n: nat): string {
      if n == 0 then header else Text(n - 1) + "\n" + row(n - 1)
    }

    /** The fewest rows that reach the size asked for. */
    predicate Fewest(n: nat, chars: int) {
      chars <= |Text(n)| && (n > 0 ==> |Text(n - 1)| < chars)
    }

    lemma {:induction false} TextIsLinesJoined(n: nat)
      ensures Join(Lines(n), "\n") == Text(n)
    {
      if n > 0 {
        TextIsLinesJoined(n - 1);
        assert Lines(n)[..n] == Lines(n - 1);
      }
    }
  }

  function RowsFor(sheet: Sheet, chars: int, n: nat): (rows: nat)
    requires n > 0 ==> |sheet.Text(n - 1)| < chars
    ensures sheet.Fewest(rows, chars)
    decreases chars - |sheet.Text(n)|
  {
    if chars <= |sheet.Text(n)| then n else RowsFor(sheet, chars, n + 1)
  }

  /** Text, and the number of draws taken by its end. */
  datatype Drawn = Drawn(text: string, next: nat)

  function Block(header: string, scramble: Scramble, start: nat, from: nat, chars: int): Drawn {
    var sheet := Sheet(header, TableRows(scramble, start, from));
    var rows := RowsFor(sheet, chars, 0);
    Drawn(sheet.Text(rows), from + 6 * rows)
  }

  method NextRow(rng: Rng, ghost row: nat -> string, ghost start: nat, ghost from: nat, r: nat) returns (line: string)
    requires AreTableRows(row, rng.scramble, start, from)
    requires rng.state == StateAfter(start, from + 6 * r)
    modifies rng
    ensures rng.state == StateAfter(start, from + 6 * (r + 1))
    ensures line == row(r)
  {
    ghost var k := from + 6 * r;
    var u1 := rng.Next(start, k);
    var u2 := rng.Next(start, k + 1);
    var u3 := rng.Next(start, k + 2);
    var u4 := rng.Next(start, k + 3);
    var u5 := rng.Next(start, k + 4);
    var u6 := rng.Next(start, k + 5);
    line := RowOf(r, u1, u2, u3, u4, u5, u6);
    assert line == TableRow(rng.scramble, start, from, r);
  }

  /** Rows are added under the header until the text is long enough, and not one more. */
  method TabularBlock(rng: Rng, header: string, ghost row: nat -> string, ghost start: nat, ghost from: nat, chars: int)
    returns (block: string, ghost rows: nat)
    requires AreTableRows(row, rng.scramble, start, from)
    requires rng.state == StateAfter(start, from)
    modifies rng
    ensures rng.state == StateAfter(start, from + 6 * rows)
    ensures block == Sheet(header, row).Text(rows) && Sheet(header, row).Fewest(rows, chars)
  {
    ghost var sheet := Sheet(header, row);
    var lines := [header];
    var spent := |lines[0]|;
    var r := 0;
    while spent < chars
      invariant r >= 0 && rng.state == StateAfter(start, from + 6 * r)
      invariant lines == sheet.Lines(r)
      invariant spent == |sheet.Text(r)|
      invariant r > 0 ==> |sheet.Text(r - 1)| < chars
      decreases chars - spent
    {
      var line := NextRow(rng, row, start, from, r);
      r := r + 1;
      lines := lines + [line];
      spent := spent + |line| + 1;
    }
    sheet.TextIsLinesJoined(r);
    block := Join(lines, "\n");
    rows := r;
  }

  /** Only one block has the fewest of these rows, and it is the one drawn. */
  ghost predicate AreRowsOf(draw: Source, header: string, row: nat -> string, from: nat, chars: nat) {
    forall rows: nat :: Sheet(header, row).Fewest(rows, chars) ==>
      Drawn(Sheet(header, row).Text(rows), from + 6 * rows) == draw(from, chars)
  }

  lemma RowsOf(draw: Source, header: string, scramble: Scramble, start: nat, from: nat, chars: nat)
    returns (row: nat -> string)
    requires DrawsFrom(draw, header, scramble, start)
    ensures AreTableRows(row, scramble, start, from) && AreRowsOf(draw, header, row, from, chars)
  {
    row := TableRows(scramble, start, from);
    var sheet := Sheet(header, row);
    assert Block(header, scramble, start, from, chars) == draw(from, chars);
    forall rows: nat | sheet.Fewest(rows, chars)
      ensures Drawn(sheet.Text(rows), from + 6 * rows) == draw(from, chars)
    {
      RowsAreDetermined(sheet, rows, RowsFor(sheet, chars, 0), chars);
    }
  }

  // ---- How long a row is ----

  lemma OneMoreDigit(n: nat, base: nat)
    requires 2 <= base <= 36
    ensures |Digits(n, base)| == if n < base then 1 else |Digits(n / base, base)| + 1
  {
  }

  lemma AmountLength(cents: nat)
    requires 12_000 <= cents <= 9_012_000
    ensures 6 <= |Amount(cents)| <= 8
  {
    var n := cents / 100;
    assert 120 <= n <= 90_120;
    OneMoreDigit(n, 10);
    OneMoreDigit(n / 10, 10);
    OneMoreDigit(n / 10 / 10, 10);
    OneMoreDigit(n / 10 / 10 / 10, 10);
    OneMoreDigit(n / 10 / 10 / 10 / 10, 10);
    OneMoreDigit(cents % 100, 10);
    OneMoreDigit(cents % 100 / 10, 10);
  }

  /** The reference is always five characters: four base-36 digits hold every value below a million. */
  lemma RefLength(u: Word)
    ensures |Ref(u)| == 5
  {
    var n := Pick(u, 1_000_000);
    OneMoreDigit(n, 36);
    OneMoreDigit(n / 36, 36);
    OneMoreDigit(n / 36 / 36, 36);
    OneMoreDigit(n / 36 / 36 / 36, 36);
  }

  lemma TwoDigits(n: nat)
    requires n < 100
    ensures |PadStart(Digits(n, 10), 2)| == 2
  {
    OneMoreDigit(n, 10);
    OneMoreDigit(n / 10, 10);
  }

  /** How many characters the number of row r takes. */
  function NumberWidth(r: nat): nat {
    |PadStart(Digits(r + 1, 10), 6)|
  }

  lemma DigitsWithin(n: nat, width: nat, limit: nat)
    requires width >= 1 && n < limit && limit == Power10(width)
    ensures |Digits(n, 10)| <= width
    decreases width
  {
    OneMoreDigit(n, 10);
    if n >= 10 {
      DigitsWithin(n / 10, width - 1, Power10(width - 1));
    }
  }

  function Power10(k: nat): nat {
    if k == 0 then 1 else 10 * Power10(k - 1)
  }

  lemma NumberWidths(r: nat)
    ensures NumberWidth(r) >= 6
    ensures r + 1 < 1_000_000 ==> NumberWidth(r) == 6
    ensures r + 1 < 100_000_000 ==> NumberWidth(r) <= 8
  {
    assert Power10(3) == 1_000 && Power10(6) == 1_000 * Power10(3);
    assert Power10(8) == 100 * Power10(6);
    if r + 1 < 1_000_000 {
      DigitsWithin(r + 1, 6, Power10(6));
    } else if r + 1 < 100_000_000 {
      DigitsWithin(r + 1, 8, Power10(8));
    }
  }

  lemma LineLength(r: nat, centre: string, month: string, day: string, amount: string, status: string, ref: string)
    ensures |Line(r, centre, month, day, amount, status, ref)|
            == 16 + |PadStart(Digits(r, 10), 6)| + |centre| + |month| + |day| + |amount| + |status| + |ref|
  {
  }

  /** A row is its number and 45 to 54 characters more. */
  lemma RowLength(r: nat, u1: Word, u2: Word, u3: Word, u4: Word, u5: Word, u6: Word)
    ensures 45 + NumberWidth(r) <= |RowOf(r, u1, u2, u3, u4, u5, u6)| <= 54 + NumberWidth(r)
  {
    var day, month := Pick(u4, 28) + 1, Pick(u5, 12) + 1;
    AmountLength(Cents(u3));
    TwoDigits(day);
    TwoDigits(month);
    RefLength(u6);
    LineLength(r + 1, CostCentre(Pick(u1, 8)), PadStart(Digits(month, 10), 2), PadStart(Digits(day, 10), 2),
               Amount(Cents(u3)), StatusName(Pick(u2, 4)), Ref(u6));
  }

  lemma TableRowLength(scramble: Scramble, start: nat, from: nat, r: nat)
    ensures 45 + NumberWidth(r) <= |TableRow(scramble, start, from, r)| <= 54 + NumberWidth(r)
  {
    var k := from + 6 * r;
    RowLength(r, Draw(scramble, start, k + 1), Draw(scramble, start, k + 2), Draw(scramble, start, k + 3),
              Draw(scramble, start, k + 4), Draw(scramble, start, k + 5), Draw(scramble, start, k + 6));
  }

  /** A block overshoots what was asked by at most its last row, unless the header alone already does. */
  lemma OvershootAtMostOneRow(sheet: Sheet, scramble: Scramble, start: nat, from: nat, rows: nat, chars: int)
    requires AreTableRows(sheet.row, scramble, start, from)
    requires 0 < rows && sheet.Fewest(rows, chars)
    ensures chars <= |sheet.Text(rows)| <= chars + |sheet.row(rows - 1)|
    ensures rows < 1_000_000 ==> |sheet.Text(rows)| <= chars + 60
    ensures rows < 100_000_000 ==> |sheet.Text(rows)| <= chars + 62
  {
    TableRowLength(scramble, start, from, rows - 1);
    NumberWidths(rows - 1);
  }

  lemma {:induction false} TextGrowsWithRows(sheet: Sheet, m: nat, n: nat)
    requires m <= n
    ensures |sheet.Text(m)| <= |sheet.Text(n)|
  {
    if m < n {
      TextGrowsWithRows(sheet, m, n - 1);
    }
  }

  lemma FewestIsLeast(sheet: Sheet, m: nat, n: nat, chars: int)
    requires chars <= |sheet.Text(m)| && (n > 0 ==> |sheet.Text(n - 1)| < chars)
    ensures n <= m
  {
    if m < n {
      TextGrowsWithRows(sheet, m, n - 1);
    }
  }

  /** The number of rows, and so the whole block, is determined by the request alone. */
  lemma RowsAreDetermined(sheet: Sheet, m: nat, n: nat, chars: int)
    requires sheet.Fewest(m, chars) && sheet.Fewest(n, chars)
    ensures m == n
  {
    FewestIsLeast(sheet, m, n, chars);
    FewestIsLeast(sheet, n, m, chars);
  }

  // ---- A row read back ----

  function DigitValue(c: char): nat {
    if '0' <= c <= '9' then c as int - '0' as int else if 'A' <= c <= 'Z' then c as int - 'A' as int + 10 else 0
  }

  function ValueIn(s: string, base: nat): nat {
    if s == "" then 0 else Shifted(base, ValueIn(s[..|s| - 1], base), DigitValue(s[|s| - 1]))
  }

  function Shifted(base: nat, v: nat, digit: nat): nat {
    base * v + digit
  }

  predicate NoComma(s: string) {
    ',' !in s
  }

  lemma DigitReadsBack(d: nat)
    requires d < 36
    ensures DigitValue(DigitChar(d)) == d && DigitChar(d) != ',' && DigitChar(d) != '.'
  {
  }

  lemma DivMod(n: nat, base: nat)
    requires base > 0
    ensures n == Shifted(base, n / base, n % base)
  {
  }

  lemma {:induction false} DigitsReadBack(n: nat, base: nat)
    requires 2 <= base <= 36
    ensures ValueIn(Digits(n, base), base) == n
  {
    if n < base {
      DigitReadsBack(n);
      OneDigitMore("", DigitChar(n), base);
      assert "" + [DigitChar(n)] == [DigitChar(n)];
    } else {
      QuotientIsLess(n, base);
      DigitsReadBack(n / base, base);
      DigitReadsBack(n % base);
      OneDigitMore(Digits(n / base, base), DigitChar(n % base), base);
      DivMod(n, base);
    }
  }

  lemma {:induction false} DigitsAreNoMarks(n: nat, base: nat)
    requires 2 <= base <= 36
    ensures ',' !in Digits(n, base) && '.' !in Digits(n, base)
  {
    if n < base {
      DigitReadsBack(n);
    } else {
      QuotientIsLess(n, base);
      DigitsAreNoMarks(n / base, base);
      DigitReadsBack(n % base);
    }
  }

  lemma OneDigitMore(front: string, c: char, base: nat)
    ensures ValueIn(front + [c], base) == Shifted(base, ValueIn(front, base), DigitValue(c))
  {
    assert (front + [c])[..|front|] == front;
  }

  lemma {:induction false} LeadingZero(s: string, base: nat)
    ensures ValueIn("0" + s, base) == ValueIn(s, base)
  {
    if s == "" {
      assert ("0" + s)[..0] == "";
    } else {
      var n := |s| - 1;
      LeadingZero(s[..n], base);
      assert ("0" + s)[..n + 1] == "0" + s[..n];
    }
  }

  lemma {:induction false} PaddedReadsBack(s: string, width: nat, base: nat)
    requires ',' !in s && '.' !in s
    ensures ValueIn(PadStart(s, width), base) == ValueIn(s, base)
    ensures ',' !in PadStart(s, width) && '.' !in PadStart(s, width)
    decreases width - |s|
  {
    if |s| < width {
      LeadingZero(s, base);
      PaddedReadsBack("0" + s, width, base);
    }
  }

  lemma {:induction false} FirstCell(cell: string, rest: string)
    requires ',' !in cell
    ensures Split(cell + ("," + rest), ',') == [cell] + Split(rest, ',')
  {
    var s := cell + ("," + rest);
    if cell == "" {
      assert s[1..] == rest;
    } else {
      assert s[1..] == cell[1..] + ("," + rest);
      FirstCell(cell[1..], rest);
      assert [cell[0]] + cell[1..] == cell;
    }
  }

  lemma {:induction false} LastCell(cell: string)
    requires ',' !in cell
    ensures Split(cell, ',') == [cell]
  {
    if cell != "" {
      LastCell(cell[1..]);
      assert [cell[0]] + cell[1..] == cell;
    }
  }

  lemma SixCells(a: string, b: string, c: string, d: string, e: string, f: string)
    requires NoComma(a) && NoComma(b) && NoComma(c) && NoComma(d) && NoComma(e) && NoComma(f)
    ensures Split(a + ("," + (b + ("," + (c + ("," + (d + ("," + (e + ("," + f))))))))), ',') == [a, b, c, d, e, f]
  {
    FirstCell(a, b + ("," + (c + ("," + (d + ("," + (e + ("," + f))))))));
    FirstCell(b, c + ("," + (d + ("," + (e + ("," + f))))));
    FirstCell(c, d + ("," + (e + ("," + f))));
    FirstCell(d, e + ("," + f));
    FirstCell(e, f);
    LastCell(f);
  }

  lemma LineIsSixCells(
    r: nat, centre: string, month: string, day: string, amount: string, status: string, ref: string)
    requires NoComma(centre) && NoComma(month) && NoComma(day) && NoComma(amount) && NoComma(status) && NoComma(ref)
    ensures Split(Line(r, centre, month, day, amount, status, ref), ',')
         == ["B-" + PadStart(Digits(r, 10), 6), centre, "2025-" + month + "-" + day, amount, status, "CP-" + ref]
  {
    DigitsAreNoMarks(r, 10);
    PaddedReadsBack(Digits(r, 10), 6, 10);
    var number, date := "B-" + PadStart(Digits(r, 10), 6), "2025-" + month + "-" + day;
    SixCells(number, centre, date, amount, status, "CP-" + ref);
    LineInCells(number, centre, date, month, day, amount, status, ref,
                Line(r, centre, month, day, amount, status, ref));
  }

  lemma LineInCells(
    number: string, centre: string, date: string, month: string, day: string, amount: string, status: string,
    ref: string, line: string)
    requires date == "2025-" + month + "-" + day
    requires line == number + "," + centre + ",2025-" + month + "-" + day + "," + amount + "," + status + ",CP-" + ref
    ensures line
         == number + ("," + (centre + ("," + (date + ("," + (amount + ("," + (status + ("," + ("CP-" + ref))))))))))
  {
    assert ",2025-" == "," + "2025-" && ",CP-" == "," + "CP-";
  }

  lemma AmountReadsBack(cents: nat)
    requires cents >= 100
    ensures var s := Amount(cents);
            && |s| >= 3 && s[|s| - 3] == '.' && ',' !in s
            && 100 * ValueIn(s[..|s| - 3], 10) + ValueIn(s[|s| - 2..], 10) == cents
  {
    DigitsReadBack(cents / 100, 10);
    DigitsReadBack(cents % 100, 10);
    DigitsAreNoMarks(cents / 100, 10);
    DigitsAreNoMarks(cents % 100, 10);
    PaddedReadsBack(Digits(cents % 100, 10), 2, 10);
    TwoDigits(cents % 100);
    var whole, rest := Digits(cents / 100, 10), PadStart(Digits(cents % 100, 10), 2);
    assert Amount(cents) == whole + "." + rest;
    assert Amount(cents)[..|whole|] == whole && Amount(cents)[|whole| + 1..] == rest;
  }

  const CENTRES := [
    "operations", "logistics", "procurement", "facilities", "support", "marketing", "engineering", "finance"]
  const STATUSES := ["settled", "pending", "disputed", "reconciled"]

  function NumberColumn(r: nat): string {
    PadStart(Digits(r + 1, 10), 6)
  }

  function DayColumn(u: Word): string {
    PadStart(Digits(Pick(u, 28) + 1, 10), 2)
  }

  function MonthColumn(u: Word): string {
    PadStart(Digits(Pick(u, 12) + 1, 10), 2)
  }

  /** A row is six cells; the first, second, third, fourth, fifth and sixth draw each make their own. */
  lemma RowInCells(r: nat, u1: Word, u2: Word, u3: Word, u4: Word, u5: Word, u6: Word)
    ensures Split(RowOf(r, u1, u2, u3, u4, u5, u6), ',')
         == ["B-" + NumberColumn(r), CENTRES[u1 * 8 / 0x1_0000_0000],
             "2025-" + MonthColumn(u5) + "-" + DayColumn(u4),
             Amount(Cents(u3)), STATUSES[u2 * 4 / 0x1_0000_0000], "CP-" + Ref(u6)]
  {
    var centre, status := CostCentre(Pick(u1, 8)), StatusName(Pick(u2, 4));
    PickInRange(u1, 8);
    PickInRange(u2, 4);
    DateColumnValues(u4, u5);
    AmountReadsBack(Cents(u3));
    RefColumnValue(u6);
    NamesListed(Pick(u1, 8), Pick(u2, 4));
    LineIsSixCells(r + 1, centre, MonthColumn(u5), DayColumn(u4), Amount(Cents(u3)), status, Ref(u6));
  }

  lemma NumberColumnValue(r: nat)
    ensures ValueIn(NumberColumn(r), 10) == r + 1 && |NumberColumn(r)| >= 6
  {
    DigitsReadBack(r + 1, 10);
    DigitsAreNoMarks(r + 1, 10);
    PaddedReadsBack(Digits(r + 1, 10), 6, 10);
  }

  lemma DateColumnValues(u4: Word, u5: Word)
    ensures ValueIn(DayColumn(u4), 10) == u4 * 28 / 0x1_0000_0000 + 1 && |DayColumn(u4)| == 2 && NoComma(DayColumn(u4))
    ensures ValueIn(MonthColumn(u5), 10) == u5 * 12 / 0x1_0000_0000 + 1
    ensures |MonthColumn(u5)| == 2 && NoComma(MonthColumn(u5))
  {
    TwoDigitsReadBack(Pick(u4, 28) + 1);
    TwoDigitsReadBack(Pick(u5, 12) + 1);
  }

  lemma RefColumnValue(u: Word)
    ensures ValueIn(Ref(u), 36) == u * 1_000_000 / 0x1_0000_0000 && |Ref(u)| == 5 && NoComma(Ref(u))
  {
    RefLength(u);
    DigitsReadBack(Pick(u, 1_000_000), 36);
    DigitsAreNoMarks(Pick(u, 1_000_000), 36);
    PaddedReadsBack(Digits(Pick(u, 1_000_000), 36), 5, 36);
  }

  lemma AmountColumnValue(u: Word)
    ensures var s := Amount(Cents(u));
            && |s| >= 3 && s[|s| - 3] == '.'
            && var cents := 100 * ValueIn(s[..|s| - 3], 10) + ValueIn(s[|s| - 2..], 10);
               -0x1_0000_0000 <= 2 * (u * 9_000_000 + 12_000 * 0x1_0000_0000 - cents * 0x1_0000_0000) < 0x1_0000_0000
  {
    AmountReadsBack(Cents(u));
    CentsNearest(u);
  }

  lemma TwoDigitsReadBack(n: nat)
    requires n < 100
    ensures var s := PadStart(Digits(n, 10), 2);
            |s| == 2 && ValueIn(s, 10) == n && ',' !in s
  {
    TwoDigits(n);
    DigitsReadBack(n, 10);
    DigitsAreNoMarks(n, 10);
    PaddedReadsBack(Digits(n, 10), 2, 10);
  }

  lemma CentsNearest(u: Word)
    ensures -0x1_0000_0000 <= 2 * (u * 9_000_000 + 12_000 * 0x1_0000_0000 - Cents(u) * 0x1_0000_0000) < 0x1_0000_0000
  {
    var n := 2 * (u * 9_000_000 + 12_000 * 0x1_0000_0000) + 0x1_0000_0000;
    assert Cents(u) == n / 0x2_0000_0000;
  }

  lemma NamesListed(i: nat, j: nat)
    requires i < 8 && j < 4
    ensures CostCentre(i) == CENTRES[i] && StatusName(j) == STATUSES[j]
    ensures NoComma(CostCentre(i)) && NoComma(StatusName(j))
  {
  }

  // ---- A history of blocks ----

  const READS_PER_TURN := 2

  /** The blocks of one exchange: the outputs of its reads, and the heavy one. */
  datatype Exchange = Exchange(outputs: seq<string>, heavy: string)

  datatype Batch = Batch(texts: seq<string>, next: nat)
  datatype Turns = Turns(exchanges: seq<Exchange>, next: nat)

  function ReadChars(h: nat): nat {
    if h * 18 / 100 < 500 then 500 else h * 18 / 100
  }

  /** What a block from a given draw on holds, and where its draws end. */
  type Source = (nat, nat) -> Drawn

  function BlocksOf(scramble: Scramble, start: nat): Source {
    (from: nat, chars: nat) => Block(HEADER, scramble, start, from, chars)
  }

  function ReadBlocks(draw: Source, from: nat, chars: nat, n: nat): (b: Batch)
    ensures |b.texts| == n
  {
    if n == 0 then Batch([], from)
    else
      var before := ReadBlocks(draw, from, chars, n - 1);
      var block := draw(before.next, chars);
      Batch(before.texts + [block.text], block.next)
  }

  function HeavyBlock(draw: Source, from: nat, h: nat): Drawn {
    draw(ReadBlocks(draw, from, ReadChars(h), READS_PER_TURN).next, h)
  }

  function ExchangeFrom(draw: Source, from: nat, h: nat): Exchange {
    Exchange(ReadBlocks(draw, from, ReadChars(h), READS_PER_TURN).texts, HeavyBlock(draw, from, h).text)
  }

  /** The first n exchanges, drawn one after the other from one stream. */
  function History(draw: Source, h: nat, n: nat): Turns {
    if n == 0 then Turns([], 0)
    else
      var before := History(draw, h, n - 1);
      Turns(before.exchanges + [ExchangeFrom(draw, before.next, h)], HeavyBlock(draw, before.next, h).next)
  }

  /** The tokens of both turns of exchange i, its templates included. */
  type Counter = (nat, Exchange) -> nat

  function Tokens(exchanges: seq<Exchange>, count: Counter): nat {
    if exchanges == [] then 0
    else
      var n := |exchanges| - 1;
      Tokens(exchanges[..n], count) + count(n, exchanges[n])
  }

  /** The token count of the history with heavy blocks of h characters. */
  function Measure(draw: Source, n: nat, count: Counter): nat -> nat {
    (h: nat) => Tokens(History(draw, h, n).exchanges, count)
  }

  ghost predicate DrawsFrom(draw: Source, header: string, scramble: Scramble, start: nat) {
    forall from: nat, chars: nat {:trigger Block(header, scramble, start, from, chars)} ::
      draw(from, chars) == Block(header, scramble, start, from, chars)
  }

  method NextBlock(rng: Rng, header: string, ghost draw: Source, ghost start: nat, ghost from: nat, chars: nat)
    returns (block: string, ghost next: nat)
    requires DrawsFrom(draw, header, rng.scramble, start) && rng.state == StateAfter(start, from)
    modifies rng
    ensures rng.state == StateAfter(start, next)
    ensures Drawn(block, next) == draw(from, chars)
  {
    ghost var row, rows;
    row := RowsOf(draw, header, rng.scramble, start, from, chars);
    block, rows := TabularBlock(rng, header, row, start, from, chars);
    next := from + 6 * rows;
  }

  method NextExchange(
    rng: Rng, header: string, ghost draw: Source, ghost start: nat, ghost from: nat, heavyChars: nat)
    returns (exchange: Exchange, ghost next: nat)
    requires DrawsFrom(draw, header, rng.scramble, start) && rng.state == StateAfter(start, from)
    modifies rng
    ensures rng.state == StateAfter(start, next)
    ensures exchange == ExchangeFrom(draw, from, heavyChars)
    ensures next == HeavyBlock(draw, from, heavyChars).next
  {
    var readChars := if heavyChars * 18 / 100 < 500 then 500 else heavyChars * 18 / 100;
    var outputs, block := [], "";
    next := from;
    for r := 0 to READS_PER_TURN
      invariant rng.state == StateAfter(start, next)
      invariant Batch(outputs, next) == ReadBlocks(draw, from, readChars, r)
    {
      block, next := NextBlock(rng, header, draw, start, next, readChars);
      outputs := outputs + [block];
    }
    block, next := NextBlock(rng, header, draw, start, next, heavyChars);
    exchange := Exchange(outputs, block);
  }

  method GenerateHistory(seed: seq<bv16>, exchanges: nat, heavyChars: nat, count: Counter)
    returns (turns: seq<Exchange>, estimatedTokens: nat)
    ensures var draw := BlocksOf(Mix, FirstState(seed));
            && turns == History(draw, heavyChars, exchanges).exchanges
            && estimatedTokens == Measure(draw, exchanges, count)(heavyChars)
  {
    var rng := new Rng(seed);
    ghost var draw := BlocksOf(Mix, FirstState(seed));
    BlocksAreDrawn(Mix, FirstState(seed));
    StartsAt(rng.state);
    turns := GenerateTurns(rng, HEADER, draw, rng.state, exchanges, heavyChars);
    estimatedTokens := CountTurns(turns, count);
    MeasureAt(draw, exchanges, count, heavyChars);
  }

  lemma BlocksAreDrawn(scramble: Scramble, start: nat)
    ensures DrawsFrom(BlocksOf(scramble, start), HEADER, scramble, start)
  {
  }

  lemma StartsAt(state: Word)
    ensures state == StateAfter(state, 0)
  {
  }

  lemma MeasureAt(draw: Source, n: nat, count: Counter, h: nat)
    ensures Measure(draw, n, count)(h) == Tokens(History(draw, h, n).exchanges, count)
  {
  }

  method GenerateTurns(
    rng: Rng, header: string, ghost draw: Source, ghost start: nat, exchanges: nat, heavyChars: nat)
    returns (turns: seq<Exchange>)
    requires DrawsFrom(draw, header, rng.scramble, start) && rng.state == StateAfter(start, 0)
    modifies rng
    ensures turns == History(draw, heavyChars, exchanges).exchanges
  {
    ghost var next := 0;
    turns := [];
    for i := 0 to exchanges
      invariant rng.state == StateAfter(start, next)
      invariant Turns(turns, next) == History(draw, heavyChars, i)
    {
      var exchange;
      exchange, next := NextExchange(rng, header, draw, start, next, heavyChars);
      turns := turns + [exchange];
    }
  }

  method CountTurns(turns: seq<Exchange>, count: Counter) returns (estimatedTokens: nat)
    ensures estimatedTokens == Tokens(turns, count)
  {
    estimatedTokens := 0;
    for i := 0 to |turns|
      invariant estimatedTokens == Tokens(turns[..i], count)
    {
      assert turns[..i + 1][..i] == turns[..i];
      estimatedTokens := estimatedTokens + count(i, turns[i]);
    }
    assert turns[..|turns|] == turns;
  }

  /** An exchange from draw `from` on: two reads of 0.18 of the size, 500 at least, and then the heavy block. */
  lemma BlocksInOrder(draw: Source, from: nat, h: nat)
    ensures var chars := if h * 18 / 100 < 500 then 500 else h * 18 / 100;
            var first := draw(from, chars);
            var second := draw(first.next, chars);
            var heavy := draw(second.next, h);
            && ExchangeFrom(draw, from, h) == Exchange([first.text, second.text], heavy.text)
            && HeavyBlock(draw, from, h).next == heavy.next
  {
    assert ReadBlocks(draw, from, ReadChars(h), 0) == Batch([], from);
    assert ReadBlocks(draw, from, ReadChars(h), 1).texts == [draw(from, ReadChars(h)).text];
  }

  // ---- Aiming at a size ----

  const LEAST := 2_000

  /** The sizes tried, by the quotients they are the floors of: 2.88 times the target an exchange at first. */
  lemma SizesAreFloors(target: nat, exchanges: nat, h: nat, measure: nat -> nat)
    requires exchanges > 0
    ensures var g := FirstGuess(target, exchanges);
            && g >= 2_000 && 288 * target < 100 * exchanges * (g + 1)
            && (g == 2_000 || 100 * exchanges * g <= 288 * target)
    ensures measure(h) == 0 ==> Corrected(h, target, measure) == h
    ensures measure(h) > 0 ==>
              var h' := Corrected(h, target, measure);
              && h' >= 2_000 && h * target < measure(h) * (h' + 1)
              && (h' == 2_000 || measure(h) * h' <= h * target)
  {
    FloorOf(target * 4 * 72, 100 * exchanges);
    var guess := target * 4 * 72 / (100 * exchanges);
    GrowsWith(100 * exchanges, guess + 1, FirstGuess(target, exchanges) + 1);
    if measure(h) > 0 {
      FloorOf(h * target, measure(h));
      GrowsWith(measure(h), h * target / measure(h) + 1, Corrected(h, target, measure) + 1);
    }
  }

  lemma FloorOf(n: nat, d: nat)
    requires d > 0
    ensures d * (n / d) <= n < d * (n / d + 1)
  {
    assert n == d * (n / d) + n % d;
  }

  lemma GrowsWith(d: nat, x: nat, y: nat)
    requires x <= y
    ensures d * x <= d * y
  {
  }

  /** One correction of the block size from what the last history measured. */
  function Corrected(h: nat, target: nat, measure: nat -> nat): (h': nat)
    ensures measure(h) > 0 ==> h' >= LEAST
  {
    if measure(h) == 0 then h
    else
      var scaled := h * target / measure(h);
      if scaled < LEAST then LEAST else scaled
  }

  function FirstGuess(target: nat, exchanges: nat): nat
    requires exchanges > 0
  {
    var guess := target * 4 * 72 / (100 * exchanges);
    if guess < LEAST then LEAST else guess
  }

  /** The history of the second correction, and its size; all of it a function of seed and request. */
  method BuildLongHistory(seed: seq<bv16>, target: nat, exchanges: nat, count: Counter)
    returns (heavyChars: nat, turns: seq<Exchange>, tokens: nat)
    requires exchanges > 0
    ensures var measure := Measure(BlocksOf(Mix, FirstState(seed)), exchanges, count);
            && heavyChars == Corrected(Corrected(FirstGuess(target, exchanges), target, measure), target, measure)
            && tokens == measure(heavyChars)
    ensures turns == History(BlocksOf(Mix, FirstState(seed)), heavyChars, exchanges).exchanges
  {
    heavyChars := FirstGuess(target, exchanges);
    turns, tokens := GenerateHistory(seed, exchanges, heavyChars, count);
    ghost var measure := Measure(BlocksOf(Mix, FirstState(seed)), exchanges, count);
    ghost var h0 := heavyChars;
    ghost var h1 := Corrected(h0, target, measure);
    for pass := 0 to 2
      invariant tokens == measure(heavyChars)
      invariant turns == History(BlocksOf(Mix, FirstState(seed)), heavyChars, exchanges).exchanges
      invariant heavyChars == if pass == 0 then h0 else if pass == 1 then h1 else Corrected(h1, target, measure)
    {
      if tokens == 0 {
        break;
      }
      var scaled := heavyChars * target / tokens;
      heavyChars := if scaled < LEAST then LEAST else scaled;
      turns, tokens := GenerateHistory(seed, exchanges, heavyChars, count);
    }
  }

  /** The measured size less the target. */
  function Miss(h: nat, target: nat, measure: nat -> nat): real {
    measure(h) as real - target as real
  }

  /** What blocks of h characters cost at b tokens a character of block size. */
  function Along(b: real, h: nat): real {
    b * h as real
  }

  /** How far the measure is, at h, from a fixed scaffold a and a rate of b tokens a character. */
  function Residual(h: nat, a: real, b: real, measure: nat -> nat): real {
    measure(h) as real - (a + Along(b, h))
  }

  predicate Unclamped(h: nat, target: nat, measure: nat -> nat) {
    measure(h) > 0 && h * target / measure(h) >= LEAST
  }

  lemma FloorError(n: nat, d: nat) returns (delta: real)
    requires d > 0
    ensures 0.0 <= delta < 1.0
    ensures (n / d) as real == n as real / d as real - delta
  {
    var q, r := n / d, n % d;
    assert n == d * q + r;
    delta := r as real / d as real;
    assert n as real == d as real * q as real + r as real;
    assert n as real / d as real == (d as real * q as real) / d as real + r as real / d as real;
  }

  /** x / m scaled: the arithmetic behind one correction. */
  lemma ScaledSplit(a: real, b: real, h: real, m: real, t: real, rho: real, delta: real)
    requires m > 0.0 && rho == m - (a + b * h)
    ensures a + b * (h * t / m - delta) - t == a * (m - t) / m - b * delta - rho * t / m
  {
    var x := t / m;
    assert m * x == t;
    assert h * t / m == h * x && rho * t / m == rho * x;
    assert b * (h * x - delta) == b * h * x - b * delta;
    assert b * h * x == (m - a - rho) * x == m * x - a * x - rho * x;
    assert a * (m - t) / m == a * ((m - t) / m);
    assert m - t == m * (1.0 - x);
    CancelDivisor(m, 1.0 - x);
  }

  lemma CancelDivisor(m: real, y: real)
    requires m > 0.0
    ensures m * y / m == y
  {
  }

  /**
   One correction away from the clamp, for any measure and any a and b: the signed miss is multiplied
   by a over the measured size, less a part of b for the rounding, plus what the measure's own
   deviations from a + b h at the two sizes contribute.
   */
  lemma CorrectionShrinksTheMiss(h: nat, target: nat, measure: nat -> nat, a: real, b: real) returns (delta: real)
    requires Unclamped(h, target, measure)
    ensures 0.0 <= delta < 1.0
    ensures var h' := Corrected(h, target, measure);
            var m := measure(h) as real;
            Miss(h', target, measure)
            == a * Miss(h, target, measure) / m - b * delta
               - Residual(h, a, b, measure) * target as real / m + Residual(h', a, b, measure)
  {
    delta := FloorError(h * target, measure(h));
    ScaledSplit(a, b, h as real, measure(h) as real, target as real, Residual(h, a, b, measure), delta);
    assert (h * target) as real == h as real * target as real;
  }

  // ---- Landing, for a measure that is nearly a scaffold and a rate ----

  /** A scaffold of a tokens, b tokens for a character of block size, and deviations of up to r. */
  predicate IsLine(a: real, b: real, r: real) {
    a >= 0.0 && b > 0.0 && r >= 0.0 && LeastSize(a, b, r) > 0.0
  }

  /** What the smallest history measures at least. */
  function LeastSize(a: real, b: real, r: real): real {
    a + b * 2_000.0 - r
  }

  predicate Near(h: nat, measure: nat -> nat, a: real, b: real, r: real) {
    Abs(Residual(h, a, b, measure)) <= r
  }

  function Abs(x: real): real {
    if x < 0.0 then -x else x
  }

  /** q is what a correction may leave of a miss: its worst share, at the smallest history there can be. */
  ghost predicate IsShare(q: real, a: real, b: real, r: real) {
    q * LeastSize(a, b, r) == a + r
  }

  /** The share is a proper fraction exactly when twice the deviation is less than the smallest filler. */
  lemma ShareIsFractionIff(q: real, a: real, b: real, r: real)
    requires IsLine(a, b, r) && IsShare(q, a, b, r)
    ensures 0.0 <= q && (q < 1.0 <==> 2.0 * r < b * 2_000.0)
  {
    ShareOf(q, a + r, LeastSize(a, b, r));
  }

  lemma ProductSign(x: real, y: real)
    requires y > 0.0
    ensures x < 0.0 <==> x * y < 0.0
  {
  }

  lemma ShareOf(q: real, part: real, whole: real)
    requires q * whole == part && part >= 0.0 && whole > 0.0
    ensures 0.0 <= q && (q < 1.0 <==> part < whole)
  {
    ProductSign(q, whole);
    if q < 1.0 {
      assert (1.0 - q) * whole > 0.0;
    } else {
      assert (q - 1.0) * whole >= 0.0;
    }
  }

  lemma Scaled(x: real, y: real, z: real)
    requires x <= y && z >= 0.0
    ensures x * z <= y * z
    ensures x < y && z > 0.0 ==> x * z < y * z
  {
  }

  lemma ShareExists(a: real, b: real, r: real) returns (q: real)
    requires IsLine(a, b, r)
    ensures IsShare(q, a, b, r)
  {
    q := (a + r) / LeastSize(a, b, r);
  }

  lemma AtLeastTheLeast(h: nat, measure: nat -> nat, a: real, b: real, r: real)
    requires IsLine(a, b, r) && h >= LEAST && Near(h, measure, a, b, r)
    ensures 0.0 < LeastSize(a, b, r) <= a + Along(b, h) - r <= measure(h) as real <= a + Along(b, h) + r
  {
    Scaled(2_000.0, h as real, b);
  }

  lemma SumOfParts(
    left: real, bound: real, rounding: real, b: real, rho: real, rho': real, r: real, after: real)
    requires Abs(left) <= bound && 0.0 <= rounding <= b && Abs(rho) <= r && Abs(rho') <= r
    requires after == left - rounding - rho + rho'
    ensures Abs(after) <= bound + b + 2.0 * r
    ensures left <= 0.0 ==> after <= 2.0 * r
  {
  }

  lemma Regrouped(a: real, x: real, rho: real)
    ensures a * x - rho * (1.0 - x) == (a + rho) * x - rho
  {
  }

  lemma PartOf(b: real, delta: real)
    requires b > 0.0 && 0.0 <= delta < 1.0
    ensures 0.0 <= b * delta <= b
  {
  }

  lemma BoundedProduct(c: real, bound: real, x: real)
    requires Abs(c) <= bound
    ensures Abs(c * x) <= bound * Abs(x)
    ensures c >= 0.0 && x <= 0.0 ==> c * x <= 0.0
  {
    AbsOfProduct(c, x);
    assert (bound - Abs(c)) * Abs(x) >= 0.0;
  }

  lemma AbsOfProduct(x: real, y: real)
    ensures Abs(x * y) == Abs(x) * Abs(y)
  {
    if x < 0.0 {
      assert x * y == -((-x) * y);
    }
  }

  /**
   What one correction leaves: x is the miss before, over the measured size, and rho and rho' are the
   deviations before and behind.
   */
  lemma ShrunkMiss(c: real, bound: real, b: real, r: real, x: real, delta: real, rho: real, rho': real, after: real)
    requires Abs(c) <= bound && b > 0.0 && 0.0 <= delta < 1.0 && Abs(rho) <= r && Abs(rho') <= r
    requires after == c * x - b * delta - rho + rho'
    ensures Abs(after) <= bound * Abs(x) + b + 2.0 * r
    ensures c >= 0.0 && x <= 0.0 ==> after <= 2.0 * r
  {
    PartOf(b, delta);
    BoundedProduct(c, bound, x);
    SumOfParts(c * x, bound * Abs(x), b * delta, b, rho, rho', r, after);
  }

  lemma TimesOver(c: real, m: real, e: real, x: real)
    requires m > 0.0 && x * m == e
    ensures c * e / m == c * x
  {
    assert c * e == m * (c * x);
    CancelDivisor(m, c * x);
  }

  lemma OverSize(a: real, rho: real, m: real, t: real, x: real)
    requires m > 0.0 && x * m == m - t
    ensures a * (m - t) / m - rho * t / m == (a + rho) * x - rho
  {
    TimesOver(a, m, m - t, x);
    TimesOver(rho, m, t, 1.0 - x);
    Regrouped(a, x, rho);
  }

  /** A miss of e shrunk by c over the measured size. */
  function Shrunk(c: real, m: real, e: real): real
    requires m > 0.0
  {
    c * Abs(e) / m
  }

  lemma ShrunkOverSize(
    c: real, bound: real, b: real, r: real, e: real, m: real, delta: real, rho: real, rho': real, after: real)
    requires Abs(c) <= bound && b > 0.0 && 0.0 <= delta < 1.0 && Abs(rho) <= r && Abs(rho') <= r && m > 0.0
    requires after == c * (e / m) - b * delta - rho + rho'
    ensures Abs(after) <= Shrunk(bound, m, e) + b + 2.0 * r
    ensures c >= 0.0 && e <= 0.0 ==> after <= 2.0 * r
  {
    var x := e / m;
    ShrunkMiss(c, bound, b, r, x, delta, rho, rho', after);
    AbsOver(e, m);
    TimesOver(bound, m, Abs(e), Abs(x));
  }

  lemma Over(e: real, m: real)
    requires m > 0.0
    ensures e / m * m == e
  {
  }

  lemma AbsOver(e: real, m: real)
    requires m > 0.0
    ensures Abs(e / m) * m == Abs(e) && (e <= 0.0 ==> e / m <= 0.0)
  {
    assert e / m * m == e;
    ProductSign(e / m, m);
  }

  lemma MissOverSize(
    a: real, b: real, r: real, m: real, t: real, delta: real, rho: real, rho': real, after: real)
    requires a >= 0.0 && b > 0.0 && 0.0 <= delta < 1.0 && Abs(rho) <= r && Abs(rho') <= r && m > 0.0
    requires after == a * (m - t) / m - b * delta - rho * t / m + rho'
    ensures Abs(after) <= Shrunk(a + r, m, m - t) + b + 2.0 * r
    ensures m <= t && r <= a ==> after <= 2.0 * r
  {
    Over(m - t, m);
    OverSize(a, rho, m, t, (m - t) / m);
    assert after == (a + rho) * ((m - t) / m) - b * delta - rho + rho';
    ShrunkOverSize(a + rho, a + r, b, r, m - t, m, delta, rho, rho', after);
  }

  /** One correction away from the clamp, with deviations up to r at both sizes. */
  lemma NearCorrection(h: nat, target: nat, measure: nat -> nat, a: real, b: real, r: real)
    requires a >= 0.0 && b > 0.0 && Unclamped(h, target, measure)
    requires Near(h, measure, a, b, r) && Near(Corrected(h, target, measure), measure, a, b, r)
    ensures var before, after := Miss(h, target, measure), Miss(Corrected(h, target, measure), target, measure);
            && Abs(after) <= Shrunk(a + r, measure(h) as real, before) + b + 2.0 * r
            && (before <= 0.0 && r <= a ==> after <= 2.0 * r)
  {
    var delta := CorrectionShrinksTheMiss(h, target, measure, a, b);
    NearStep(h, Corrected(h, target, measure), target, measure, a, b, r, delta);
  }

  lemma NearStep(
    h: nat, h': nat, target: nat, measure: nat -> nat, a: real, b: real, r: real, delta: real)
    requires a >= 0.0 && b > 0.0 && 0.0 <= delta < 1.0 && measure(h) > 0
    requires Near(h, measure, a, b, r) && Near(h', measure, a, b, r)
    requires Miss(h', target, measure)
             == a * Miss(h, target, measure) / measure(h) as real - b * delta
                - Residual(h, a, b, measure) * target as real / measure(h) as real + Residual(h', a, b, measure)
    ensures Abs(Miss(h', target, measure)) <= Shrunk(a + r, measure(h) as real, Miss(h, target, measure)) + b + 2.0 * r
    ensures Miss(h, target, measure) <= 0.0 && r <= a ==> Miss(h', target, measure) <= 2.0 * r
  {
    MissOverSize(a, b, r, measure(h) as real, target as real, delta, Residual(h, a, b, measure),
                 Residual(h', a, b, measure), Miss(h', target, measure));
  }

  /** And so at most the share of the miss, one character's tokens and two deviations. */
  lemma CorrectionLeavesShare(h: nat, target: nat, measure: nat -> nat, a: real, b: real, r: real, q: real)
    requires IsLine(a, b, r) && IsShare(q, a, b, r) && h >= LEAST && Unclamped(h, target, measure)
    requires Near(h, measure, a, b, r) && Near(Corrected(h, target, measure), measure, a, b, r)
    ensures Abs(Miss(Corrected(h, target, measure), target, measure))
            <= LeftOf(q, b + 2.0 * r, Abs(Miss(h, target, measure)))
  {
    NearCorrection(h, target, measure, a, b, r);
    AtLeastTheLeast(h, measure, a, b, r);
    WithinShare(a, b, r, q, measure(h) as real, Miss(h, target, measure));
  }

  lemma WithinShare(a: real, b: real, r: real, q: real, m: real, e: real)
    requires IsLine(a, b, r) && IsShare(q, a, b, r) && LeastSize(a, b, r) <= m
    ensures Shrunk(a + r, m, e) + b + 2.0 * r <= LeftOf(q, b + 2.0 * r, Abs(e))
  {
    ShareIsFractionIff(q, a, b, r);
    ShrunkByShare(a + r, LeastSize(a, b, r), q, m, e);
  }

  lemma ShrunkByShare(c: real, least: real, q: real, m: real, e: real)
    requires q * least == c && 0.0 < least <= m && q >= 0.0
    ensures Shrunk(c, m, e) <= LeftOf(q, 0.0, Abs(e))
  {
    var x := Abs(e);
    Scaled(least, m, q);
    assert c <= q * m;
    Scaled(c, q * m, x);
    assert q * m * x == m * (q * x);
    OverDivisor(c * x, q * x, m);
  }

  lemma OverDivisor(x: real, y: real, m: real)
    requires m > 0.0 && x <= m * y
    ensures x / m <= y
  {
  }

  /** At the clamp the history is too long, but for two deviations. */
  lemma ClampOvershoots(h: nat, target: nat, measure: nat -> nat, a: real, b: real, r: real)
    requires IsLine(a, b, r) && h >= LEAST && !Unclamped(h, target, measure)
    requires Near(h, measure, a, b, r) && Near(LEAST, measure, a, b, r)
    ensures Corrected(h, target, measure) == LEAST
    ensures Miss(LEAST, target, measure) > -2.0 * r
  {
    AtLeastTheLeast(h, measure, a, b, r);
    AtLeastTheLeast(LEAST, measure, a, b, r);
    assert measure(h) > 0;
    assert h * target / measure(h) < LEAST;
    AboveQuotient(h * target, measure(h), LEAST);
    TargetBelowLeast(h, target, measure(h), a + r, b);
  }

  lemma AboveQuotient(n: nat, d: nat, q: nat)
    requires d > 0 && n / d < q
    ensures n < q * d
  {
    assert n == d * (n / d) + n % d;
    assert d * (n / d) <= d * (q - 1);
  }

  lemma TargetBelowLeast(h: nat, t: nat, m: nat, a: real, b: real)
    requires a >= 0.0 && b > 0.0 && h >= LEAST
    requires h * t < LEAST * m && m as real <= a + b * h as real
    ensures t as real < a + b * 2_000.0
  {
    var H, T, L := h as real, t as real, 2_000.0;
    assert (h * t) as real < (LEAST * m) as real;
    Scaled(m as real, a + b * H, L);
    assert H * T < L * (a + b * H);
    LeastIsCheapest(H, L, a, b);
    CancelFactor(H, T, a + b * L);
  }

  lemma LeastIsCheapest(h: real, least: real, a: real, b: real)
    requires a >= 0.0 && h >= least
    ensures least * (a + b * h) <= h * (a + b * least)
  {
    assert least * a <= h * a;
    assert least * (b * h) == h * (b * least);
  }

  /** Once the smallest history is too long, corrections leave it there. */
  lemma TooLongStays(target: nat, measure: nat -> nat)
    requires Miss(LEAST, target, measure) > 0.0
    ensures Corrected(LEAST, target, measure) == LEAST
  {
    assert target < measure(LEAST);
    QuotientBelow(LEAST * target, measure(LEAST), LEAST);
  }

  lemma CancelFactor(h: real, x: real, y: real)
    requires h > 0.0 && h * x < h * y
    ensures x < y
  {
  }

  lemma QuotientBelow(n: nat, d: nat, q: nat)
    requires d > 0 && n < q * d
    ensures n / d < q
  {
    assert n == d * (n / d) + n % d;
    assert d * (n / d) < q * d;
  }

  /** What one correction may leave of a miss of e. */
  function LeftOf(q: real, extra: real, e: real): real {
    q * e + extra
  }

  /** As far from the target as e at most; or at the smallest history, with the target below it. */
  predicate Lands(h: nat, target: nat, measure: nat -> nat, e: real) {
    (h == LEAST && Miss(h, target, measure) > 0.0) || Abs(Miss(h, target, measure)) <= e
  }

  lemma CorrectOnce(h: nat, target: nat, measure: nat -> nat, a: real, b: real, r: real, q: real)
    requires IsLine(a, b, r) && IsShare(q, a, b, r) && h >= LEAST
    requires Near(h, measure, a, b, r) && Near(Corrected(h, target, measure), measure, a, b, r)
    ensures Corrected(h, target, measure) >= LEAST
    ensures Lands(Corrected(h, target, measure), target, measure, LeftOf(q, b + 2.0 * r, Abs(Miss(h, target, measure))))
  {
    AtLeastTheLeast(h, measure, a, b, r);
    if Unclamped(h, target, measure) {
      CorrectionLeavesShare(h, target, measure, a, b, r, q);
    } else {
      assert measure(h) > 0;
      ClampOvershoots(h, target, measure, a, b, r);
      ShareIsFractionIff(q, a, b, r);
      NearLands(Miss(LEAST, target, measure), q, Abs(Miss(h, target, measure)), b, r);
    }
  }

  lemma LeftOfLarger(q: real, extra: real, x: real, y: real)
    requires q >= 0.0 && x <= y
    ensures LeftOf(q, extra, x) <= LeftOf(q, extra, y)
  {
    Scaled(x, y, q);
  }

  lemma NearLands(miss: real, q: real, e: real, b: real, r: real)
    requires miss > -2.0 * r && q >= 0.0 && e >= 0.0 && b > 0.0 && r >= 0.0
    ensures miss > 0.0 || Abs(miss) <= LeftOf(q, b + 2.0 * r, e)
  {
    Scaled(0.0, q, e);
  }

  /** The second correction, from wherever the first one landed. */
  lemma CorrectAgain(h: nat, target: nat, measure: nat -> nat, a: real, b: real, r: real, q: real, e: real)
    requires IsLine(a, b, r) && IsShare(q, a, b, r) && h >= LEAST && Lands(h, target, measure, e)
    requires Near(h, measure, a, b, r) && Near(Corrected(h, target, measure), measure, a, b, r)
    ensures Lands(Corrected(h, target, measure), target, measure, LeftOf(q, b + 2.0 * r, e))
  {
    if h == LEAST && Miss(h, target, measure) > 0.0 {
      TooLongStays(target, measure);
    } else {
      CorrectOnce(h, target, measure, a, b, r, q);
      ShareIsFractionIff(q, a, b, r);
      LeftOfLarger(q, b + 2.0 * r, Abs(Miss(h, target, measure)), e);
    }
  }

  /**
   After the two corrections the history is within the share squared of the first guess's miss, plus what
   rounding and deviations leave of two passes; or the target is below what the smallest blocks make,
   and the history is the smallest one. Only the sizes that are built need to be near the line.
   */
  lemma TwoCorrectionsLand(
    first: nat, second: nat, last: nat, target: nat, measure: nat -> nat, a: real, b: real, r: real, q: real)
    requires IsLine(a, b, r) && IsShare(q, a, b, r) && first >= LEAST
    requires second == Corrected(first, target, measure) && last == Corrected(second, target, measure)
    requires Near(first, measure, a, b, r) && Near(second, measure, a, b, r) && Near(last, measure, a, b, r)
    ensures Lands(last, target, measure,
                  LeftOf(q, b + 2.0 * r, LeftOf(q, b + 2.0 * r, Abs(Miss(first, target, measure)))))
  {
    CorrectOnce(first, target, measure, a, b, r, q);
    CorrectAgain(second, target, measure, a, b, r, q, LeftOf(q, b + 2.0 * r, Abs(Miss(first, target, measure))));
  }

  /** What at most is left of a miss of e by one unclamped pass over a history measured m. */
  function LeftByPass(a: real, b: real, r: real, m: real, e: real): real
    requires m > 0.0
  {
    Shrunk(a + r, m, e) + b + 2.0 * r
  }

  /** Away from the clamp the two passes leave the product of their own factors, not the worst one squared. */
  lemma TwoUnclampedPasses(
    first: nat, second: nat, last: nat, target: nat, measure: nat -> nat, a: real, b: real, r: real)
    requires a >= 0.0 && b > 0.0 && Unclamped(first, target, measure) && Unclamped(second, target, measure)
    requires second == Corrected(first, target, measure) && last == Corrected(second, target, measure)
    requires Near(first, measure, a, b, r) && Near(second, measure, a, b, r) && Near(last, measure, a, b, r)
    ensures Abs(Miss(last, target, measure))
            <= LeftByPass(a, b, r, measure(second) as real,
                          LeftByPass(a, b, r, measure(first) as real, Miss(first, target, measure)))
  {
    NearCorrection(first, target, measure, a, b, r);
    NearCorrection(second, target, measure, a, b, r);
    LargerMissLeavesMore(a, b, r, measure(second) as real, Miss(second, target, measure),
                         LeftByPass(a, b, r, measure(first) as real, Miss(first, target, measure)));
  }

  lemma LargerMissLeavesMore(a: real, b: real, r: real, m: real, e: real, larger: real)
    requires m > 0.0 && a + r >= 0.0 && Abs(e) <= larger
    ensures LeftByPass(a, b, r, m, e) <= LeftByPass(a, b, r, m, larger)
  {
    Scaled(Abs(e), larger, a + r);
    DivideBoth((a + r) * Abs(e), (a + r) * larger, m);
  }

  lemma DivideBoth(x: real, y: real, m: real)
    requires m > 0.0 && x <= y
    ensures x / m <= y / m
  {
  }

  // ---- The generator's own measure ----

  /** More than a string can hold. */
  const LONGEST := 5_000_000_000

  lemma {:induction false} TextAtLeast(sheet: Sheet, scramble: Scramble, start: nat, from: nat, n: nat)
    requires AreTableRows(sheet.row, scramble, start, from)
    ensures |sheet.Text(n)| >= 52 * n
  {
    if n > 0 {
      TextAtLeast(sheet, scramble, start, from, n - 1);
      TableRowLength(scramble, start, from, n - 1);
      NumberWidths(n - 1);
      assert sheet.row(n - 1) == TableRow(scramble, start, from, n - 1);
    }
  }

  lemma BlockLength(scramble: Scramble, start: nat, from: nat, chars: nat)
    requires 500 <= chars <= LONGEST
    ensures chars <= |Block(HEADER, scramble, start, from, chars).text| <= chars + 62
  {
    var sheet := Sheet(HEADER, TableRows(scramble, start, from));
    var rows := RowsFor(sheet, chars, 0);
    assert |sheet.Text(0)| == |HEADER| < 500;
    TextAtLeast(sheet, scramble, start, from, rows - 1);
    OvershootAtMostOneRow(sheet, scramble, start, from, rows, chars);
  }

  function Chars(e: Exchange): nat {
    CharsOf(e.outputs) + |e.heavy|
  }

  function CharsOf(texts: seq<string>): nat {
    if texts == [] then 0 else CharsOf(texts[..|texts| - 1]) + |texts[|texts| - 1]|
  }

  /** Every block is as long as asked, and at most a row longer. */
  ghost predicate KeepsSize(draw: Source) {
    forall from: nat, chars: nat {:trigger draw(from, chars)} ::
      500 <= chars <= LONGEST ==> chars <= |draw(from, chars).text| <= chars + 62
  }

  lemma GeneratorKeepsSize(scramble: Scramble, start: nat)
    ensures KeepsSize(BlocksOf(scramble, start))
  {
    forall from: nat, chars: nat | 500 <= chars <= LONGEST
      ensures chars <= |BlocksOf(scramble, start)(from, chars).text| <= chars + 62
    {
      BlockLength(scramble, start, from, chars);
    }
  }

  lemma {:induction false} ReadsLength(draw: Source, from: nat, chars: nat, n: nat)
    requires KeepsSize(draw) && 500 <= chars <= LONGEST
    ensures n * chars <= CharsOf(ReadBlocks(draw, from, chars, n).texts) <= n * (chars + 62)
  {
    if n > 0 {
      ReadsLength(draw, from, chars, n - 1);
      var before, after := ReadBlocks(draw, from, chars, n - 1), ReadBlocks(draw, from, chars, n);
      assert after.texts[..n - 1] == before.texts;
      assert after.texts[n - 1] == draw(before.next, chars).text;
      assert n * chars == (n - 1) * chars + chars && n * (chars + 62) == (n - 1) * (chars + 62) + (chars + 62);
    }
  }

  /** An exchange holds 1.36 h characters, give or take: rows are whole and a read has 500 at least. */
  lemma ExchangeLength(draw: Source, from: nat, h: nat)
    requires KeepsSize(draw) && LEAST <= h <= LONGEST
    ensures -200 <= 100 * Chars(ExchangeFrom(draw, from, h)) - 136 * h <= 46_600
  {
    var chars := ReadChars(h);
    assert 500 <= chars <= LONGEST;
    ReadsLength(draw, from, chars, READS_PER_TURN);
    var next := ReadBlocks(draw, from, chars, READS_PER_TURN).next;
    assert h <= |draw(next, h).text| <= h + 62;
  }

  /** Exchange i of the history with heavy blocks of h characters. */
  function ExchangeAt(draw: Source, h: nat, i: nat): Exchange {
    ExchangeFrom(draw, History(draw, h, i).next, h)
  }

  /**
   A counter that gives exchange i its templates' tokens and c tokens a character, give or take e, at
   every block size in question.
   */
  ghost predicate Counts(
    count: Counter, draw: Source, n: nat, templates: nat -> real, c: real, e: real, top: nat)
  {
    forall i: nat, h: nat {:trigger ExchangeAt(draw, h, i)} :: i < n && LEAST <= h <= top ==>
      Abs(count(i, ExchangeAt(draw, h, i)) as real - (templates(i) + CharTokens(c, Chars(ExchangeAt(draw, h, i))))) <= e
  }

  /** What n exchanges take at any size: their templates, and the middle of what whole rows add. */
  function Scaffold(templates: nat -> real, c: real, n: nat): real {
    if n == 0 then 0.0 else Scaffold(templates, c, n - 1) + templates(n - 1) + 232.0 * c
  }

  function Rate(c: real, n: nat): real {
    n as real * (1.36 * c)
  }

  function Slack(c: real, e: real, n: nat): real {
    n as real * (234.0 * c + e)
  }

  lemma OneMore(n: nat, x: real)
    requires n > 0
    ensures n as real * x == (n - 1) as real * x + x
  {
    assert n as real == (n - 1) as real + 1.0;
  }

  /** The filler of one exchange. */
  function Filler(c: real, h: nat): real {
    1.36 * c * h as real
  }

  /** The tokens of so many characters. */
  function CharTokens(c: real, chars: nat): real {
    c * chars as real
  }

  lemma CharsInParts(c: real, chars: nat, h: nat, off: real)
    requires off == chars as real - 1.36 * h as real - 232.0
    ensures CharTokens(c, chars) - (232.0 * c + Filler(c, h)) == off * c
  {
    var x, y := chars as real, h as real;
    assert c * x == c * (1.36 * y + 232.0 + off);
  }

  lemma ExchangeTokens(c: real, chars: nat, h: nat)
    requires c > 0.0 && -200 <= 100 * chars - 136 * h <= 46_600
    ensures Abs(CharTokens(c, chars) - (232.0 * c + Filler(c, h))) <= 234.0 * c
  {
    var off := chars as real - 1.36 * h as real - 232.0;
    assert Abs(off) <= 234.0 by {
      assert 100.0 * chars as real == (100 * chars) as real && 136.0 * h as real == (136 * h) as real;
    }
    BoundedProduct(off, 234.0, c);
    assert Abs(off * c) <= 234.0 * c;
    CharsInParts(c, chars, h, off);
  }

  lemma CountsFewer(
    count: Counter, draw: Source, n: nat, templates: nat -> real, c: real, e: real, top: nat)
    requires n > 0 && Counts(count, draw, n, templates, c, e, top)
    ensures Counts(count, draw, n - 1, templates, c, e, top)
  {
  }

  /** The generator's measure is near a line, whatever the seed. */
  lemma {:induction false} GeneratorIsNearLine(
    draw: Source, n: nat, count: Counter, templates: nat -> real, c: real, e: real, top: nat, h: nat)
    requires KeepsSize(draw) && c > 0.0 && e >= 0.0 && LEAST <= h <= top <= LONGEST
    requires Counts(count, draw, n, templates, c, e, top)
    ensures Near(h, Measure(draw, n, count), Scaffold(templates, c, n), Rate(c, n), Slack(c, e, n))
  {
    if n == 0 {
      assert History(draw, h, 0).exchanges == [];
      assert Measure(draw, 0, count)(h) == 0;
    } else {
      CountsFewer(count, draw, n, templates, c, e, top);
      GeneratorIsNearLine(draw, n - 1, count, templates, c, e, top, h);
      var exchange := ExchangeAt(draw, h, n - 1);
      LastExchange(draw, n, count, h);
      LastCounted(draw, n, count, templates, c, e, top, h);
      NearWithOneMore(n, Measure(draw, n - 1, count)(h) as real, count(n - 1, exchange) as real,
                      Scaffold(templates, c, n - 1), templates(n - 1), c, e, h);
    }
  }

  lemma LastCounted(
    draw: Source, n: nat, count: Counter, templates: nat -> real, c: real, e: real, top: nat, h: nat)
    requires KeepsSize(draw) && n > 0 && c > 0.0 && LEAST <= h <= top <= LONGEST
    requires Counts(count, draw, n, templates, c, e, top)
    ensures Abs(count(n - 1, ExchangeAt(draw, h, n - 1)) as real - (templates(n - 1) + 232.0 * c + Filler(c, h)))
            <= 234.0 * c + e
  {
    ExchangeLength(draw, History(draw, h, n - 1).next, h);
    ExchangeTokens(c, Chars(ExchangeAt(draw, h, n - 1)), h);
  }

  lemma LastExchange(draw: Source, n: nat, count: Counter, h: nat)
    requires n > 0
    ensures Measure(draw, n, count)(h) == Measure(draw, n - 1, count)(h) + count(n - 1, ExchangeAt(draw, h, n - 1))
  {
    HistoryLength(draw, h, n - 1);
    var before, after := History(draw, h, n - 1).exchanges, History(draw, h, n).exchanges;
    assert after[..n - 1] == before;
  }

  lemma {:induction false} HistoryLength(draw: Source, h: nat, n: nat)
    ensures |History(draw, h, n).exchanges| == n
  {
    if n > 0 {
      HistoryLength(draw, h, n - 1);
    }
  }

  lemma NearWithOneMore(
    n: nat, before: real, tokens: real, scaffold: real, template: real, c: real, e: real, h: nat)
    requires n > 0
    requires Abs(before - (scaffold + Along(Rate(c, n - 1), h))) <= Slack(c, e, n - 1)
    requires Abs(tokens - (template + 232.0 * c + Filler(c, h))) <= 234.0 * c + e
    ensures Abs(before + tokens - (scaffold + template + 232.0 * c + Along(Rate(c, n), h))) <= Slack(c, e, n)
  {
    OneMoreSlack(n, c, e);
    OneMoreRate(n, c, h);
  }

  lemma OneMoreSlack(n: nat, c: real, e: real)
    requires n > 0
    ensures Slack(c, e, n) == Slack(c, e, n - 1) + (234.0 * c + e)
  {
    OneMore(n, 234.0 * c + e);
  }

  lemma OneMoreRate(n: nat, c: real, h: nat)
    requires n > 0
    ensures Along(Rate(c, n), h) == Along(Rate(c, n - 1), h) + Filler(c, h)
  {
    OneMore(n, 1.36 * c);
    Distributed(Rate(c, n - 1), 1.36 * c, h as real);
  }

  lemma Distributed(x: real, y: real, z: real)
    ensures (x + y) * z == x * z + y * z
  {
  }

  lemma {:induction false} ScaffoldIsNotNegative(templates: nat -> real, c: real, n: nat)
    requires c > 0.0 && forall i: nat :: i < n ==> templates(i) >= 0.0
    ensures Scaffold(templates, c, n) >= 0.0
  {
    if n > 0 {
      ScaffoldIsNotNegative(templates, c, n - 1);
    }
  }

  /** A corrected size stays within what twice the target would take of filler alone. */
  lemma CorrectedWithin(h: nat, target: nat, measure: nat -> nat, a: real, b: real, r: real, top: nat)
    requires IsLine(a, b, r) && 2.0 * r < b * 2_000.0 && LEAST <= h <= top
    requires Near(h, measure, a, b, r) && 2.0 * target as real <= Along(b, top)
    ensures LEAST <= Corrected(h, target, measure) <= top
  {
    AtLeastTheLeast(h, measure, a, b, r);
    Scaled(2_000.0, h as real, b);
    assert measure(h) > 0 && 2.0 * measure(h) as real >= Along(b, h);
    QuotientWithin(h, target, measure(h), b, top);
  }

  lemma QuotientWithin(h: nat, target: nat, m: nat, b: real, top: nat)
    requires h > 0 && m > 0 && b > 0.0
    requires 2.0 * m as real >= Along(b, h) && 2.0 * target as real <= Along(b, top)
    ensures h * target / m <= top
  {
    var h' := h * target / m;
    assert h' * m <= h * target by {
      assert h * target == m * h' + h * target % m;
    }
    assert (h' * m) as real == h' as real * m as real;
    assert (h * target) as real == h as real * target as real;
    SizesWithin(h as real, target as real, m as real, h' as real, top as real, b);
  }

  lemma SizesWithin(h: real, t: real, m: real, x: real, top: real, b: real)
    requires h > 0.0 && b > 0.0 && x >= 0.0 && x * m <= h * t && 2.0 * m >= b * h && 2.0 * t <= b * top
    ensures x <= top
  {
    Scaled(b * h, 2.0 * m, x);
    Scaled(2.0 * t, b * top, h);
    assert 2.0 * m * x == 2.0 * (x * m) && 2.0 * t * h == 2.0 * (h * t);
    assert (b * h) * x <= (b * top) * h;
    assert (b * top) * h == (b * h) * top;
    if top < x {
      Scaled(0.0, b, h);
      Scaled(top, x, b * h);
    }
  }

  /**
   The two corrections of the generator, for every seed: if its counter gives a character c tokens up to
   a thousand characters' worth an exchange, the share is a proper fraction and the history lands.
   */
  lemma GeneratorLands(
    seed: seq<bv16>, n: nat, count: Counter, templates: nat -> real, c: real, e: real, target: nat, top: nat)
    returns (q: real)
    requires n > 0 && c > 0.0 && 0.0 <= e <= 1000.0 * c && LEAST <= top <= LONGEST
    requires forall i: nat :: i < n ==> templates(i) >= 0.0
    requires Counts(count, BlocksOf(Mix, FirstState(seed)), n, templates, c, e, top)
    requires FirstGuess(target, n) <= top && 2.0 * target as real <= Along(Rate(c, n), top)
    ensures 0.0 <= q < 1.0 && IsShare(q, Scaffold(templates, c, n), Rate(c, n), Slack(c, e, n))
    ensures var measure := Measure(BlocksOf(Mix, FirstState(seed)), n, count);
            var first := FirstGuess(target, n);
            var last := Corrected(Corrected(first, target, measure), target, measure);
            var extra := Rate(c, n) + 2.0 * Slack(c, e, n);
            Lands(last, target, measure, LeftOf(q, extra, LeftOf(q, extra, Abs(Miss(first, target, measure)))))
  {
    GeneratorKeepsSize(Mix, FirstState(seed));
    q := SourceLands(BlocksOf(Mix, FirstState(seed)), n, count, templates, c, e, target, top);
  }

  function CharCounter(): Counter {
    (i: nat, e: Exchange) => Chars(e)
  }

  function NoTemplates(): nat -> real {
    (i: nat) => 0.0
  }

  /** Counting characters is one such counter: no deviation, and one token a character. */
  lemma CharacterCountLands(seed: seq<bv16>, n: nat, target: nat) returns (q: real)
    requires n > 0 && FirstGuess(target, n) <= LONGEST && 2.0 * target as real <= Along(Rate(1.0, n), LONGEST)
    ensures 0.0 <= q < 1.0 && IsShare(q, Scaffold(NoTemplates(), 1.0, n), Rate(1.0, n), Slack(1.0, 0.0, n))
    ensures var measure := Measure(BlocksOf(Mix, FirstState(seed)), n, CharCounter());
            var first := FirstGuess(target, n);
            var last := Corrected(Corrected(first, target, measure), target, measure);
            var extra := Rate(1.0, n) + 2.0 * Slack(1.0, 0.0, n);
            Lands(last, target, measure, LeftOf(q, extra, LeftOf(q, extra, Abs(Miss(first, target, measure)))))
  {
    GeneratorKeepsSize(Mix, FirstState(seed));
    q := CharactersLand(BlocksOf(Mix, FirstState(seed)), n, target);
  }

  lemma CharactersLand(draw: Source, n: nat, target: nat) returns (q: real)
    requires KeepsSize(draw)
    requires n > 0 && FirstGuess(target, n) <= LONGEST && 2.0 * target as real <= Along(Rate(1.0, n), LONGEST)
    ensures 0.0 <= q < 1.0 && IsShare(q, Scaffold(NoTemplates(), 1.0, n), Rate(1.0, n), Slack(1.0, 0.0, n))
    ensures var measure := Measure(draw, n, CharCounter());
            var first := FirstGuess(target, n);
            var last := Corrected(Corrected(first, target, measure), target, measure);
            var extra := Rate(1.0, n) + 2.0 * Slack(1.0, 0.0, n);
            Lands(last, target, measure, LeftOf(q, extra, LeftOf(q, extra, Abs(Miss(first, target, measure)))))
  {
    CharactersCount(draw, n);
    q := SourceLands(draw, n, CharCounter(), NoTemplates(), 1.0, 0.0, target, LONGEST);
  }

  lemma CharactersCount(draw: Source, n: nat)
    ensures Counts(CharCounter(), draw, n, NoTemplates(), 1.0, 0.0, LONGEST)
  {
    forall i: nat, h: nat | i < n && LEAST <= h <= LONGEST
      ensures CharCounter()(i, ExchangeAt(draw, h, i)) as real
              == NoTemplates()(i) + CharTokens(1.0, Chars(ExchangeAt(draw, h, i)))
    {
    }
  }

  lemma SourceLands(
    draw: Source, n: nat, count: Counter, templates: nat -> real, c: real, e: real, target: nat, top: nat)
    returns (q: real)
    requires KeepsSize(draw) && n > 0 && c > 0.0 && 0.0 <= e <= 1000.0 * c && LEAST <= top <= LONGEST
    requires forall i: nat :: i < n ==> templates(i) >= 0.0
    requires Counts(count, draw, n, templates, c, e, top)
    requires FirstGuess(target, n) <= top && 2.0 * target as real <= Along(Rate(c, n), top)
    ensures 0.0 <= q < 1.0 && IsShare(q, Scaffold(templates, c, n), Rate(c, n), Slack(c, e, n))
    ensures var measure := Measure(draw, n, count);
            var first := FirstGuess(target, n);
            var last := Corrected(Corrected(first, target, measure), target, measure);
            var extra := Rate(c, n) + 2.0 * Slack(c, e, n);
            Lands(last, target, measure, LeftOf(q, extra, LeftOf(q, extra, Abs(Miss(first, target, measure)))))
  {
    var a, b, r := Scaffold(templates, c, n), Rate(c, n), Slack(c, e, n);
    var measure := Measure(draw, n, count);
    var first := FirstGuess(target, n);
    var second := Corrected(first, target, measure);
    ScaffoldIsNotNegative(templates, c, n);
    SlackIsSmall(c, e, n);
    GeneratorIsNearLine(draw, n, count, templates, c, e, top, first);
    CorrectedWithin(first, target, measure, a, b, r, top);
    GeneratorIsNearLine(draw, n, count, templates, c, e, top, second);
    CorrectedWithin(second, target, measure, a, b, r, top);
    GeneratorIsNearLine(draw, n, count, templates, c, e, top, Corrected(second, target, measure));
    q := ShareExists(a, b, r);
    ShareIsFractionIff(q, a, b, r);
    TwoCorrectionsLand(first, second, Corrected(second, target, measure), target, measure, a, b, r, q);
  }

  lemma SlackIsSmall(c: real, e: real, n: nat)
    requires n > 0 && c > 0.0 && 0.0 <= e <= 1000.0 * c
    ensures Rate(c, n) > 0.0 && 0.0 <= 2.0 * Slack(c, e, n) < Rate(c, n) * 2_000.0
  {
    var N := n as real;
    assert Rate(c, n) * 2_000.0 == N * (2720.0 * c);
    assert 2.0 * Slack(c, e, n) == N * (468.0 * c + 2.0 * e);
    Scaled(468.0 * c + 2.0 * e, 2720.0 * c, N);
    Scaled(0.0, 234.0 * c + e, N);
    Scaled(0.0, 1.36 * c, N);
  }
}
