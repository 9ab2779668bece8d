/**
 Splitting a migration into statements: comments are stripped line by line, and a statement ends with
 the line that holds a semicolon. Each one is reported at the first of its lines that is not blank.
 */
module MigrationLint {
  import opened Text

  datatype Statement = Statement(line: nat, text: string)

  /** What a dot of a regular expression does not match. */
  predicate IsLineTerminator(c: char) {
    c == '\n' || c == '\r' || c == '\U{2028}' || c == '\U{2029}'
  }

  predicate OneLine(s: string) {
    forall i :: 0 <= i < |s| ==> !IsLineTerminator(s[i])
  }

  /** Cut at the first two dashes that are followed by no line terminator. */
  function WithoutComment(raw: string): string {
    if raw == "" then ""
    else if |raw| >= 2 && raw[0] == '-' && raw[1] == '-' && OneLine(raw[2..]) then ""
    else [raw[0]] + WithoutComment(raw[1..])
  }

  function StripAll(raw: seq<string>): (lines: seq<string>)
    ensures |lines| == |raw| && forall i :: 0 <= i < |raw| ==> lines[i] == WithoutComment(raw[i])
  {
    seq(|raw|, i requires 0 <= i < |raw| => WithoutComment(raw[i]))
  }

  function Stripped(sql: string): seq<string> {
    StripAll(Split(sql, '\n'))
  }

  // ---- The blocks of a file ----

  /** The lines from `from` up to `to`, each behind a space. */
  function BlockText(lines: seq<string>, from: nat, to: nat): string
    requires from <= to <= |lines|
  {
    if from == to then "" else BlockText(lines, from, to - 1) + " " + lines[to - 1]
  }

  /** The first line that is not blank, or `to`. */
  function FirstCode(lines: seq<string>, from: nat, to: nat): (k: nat)
    requires from <= to <= |lines|
    ensures from <= k <= to
    ensures forall j :: from <= j < k ==> Blank(lines[j])
    ensures k < to ==> !Blank(lines[k])
    decreases if from <= to then to - from else 0
  {
    if from == to then to else if !Blank(lines[from]) then from else FirstCode(lines, from + 1, to)
  }

  function StatementOf(lines: seq<string>, from: nat, to: nat): Statement
    requires from <= to <= |lines|
  {
    Statement(FirstCode(lines, from, to) + 1, BlockText(lines, from, to))
  }

  /** Where the block still open after n lines begins: behind the last line with a semicolon. */
  function OpenFrom(lines: seq<string>, n: nat): (from: nat)
    requires n <= |lines|
    ensures from <= n
    ensures from > 0 ==> ';' in lines[from - 1]
    ensures forall k :: from <= k < n ==> ';' !in lines[k]
  {
    if n == 0 then 0 else if ';' in lines[n - 1] then n else OpenFrom(lines, n - 1)
  }

  /** The statement of every block closed among the first n lines. */
  function Closed(lines: seq<string>, n: nat): seq<Statement>
    requires n <= |lines|
  {
    if n == 0 then []
    else Closed(lines, n - 1)
         + if ';' in lines[n - 1] then [StatementOf(lines, OpenFrom(lines, n - 1), n)] else []
  }

  /** The closed blocks and, unless it is blank, what follows the last of them. */
  function Statements(lines: seq<string>): seq<Statement> {
    var n := |lines|;
    Closed(lines, n)
    + if Blank(BlockText(lines, OpenFrom(lines, n), n)) then [] else [StatementOf(lines, OpenFrom(lines, n), n)]
  }

  lemma BlankConcat(a: string, b: string)
    ensures Blank(a + b) <==> Blank(a) && Blank(b)
  {
    assert forall i :: 0 <= i < |a| ==> (a + b)[i] == a[i];
    assert forall i :: 0 <= i < |b| ==> (a + b)[|a| + i] == b[i];
  }

  lemma {:induction false} BlankBlock(lines: seq<string>, from: nat, to: nat)
    requires from <= to <= |lines|
    ensures Blank(BlockText(lines, from, to)) <==> forall k :: from <= k < to ==> Blank(lines[k])
  {
    if from < to {
      BlankBlock(lines, from, to - 1);
      BlankConcat(BlockText(lines, from, to - 1) + " ", lines[to - 1]);
      BlankConcat(BlockText(lines, from, to - 1), " ");
    }
  }

  lemma SemicolonIsNotBlank(line: string)
    requires ';' in line
    ensures !Blank(line)
  {
  }

  method StatementsOf(sql: string) returns (out: seq<Statement>)
    ensures out == Statements(Stripped(sql))
  {
    out := Collect(Split(sql, '\n'), Stripped(sql));
  }

  method Collect(raw: seq<string>, ghost lines: seq<string>) returns (out: seq<Statement>)
    requires lines == StripAll(raw)
    ensures out == Statements(lines)
  {
    out := [];
    var buffer := "";
    var startLine := 1;
    for i := 0 to |raw|
      invariant out == Closed(lines, i)
      invariant OpenBlock(lines, i, buffer, startLine)
    {
      var line := WithoutComment(raw[i]);
      assert line == lines[i];
      out, buffer, startLine := TakeLine(lines, i, line, out, buffer, startLine);
    }
    if !Blank(buffer) {
      out := out + [Statement(startLine, buffer)];
    }
  }

  /** Line number i goes to the buffer; a semicolon on it closes the statement. */
  method TakeLine(
    ghost lines: seq<string>, i: nat, line: string, out: seq<Statement>, buffer: string, startLine: nat)
    returns (out': seq<Statement>, buffer': string, startLine': nat)
    requires i < |lines| && line == lines[i]
    requires out == Closed(lines, i) && OpenBlock(lines, i, buffer, startLine)
    ensures out' == Closed(lines, i + 1) && OpenBlock(lines, i + 1, buffer', startLine')
  {
    OpenBlockStep(lines, i, buffer, startLine);
    out', buffer', startLine' := out, buffer, startLine;
    if Blank(buffer) && !Blank(line) {
      startLine' := i + 1;
    }
    buffer' := buffer + " " + line;
    if ';' in line {
      if !Blank(buffer') {
        out' := out' + [Statement(startLine', buffer')];
      }
      buffer' := "";
    }
  }

  /** The buffer holds the block open after i lines, and the start line is its first line of code. */
  predicate OpenBlock(lines: seq<string>, i: nat, buffer: string, startLine: nat)
    requires i <= |lines|
  {
    && buffer == BlockText(lines, OpenFrom(lines, i), i)
    && (!Blank(buffer) ==> startLine == FirstCode(lines, OpenFrom(lines, i), i) + 1)
  }

  lemma OpenBlockStep(lines: seq<string>, i: nat, buffer: string, startLine: nat)
    requires i < |lines| && OpenBlock(lines, i, buffer, startLine)
    ensures var line := lines[i];
            var startLine' := if Blank(buffer) && !Blank(line) then i + 1 else startLine;
            var buffer' := buffer + " " + line;
            if ';' in line then
              && !Blank(buffer')
              && Closed(lines, i + 1) == Closed(lines, i) + [Statement(startLine', buffer')]
              && OpenBlock(lines, i + 1, "", startLine')
            else
              Closed(lines, i + 1) == Closed(lines, i) && OpenBlock(lines, i + 1, buffer', startLine')
  {
    StartLineStep(lines, OpenFrom(lines, i), i, startLine);
    if ';' in lines[i] {
      SemicolonIsNotBlank(lines[i]);
    }
  }

  /** The start line is set by the block's first line of code and kept from then on. */
  lemma StartLineStep(lines: seq<string>, from: nat, i: nat, startLine: nat)
    requires from <= i < |lines|
    requires !Blank(BlockText(lines, from, i)) ==> startLine == FirstCode(lines, from, i) + 1
    ensures var before, after := BlockText(lines, from, i), BlockText(lines, from, i + 1);
            && (Blank(after) <==> Blank(before) && Blank(lines[i]))
            && (!Blank(after) ==> FirstCode(lines, from, i + 1) + 1 == if Blank(before) then i + 1 else startLine)
  {
    BlankBlock(lines, from, i);
    BlankBlock(lines, from, i + 1);
  }

  // ---- What the split promises ----

  /** A block: nothing before its first line is its own, and its only semicolon is on its last line. */
  predicate IsBlock(lines: seq<string>, from: nat, to: nat) {
    && from < to <= |lines|
    && (from > 0 ==> ';' in lines[from - 1])
    && ';' in lines[to - 1]
    && forall k :: from <= k < to - 1 ==> ';' !in lines[k]
  }

  /** Every closed statement is the whole of one block, and blocks come in order. */
  lemma {:induction false} ClosedAreBlocks(lines: seq<string>, n: nat, i: nat) returns (from: nat, to: nat)
    requires n <= |lines| && i < |Closed(lines, n)|
    ensures to <= OpenFrom(lines, n) && IsBlock(lines, from, to)
    ensures Closed(lines, n)[i] == StatementOf(lines, from, to)
    ensures from <= Closed(lines, n)[i].line - 1 < to
  {
    if i < |Closed(lines, n - 1)| {
      from, to := ClosedAreBlocks(lines, n - 1, i);
    } else {
      from, to := OpenFrom(lines, n - 1), n;
      SemicolonIsNotBlank(lines[n - 1]);
    }
  }

  /** And every line with a semicolon ends one. */
  lemma {:induction false} SemicolonsEndStatements(lines: seq<string>, n: nat, k: nat)
    requires k < n <= |lines| && ';' in lines[k]
    ensures StatementOf(lines, OpenFrom(lines, k), k + 1) in Closed(lines, n)
  {
    if k < n - 1 {
      SemicolonsEndStatements(lines, n - 1, k);
    }
  }

  lemma {:induction false} ClosedLinesIncrease(lines: seq<string>, n: nat, i: nat, j: nat)
    requires n <= |lines| && i < j < |Closed(lines, n)|
    ensures Closed(lines, n)[i].line < Closed(lines, n)[j].line
  {
    if j < |Closed(lines, n - 1)| {
      ClosedLinesIncrease(lines, n - 1, i, j);
    } else {
      var from, to := ClosedAreBlocks(lines, n - 1, i);
    }
  }

  /** Reported lines strictly increase, and each of them is code. */
  lemma LinesIncrease(lines: seq<string>, i: nat, j: nat)
    requires i < j < |Statements(lines)|
    ensures Statements(lines)[i].line < Statements(lines)[j].line
    ensures 1 <= Statements(lines)[j].line <= |lines| && !Blank(lines[Statements(lines)[j].line - 1])
  {
    var n := |lines|;
    if j < |Closed(lines, n)| {
      ClosedLinesIncrease(lines, n, i, j);
      var from, to := ClosedAreBlocks(lines, n, j);
      SemicolonIsNotBlank(lines[to - 1]);
    } else {
      var from, to := ClosedAreBlocks(lines, n, i);
      BlankBlock(lines, OpenFrom(lines, n), n);
    }
  }

  function Texts(out: seq<Statement>): string {
    if out == [] then "" else Texts(out[..|out| - 1]) + out[|out| - 1].text
  }

  lemma {:induction false} BlockInTwo(lines: seq<string>, from: nat, mid: nat, to: nat)
    requires from <= mid <= to <= |lines|
    ensures BlockText(lines, from, to) == BlockText(lines, from, mid) + BlockText(lines, mid, to)
  {
    if mid < to {
      BlockInTwo(lines, from, mid, to - 1);
    }
  }

  lemma TextsOneMore(out: seq<Statement>, last: Statement)
    ensures Texts(out + [last]) == Texts(out) + last.text
  {
    assert (out + [last])[..|out|] == out;
  }

  lemma {:induction false} ClosedTextsJoin(lines: seq<string>, n: nat)
    requires n <= |lines|
    ensures Texts(Closed(lines, n)) == BlockText(lines, 0, OpenFrom(lines, n))
  {
    if n > 0 {
      ClosedTextsJoin(lines, n - 1);
      if ';' in lines[n - 1] {
        TextsOneMore(Closed(lines, n - 1), StatementOf(lines, OpenFrom(lines, n - 1), n));
        BlockInTwo(lines, 0, OpenFrom(lines, n - 1), n);
      } else {
        assert Closed(lines, n) == Closed(lines, n - 1);
      }
    }
  }

  /** Nothing but a blank tail is lost: the statements' texts, put together, are the stripped file. */
  lemma NothingIsLost(lines: seq<string>)
    ensures var tail := BlockText(lines, OpenFrom(lines, |lines|), |lines|);
            Texts(Statements(lines)) + (if Blank(tail) then tail else "") == BlockText(lines, 0, |lines|)
  {
    var n := |lines|;
    var out := Statements(lines);
    ClosedTextsJoin(lines, n);
    BlockInTwo(lines, 0, OpenFrom(lines, n), n);
    if Blank(BlockText(lines, OpenFrom(lines, n), n)) {
      assert out == Closed(lines, n);
    } else {
      assert out[..|out| - 1] == Closed(lines, n);
    }
  }

  // ---- Comments ----

  /** Behind two dashes nothing is seen, as long as no line terminator follows them. */
  lemma {:induction false} CommentIsUnseen(code: string, comment: string)
    requires OneLine(comment)
    ensures WithoutComment(code + "--" + comment) == WithoutComment(code + "--")
  {
    var long, short := code + "--" + comment, code + "--";
    if code == "" {
      assert long[2..] == comment && short[2..] == "";
    } else {
      assert long[1..] == code[1..] + "--" + comment && short[1..] == code[1..] + "--";
      CommentIsUnseen(code[1..], comment);
      if long[0] == '-' && long[1] == '-' {
        OneLineAlike(long[2..], short[2..], comment);
      }
    }
  }

  lemma OneLineAlike(long: string, short: string, comment: string)
    requires OneLine(comment) && long == short + comment
    ensures OneLine(long) <==> OneLine(short)
  {
    assert forall i :: 0 <= i < |short| ==> long[i] == short[i];
    assert forall i :: |short| <= i < |long| ==> long[i] == comment[i - |short|];
  }

  /** The line is some code, two dashes and a comment that no line terminator interrupts. */
  predicate IsCommented(line: string, code: string, comment: string) {
    line == code + "--" + comment && OneLine(comment)
  }

  /** Equal lines, or the same code under two comments. */
  ghost predicate SameButComment(a: string, b: string) {
    a == b || exists code, x, y :: IsCommented(a, code, x) && IsCommented(b, code, y)
  }

  /** Two files that differ, line by line, in their comments only split alike. */
  lemma CommentsDoNotMatter(one: string, other: string)
    requires |Split(one, '\n')| == |Split(other, '\n')|
    requires forall i :: 0 <= i < |Split(one, '\n')| ==> SameButComment(Split(one, '\n')[i], Split(other, '\n')[i])
    ensures Statements(Stripped(one)) == Statements(Stripped(other))
  {
    var these, those := Split(one, '\n'), Split(other, '\n');
    forall i | 0 <= i < |these|
      ensures WithoutComment(these[i]) == WithoutComment(those[i])
    {
      assert SameButComment(these[i], those[i]);
      if these[i] != those[i] {
        var code, x, y :| IsCommented(these[i], code, x) && IsCommented(those[i], code, y);
        CommentIsUnseen(code, x);
        CommentIsUnseen(code, y);
      }
    }
    assert Stripped(one) == Stripped(other);
  }

  /** What stands before the first two adjacent dashes of a line. */
  function CodeOf(raw: string): (code: string)
    ensures code <= raw
    ensures code != raw ==> |code| + 2 <= |raw| && raw[|code|] == raw[|code| + 1] == '-'
  {
    if raw == "" then ""
    else if |raw| >= 2 && raw[0] == '-' && raw[1] == '-' then ""
    else [raw[0]] + CodeOf(raw[1..])
  }

  /** No line terminator follows the first two dashes, if there are any. */
  predicate Strippable(raw: string) {
    CodeOf(raw) == raw || OneLine(raw[|CodeOf(raw)| + 2..])
  }

  /** Stripping a line leaves its code exactly when the line is strippable; or else it leaves the dashes. */
  lemma {:induction false} LineStrippedIff(raw: string)
    ensures CodeOf(raw) <= WithoutComment(raw)
    ensures WithoutComment(raw) == CodeOf(raw) <==> Strippable(raw)
    ensures !Strippable(raw) ==>
              |CodeOf(raw)| < |WithoutComment(raw)| && WithoutComment(raw)[|CodeOf(raw)|] == '-'
  {
    if raw != "" && !(|raw| >= 2 && raw[0] == '-' && raw[1] == '-') {
      LineStrippedIff(raw[1..]);
      var code := CodeOf(raw[1..]);
      if code != raw[1..] {
        assert raw[|CodeOf(raw)| + 2..] == raw[1..][|code| + 2..];
      }
    }
  }

  /** Code in which no comment begins, even with dashes behind it. */
  predicate IsCode(code: string) {
    && (forall i :: 0 < i < |code| ==> !(code[i - 1] == '-' && code[i] == '-'))
    && (code != "" ==> code[|code| - 1] != '-')
  }

  lemma TailOfCode(code: string)
    requires IsCode(code) && code != ""
    ensures IsCode(code[1..])
    ensures code[0] == '-' ==> |code| > 1 && code[1] != '-'
  {
    var tail := code[1..];
    if |code| > 1 {
      assert code[1 - 1] == code[0] && tail[|tail| - 1] == code[|code| - 1];
    }
    forall i | 0 < i < |tail|
      ensures !(tail[i - 1] == '-' && tail[i] == '-')
    {
      assert !(code[i + 1 - 1] == '-' && code[i + 1] == '-');
    }
  }

  lemma {:induction false} CodeBeforeDashes(code: string, rest: string)
    requires IsCode(code)
    ensures CodeOf(code + "--" + rest) == code
  {
    if code != "" {
      var raw := code + "--" + rest;
      TailOfCode(code);
      CodeBeforeDashes(code[1..], rest);
      assert raw[1..] == code[1..] + "--" + rest;
      assert raw[0] == code[0] && raw[1] == if |code| > 1 then code[1] else '-';
    }
  }

  /** A comment can be taken off its code exactly when no line terminator is in it. */
  lemma CommentGoesIff(code: string, comment: string)
    requires IsCode(code)
    ensures WithoutComment(code + "--" + comment) == code
            <==> '\n' !in comment && '\r' !in comment && '\U{2028}' !in comment && '\U{2029}' !in comment
  {
    var raw := code + "--" + comment;
    CodeBeforeDashes(code, comment);
    LineStrippedIff(raw);
    assert raw[|code| + 2..] == comment;
  }

  /** The file with every comment taken out, whatever is in it. */
  function CodeLines(sql: string): (lines: seq<string>)
    ensures |lines| == |Split(sql, '\n')|
  {
    var raw := Split(sql, '\n');
    seq(|raw|, i requires 0 <= i < |raw| => CodeOf(raw[i]))
  }

  lemma {:induction false} BlockOfSame(a: seq<string>, b: seq<string>, to: nat)
    requires to <= |a| && to <= |b| && forall i :: 0 <= i < to ==> a[i] == b[i]
    ensures BlockText(a, 0, to) == BlockText(b, 0, to)
  {
    if to > 0 {
      BlockOfSame(a, b, to - 1);
    }
  }

  lemma {:induction false} BlockBeginsWithSpace(lines: seq<string>, from: nat, to: nat)
    requires from < to <= |lines|
    ensures BlockText(lines, from, to) != "" && BlockText(lines, from, to)[0] == ' '
  {
    if from < to - 1 {
      BlockBeginsWithSpace(lines, from, to - 1);
    }
  }

  /** Where line k ends in the text of all lines there is more of it, the next line's space, or the end. */
  lemma TextAtLine(lines: seq<string>, k: nat, part: string)
    requires k < |lines| && part <= lines[k]
    ensures var text, p := BlockText(lines, 0, |lines|), |BlockText(lines, 0, k)| + 1 + |part|;
            if part < lines[k] then p < |text| && text[p] == lines[k][|part|]
            else p == |text| || (p < |text| && text[p] == ' ')
  {
    BlockInTwo(lines, 0, k, |lines|);
    BlockInTwo(lines, k, k + 1, |lines|);
    assert BlockText(lines, k, k + 1) == "" + " " + lines[k];
    if k + 1 < |lines| {
      BlockBeginsWithSpace(lines, k + 1, |lines|);
    }
  }

  lemma TextsAndBlankTail(lines: seq<string>) returns (tail: string)
    ensures Blank(tail) && Texts(Statements(lines)) + tail == BlockText(lines, 0, |lines|)
  {
    NothingIsLost(lines);
    tail := BlockText(lines, OpenFrom(lines, |lines|), |lines|);
    tail := if Blank(tail) then tail else "";
  }

  lemma DashAtShows(texts: string, tail: string, texts': string, tail': string, p: nat)
    requires Blank(tail) && p < |texts + tail| && (texts + tail)[p] == '-'
    requires p >= |texts' + tail'| || (texts' + tail')[p] == ' '
    ensures texts != texts'
  {
    if p < |texts| && p < |texts'| {
      assert (texts + tail)[p] == texts[p] && (texts' + tail')[p] == texts'[p];
    }
  }

  /** Dashes left on any line show in the statements. */
  lemma DashesShow(stripped: seq<string>, code: seq<string>, k: nat)
    requires |stripped| == |code| && k < |code|
    requires forall i :: 0 <= i < k ==> stripped[i] == code[i]
    requires code[k] < stripped[k] && stripped[k][|code[k]|] == '-'
    ensures Statements(stripped) != Statements(code)
  {
    BlockOfSame(stripped, code, k);
    TextAtLine(stripped, k, code[k]);
    TextAtLine(code, k, code[k]);
    var tail := TextsAndBlankTail(stripped);
    var tail' := TextsAndBlankTail(code);
    DashAtShows(Texts(Statements(stripped)), tail, Texts(Statements(code)), tail',
                |BlockText(code, 0, k)| + 1 + |code[k]|);
  }

  predicate AllStrippable(raw: seq<string>) {
    forall i :: 0 <= i < |raw| ==> Strippable(raw[i])
  }

  lemma FirstUnstrippable(raw: seq<string>) returns (k: nat)
    requires !AllStrippable(raw)
    ensures k < |raw| && !Strippable(raw[k]) && forall i :: 0 <= i < k ==> Strippable(raw[i])
  {
    k := 0;
    while Strippable(raw[k])
      invariant k < |raw| && forall i :: 0 <= i < k ==> Strippable(raw[i])
      decreases |raw| - k
    {
      k := k + 1;
    }
  }

  /**
   The statements are those of the file without its comments exactly when no line has a line terminator
   behind its first two dashes: a CR before the LF, or any of the others inside a comment.
   */
  lemma CommentsStrippedIff(sql: string)
    ensures Statements(Stripped(sql)) == Statements(CodeLines(sql))
            <==> AllStrippable(Split(sql, '\n'))
  {
    var raw := Split(sql, '\n');
    forall i | 0 <= i < |raw|
      ensures Strippable(raw[i]) ==> Stripped(sql)[i] == CodeLines(sql)[i]
    {
      LineStrippedIff(raw[i]);
    }
    if AllStrippable(raw) {
      assert Stripped(sql) == CodeLines(sql);
    } else {
      var k := FirstUnstrippable(raw);
      LineStrippedIff(raw[k]);
      DashesShow(Stripped(sql), CodeLines(sql), k);
    }
  }

  lemma {:induction false} PiecesComeFromText(s: string, c: char, i: nat)
    requires i < |Split(s, c)|
    ensures c !in Split(s, c)[i] && forall x :: x in Split(s, c)[i] ==> x in s
  {
    if s != "" {
      var rest := Split(s[1..], c);
      PiecesComeFromText(s[1..], c, 0);
      if i > 0 {
        PiecesComeFromText(s[1..], c, if s[0] == c then i - 1 else i);
      }
    }
  }

  /** With LF as the only line terminator of the file every comment is stripped. */
  lemma LfFilesAreStripped(sql: string)
    requires forall c :: c in sql && IsLineTerminator(c) ==> c == '\n'
    ensures Statements(Stripped(sql)) == Statements(CodeLines(sql))
  {
    forall i | 0 <= i < |Split(sql, '\n')|
      ensures Strippable(Split(sql, '\n')[i])
    {
      PiecesComeFromText(sql, '\n', i);
      var line := Split(sql, '\n')[i];
      assert forall j :: 0 <= j < |line| ==> line[j] in line;
      assert OneLine(line);
    }
    CommentsStrippedIff(sql);
  }

  /** A line that ends in a CR, as all but the last of a CR LF file do, keeps its comment. */
  lemma {:induction false} CrKeepsComments(line: string)
    ensures WithoutComment(line + "\r") == line + "\r"
  {
    var raw := line + "\r";
    if line == "" {
      assert raw[1..] == "";
    } else {
      assert raw[1..] == line[1..] + "\r";
      CrKeepsComments(line[1..]);
      if |raw| >= 2 && raw[0] == '-' && raw[1] == '-' {
        assert raw[2..][|raw| - 3] == '\r';
      }
    }
  }
}
