/**
 Reading a turn off the wire: text arrives in arbitrary pieces, is cut into frames at blank lines
 as it comes, and every frame's data lines are parsed and reduced.
 */
module EventStream {
  import opened Text
  import opened Json
  import opened StreamReducer

  /** Cut at every line break, LF or CR LF: the CR in front of a LF belongs to the break. */
  function Lines(frame: string): seq<string> {
    var pieces := Split(frame, '\n');
    seq(|pieces|, i requires 0 <= i < |pieces| => if i < |pieces| - 1 then WithoutFinalCr(pieces[i]) else pieces[i])
  }

  function WithoutFinalCr(line: string): string {
    if line != "" && line[|line| - 1] == '\r' then line[..|line| - 1] else line
  }

  /** The record on a data line; every other line, and text that is no record, is dropped in silence. */
  function Payload(line: string, parse: Parser): seq<Json> {
    if |line| >= 5 && line[..5] == "data:" then
      var payload := Trim(line[5..]);
      if payload == "" || payload == "[DONE]" then []
      else
        match parse(payload)
        case None => []
        case Some(v) => if IsRecord(v) then [v] else []
    else []
  }

  function Payloads(lines: seq<string>, parse: Parser): seq<Json> {
    if lines == [] then [] else Payload(lines[0], parse) + Payloads(lines[1..], parse)
  }

  function ParseFrame(frame: string, parse: Parser): seq<Json> {
    Payloads(Lines(frame), parse)
  }

  function ParseFrames(frames: seq<string>, parse: Parser): seq<Json> {
    if frames == [] then []
    else ParseFrames(frames[..|frames| - 1], parse) + ParseFrame(frames[|frames| - 1], parse)
  }

  /** Cut at every pair of line feeds, from the left. */
  function Frames(text: string): (frames: seq<string>)
    ensures frames != []
    decreases |text|
  {
    if |text| < 2 then [text]
    else if text[0] == '\n' && text[1] == '\n' then [""] + Frames(text[2..])
    else Prefixed(text[0], Frames(text[1..]))
  }

  /** The same frames, the first one begun by one more character. */
  function Prefixed(c: char, frames: seq<string>): seq<string>
    requires frames != []
  {
    [[c] + frames[0]] + frames[1..]
  }

  function Concat(chunks: seq<string>): string {
    if chunks == [] then "" else Concat(chunks[..|chunks| - 1]) + chunks[|chunks| - 1]
  }

  // ---- Cutting as the text comes in ----

  lemma {:induction false} LoneFrameIsTheText(text: string)
    requires |Frames(text)| == 1
    ensures Frames(text)[0] == text
  {
    if |text| >= 2 {
      LoneFrameIsTheText(text[1..]);
    }
  }

  lemma PrefixedConcat(c: char, frames: seq<string>, n: nat, more: seq<string>)
    requires 0 < n <= |frames|
    ensures Prefixed(c, frames[..n] + more) == Prefixed(c, frames)[..n] + more
  {
  }

  /** Cutting can stop at the end of a and go on, into b, from the last, unfinished frame. */
  predicate Resumes(a: string, b: string) {
    var frames := Frames(a);
    var last := |frames| - 1;
    Frames(a + b) == frames[..last] + Frames(frames[last] + b)
  }

  lemma ResumesInOneFrame(a: string, b: string)
    requires Frames(a) == [a]
    ensures Resumes(a, b)
  {
    assert Frames(a)[..0] + Frames(a + b) == Frames(a + b);
  }

  lemma ResumesPastBlank(a: string, b: string)
    requires |a| >= 2 && a[0] == '\n' && a[1] == '\n' && Resumes(a[2..], b)
    ensures Resumes(a, b)
  {
    var rest, text := Frames(a[2..]), a + b;
    assert text[2..] == a[2..] + b;
    assert Frames(text) == [""] + Frames(text[2..]);
    assert ([""] + rest)[..|rest|] == [""] + rest[..|rest| - 1];
  }

  lemma ResumesPastOther(a: string, b: string)
    requires |a| >= 2 && !(a[0] == '\n' && a[1] == '\n') && Resumes(a[1..], b)
    requires |Frames(a[1..])| > 1
    ensures Resumes(a, b)
  {
    var rest, text := Frames(a[1..]), a + b;
    var last := |rest| - 1;
    assert text[1..] == a[1..] + b;
    assert Frames(text) == Prefixed(a[0], Frames(text[1..]));
    PrefixedConcat(a[0], rest, last, Frames(rest[last] + b));
  }

  lemma {:induction false} CuttingResumes(a: string, b: string)
    ensures Resumes(a, b)
    decreases |a|
  {
    if |Frames(a)| == 1 {
      LoneFrameIsTheText(a);
      ResumesInOneFrame(a, b);
    } else if a[0] == '\n' && a[1] == '\n' {
      CuttingResumes(a[2..], b);
      ResumesPastBlank(a, b);
    } else {
      CuttingResumes(a[1..], b);
      ResumesPastOther(a, b);
    }
  }

  /** The frames completed by the chunks so far, and what is carried over. */
  function Cut(chunks: seq<string>): (seq<string>, string) {
    if chunks == [] then ([], "")
    else
      var (done, buffer) := Cut(chunks[..|chunks| - 1]);
      var frames := Frames(buffer + chunks[|chunks| - 1]);
      (done + frames[..|frames| - 1], frames[|frames| - 1])
  }

  lemma {:induction false} CutAnyhow(chunks: seq<string>)
    ensures Cut(chunks).0 + [Cut(chunks).1] == Frames(Concat(chunks))
  {
    if chunks != [] {
      var n := |chunks| - 1;
      CutAnyhow(chunks[..n]);
      var (done, buffer) := Cut(chunks[..n]);
      var soFar := Frames(Concat(chunks[..n]));
      assert soFar[..|done|] == done;
      CuttingResumes(Concat(chunks[..n]), chunks[n]);
    }
  }

  // ---- Cutting loses nothing ----

  lemma TrimDropsFinalCr(s: string)
    ensures Trim(s + "\r") == Trim(s)
  {
    StartThenEnd(s);
  }

  lemma {:induction false} StartThenEnd(s: string)
    ensures TrimEnd(TrimStart(s + "\r")) == TrimEnd(TrimStart(s))
  {
    if s != "" && IsSpace(s[0]) {
      assert (s + "\r")[1..] == s[1..] + "\r";
      StartThenEnd(s[1..]);
    } else if s == "" {
      assert (s + "\r")[1..] == "";
    } else {
      assert (s + "\r")[..|s|] == s;
    }
  }

  /** A CR left at the end of a data line never reaches the record. */
  lemma FinalCrIsImmaterial(line: string, parse: Parser)
    ensures Payload(WithoutFinalCr(line), parse) == Payload(line, parse)
  {
    if line != "" && line[|line| - 1] == '\r' {
      var short := line[..|line| - 1];
      if |line| >= 5 && line[..5] == "data:" {
        assert line[4] == ':';
        assert short[..5] == line[..5] && line[5..] == short[5..] + "\r";
        TrimDropsFinalCr(short[5..]);
      } else if |short| >= 5 {
        assert short[..5] == line[..5];
      }
    }
  }

  lemma {:induction false} SamePayloads(these: seq<string>, those: seq<string>, parse: Parser)
    requires |these| == |those|
    requires forall i :: 0 <= i < |these| ==> Payload(these[i], parse) == Payload(those[i], parse)
    ensures Payloads(these, parse) == Payloads(those, parse)
  {
    if these != [] {
      SamePayloads(these[1..], those[1..], parse);
    }
  }

  lemma ParseFrameReadsPieces(frame: string, parse: Parser)
    ensures ParseFrame(frame, parse) == Payloads(Split(frame, '\n'), parse)
  {
    var pieces := Split(frame, '\n');
    forall i | 0 <= i < |pieces|
      ensures Payload(Lines(frame)[i], parse) == Payload(pieces[i], parse)
    {
      FinalCrIsImmaterial(pieces[i], parse);
    }
    SamePayloads(Lines(frame), pieces, parse);
  }

  lemma {:induction false} PayloadsConcat(a: seq<string>, b: seq<string>, parse: Parser)
    ensures Payloads(a + b, parse) == Payloads(a, parse) + Payloads(b, parse)
  {
    if a == [] {
      assert a + b == b;
    } else {
      assert (a + b)[1..] == a[1..] + b;
      PayloadsConcat(a[1..], b, parse);
    }
  }

  lemma {:induction false} SplitAround(a: string, c: char, b: string)
    ensures Split(a + ([c] + b), c) == Split(a, c) + Split(b, c)
  {
    if a == "" {
      assert a + ([c] + b) == [c] + b && ([c] + b)[1..] == b;
    } else {
      assert (a + ([c] + b))[1..] == a[1..] + ([c] + b);
      SplitAround(a[1..], c, b);
    }
  }

  lemma SplitAroundBlankLine(a: string, b: string)
    ensures Split(a + ("\n\n" + b), '\n') == Split(a, '\n') + ([""] + Split(b, '\n'))
  {
    var rest := ['\n'] + b;
    assert "\n\n" + b == ['\n'] + rest;
    SplitAround(a, '\n', rest);
    SplitAround("", '\n', b);
    assert "" + rest == rest;
  }

  lemma PayloadsAroundBlank(a: seq<string>, b: seq<string>, parse: Parser)
    ensures Payloads(a + ([""] + b), parse) == Payloads(a, parse) + Payloads(b, parse)
  {
    PayloadsConcat(a, [""] + b, parse);
    assert ([""] + b)[1..] == b;
    assert Payload("", parse) == [];
  }

  lemma BlankLineSeparates(a: string, b: string, parse: Parser)
    ensures ParseFrame(a + ("\n\n" + b), parse) == ParseFrame(a, parse) + ParseFrame(b, parse)
  {
    SplitAroundBlankLine(a, b);
    PayloadsAroundBlank(Split(a, '\n'), Split(b, '\n'), parse);
    ParseFrameReadsPieces(a, parse);
    ParseFrameReadsPieces(b, parse);
    ParseFrameReadsPieces(a + ("\n\n" + b), parse);
  }

  lemma {:induction false} ParseFramesFromFront(frames: seq<string>, parse: Parser)
    requires frames != []
    ensures ParseFrames(frames, parse) == ParseFrame(frames[0], parse) + ParseFrames(frames[1..], parse)
  {
    var n := |frames| - 1;
    if n > 0 {
      ParseFramesFromFront(frames[..n], parse);
      ParseLast(frames, parse);
      ParseLast(frames[1..], parse);
      assert frames[..n][1..] == frames[1..][..n - 1];
      Associates(ParseFrame(frames[0], parse), ParseFrames(frames[1..][..n - 1], parse), ParseFrame(frames[n], parse));
    } else {
      ParseLast(frames, parse);
    }
  }

  lemma ParseLast(frames: seq<string>, parse: Parser)
    requires frames != []
    ensures var n := |frames| - 1;
            ParseFrames(frames, parse) == ParseFrames(frames[..n], parse) + ParseFrame(frames[n], parse)
  {
  }

  lemma Associates(a: seq<Json>, b: seq<Json>, c: seq<Json>)
    ensures a + b + c == a + (b + c)
  {
  }

  /** The text up to its first pair of line feeds, and the cut of what follows. */
  lemma {:induction false} FirstFrame(text: string)
    requires |Frames(text)| > 1
    ensures var n := |Frames(text)[0]|;
            && n + 2 <= |text|
            && text == Frames(text)[0] + ("\n\n" + text[n + 2..])
            && Frames(text)[1..] == Frames(text[n + 2..])
    decreases |text|
  {
    if text[0] == '\n' && text[1] == '\n' {
      assert text == "" + ("\n\n" + text[2..]);
      assert Frames(text)[1..] == Frames(text[2..]);
    } else {
      var later := Frames(text[1..]);
      FirstFrame(text[1..]);
      OneCharMore(text, later[0], text[1..][|later[0]| + 2..]);
    }
  }

  lemma OneCharMore(text: string, first: string, rest: string)
    requires text != "" && text[1..] == first + ("\n\n" + rest)
    ensures text == [text[0]] + first + ("\n\n" + rest)
    ensures |first| + 3 <= |text| && text[|first| + 3..] == rest
  {
    assert text == [text[0]] + text[1..];
  }

  /** Reading a text frame by frame is reading it at once. */
  lemma {:induction false} FramesCarryAllPayloads(text: string, parse: Parser)
    ensures ParseFrames(Frames(text), parse) == ParseFrame(text, parse)
    decreases |text|
  {
    var frames := Frames(text);
    if |frames| == 1 {
      LoneFrameIsTheText(text);
      assert ParseFrames(frames[..0], parse) == [];
    } else {
      FirstFrame(text);
      var rest := text[|frames[0]| + 2..];
      FramesCarryAllPayloads(rest, parse);
      BlankLineSeparates(frames[0], rest, parse);
      ParseFramesFromFront(frames, parse);
    }
  }

  /** The records fed to the reducer: every completed frame's, then those of a remainder, if any. */
  function Fed(chunks: seq<string>, parse: Parser): seq<Json> {
    var (done, buffer) := Cut(chunks);
    ParseFrames(done, parse) + if buffer == "" then [] else ParseFrame(buffer, parse)
  }

  /** However the text is cut into chunks, the reducer is fed what the whole text holds. */
  lemma ChunkingIsImmaterial(chunks: seq<string>, parse: Parser)
    ensures Fed(chunks, parse) == ParseFrame(Concat(chunks), parse)
  {
    var (done, buffer) := Cut(chunks);
    CutAnyhow(chunks);
    FramesCarryAllPayloads(Concat(chunks), parse);
    ParseFramesAppend(done, buffer, parse);
    EmptyFrameHoldsNothing(parse);
  }

  lemma ParseFramesAppend(frames: seq<string>, frame: string, parse: Parser)
    ensures ParseFrames(frames + [frame], parse) == ParseFrames(frames, parse) + ParseFrame(frame, parse)
  {
    assert (frames + [frame])[..|frames|] == frames;
  }

  lemma EmptyFrameHoldsNothing(parse: Parser)
    ensures ParseFrame("", parse) == []
  {
    ParseFrameReadsPieces("", parse);
    assert Payload("", parse) == [];
  }

  // ---- What a service writes is what is read ----

  /** One data frame per text, as the service sends them. */
  function Sent(texts: seq<string>): string {
    if texts == [] then "" else "data: " + texts[0] + "\n\n" + Sent(texts[1..])
  }

  /** A text that fits on one line, is not padded, and holds a record. */
  predicate Sendable(text: string, parse: Parser) {
    && text != "" && text != "[DONE]" && '\n' !in text
    && !IsSpace(text[0]) && !IsSpace(text[|text| - 1])
    && parse(text).Some? && IsRecord(parse(text).value)
  }

  function RecordOf(text: string, parse: Parser): Json
    requires Sendable(text, parse)
  {
    parse(text).value
  }

  lemma SentLine(text: string, parse: Parser)
    requires Sendable(text, parse)
    ensures ParseFrame("data: " + text, parse) == [RecordOf(text, parse)]
  {
    var line := "data: " + text;
    assert line[..5] == "data:" && line[5..] == " " + text;
    assert (" " + text)[1..] == text;
    assert TrimStart(" " + text) == TrimStart(text) == text;
    assert Trim(line[5..]) == text;
    NoBreakIsOnePiece(line);
    ParseFrameReadsPieces(line, parse);
  }

  lemma {:induction false} TrimBlanks(w: string, text: string, w': string)
    requires Blank(w) && Blank(w') && text != "" && !IsSpace(text[0]) && !IsSpace(text[|text| - 1])
    ensures Trim(w + text + w') == text
    decreases |w| + |w'|
  {
    if w != "" {
      assert w + text + w' == [w[0]] + (w[1..] + text + w');
      TrimBlanks(w[1..], text, w');
    } else if w' != "" {
      var n := |w'| - 1;
      var t := w + text + w';
      assert TrimStart(t) == t;
      assert t == (w + text + w'[..n]) + [w'[n]];
      assert TrimStart(w + text + w'[..n]) == w + text + w'[..n];
      TrimBlanks(w, text, w'[..n]);
    } else {
      assert w + text + w' == text;
    }
  }

  lemma {:induction false} TrimNothing(w: string)
    requires Blank(w)
    ensures Trim(w) == ""
  {
    if w != "" {
      TrimNothing(w[1..]);
    }
  }

  /**
   What a line holds, said of the line: behind `data:`, and white space around it taken off, a text that
   parses to an object or an array; nothing for the end mark, an empty text, or one that does not parse.
   */
  lemma DataLineHolds(w: string, text: string, w': string, parse: Parser)
    requires Blank(w) && Blank(w') && '\n' !in w && '\n' !in w' && '\n' !in text
    requires text == "" || (!IsSpace(text[0]) && !IsSpace(text[|text| - 1]))
    ensures ParseFrame("data:" + w + text + w', parse)
         == if text != "" && text != "[DONE]" && parse(text).Some? && (parse(text).value.Obj? || parse(text).value.Arr?)
            then [parse(text).value] else []
  {
    var line := "data:" + w + text + w';
    assert line[..5] == "data:" && line[5..] == w + text + w';
    if text == "" {
      assert w + text + w' == w + w';
      assert Blank(w + w');
      TrimNothing(w + w');
    } else {
      TrimBlanks(w, text, w');
    }
    NoBreakIsOnePiece(line);
    ParseFrameReadsPieces(line, parse);
  }

  /** Lines that do not begin with `data:` hold nothing. */
  lemma OtherLinesHoldNothing(line: string, parse: Parser)
    requires '\n' !in line && !("data:" <= line)
    ensures ParseFrame(line, parse) == []
  {
    NoBreakIsOnePiece(line);
    ParseFrameReadsPieces(line, parse);
    if |line| >= 5 {
      assert line[..5] != "data:";
    }
  }

  lemma {:induction false} NoBreakIsOnePiece(s: string)
    requires '\n' !in s
    ensures Split(s, '\n') == [s]
  {
    if s != "" {
      NoBreakIsOnePiece(s[1..]);
      assert [s[0]] + s[1..] == s;
    }
  }

  /** Every record sent is read back, in order, and nothing else is. */
  lemma {:induction false} SentIsRead(texts: seq<string>, parse: Parser)
    requires forall i :: 0 <= i < |texts| ==> Sendable(texts[i], parse)
    ensures var read := ParseFrame(Sent(texts), parse);
            |read| == |texts|
            && forall i :: 0 <= i < |texts| ==> Sendable(texts[i], parse) && read[i] == RecordOf(texts[i], parse)
  {
    if texts == [] {
      EmptyFrameHoldsNothing(parse);
    } else {
      var rest := Sent(texts[1..]);
      SentIsRead(texts[1..], parse);
      SentLine(texts[0], parse);
      BlankLineSeparates("data: " + texts[0], rest, parse);
      assert Sent(texts) == ("data: " + texts[0]) + ("\n\n" + rest);
    }
  }

  // ---- The stream reader ----

  /** What a record, its number given, makes of the turn so far. */
  type Step = (View, Json, nat) -> View

  /** The turn these records come to. */
  function Folded(records: seq<Json>, step: Step): View {
    if records == [] then EMPTY
    else
      var n := |records| - 1;
      step(Folded(records[..n], step), records[n], n)
  }

  /** Record n is absorbed at the time the clock shows it. */
  function StepOf(parse: Parser, clock: nat -> int): Step {
    (v: View, record: Json, n: nat) => Reduced(v, Classified(record), clock(n), parse)
  }

  ghost predicate Absorbs(step: Step, parse: Parser, clock: nat -> int) {
    forall v: View, record: Json, n: nat {:trigger Reduced(v, Classified(record), clock(n), parse)} ::
      step(v, record, n) == Reduced(v, Classified(record), clock(n), parse)
  }

  function Timed(records: seq<Json>, clock: nat -> int): seq<Event> {
    seq(|records|, k requires 0 <= k < |records| => Event(Classified(records[k]), clock(k)))
  }

  lemma {:induction false} ReadIsTimedTurn(records: seq<Json>, parse: Parser, clock: nat -> int)
    ensures Folded(records, StepOf(parse, clock)) == Turn(Timed(records, clock), parse)
  {
    if records != [] {
      var n := |records| - 1;
      ReadIsTimedTurn(records[..n], parse, clock);
      assert Timed(records, clock)[..n] == Timed(records[..n], clock);
    }
  }

  lemma FoldedOneMore(fed: seq<Json>, records: seq<Json>, k: nat, step: Step)
    requires k < |records|
    ensures Folded(fed + records[..k + 1], step) == step(Folded(fed + records[..k], step), records[k], |fed| + k)
  {
    var next := fed + records[..k + 1];
    assert next[..|fed| + k] == fed + records[..k];
  }

  method AbsorbOne(
    state: StreamState, record: Json, ghost before: View, at: nat, ghost step: Step, parse: Parser, clock: nat -> int)
    requires Absorbs(step, parse, clock) && state.Contents() == before
    modifies state
    ensures state.Contents() == step(before, record, at)
  {
    state.AbsorbChunk(Classified(record), clock(at), parse);
  }

  method AbsorbRecords(
    state: StreamState, records: seq<Json>, ghost fed: seq<Json>, at: nat,
    ghost step: Step, parse: Parser, clock: nat -> int)
    returns (at': nat)
    requires Absorbs(step, parse, clock)
    requires at == |fed| && state.Contents() == Folded(fed, step)
    modifies state
    ensures at' == at + |records|
    ensures state.Contents() == Folded(fed + records, step)
  {
    at' := at;
    assert fed + records[..0] == fed;
    for k := 0 to |records|
      invariant at' == at + k
      invariant state.Contents() == Folded(fed + records[..k], step)
    {
      FoldedOneMore(fed, records, k, step);
      AbsorbOne(state, records[k], Folded(fed + records[..k], step), at', step, parse, clock);
      at' := at' + 1;
    }
    assert records[..|records|] == records;
  }

  method AbsorbFrame(
    state: StreamState, frame: string, ghost fed: seq<Json>, at: nat,
    ghost step: Step, parse: Parser, clock: nat -> int)
    returns (at': nat)
    requires Absorbs(step, parse, clock)
    requires at == |fed| && state.Contents() == Folded(fed, step)
    modifies state
    ensures at' == at + |ParseFrame(frame, parse)|
    ensures state.Contents() == Folded(fed + ParseFrame(frame, parse), step)
  {
    at' := AbsorbRecords(state, ParseFrame(frame, parse), fed, at, step, parse, clock);
  }

  /** What the frames already read and the first k of the next ones hold. */
  ghost function FedUpTo(done: seq<string>, frames: seq<string>, k: nat, parse: Parser): seq<Json>
    requires k <= |frames|
  {
    ParseFrames(done + frames[..k], parse)
  }

  lemma FedOneMore(done: seq<string>, frames: seq<string>, k: nat, parse: Parser)
    requires k < |frames|
    ensures FedUpTo(done, frames, k + 1, parse) == FedUpTo(done, frames, k, parse) + ParseFrame(frames[k], parse)
  {
    assert done + frames[..k + 1] == done + frames[..k] + [frames[k]];
    ParseFramesAppend(done + frames[..k], frames[k], parse);
  }

  lemma FedEnds(done: seq<string>, frames: seq<string>, parse: Parser)
    ensures FedUpTo(done, frames, 0, parse) == ParseFrames(done, parse)
    ensures FedUpTo(done, frames, |frames|, parse) == ParseFrames(done + frames, parse)
  {
    assert done + frames[..0] == done && done + frames[..|frames|] == done + frames;
  }

  method AbsorbFrames(
    state: StreamState, frames: seq<string>, ghost done: seq<string>, at: nat,
    ghost step: Step, parse: Parser, clock: nat -> int)
    returns (at': nat)
    requires Absorbs(step, parse, clock)
    requires at == |ParseFrames(done, parse)| && state.Contents() == Folded(ParseFrames(done, parse), step)
    modifies state
    ensures at' == |ParseFrames(done + frames, parse)|
    ensures state.Contents() == Folded(ParseFrames(done + frames, parse), step)
  {
    at' := at;
    ghost var fed := ParseFrames(done, parse);
    FedEnds(done, frames, parse);
    for k := 0 to |frames|
      invariant fed == FedUpTo(done, frames, k, parse)
      invariant at' == |fed| && state.Contents() == Folded(fed, step)
    {
      at' := AbsorbFrame(state, frames[k], fed, at', step, parse, clock);
      fed := fed + ParseFrame(frames[k], parse);
      FedOneMore(done, frames, k, parse);
    }
  }

  /** The turn read chunk by chunk is the turn its whole text holds. */
  method ReadStream(chunks: seq<string>, parse: Parser, clock: nat -> int) returns (state: StreamState)
    ensures fresh(state)
    ensures state.Contents() == Turn(Timed(ParseFrame(Concat(chunks), parse), clock), parse)
  {
    state := new StreamState();
    var buffer := "";
    var at := 0;
    ghost var done: seq<string> := [];
    ghost var step := StepOf(parse, clock);
    for i := 0 to |chunks|
      invariant fresh(state)
      invariant Cut(chunks[..i]) == (done, buffer)
      invariant at == |ParseFrames(done, parse)|
      invariant state.Contents() == Folded(ParseFrames(done, parse), step)
    {
      assert chunks[..i + 1][..i] == chunks[..i];
      buffer := buffer + chunks[i];
      var frames := Frames(buffer);
      buffer := frames[|frames| - 1];
      frames := frames[..|frames| - 1];
      at := AbsorbFrames(state, frames, done, at, step, parse, clock);
      done := done + frames;
    }
    assert chunks[..|chunks|] == chunks;
    if |buffer| > 0 {
      at := AbsorbFrame(state, buffer, ParseFrames(done, parse), at, step, parse, clock);
    } else {
      assert Fed(chunks, parse) == ParseFrames(done, parse);
    }
    ChunkingIsImmaterial(chunks, parse);
    ReadIsTimedTurn(ParseFrame(Concat(chunks), parse), parse, clock);
  }
}
