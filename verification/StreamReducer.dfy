/**
 Reducing the frames of one turn to what the turn did: its text, its tool calls, its cost and its
 first error.
 */
module StreamReducer {
  import opened Text
  import opened Json

  /** JSON.parse, with None for text it throws on. */
  type Parser = string -> Option<Json>

  datatype Pending = Pending(name: string, input: Option<Json>, startedAtMs: int)

  datatype ToolCall = ToolCall(
    name: string, input: Option<Json>, output: Option<Json>, startedAtMs: Option<int>, latencyMs: Option<int>)

  datatype Usage = Usage(inputTokens: Option<real>, outputTokens: Option<real>, totalTokens: Option<real>)

  datatype AgentSpend = AgentSpend(steps: real, costUsd: real)

  datatype Spend = Spend(steps: real, costedSteps: real, costUsd: real, byAgent: map<string, AgentSpend>)

  datatype View = View(
    textParts: seq<string>,
    toolInputs: map<string, Pending>,
    toolCalls: seq<ToolCall>,
    finishReason: Option<string>,
    usage: Option<Usage>,
    spend: Option<Spend>,
    traceId: Option<string>,
    stepsUsed: nat,
    servedBy: Option<string>,
    modelProfileKey: Option<string>,
    error: Option<string>,
    firstOutputAt: Option<int>)

  const EMPTY := View([], map[], [], None, None, None, None, 0, None, None, None, None)

  /**
   The frame types the reducer tells apart. `OutputOnly` frames are only timed; a `Notice` is an error
   frame whose text says that the turn goes on.
   */
  datatype Kind =
    | TextDelta | OutputOnly | StartStep | Error | Notice | ToolInput | ToolOutput | Finish | Metadata | Unknown

  /** A record of the stream with its type read off. */
  datatype Frame = Frame(kind: Kind, body: Json)

  const NON_TERMINAL_WIRE_ERRORS := {
    "__fretik_transparent_failover__",
    "__fretik_non_terminal_step_error__",
    "Invalid tool input — adjust the arguments and retry.",
    "Stopped."
  }

  predicate SaysTheTurnGoesOn(errorText: Option<string>) {
    errorText.Some? && errorText.value in NON_TERMINAL_WIRE_ERRORS
  }

  function KindOf(record: Json): Kind {
    match ReadString(record, "type")
    case None => Unknown
    case Some(t) =>
      if t == "text-delta" then TextDelta
      else if t == "reasoning-delta" || t == "tool-input-start" then OutputOnly
      else if t == "start-step" then StartStep
      else if t == "error" then if SaysTheTurnGoesOn(ReadString(record, "errorText")) then Notice else Error
      else if t == "tool-input-available" then ToolInput
      else if t == "tool-output-available" then ToolOutput
      else if t == "finish" then Finish
      else if t == "message-metadata" then Metadata
      else Unknown
  }

  function Classified(record: Json): Frame {
    Frame(KindOf(record), record)
  }

  const NO_ERROR_TEXT := "stream error frame without errorText"

  function OrElse<T>(first: Option<T>, second: Option<T>): Option<T> {
    if first.Some? then first else second
  }

  function OrZero(n: Option<real>): real {
    if n.Some? then n.value else 0.0
  }

  /** An error frame that ends the turn: anything but one of the notices that it goes on. */
  predicate Terminal(chunk: Frame) {
    chunk.kind == Error
  }

  function ErrorText(chunk: Frame): string {
    match ReadString(chunk.body, "errorText")
    case Some(t) => t
    case None => NO_ERROR_TEXT
  }

  /** The trace a structured error carries inside its text. */
  function ErrorTrace(chunk: Frame, parse: Parser): Option<string> {
    match ReadString(chunk.body, "errorText")
    case None => None
    case Some(t) =>
      match parse(t)
      case None => None
      case Some(parsed) => ReadString(parsed, "traceId")
  }

  function NonEmpty(s: Option<string>): Option<string> {
    if s == Some("") then None else s
  }

  /** A dispatched tool: it needs a call id and a name, neither of them empty. */
  function DispatchedId(chunk: Frame): Option<string> {
    if chunk.kind == ToolInput && NonEmpty(ReadString(chunk.body, "toolName")).Some? then
      NonEmpty(ReadString(chunk.body, "toolCallId"))
    else None
  }

  function Dispatch(chunk: Frame, now: int): Pending
    requires DispatchedId(chunk).Some?
  {
    Pending(ReadString(chunk.body, "toolName").value, Field(chunk.body, "input"), now)
  }

  /** A finished call, as opposed to a progress report under the same id. */
  predicate FinalOutput(chunk: Frame) {
    chunk.kind == ToolOutput && Field(chunk.body, "preliminary") != Some(Bool(true))
  }

  function CallOf(entry: Option<Pending>, chunk: Frame, now: int): ToolCall {
    match entry
    case None => ToolCall("unknown", None, Field(chunk.body, "output"), None, None)
    case Some(p) =>
      ToolCall(p.name, p.input, Field(chunk.body, "output"), Some(p.startedAtMs), Some(now - p.startedAtMs))
  }

  function Lookup(inputs: map<string, Pending>, id: Option<string>): Option<Pending> {
    if id.Some? && id.value != "" && id.value in inputs then Some(inputs[id.value]) else None
  }

  predicate IsOutput(chunk: Frame) {
    chunk.kind == TextDelta || chunk.kind == OutputOnly
  }

  // ---- Message metadata ----

  function AgentSpends(buckets: Option<Json>): map<string, AgentSpend> {
    match buckets
    case Some(Obj(fields)) =>
      map k | k in fields && IsRecord(fields[k]) ::
        AgentSpend(OrZero(ReadNumber(fields[k], "steps")), OrZero(ReadNumber(fields[k], "costUsd")))
    case _ => map[]
  }

  function SpendOf(spend: Json): Option<Spend> {
    match ReadRecord(spend, "total")
    case None => None
    case Some(total) =>
      Some(Spend(OrZero(ReadNumber(total, "steps")), OrZero(ReadNumber(total, "costedSteps")),
                 OrZero(ReadNumber(total, "costUsd")), AgentSpends(Field(spend, "byAgent"))))
  }

  function UsageOf(usage: Json): Usage {
    Usage(ReadNumber(usage, "inputTokens"), ReadNumber(usage, "outputTokens"), ReadNumber(usage, "totalTokens"))
  }

  /** What a telemetry object says, each part on its own: the latest one given replaces the former. */
  function WithTelemetry(v: View, telemetry: Json): View {
    var spend := match ReadRecord(telemetry, "spend") case Some(s) => SpendOf(s) case None => None;
    var usage := match ReadRecord(telemetry, "usage") case Some(u) => Some(UsageOf(u)) case None => None;
    v.(servedBy := OrElse(ReadString(telemetry, "servedBy"), v.servedBy),
       modelProfileKey := OrElse(ReadString(telemetry, "modelProfileKey"), v.modelProfileKey),
       spend := OrElse(spend, v.spend),
       usage := OrElse(usage, v.usage))
  }

  function WithMetadata(v: View, mm: Option<Json>): View {
    match mm
    case None => v
    case Some(m) =>
      if !IsRecord(m) then v
      else
        var v' := v.(traceId := OrElse(ReadString(m, "langfuseTraceId"), v.traceId));
        match ReadRecord(m, "telemetry")
        case None => v'
        case Some(t) => WithTelemetry(v', t)
  }

  // ---- One frame ----

  function Reduced(v: View, chunk: Frame, now: int, parse: Parser): View {
    var v := if IsOutput(chunk) then v.(firstOutputAt := OrElse(v.firstOutputAt, Some(now))) else v;
    match chunk.kind
    case TextDelta =>
      var delta := ReadString(chunk.body, "delta");
      if delta.Some? then v.(textParts := v.textParts + [delta.value]) else v
    case StartStep => v.(stepsUsed := v.stepsUsed + 1)
    case Error =>
      v.(traceId := OrElse(v.traceId, ErrorTrace(chunk, parse)),
         error := OrElse(v.error, Some(ErrorText(chunk))))
    case Notice => v
    case ToolInput =>
      var id := DispatchedId(chunk);
      if id.Some? then v.(toolInputs := v.toolInputs[id.value := Dispatch(chunk, now)]) else v
    case ToolOutput =>
      if !FinalOutput(chunk) then v
      else v.(toolCalls := v.toolCalls
                           + [CallOf(Lookup(v.toolInputs, ReadString(chunk.body, "toolCallId")), chunk, now)])
    case Finish =>
      WithMetadata(v.(finishReason := OrElse(ReadString(chunk.body, "finishReason"), v.finishReason)),
                   Field(chunk.body, "messageMetadata"))
    case Metadata => WithMetadata(v, Field(chunk.body, "messageMetadata"))
    case OutputOnly => v
    case Unknown => v
  }

  class StreamState {
    var textParts: seq<string>
    var toolInputs: map<string, Pending>
    var toolCalls: seq<ToolCall>
    var finishReason: Option<string>
    var usage: Option<Usage>
    var spend: Option<Spend>
    var traceId: Option<string>
    var stepsUsed: nat
    var servedBy: Option<string>
    var modelProfileKey: Option<string>
    var error: Option<string>
    var firstOutputAt: Option<int>

    function Contents(): View
      reads this
    {
      View(textParts, toolInputs, toolCalls, finishReason, usage, spend, traceId, stepsUsed,
           servedBy, modelProfileKey, error, firstOutputAt)
    }

    constructor ()
      ensures Contents() == EMPTY
    {
      textParts, toolInputs, toolCalls := [], map[], [];
      finishReason, usage, spend, traceId := None, None, None, None;
      stepsUsed := 0;
      servedBy, modelProfileKey, error, firstOutputAt := None, None, None, None;
    }

    method AbsorbChunk(chunk: Frame, now: int, parse: Parser)
      modifies this
      ensures Contents() == Reduced(old(Contents()), chunk, now, parse)
    {
      if firstOutputAt.None? && IsOutput(chunk) {
        firstOutputAt := Some(now);
      }
      match chunk.kind
      case TextDelta =>
        var delta := ReadString(chunk.body, "delta");
        if delta.Some? {
          textParts := textParts + [delta.value];
        }
      case StartStep =>
        stepsUsed := stepsUsed + 1;
      case Error =>
        AbsorbError(chunk, parse);
      case ToolInput =>
        AbsorbToolInput(chunk, now);
      case ToolOutput =>
        AbsorbToolOutput(chunk, now);
      case Finish =>
        var reason := ReadString(chunk.body, "finishReason");
        if reason.Some? {
          finishReason := reason;
        }
        AbsorbMessageMetadata(Field(chunk.body, "messageMetadata"));
      case Metadata =>
        AbsorbMessageMetadata(Field(chunk.body, "messageMetadata"));
      case Notice =>
      case OutputOnly =>
      case Unknown =>
    }

    method AbsorbError(chunk: Frame, parse: Parser)
      requires chunk.kind == Error
      modifies this`traceId, this`error
      ensures traceId == OrElse(old(traceId), ErrorTrace(chunk, parse))
      ensures error == OrElse(old(error), Some(ErrorText(chunk)))
    {
      var text := ReadString(chunk.body, "errorText");
      if text.Some? {
        var parsed := parse(text.value);
        if parsed.Some? && IsRecord(parsed.value) {
          var errTraceId := ReadString(parsed.value, "traceId");
          if errTraceId.Some? && traceId.None? {
            traceId := errTraceId;
          }
        }
      }
      if error.None? {
        error := Some(if text.Some? then text.value else NO_ERROR_TEXT);
      }
    }

    method AbsorbToolInput(chunk: Frame, now: int)
      requires chunk.kind == ToolInput
      modifies this`toolInputs
      ensures var id := DispatchedId(chunk);
              toolInputs == if id.Some? then old(toolInputs)[id.value := Dispatch(chunk, now)] else old(toolInputs)
    {
      var id, name := ReadString(chunk.body, "toolCallId"), ReadString(chunk.body, "toolName");
      if id.Some? && id.value != "" && name.Some? && name.value != "" {
        toolInputs := toolInputs[id.value := Pending(name.value, Field(chunk.body, "input"), now)];
      }
    }

    method AbsorbToolOutput(chunk: Frame, now: int)
      requires chunk.kind == ToolOutput
      modifies this`toolCalls
      ensures toolCalls == old(toolCalls)
                           + if FinalOutput(chunk)
                             then [CallOf(Lookup(toolInputs, ReadString(chunk.body, "toolCallId")), chunk, now)]
                             else []
    {
      if Field(chunk.body, "preliminary") == Some(Bool(true)) {
        return;
      }
      var id := ReadString(chunk.body, "toolCallId");
      var entry := None;
      if id.Some? && id.value != "" && id.value in toolInputs {
        entry := Some(toolInputs[id.value]);
      }
      var latencyMs := if entry.Some? then Some(now - entry.value.startedAtMs) else None;
      toolCalls := toolCalls + [ToolCall(
        if entry.Some? then entry.value.name else "unknown",
        if entry.Some? then entry.value.input else None,
        Field(chunk.body, "output"),
        if entry.Some? then Some(entry.value.startedAtMs) else None,
        latencyMs)];
    }

    method AbsorbMessageMetadata(mm: Option<Json>)
      modifies this
      ensures Contents() == WithMetadata(old(Contents()), mm)
    {
      if mm.None? || !IsRecord(mm.value) {
        return;
      }
      var trace := ReadString(mm.value, "langfuseTraceId");
      if trace.Some? {
        traceId := trace;
      }
      var telemetry := ReadRecord(mm.value, "telemetry");
      if telemetry.None? {
        return;
      }
      AbsorbTelemetry(telemetry.value);
    }

    method AbsorbTelemetry(telemetry: Json)
      modifies this
      ensures Contents() == WithTelemetry(old(Contents()), telemetry)
    {
      var served := ReadString(telemetry, "servedBy");
      if served.Some? {
        servedBy := served;
      }
      var profileKey := ReadString(telemetry, "modelProfileKey");
      if profileKey.Some? {
        modelProfileKey := profileKey;
      }
      AbsorbSpend(ReadRecord(telemetry, "spend"));
      AbsorbUsage(ReadRecord(telemetry, "usage"));
    }

    method AbsorbUsage(used: Option<Json>)
      modifies this`usage
      ensures usage == OrElse(match used case Some(u) => Some(UsageOf(u)) case None => None, old(usage))
    {
      if used.None? {
        return;
      }
      usage := Some(UsageOf(used.value));
    }

    method AbsorbSpend(spent: Option<Json>)
      modifies this`spend
      ensures spend == OrElse(match spent case Some(s) => SpendOf(s) case None => None, old(spend))
    {
      if spent.Some? {
        var total := ReadRecord(spent.value, "total");
        if total.Some? {
          spend := Some(Spend(
            OrZero(ReadNumber(total.value, "steps")),
            OrZero(ReadNumber(total.value, "costedSteps")),
            OrZero(ReadNumber(total.value, "costUsd")),
            AgentSpends(Field(spent.value, "byAgent"))));
        }
      }
    }
  }

  // ---- A whole turn ----

  /** A frame and the time it was absorbed at. */
  datatype Event = Event(chunk: Frame, at: int)

  function Turn(events: seq<Event>, parse: Parser): View {
    if events == [] then EMPTY
    else
      var last := events[|events| - 1];
      Reduced(Turn(events[..|events| - 1], parse), last.chunk, last.at, parse)
  }

  /** Progress reports, errors the turn survives, and types nobody handles. */
  predicate Ignorable(chunk: Frame) {
    || chunk.kind == Unknown
    || (chunk.kind == ToolOutput && !FinalOutput(chunk))
    || chunk.kind == Notice
  }

  function Relevant(events: seq<Event>): seq<Event> {
    if events == [] then []
    else
      var last := events[|events| - 1];
      Relevant(events[..|events| - 1]) + if Ignorable(last.chunk) then [] else [last]
  }

  lemma {:induction false} IgnorableFramesLeaveNoTrace(events: seq<Event>, parse: Parser)
    ensures Turn(Relevant(events), parse) == Turn(events, parse)
  {
    if events != [] {
      var before, last := events[..|events| - 1], events[|events| - 1];
      IgnorableFramesLeaveNoTrace(before, parse);
      if Ignorable(last.chunk) {
        assert Relevant(events) == Relevant(before);
      } else {
        assert Relevant(events)[..|Relevant(before)|] == Relevant(before);
      }
    }
  }

  // ---- What each part of the result is made of ----

  /** The last event before n that satisfies what `id` asks: a dispatch under that id. */
  function LatestDispatch(events: seq<Event>, n: nat, id: string): (j: int)
    requires n <= |events|
    ensures -1 <= j < n
    ensures j >= 0 ==> DispatchedId(events[j].chunk) == Some(id)
    ensures forall k :: j < k < n ==> DispatchedId(events[k].chunk) != Some(id)
  {
    if n == 0 then -1
    else if DispatchedId(events[n - 1].chunk) == Some(id) then n - 1
    else LatestDispatch(events, n - 1, id)
  }

  lemma {:induction false} LatestDispatchOfPrefix(events: seq<Event>, m: nat, n: nat, id: string)
    requires n <= m <= |events|
    ensures LatestDispatch(events[..m], n, id) == LatestDispatch(events, n, id)
  {
    if n > 0 {
      LatestDispatchOfPrefix(events, m, n - 1, id);
    }
  }

  lemma InputsChangeByDispatchOnly(v: View, chunk: Frame, now: int, parse: Parser)
    ensures Reduced(v, chunk, now, parse).toolInputs
            == match DispatchedId(chunk)
               case None => v.toolInputs
               case Some(id) => v.toolInputs[id := Dispatch(chunk, now)]
  {
  }

  /** The open calls are, for each id ever dispatched, its latest dispatch. */
  lemma {:induction false} InputsAreLatestDispatches(events: seq<Event>, parse: Parser, id: string)
    ensures var inputs := Turn(events, parse).toolInputs;
            var j := LatestDispatch(events, |events|, id);
            && (id in inputs <==> j >= 0)
            && (j >= 0 ==> inputs[id] == Dispatch(events[j].chunk, events[j].at))
  {
    if events != [] {
      var before := events[..|events| - 1];
      var last := events[|events| - 1];
      InputsAreLatestDispatches(before, parse, id);
      LatestDispatchOfPrefix(events, |before|, |before|, id);
      InputsChangeByDispatchOnly(Turn(before, parse), last.chunk, last.at, parse);
    }
  }

  /** The call recorded for the output at position i: named by the latest earlier dispatch of its id. */
  function CallAt(events: seq<Event>, i: nat): ToolCall
    requires i < |events|
  {
    var id := NonEmpty(ReadString(events[i].chunk.body, "toolCallId"));
    var j := if id.Some? then LatestDispatch(events, i, id.value) else -1;
    CallOf(if j >= 0 then Some(Dispatch(events[j].chunk, events[j].at)) else None, events[i].chunk, events[i].at)
  }

  /** The positions, in order, at which a call finished. */
  function FinalOutputs(events: seq<Event>): (positions: seq<nat>)
    ensures forall k :: 0 <= k < |positions| ==>
              positions[k] < |events| && FinalOutput(events[positions[k]].chunk)
    ensures forall i :: 0 <= i < |events| && FinalOutput(events[i].chunk) ==> i in positions
    ensures forall k, l :: 0 <= k < l < |positions| ==> positions[k] < positions[l]
  {
    if events == [] then []
    else
      var n := |events| - 1;
      var before := FinalOutputs(events[..n]);
      before + if FinalOutput(events[n].chunk) then [n] else []
  }

  lemma CallsChangeByFinalOutputOnly(v: View, chunk: Frame, now: int, parse: Parser)
    ensures Reduced(v, chunk, now, parse).toolCalls
            == if FinalOutput(chunk)
               then v.toolCalls + [CallOf(Lookup(v.toolInputs, ReadString(chunk.body, "toolCallId")), chunk, now)]
               else v.toolCalls
  {
  }

  /** One recorded call per finished one, never per progress report, each with its own input. */
  lemma {:induction false} CallsAreFinalOutputs(events: seq<Event>, parse: Parser)
    ensures var calls := Turn(events, parse).toolCalls;
            var positions := FinalOutputs(events);
            && |calls| == |positions|
            && forall k :: 0 <= k < |calls| ==> calls[k] == CallAt(events, positions[k])
  {
    if events != [] {
      var n := |events| - 1;
      var before, last := events[..n], events[n];
      CallsAreFinalOutputs(before, parse);
      forall k | 0 <= k < |FinalOutputs(before)|
        ensures CallAt(before, FinalOutputs(before)[k]) == CallAt(events, FinalOutputs(before)[k])
      {
        CallAtOfPrefix(events, n, FinalOutputs(before)[k]);
      }
      CallsChangeByFinalOutputOnly(Turn(before, parse), last.chunk, last.at, parse);
      if FinalOutput(last.chunk) {
        LookupIsLatestDispatch(events, n, parse);
      }
    }
  }

  lemma CallAtOfPrefix(events: seq<Event>, m: nat, i: nat)
    requires i < m <= |events|
    ensures CallAt(events[..m], i) == CallAt(events, i)
  {
    var id := NonEmpty(ReadString(events[i].chunk.body, "toolCallId"));
    if id.Some? {
      LatestDispatchOfPrefix(events, m, i, id.value);
    }
  }

  lemma LookupIsLatestDispatch(events: seq<Event>, n: nat, parse: Parser)
    requires n < |events|
    ensures CallOf(Lookup(Turn(events[..n], parse).toolInputs, ReadString(events[n].chunk.body, "toolCallId")),
                   events[n].chunk, events[n].at)
            == CallAt(events, n)
  {
    var id := NonEmpty(ReadString(events[n].chunk.body, "toolCallId"));
    if id.Some? {
      InputsAreLatestDispatches(events[..n], parse, id.value);
      LatestDispatchOfPrefix(events, n, n, id.value);
    }
  }

  /** The first event that satisfies a test, or -1. */
  function First(events: seq<Event>, test: Frame -> bool): (i: int)
    ensures -1 <= i < |events|
    ensures i >= 0 ==> test(events[i].chunk) && forall k :: 0 <= k < i ==> !test(events[k].chunk)
    ensures i == -1 ==> forall k :: 0 <= k < |events| ==> !test(events[k].chunk)
  {
    if events == [] then -1
    else
      var i := First(events[..|events| - 1], test);
      if i >= 0 then i else if test(events[|events| - 1].chunk) then |events| - 1 else -1
  }

  lemma ErrorStep(v: View, chunk: Frame, now: int, parse: Parser)
    ensures Reduced(v, chunk, now, parse).error
            == if Terminal(chunk) then OrElse(v.error, Some(ErrorText(chunk))) else v.error
  {
  }

  /** The error reported is the first one that ended the turn, whatever came after. */
  lemma {:induction false} ErrorIsFirstTerminal(events: seq<Event>, parse: Parser)
    ensures var i := First(events, Terminal);
            Turn(events, parse).error == if i >= 0 then Some(ErrorText(events[i].chunk)) else None
  {
    if events != [] {
      var before, last := events[..|events| - 1], events[|events| - 1];
      ErrorIsFirstTerminal(before, parse);
      ErrorStep(Turn(before, parse), last.chunk, last.at, parse);
    }
  }

  lemma FirstOutputStep(v: View, chunk: Frame, now: int, parse: Parser)
    ensures Reduced(v, chunk, now, parse).firstOutputAt
            == if IsOutput(chunk) then OrElse(v.firstOutputAt, Some(now)) else v.firstOutputAt
  {
  }

  /** Time to first output is taken at the first frame a reader could see. */
  lemma {:induction false} FirstOutputIsTimed(events: seq<Event>, parse: Parser)
    ensures var i := First(events, IsOutput);
            Turn(events, parse).firstOutputAt == if i >= 0 then Some(events[i].at) else None
  {
    if events != [] {
      var before, last := events[..|events| - 1], events[|events| - 1];
      FirstOutputIsTimed(before, parse);
      FirstOutputStep(Turn(before, parse), last.chunk, last.at, parse);
    }
  }

  /** The value read off the last event that has one. */
  function LastOf<T>(events: seq<Event>, read: Frame -> Option<T>): (r: Option<T>)
    ensures r.None? <==> forall i :: 0 <= i < |events| ==> read(events[i].chunk).None?
    ensures r.Some? ==> exists i :: 0 <= i < |events| && read(events[i].chunk) == r
                                    && forall k :: i < k < |events| ==> read(events[k].chunk).None?
  {
    if events == [] then None
    else OrElse(read(events[|events| - 1].chunk), LastOf(events[..|events| - 1], read))
  }

  /** The metadata object a frame brings, if it brings one. */
  function MetadataOf(chunk: Frame): Option<Json> {
    if chunk.kind == Finish || chunk.kind == Metadata then ReadRecord(chunk.body, "messageMetadata") else None
  }

  function NamedTrace(chunk: Frame): Option<string> {
    match MetadataOf(chunk) case None => None case Some(m) => ReadString(m, "langfuseTraceId")
  }

  function TelemetryOf(chunk: Frame): Option<Json> {
    match MetadataOf(chunk) case None => None case Some(m) => ReadRecord(m, "telemetry")
  }

  function ServedBy(chunk: Frame): Option<string> {
    match TelemetryOf(chunk) case None => None case Some(t) => ReadString(t, "servedBy")
  }

  function UsageIn(chunk: Frame): Option<Usage> {
    match TelemetryOf(chunk)
    case None => None
    case Some(t) => match ReadRecord(t, "usage") case None => None case Some(u) => Some(UsageOf(u))
  }

  function SpendIn(chunk: Frame): Option<Spend> {
    match TelemetryOf(chunk)
    case None => None
    case Some(t) => match ReadRecord(t, "spend") case None => None case Some(s) => SpendOf(s)
  }

  function ReasonIn(chunk: Frame): Option<string> {
    if chunk.kind == Finish then ReadString(chunk.body, "finishReason") else None
  }

  predicate CarriesTrace(chunk: Frame, parse: Parser) {
    Terminal(chunk) && ErrorTrace(chunk, parse).Some?
  }

  lemma TraceStep(v: View, chunk: Frame, now: int, parse: Parser)
    ensures Reduced(v, chunk, now, parse).traceId
            == if NamedTrace(chunk).Some? then NamedTrace(chunk)
               else if CarriesTrace(chunk, parse) then OrElse(v.traceId, ErrorTrace(chunk, parse))
               else v.traceId
  {
  }

  /** The trace named last by metadata wins; failing that, the first a terminal error carries. */
  lemma {:induction false} TraceIsLastNamedOrFirstError(events: seq<Event>, parse: Parser)
    ensures var named := LastOf(events, NamedTrace);
            var i := First(events, c => CarriesTrace(c, parse));
            Turn(events, parse).traceId
            == if named.Some? then named else if i >= 0 then ErrorTrace(events[i].chunk, parse) else None
  {
    if events != [] {
      var before, last := events[..|events| - 1], events[|events| - 1];
      TraceIsLastNamedOrFirstError(before, parse);
      TraceStep(Turn(before, parse), last.chunk, last.at, parse);
    }
  }

  function ProfileIn(chunk: Frame): Option<string> {
    match TelemetryOf(chunk) case None => None case Some(t) => ReadString(t, "modelProfileKey")
  }

  lemma TelemetryReplacesWhatItNames(v: View, chunk: Frame)
    requires chunk.kind == Finish || chunk.kind == Metadata
    ensures var v' := WithMetadata(v, Field(chunk.body, "messageMetadata"));
            && v'.servedBy == OrElse(ServedBy(chunk), v.servedBy)
            && v'.modelProfileKey == OrElse(ProfileIn(chunk), v.modelProfileKey)
            && v'.usage == OrElse(UsageIn(chunk), v.usage)
            && v'.spend == OrElse(SpendIn(chunk), v.spend)
            && v'.finishReason == v.finishReason
  {
  }

  lemma MetadataReplacesWhatItNames(v: View, chunk: Frame, now: int, parse: Parser)
    ensures var v' := Reduced(v, chunk, now, parse);
            && v'.servedBy == OrElse(ServedBy(chunk), v.servedBy)
            && v'.modelProfileKey == OrElse(ProfileIn(chunk), v.modelProfileKey)
            && v'.usage == OrElse(UsageIn(chunk), v.usage)
            && v'.spend == OrElse(SpendIn(chunk), v.spend)
            && v'.finishReason == OrElse(ReasonIn(chunk), v.finishReason)
  {
    if chunk.kind == Finish || chunk.kind == Metadata {
      TelemetryReplacesWhatItNames(v.(finishReason := OrElse(ReasonIn(chunk), v.finishReason)), chunk);
    } else {
      OtherFramesSayNothing(v, chunk, now, parse);
    }
  }

  lemma OtherFramesSayNothing(v: View, chunk: Frame, now: int, parse: Parser)
    requires chunk.kind != Finish && chunk.kind != Metadata
    ensures var v' := Reduced(v, chunk, now, parse);
            && TelemetryOf(chunk).None? && ReasonIn(chunk).None?
            && v'.servedBy == v.servedBy && v'.modelProfileKey == v.modelProfileKey
            && v'.usage == v.usage && v'.spend == v.spend && v'.finishReason == v.finishReason
  {
  }

  /** A later frame replaces what an earlier one said of the answer, part by part and never by nothing. */
  lemma {:induction false} LastWordOnTheAnswer(events: seq<Event>, parse: Parser)
    ensures var v := Turn(events, parse);
            && v.servedBy == LastOf(events, ServedBy)
            && v.modelProfileKey == LastOf(events, ProfileIn)
            && v.usage == LastOf(events, UsageIn)
            && v.spend == LastOf(events, SpendIn)
            && v.finishReason == LastOf(events, ReasonIn)
  {
    if events != [] {
      var before, last := events[..|events| - 1], events[|events| - 1];
      LastWordOnTheAnswer(before, parse);
      MetadataReplacesWhatItNames(Turn(before, parse), last.chunk, last.at, parse);
    }
  }

  function DeltaOf(chunk: Frame): Option<string> {
    if chunk.kind == TextDelta then ReadString(chunk.body, "delta") else None
  }

  /** The positions, in order, of the frames that carry text. */
  function Deltas(events: seq<Event>): (positions: seq<nat>)
    ensures forall k :: 0 <= k < |positions| ==> positions[k] < |events| && DeltaOf(events[positions[k]].chunk).Some?
    ensures forall i :: 0 <= i < |events| && DeltaOf(events[i].chunk).Some? ==> i in positions
    ensures forall k, l :: 0 <= k < l < |positions| ==> positions[k] < positions[l]
  {
    if events == [] then []
    else
      var n := |events| - 1;
      Deltas(events[..n]) + if DeltaOf(events[n].chunk).Some? then [n] else []
  }

  lemma {:induction false} TextIsDeltasInOrder(events: seq<Event>, parse: Parser)
    ensures var parts, positions := Turn(events, parse).textParts, Deltas(events);
            && |parts| == |positions|
            && forall k :: 0 <= k < |parts| ==> Some(parts[k]) == DeltaOf(events[positions[k]].chunk)
  {
    if events != [] {
      TextIsDeltasInOrder(events[..|events| - 1], parse);
    }
  }

  /** How many frames of a kind. */
  function Tally(events: seq<Event>, kind: Kind): nat {
    if events == [] then 0
    else Tally(events[..|events| - 1], kind) + if events[|events| - 1].chunk.kind == kind then 1 else 0
  }

  lemma {:induction false} StepsAreStartFrames(events: seq<Event>, parse: Parser)
    ensures Turn(events, parse).stepsUsed == Tally(events, StartStep)
  {
    if events != [] {
      StepsAreStartFrames(events[..|events| - 1], parse);
    }
  }
}
