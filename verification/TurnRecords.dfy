/**
 What a turn comes to, said of the JSON records of its stream alone: by the strings in their `type`
 fields and the values at named keys.
 */
module TurnRecords {
  import opened Text
  import opened Json
  import opened StreamReducer
  import opened EventStream

  /** The value behind a path of keys. */
  function At(r: Json, path: seq<string>): Option<Json>
    decreases |path|
  {
    if path == [] then Some(r)
    else if r.Obj? && path[0] in r.fields then At(r.fields[path[0]], path[1..])
    else None
  }

  function StringAt(r: Json, path: seq<string>): Option<string> {
    match At(r, path)
    case Some(Str(s)) => Some(s)
    case _ => None
  }

  function NumberAt(r: Json, path: seq<string>): Option<real> {
    match At(r, path)
    case Some(Number(x)) => Some(x)
    case _ => None
  }

  function AmountAt(r: Json, path: seq<string>): real {
    match At(r, path)
    case Some(Number(x)) => x
    case _ => 0.0
  }

  /** The record's `type` field is one of these strings. */
  predicate Typed(r: Json, types: set<string>) {
    r.Obj? && "type" in r.fields && r.fields["type"].Str? && r.fields["type"].text in types
  }

  function After(records: seq<Json>, clock: nat -> int, parse: Parser): View {
    Turn(Timed(records, clock), parse)
  }

  lemma AfterOneMore(records: seq<Json>, clock: nat -> int, parse: Parser)
    requires records != []
    ensures var n := |records| - 1;
            After(records, clock, parse)
            == Reduced(After(records[..n], clock, parse), Classified(records[n]), clock(n), parse)
  {
    var n := |records| - 1;
    assert Timed(records, clock)[..n] == Timed(records[..n], clock);
  }

  // ---- Which type string makes which kind ----

  predicate GoesOn(r: Json) {
    || StringAt(r, ["errorText"]) == Some("__fretik_transparent_failover__")
    || StringAt(r, ["errorText"]) == Some("__fretik_non_terminal_step_error__")
    || StringAt(r, ["errorText"]) == Some("Invalid tool input — adjust the arguments and retry.")
    || StringAt(r, ["errorText"]) == Some("Stopped.")
  }

  lemma OneKey(r: Json, key: string)
    ensures At(r, [key]) == Field(r, key)
    ensures StringAt(r, [key]) == ReadString(r, key)
    ensures NumberAt(r, [key]) == ReadNumber(r, key)
    ensures AmountAt(r, [key]) == OrZero(ReadNumber(r, key))
  {
    if r.Obj? && key in r.fields {
      assert [key][1..] == [];
      assert At(r.fields[key], []) == Some(r.fields[key]);
    }
  }

  lemma KindsByType(r: Json)
    ensures KindOf(r) == TextDelta <==> Typed(r, {"text-delta"})
    ensures KindOf(r) == OutputOnly <==> Typed(r, {"reasoning-delta", "tool-input-start"})
    ensures KindOf(r) == StartStep <==> Typed(r, {"start-step"})
    ensures KindOf(r) == Error <==> Typed(r, {"error"}) && !GoesOn(r)
    ensures KindOf(r) == ToolInput <==> Typed(r, {"tool-input-available"})
    ensures KindOf(r) == ToolOutput <==> Typed(r, {"tool-output-available"})
    ensures KindOf(r) == Finish <==> Typed(r, {"finish"})
    ensures KindOf(r) == Metadata <==> Typed(r, {"message-metadata"})
  {
    OneKey(r, "errorText");
  }

  // ---- First and last ----

  /** The first record that satisfies the test, or how many there are. */
  function FirstWhere(records: seq<Json>, test: Json -> bool): (i: nat)
    ensures i <= |records| && (i < |records| ==> test(records[i]))
    ensures forall k :: 0 <= k < i ==> !test(records[k])
  {
    if records == [] then 0
    else
      var n := |records| - 1;
      var i := FirstWhere(records[..n], test);
      if i < n || test(records[n]) then i else |records|
  }

  /** The last one, or -1. */
  function LastWhere(records: seq<Json>, test: Json -> bool): (i: int)
    ensures -1 <= i < |records| && (i >= 0 ==> test(records[i]))
    ensures forall k :: i < k < |records| ==> !test(records[k])
  {
    if records == [] then -1
    else if test(records[|records| - 1]) then |records| - 1
    else LastWhere(records[..|records| - 1], test)
  }

  // ---- Text, steps, first output, errors ----

  /** The `delta` strings of the records of type text-delta. */
  function DeltaTexts(records: seq<Json>): seq<string> {
    if records == [] then []
    else
      var r := records[|records| - 1];
      DeltaTexts(records[..|records| - 1])
      + if Typed(r, {"text-delta"}) && StringAt(r, ["delta"]).Some? then [StringAt(r, ["delta"]).value] else []
  }

  lemma TextStep(v: View, r: Json, now: int, parse: Parser)
    ensures Reduced(v, Classified(r), now, parse).textParts
            == v.textParts
               + if Typed(r, {"text-delta"}) && StringAt(r, ["delta"]).Some? then [StringAt(r, ["delta"]).value] else []
  {
    KindsByType(r);
    OneKey(r, "delta");
  }

  lemma {:induction false} TextByRecords(records: seq<Json>, clock: nat -> int, parse: Parser)
    ensures After(records, clock, parse).textParts == DeltaTexts(records)
  {
    if records != [] {
      var n := |records| - 1;
      TextByRecords(records[..n], clock, parse);
      AfterOneMore(records, clock, parse);
      TextStep(After(records[..n], clock, parse), records[n], clock(n), parse);
    }
  }

  function CountTyped(records: seq<Json>, types: set<string>): nat {
    if records == [] then 0
    else CountTyped(records[..|records| - 1], types) + if Typed(records[|records| - 1], types) then 1 else 0
  }

  lemma StepsStep(v: View, r: Json, now: int, parse: Parser)
    ensures Reduced(v, Classified(r), now, parse).stepsUsed == v.stepsUsed + if Typed(r, {"start-step"}) then 1 else 0
  {
    KindsByType(r);
  }

  lemma {:induction false} StepsByRecords(records: seq<Json>, clock: nat -> int, parse: Parser)
    ensures After(records, clock, parse).stepsUsed == CountTyped(records, {"start-step"})
  {
    if records != [] {
      var n := |records| - 1;
      StepsByRecords(records[..n], clock, parse);
      AfterOneMore(records, clock, parse);
      StepsStep(After(records[..n], clock, parse), records[n], clock(n), parse);
    }
  }

  /** A record a reader could see something of. */
  predicate Visible(r: Json) {
    Typed(r, {"text-delta", "reasoning-delta", "tool-input-start"})
  }

  lemma VisibleIsOutput(r: Json)
    ensures IsOutput(Classified(r)) <==> Visible(r)
  {
    KindsByType(r);
  }

  lemma {:induction false} FirstOutputByRecords(records: seq<Json>, clock: nat -> int, parse: Parser)
    ensures var i := FirstWhere(records, Visible);
            After(records, clock, parse).firstOutputAt == if i < |records| then Some(clock(i)) else None
  {
    if records != [] {
      var n := |records| - 1;
      FirstOutputByRecords(records[..n], clock, parse);
      AfterOneMore(records, clock, parse);
      VisibleIsOutput(records[n]);
      FirstOutputStep(After(records[..n], clock, parse), Classified(records[n]), clock(n), parse);
    }
  }

  /** An error record, unless its text is one of the notices that the turn goes on. */
  predicate Ends(r: Json) {
    Typed(r, {"error"}) && !GoesOn(r)
  }

  function MessageOf(r: Json): string {
    match StringAt(r, ["errorText"])
    case Some(t) => t
    case None => "stream error frame without errorText"
  }

  lemma EndsIsTerminal(r: Json)
    ensures Terminal(Classified(r)) <==> Ends(r)
    ensures ErrorText(Classified(r)) == MessageOf(r)
  {
    KindsByType(r);
    OneKey(r, "errorText");
  }

  lemma {:induction false} ErrorByRecords(records: seq<Json>, clock: nat -> int, parse: Parser)
    ensures var i := FirstWhere(records, Ends);
            After(records, clock, parse).error == if i < |records| then Some(MessageOf(records[i])) else None
  {
    if records != [] {
      var n := |records| - 1;
      ErrorByRecords(records[..n], clock, parse);
      AfterOneMore(records, clock, parse);
      EndsIsTerminal(records[n]);
      ErrorStep(After(records[..n], clock, parse), Classified(records[n]), clock(n), parse);
    }
  }

  // ---- Calls ----

  /** A tool dispatched under this id, by name; neither is empty. */
  predicate Dispatches(r: Json, id: string) {
    && Typed(r, {"tool-input-available"})
    && id != "" && StringAt(r, ["toolCallId"]) == Some(id)
    && StringAt(r, ["toolName"]).Some? && StringAt(r, ["toolName"]) != Some("")
  }

  function Under(id: string): Json -> bool {
    (r: Json) => Dispatches(r, id)
  }

  lemma DispatchByKeys(r: Json, id: string, now: int)
    ensures DispatchedId(Classified(r)) == Some(id) <==> Dispatches(r, id)
    ensures Dispatches(r, id) ==>
              Dispatch(Classified(r), now) == Pending(StringAt(r, ["toolName"]).value, At(r, ["input"]), now)
  {
    KindsByType(r);
    OneKey(r, "toolCallId");
    OneKey(r, "toolName");
    OneKey(r, "input");
  }

  /** An id is open exactly when some record dispatched it, with what the last such record says. */
  lemma {:induction false} InputsByRecords(records: seq<Json>, clock: nat -> int, parse: Parser, id: string)
    ensures var inputs, j := After(records, clock, parse).toolInputs, LastWhere(records, Under(id));
            && (id in inputs <==> j >= 0)
            && (j >= 0 ==>
                  && Some(inputs[id].name) == StringAt(records[j], ["toolName"])
                  && inputs[id].input == At(records[j], ["input"])
                  && inputs[id].startedAtMs == clock(j))
  {
    if records != [] {
      var n := |records| - 1;
      InputsByRecords(records[..n], clock, parse, id);
      AfterOneMore(records, clock, parse);
      DispatchByKeys(records[n], id, clock(n));
      InputsChangeByDispatchOnly(After(records[..n], clock, parse), Classified(records[n]), clock(n), parse);
    }
  }

  /** A tool's output, and not a report of its progress. */
  predicate Delivers(r: Json) {
    Typed(r, {"tool-output-available"}) && At(r, ["preliminary"]) != Some(Bool(true))
  }

  lemma DeliversIsFinal(r: Json)
    ensures FinalOutput(Classified(r)) <==> Delivers(r)
  {
    KindsByType(r);
    OneKey(r, "preliminary");
  }

  function CountDelivered(records: seq<Json>): nat {
    if records == [] then 0
    else CountDelivered(records[..|records| - 1]) + if Delivers(records[|records| - 1]) then 1 else 0
  }

  /** The last record before n that dispatched the id record n names, or -1. */
  function DispatchBefore(records: seq<Json>, n: nat): (j: int)
    requires n < |records|
    ensures -1 <= j < n
  {
    match StringAt(records[n], ["toolCallId"])
    case None => -1
    case Some(id) => LastWhere(records[..n], Under(id))
  }

  /** What is recorded for the output in record n: its start and its latency add up to its time. */
  predicate Records(call: ToolCall, records: seq<Json>, clock: nat -> int, n: nat)
    requires n < |records|
  {
    var j := DispatchBefore(records, n);
    && call.output == At(records[n], ["output"])
    && if j < 0 then call.name == "unknown" && call.input.None? && call.startedAtMs.None? && call.latencyMs.None?
       else
         && Some(call.name) == StringAt(records[j], ["toolName"])
         && call.input == At(records[j], ["input"])
         && call.startedAtMs == Some(clock(j))
         && call.latencyMs.Some? && clock(j) + call.latencyMs.value == clock(n)
  }

  lemma CallOfOutput(records: seq<Json>, n: nat, clock: nat -> int, parse: Parser)
    requires n < |records|
    ensures var inputs, chunk := After(records[..n], clock, parse).toolInputs, Classified(records[n]);
            Records(CallOf(Lookup(inputs, ReadString(chunk.body, "toolCallId")), chunk, clock(n)), records, clock, n)
  {
    OneKey(records[n], "toolCallId");
    OneKey(records[n], "output");
    var id := StringAt(records[n], ["toolCallId"]);
    if id.Some? {
      InputsByRecords(records[..n], clock, parse, id.value);
    }
  }

  /** One call per delivered output, in order. */
  ghost predicate RecordsAll(calls: seq<ToolCall>, records: seq<Json>, clock: nat -> int, n: nat)
    requires n <= |records|
  {
    && |calls| == CountDelivered(records[..n])
    && forall i :: 0 <= i < n && Delivers(records[i]) ==>
         CountDelivered(records[..i]) < |calls| && Records(calls[CountDelivered(records[..i])], records, clock, i)
  }

  lemma RecordsOneMore(calls: seq<ToolCall>, records: seq<Json>, clock: nat -> int, n: nat, call: ToolCall)
    requires n < |records| && RecordsAll(calls, records, clock, n)
    requires Delivers(records[n]) ==> Records(call, records, clock, n)
    ensures RecordsAll(if Delivers(records[n]) then calls + [call] else calls, records, clock, n + 1)
  {
    assert records[..n + 1][..n] == records[..n];
  }

  lemma RecordsOfPrefix(calls: seq<ToolCall>, records: seq<Json>, clock: nat -> int, n: nat)
    requires n <= |records| && RecordsAll(calls, records[..n], clock, n)
    ensures RecordsAll(calls, records, clock, n)
  {
    assert records[..n][..n] == records[..n];
    forall i | 0 <= i < n && Delivers(records[i])
      ensures CountDelivered(records[..i]) < |calls|
      ensures Records(calls[CountDelivered(records[..i])], records, clock, i)
    {
      assert records[..n][i] == records[i] && records[..n][..i] == records[..i];
    }
  }

  lemma {:induction false} CallsByRecords(records: seq<Json>, clock: nat -> int, parse: Parser)
    ensures RecordsAll(After(records, clock, parse).toolCalls, records, clock, |records|)
  {
    if records != [] {
      var n := |records| - 1;
      var before, chunk := After(records[..n], clock, parse), Classified(records[n]);
      CallsByRecords(records[..n], clock, parse);
      AfterOneMore(records, clock, parse);
      DeliversIsFinal(records[n]);
      CallsChangeByFinalOutputOnly(before, chunk, clock(n), parse);
      CallOfOutput(records, n, clock, parse);
      RecordsOfPrefix(before.toolCalls, records, clock, n);
      RecordsOneMore(before.toolCalls, records, clock, n,
                     CallOf(Lookup(before.toolInputs, ReadString(chunk.body, "toolCallId")), chunk, clock(n)));
    }
  }

  // ---- Metadata ----

  const META := {"finish", "message-metadata"}

  const TELEMETRY := ["messageMetadata", "telemetry"]
  const USAGE := ["messageMetadata", "telemetry", "usage"]
  const SPEND := ["messageMetadata", "telemetry", "spend"]

  lemma AtStep(r: Json, key: string, rest: seq<string>)
    ensures At(r, [key] + rest) == match Field(r, key) case None => None case Some(v) => At(v, rest)
  {
    assert ([key] + rest)[1..] == rest;
  }

  lemma {:induction false} AtBoth(r: Json, path: seq<string>, rest: seq<string>)
    ensures At(r, path + rest) == match At(r, path) case None => None case Some(v) => At(v, rest)
    decreases |path|
  {
    if path == [] {
      assert [] + rest == rest;
    } else {
      assert (path + rest)[1..] == path[1..] + rest;
      if r.Obj? && path[0] in r.fields {
        AtBoth(r.fields[path[0]], path[1..], rest);
      }
    }
  }

  function HasString(types: set<string>, path: seq<string>): Json -> bool {
    (r: Json) => Typed(r, types) && StringAt(r, path).Some?
  }

  predicate RecordAt(r: Json, path: seq<string>) {
    At(r, path).Some? && (At(r, path).value.Obj? || At(r, path).value.Arr?)
  }

  function HasRecord(types: set<string>, path: seq<string>): Json -> bool {
    (r: Json) => Typed(r, types) && RecordAt(r, path)
  }

  /** The string at the path in the last record of these types that has one. */
  function LastString(records: seq<Json>, types: set<string>, path: seq<string>): Option<string> {
    var i := LastWhere(records, HasString(types, path));
    if i < 0 then None else StringAt(records[i], path)
  }

  lemma ByTelemetry(r: Json, rest: seq<string>)
    requires Typed(r, META) && rest != []
    ensures At(r, TELEMETRY + rest)
         == match TelemetryOf(Classified(r)) case None => None case Some(t) => At(t, rest)
  {
    KindsByType(r);
    assert TELEMETRY + rest == ["messageMetadata"] + (["telemetry"] + rest);
    AtStep(r, "messageMetadata", ["telemetry"] + rest);
    var m := Field(r, "messageMetadata");
    if m.Some? {
      AtStep(m.value, "telemetry", rest);
    }
  }

  lemma OnlyMetadataTells(r: Json)
    requires !Typed(r, META)
    ensures TelemetryOf(Classified(r)).None? && MetadataOf(Classified(r)).None?
  {
    KindsByType(r);
  }

  lemma NamesByPath(r: Json)
    requires Typed(r, META)
    ensures ServedBy(Classified(r)) == StringAt(r, TELEMETRY + ["servedBy"])
    ensures ProfileIn(Classified(r)) == StringAt(r, TELEMETRY + ["modelProfileKey"])
  {
    ByTelemetry(r, ["servedBy"]);
    ByTelemetry(r, ["modelProfileKey"]);
    var t := TelemetryOf(Classified(r));
    if t.Some? {
      OneKey(t.value, "servedBy");
      OneKey(t.value, "modelProfileKey");
    }
  }

  lemma TraceByPath(r: Json)
    ensures NamedTrace(Classified(r))
         == if Typed(r, META) then StringAt(r, ["messageMetadata", "langfuseTraceId"]) else None
  {
    KindsByType(r);
    assert ["messageMetadata", "langfuseTraceId"] == ["messageMetadata"] + ["langfuseTraceId"];
    AtStep(r, "messageMetadata", ["langfuseTraceId"]);
    var m := Field(r, "messageMetadata");
    if m.Some? {
      OneKey(m.value, "langfuseTraceId");
    }
  }

  lemma UsageByPath(r: Json)
    ensures UsageIn(Classified(r)).Some? <==> Typed(r, META) && RecordAt(r, USAGE)
    ensures Typed(r, META) && RecordAt(r, USAGE) ==> UsageIn(Classified(r)) == Some(UsageAt(r))
  {
    if Typed(r, META) {
      assert USAGE == TELEMETRY + ["usage"];
      ByTelemetry(r, ["usage"]);
      var t := TelemetryOf(Classified(r));
      if t.Some? {
        OneKey(t.value, "usage");
      }
      if RecordAt(r, USAGE) {
        NumbersUnder(r, USAGE, "inputTokens");
        NumbersUnder(r, USAGE, "outputTokens");
        NumbersUnder(r, USAGE, "totalTokens");
      }
    } else {
      OnlyMetadataTells(r);
    }
  }

  lemma NumbersUnder(r: Json, path: seq<string>, key: string)
    requires At(r, path).Some?
    ensures NumberAt(r, path + [key]) == ReadNumber(At(r, path).value, key)
    ensures AmountAt(r, path + [key]) == OrZero(ReadNumber(At(r, path).value, key))
    ensures At(r, path + [key]) == Field(At(r, path).value, key)
  {
    AtBoth(r, path, [key]);
    OneKey(At(r, path).value, key);
  }

  function UsageAt(r: Json): Usage {
    Usage(NumberAt(r, USAGE + ["inputTokens"]),
          NumberAt(r, USAGE + ["outputTokens"]),
          NumberAt(r, USAGE + ["totalTokens"]))
  }

  /** The spend a record tells: its totals, and every agent's bucket that is itself a record. */
  ghost predicate IsSpendAt(s: Spend, r: Json) {
    && s.steps == AmountAt(r, SPEND + ["total"] + ["steps"])
    && s.costedSteps == AmountAt(r, SPEND + ["total"] + ["costedSteps"])
    && s.costUsd == AmountAt(r, SPEND + ["total"] + ["costUsd"])
    && forall agent ::
         && (agent in s.byAgent <==> RecordAt(r, SPEND + ["byAgent"] + [agent]))
         && (agent in s.byAgent ==>
               && s.byAgent[agent].steps == AmountAt(r, SPEND + ["byAgent"] + [agent] + ["steps"])
               && s.byAgent[agent].costUsd == AmountAt(r, SPEND + ["byAgent"] + [agent] + ["costUsd"]))
  }

  lemma SpendByPath(r: Json)
    ensures SpendIn(Classified(r)).Some? <==> Typed(r, META) && RecordAt(r, SPEND + ["total"])
    ensures Typed(r, META) && RecordAt(r, SPEND + ["total"]) ==> IsSpendAt(SpendIn(Classified(r)).value, r)
  {
    if Typed(r, META) {
      assert SPEND == TELEMETRY + ["spend"];
      ByTelemetry(r, ["spend"]);
      var t := TelemetryOf(Classified(r));
      if t.Some? {
        OneKey(t.value, "spend");
      }
      AtBoth(r, SPEND, ["total"]);
      if At(r, SPEND).Some? {
        NumbersUnder(r, SPEND, "total");
      }
      if RecordAt(r, SPEND + ["total"]) {
        TotalsByPath(r);
        AgentsByPath(r);
      }
    } else {
      OnlyMetadataTells(r);
    }
  }

  lemma TotalsByPath(r: Json)
    requires RecordAt(r, SPEND + ["total"])
    ensures var total := At(r, SPEND + ["total"]).value;
            && AmountAt(r, SPEND + ["total"] + ["steps"]) == OrZero(ReadNumber(total, "steps"))
            && AmountAt(r, SPEND + ["total"] + ["costedSteps"]) == OrZero(ReadNumber(total, "costedSteps"))
            && AmountAt(r, SPEND + ["total"] + ["costUsd"]) == OrZero(ReadNumber(total, "costUsd"))
  {
    NumbersUnder(r, SPEND + ["total"], "steps");
    NumbersUnder(r, SPEND + ["total"], "costedSteps");
    NumbersUnder(r, SPEND + ["total"], "costUsd");
  }

  lemma AgentsByPath(r: Json)
    requires At(r, SPEND).Some?
    ensures var agents := AgentSpends(Field(At(r, SPEND).value, "byAgent"));
            forall agent ::
              && (agent in agents <==> RecordAt(r, SPEND + ["byAgent"] + [agent]))
              && (agent in agents ==>
                    && agents[agent].steps == AmountAt(r, SPEND + ["byAgent"] + [agent] + ["steps"])
                    && agents[agent].costUsd == AmountAt(r, SPEND + ["byAgent"] + [agent] + ["costUsd"]))
  {
    var agents := AgentSpends(Field(At(r, SPEND).value, "byAgent"));
    NumbersUnder(r, SPEND, "byAgent");
    forall agent
      ensures agent in agents <==> RecordAt(r, SPEND + ["byAgent"] + [agent])
      ensures agent in agents ==>
                && agents[agent].steps == AmountAt(r, SPEND + ["byAgent"] + [agent] + ["steps"])
                && agents[agent].costUsd == AmountAt(r, SPEND + ["byAgent"] + [agent] + ["costUsd"])
    {
      AtBoth(r, SPEND + ["byAgent"], [agent]);
      if At(r, SPEND + ["byAgent"]).Some? {
        NumbersUnder(r, SPEND + ["byAgent"], agent);
      }
      if RecordAt(r, SPEND + ["byAgent"] + [agent]) {
        NumbersUnder(r, SPEND + ["byAgent"] + [agent], "steps");
        NumbersUnder(r, SPEND + ["byAgent"] + [agent], "costUsd");
      }
    }
  }

  lemma MetadataStep(v: View, r: Json, now: int, parse: Parser)
    ensures var v' := Reduced(v, Classified(r), now, parse);
            && v'.servedBy == (if HasString(META, TELEMETRY + ["servedBy"])(r)
                               then StringAt(r, TELEMETRY + ["servedBy"]) else v.servedBy)
            && v'.modelProfileKey == (if HasString(META, TELEMETRY + ["modelProfileKey"])(r)
                                      then StringAt(r, TELEMETRY + ["modelProfileKey"]) else v.modelProfileKey)
            && v'.finishReason == (if HasString({"finish"}, ["finishReason"])(r)
                                   then StringAt(r, ["finishReason"]) else v.finishReason)
  {
    MetadataReplacesWhatItNames(v, Classified(r), now, parse);
    KindsByType(r);
    OneKey(r, "finishReason");
    if Typed(r, META) {
      NamesByPath(r);
    } else {
      OnlyMetadataTells(r);
    }
  }

  /** Server, model profile and finish reason are the strings at their places in the last record with one. */
  lemma {:induction false} NamesByRecords(records: seq<Json>, clock: nat -> int, parse: Parser)
    ensures var v := After(records, clock, parse);
            && v.servedBy == LastString(records, META, TELEMETRY + ["servedBy"])
            && v.modelProfileKey == LastString(records, META, TELEMETRY + ["modelProfileKey"])
            && v.finishReason == LastString(records, {"finish"}, ["finishReason"])
  {
    if records != [] {
      var n := |records| - 1;
      NamesByRecords(records[..n], clock, parse);
      AfterOneMore(records, clock, parse);
      MetadataStep(After(records[..n], clock, parse), records[n], clock(n), parse);
      LastStringStep(records, META, TELEMETRY + ["servedBy"]);
      LastStringStep(records, META, TELEMETRY + ["modelProfileKey"]);
      LastStringStep(records, {"finish"}, ["finishReason"]);
    }
  }

  lemma LastStringStep(records: seq<Json>, types: set<string>, path: seq<string>)
    requires records != []
    ensures var n := |records| - 1;
            LastString(records, types, path)
            == if HasString(types, path)(records[n]) then StringAt(records[n], path)
               else LastString(records[..n], types, path)
  {
  }

  /** Usage: the three numbers of the last record that has a usage object. */
  lemma {:induction false} UsageByRecords(records: seq<Json>, clock: nat -> int, parse: Parser)
    ensures var i := LastWhere(records, HasRecord(META, USAGE));
            After(records, clock, parse).usage == if i < 0 then None else Some(UsageAt(records[i]))
  {
    if records != [] {
      var n := |records| - 1;
      UsageByRecords(records[..n], clock, parse);
      AfterOneMore(records, clock, parse);
      MetadataReplacesWhatItNames(After(records[..n], clock, parse), Classified(records[n]), clock(n), parse);
      UsageByPath(records[n]);
    }
  }

  /** Spend: totals and agents of the last record that has a spend object with a total. */
  lemma {:induction false} SpendByRecords(records: seq<Json>, clock: nat -> int, parse: Parser)
    ensures var i, spend := LastWhere(records, HasRecord(META, SPEND + ["total"])), After(records, clock, parse).spend;
            && (spend.Some? <==> i >= 0)
            && (i >= 0 ==> IsSpendAt(spend.value, records[i]))
  {
    if records != [] {
      var n := |records| - 1;
      SpendByRecords(records[..n], clock, parse);
      AfterOneMore(records, clock, parse);
      MetadataReplacesWhatItNames(After(records[..n], clock, parse), Classified(records[n]), clock(n), parse);
      SpendByPath(records[n]);
    }
  }

  // ---- The trace ----

  /** The trace inside the text of an error record that ends the turn. */
  function TraceInError(r: Json, parse: Parser): Option<string> {
    match StringAt(r, ["errorText"])
    case None => None
    case Some(t) => match parse(t) case None => None case Some(p) => StringAt(p, ["traceId"])
  }

  function EndsWithTrace(parse: Parser): Json -> bool {
    (r: Json) => Ends(r) && TraceInError(r, parse).Some?
  }

  lemma ErrorTraceByPath(r: Json, parse: Parser)
    ensures CarriesTrace(Classified(r), parse) <==> EndsWithTrace(parse)(r)
    ensures ErrorTrace(Classified(r), parse) == TraceInError(r, parse)
  {
    EndsIsTerminal(r);
    OneKey(r, "errorText");
    var t := StringAt(r, ["errorText"]);
    if t.Some? && parse(t.value).Some? {
      OneKey(parse(t.value).value, "traceId");
    }
  }

  /** The trace named last in metadata; without any, the one inside the first error that carries one. */
  lemma {:induction false} TraceByRecords(records: seq<Json>, clock: nat -> int, parse: Parser)
    ensures var named := LastString(records, META, ["messageMetadata", "langfuseTraceId"]);
            var i := FirstWhere(records, EndsWithTrace(parse));
            After(records, clock, parse).traceId
            == if named.Some? then named else if i < |records| then TraceInError(records[i], parse) else None
  {
    if records != [] {
      var n := |records| - 1;
      TraceByRecords(records[..n], clock, parse);
      AfterOneMore(records, clock, parse);
      TraceStep(After(records[..n], clock, parse), Classified(records[n]), clock(n), parse);
      TraceByPath(records[n]);
      ErrorTraceByPath(records[n], parse);
      LastStringStep(records, META, ["messageMetadata", "langfuseTraceId"]);
    }
  }
}
