/**
 What a scripted run is to do, read off the script alone (src/core.rs:3772-4135): what each answer of the
 model means, what the loop adds to it, and when the run ends.
 */
module ScriptPlan {
  import opened Prelude
  import opened Json
  import opened EventStream
  import opened DoomLoop

  datatype ScriptCall = ScriptCall(events: seq<Value>, error: Option<string>)

  datatype LoopInput = LoopInput(
    script: seq<ScriptCall>,
    tools: seq<string>,
    options: seq<Field>,
    maxSteps: nat,
    doomLoopThreshold: nat,
    replyQuestions: bool)

  datatype ModelStep = ModelStep(toolCalls: seq<ToolCall>, finishReason: string, usage: Usage)

  const NO_USAGE: Usage := Usage(0, 0)

  const EMPTY_STEP: ModelStep := ModelStep([], "unknown", NO_USAGE)

  /** How a run ended. */
  datatype Ending = Finished | ModelFailed | Doomed | OutOfSteps

  // ----- reading the script's raw events

  function StrField(v: Value, key: string): string {
    match FieldOf(v, key)
    case Some(Str(s)) => s
    case _ => ""
  }

  function NatField(v: Value, key: string): nat {
    match FieldOf(v, key)
    case Some(x) => x.AsU64().GetOr(0)
    case None => 0
  }

  function CallFrom(event: Value): ToolCall {
    ToolCall(StrField(event, "call_id"), StrField(event, "name"), FieldOf(event, "input").GetOr(Obj([])))
  }

  function FinishReasonFrom(event: Value): string {
    match FieldOf(event, "finish_reason")
    case Some(Str(s)) => s
    case _ => "unknown"
  }

  function UsageFrom(event: Value): Usage {
    match FieldOf(event, "usage")
    case Some(u) => Usage(NatField(u, "input_tokens"), NatField(u, "output_tokens"))
    case None => NO_USAGE
  }

  /** The tool calls that a list of script events asks for, in order. */
  function CallsIn(script: seq<Value>): seq<ToolCall> {
    if script == [] then []
    else
      var last := script[|script| - 1];
      CallsIn(script[..|script| - 1]) + if StrField(last, "type") == "tool-call" then [CallFrom(last)] else []
  }

  /** What one script event tells: a text delta or a tool call. */
  function ContentFrom(event: Value): seq<Event> {
    if StrField(event, "type") == "text-delta" then [TextDelta(0, StrField(event, "text"))]
    else if StrField(event, "type") == "tool-call" then [ToolCalled(CallFrom(event))]
    else []
  }

  /** The text deltas and tool calls of a list of script events, in order. */
  function ContentsIn(script: seq<Value>): seq<Event> {
    if script == [] then []
    else ContentsIn(script[..|script| - 1]) + ContentFrom(script[|script| - 1])
  }

  /** The last finish event decides the reason and the usage. */
  function LastFinish(script: seq<Value>): Option<Value> {
    if script == [] then None
    else
      var last := script[|script| - 1];
      if StrField(last, "type") == "finish" then Some(last) else LastFinish(script[..|script| - 1])
  }

  /** What a whole model answer means for the loop. */
  function ReadStep(script: seq<Value>): ModelStep {
    var finish := LastFinish(script);
    ModelStep(CallsIn(script),
              if finish.Some? then FinishReasonFrom(finish.value) else "unknown",
              if finish.Some? then UsageFrom(finish.value) else NO_USAGE)
  }

  // ----- what a run is to do, read off the script

  /** What a step gets out of the script from `at` on, unless the model fails twice, and how often it asks. */
  datatype Answer = Answer(step: Option<ModelStep>, contents: seq<Event>, next: nat, asked: nat)

  function AnswerAt(script: seq<ScriptCall>, at: nat): (answer: Answer)
    ensures 1 <= answer.asked <= 2
  {
    if at >= |script| then Answer(Some(EMPTY_STEP), [], at, 1)
    else if script[at].error.None? then
      Answer(Some(ReadStep(script[at].events)), ContentsIn(script[at].events), at + 1, 1)
    else if at + 1 >= |script| then Answer(Some(EMPTY_STEP), [], at + 1, 2)
    else if script[at + 1].error.None? then
      Answer(Some(ReadStep(script[at + 1].events)), ContentsIn(script[at + 1].events), at + 2, 2)
    else Answer(None, [Failure(script[at + 1].error.value)], at + 2, 2)
  }

  // ----- what the loop adds to the answers

  function StepUsageWarnings(options: seq<Field>, usage: Usage, stepIndex: nat): (warnings: seq<Event>)
    ensures |warnings| <= 1
    ensures warnings != [] <==>
      match Get(options, "runtime_warnings")
      case Some(Obj(raw)) =>
        && 0 < NatField(Obj(raw), "max_step_total_tokens") < usage.inputTokens + usage.outputTokens
        && Get(raw, "enabled") != Some(Bool(false))
      case _ => false
    ensures forall i | 0 <= i < |warnings| ::
      && warnings[i].RuntimeWarning? && warnings[i].totalTokens > warnings[i].threshold > 0
      && warnings[i].step == stepIndex && warnings[i].totalTokens == usage.inputTokens + usage.outputTokens
      && warnings[i].threshold == NatField(Get(options, "runtime_warnings").value, "max_step_total_tokens")
  {
    match Get(options, "runtime_warnings")
    case Some(Obj(raw)) =>
      var threshold := NatField(Obj(raw), "max_step_total_tokens");
      var flag := Get(raw, "enabled");
      var enabled := if flag.Some? then flag.value.AsBool().GetOr(threshold > 0) else threshold > 0;
      var total := usage.inputTokens + usage.outputTokens;
      if enabled && threshold > 0 && total > threshold then [RuntimeWarning(stepIndex, total, threshold)] else []
    case _ => []
  }

  function DoomMessage(threshold: nat, call: ToolCall): string {
    "Detected repeated tool-call loop (threshold=" + Decimal(threshold) + "): " + call.name + " " + Dumps(call.input)
  }

  function EchoValue(input: Value): string {
    match FieldOf(input, "value")
    case Some(Str(s)) => s
    case _ => "ok"
  }

  function QuestionText(questions: Value): string {
    if questions.Arr? && questions.items != [] then
      match FieldOf(questions.items[0], "question")
      case Some(Str(s)) => s
      case _ => "Question"
    else "Question"
  }

  function AnswerText(questions: Value): string {
    "User has answered your questions: \"" + QuestionText(questions)
    + "\"=\"Fast path\". You can now continue with the user's answers in mind."
  }

  /** What one call is answered with. */
  function ResultOf(input: LoopInput, call: ToolCall): seq<Event> {
    if call.name != "question" then [ToolResult(call.callId, "echo:" + EchoValue(call.input), None)]
    else
      var questions := FieldOf(call.input, "questions").GetOr(Arr([]));
      [QuestionRequest(call.callId, questions),
       if input.replyQuestions then ToolResult(call.callId, AnswerText(questions), None)
       else ToolResult(call.callId, "", Some("The user dismissed this question"))]
  }

  function ResultsOf(input: LoopInput, calls: seq<ToolCall>): seq<Event> {
    if calls == [] then []
    else ResultsOf(input, calls[..|calls| - 1]) + ResultOf(input, calls[|calls| - 1])
  }

  /** What closes a step: at most a warning, and its usage with its reason. */
  function Closing(options: seq<Field>, model: ModelStep, step: nat): seq<Event> {
    StepUsageWarnings(options, model.usage, step)
    + [StepFinish(model.usage, if model.toolCalls != [] && model.finishReason == "unknown" then "tool_call"
                               else model.finishReason)]
  }

  /** How a run ends, in which step, the calls it puts to the detector, and what its events tell. */
  datatype Outcome = Outcome(ending: Ending, steps: nat, recorded: seq<ToolCall>, contents: seq<Event>)

  /** How many of the calls come before the one at which the detector fires. */
  ghost function CallsBeforeDoom(recorded: seq<ToolCall>, calls: seq<ToolCall>, threshold: nat): (n: nat)
    ensures n <= |calls|
    decreases calls
  {
    if calls == [] || Fires(recorded + [calls[0]], threshold) then 0
    else 1 + CallsBeforeDoom(recorded + [calls[0]], calls[1..], threshold)
  }

  /**
   The run that the script calls for, from a step on. A model that fails twice ends it, and so does a
   call that trips the detector; a step with calls leads to the next; a step without calls ends it if
   it says "stop" or no step is left.
   */
  ghost function Plan(input: LoopInput, step: nat, at: nat, recorded: seq<ToolCall>, contents: seq<Event>): Outcome
    decreases input.maxSteps + 1 - step
  {
    if step > input.maxSteps
    then Outcome(OutOfSteps, input.maxSteps, recorded, contents + [Failure("max_steps exceeded")])
    else
      var answer := AnswerAt(input.script, at);
      var soFar := contents + answer.contents;
      match answer.step
      case None => Outcome(ModelFailed, step, recorded, soFar)
      case Some(model) =>
        var n := CallsBeforeDoom(recorded, model.toolCalls, input.doomLoopThreshold);
        var told := soFar + ResultsOf(input, model.toolCalls[..n]);
        if n < |model.toolCalls| then
          Outcome(Doomed, step, recorded + model.toolCalls[..n + 1],
                  told + [Failure(DoomMessage(input.doomLoopThreshold, model.toolCalls[n]))])
        else
          var closed := told + Closing(input.options, model, step);
          if model.toolCalls == [] && (model.finishReason == "stop" || step == input.maxSteps) then
            Outcome(Finished, step, recorded, closed)
          else Plan(input, step + 1, answer.next, recorded + model.toolCalls, closed)
  }

  lemma PlanFails(input: LoopInput, step: nat, at: nat, recorded: seq<ToolCall>, contents: seq<Event>, answer: Answer)
    requires step <= input.maxSteps && answer == AnswerAt(input.script, at) && answer.step.None?
    ensures Plan(input, step, at, recorded, contents)
         == Outcome(ModelFailed, step, recorded, contents + answer.contents)
  {
    hide AnswerAt, CallsBeforeDoom;
  }

  lemma PlanIsDoomed(input: LoopInput, step: nat, at: nat, recorded: seq<ToolCall>, contents: seq<Event>,
                     answer: Answer, n: nat)
    requires step <= input.maxSteps && answer == AnswerAt(input.script, at) && answer.step.Some?
    requires n == CallsBeforeDoom(recorded, answer.step.value.toolCalls, input.doomLoopThreshold)
    requires n < |answer.step.value.toolCalls|
    ensures Plan(input, step, at, recorded, contents) ==
      Outcome(Doomed, step, recorded + answer.step.value.toolCalls[..n + 1],
              contents + answer.contents + ResultsOf(input, answer.step.value.toolCalls[..n])
              + [Failure(DoomMessage(input.doomLoopThreshold, answer.step.value.toolCalls[n]))])
  {
    hide AnswerAt, CallsBeforeDoom, ResultsOf, DoomMessage;
  }

  /** Once all calls of a step are answered, the run ends with a step without calls, or goes on. */
  lemma PlanGoesOn(input: LoopInput, step: nat, at: nat, recorded: seq<ToolCall>, contents: seq<Event>, answer: Answer)
    requires step <= input.maxSteps && answer == AnswerAt(input.script, at) && answer.step.Some?
    requires var calls := answer.step.value.toolCalls;
      CallsBeforeDoom(recorded, calls, input.doomLoopThreshold) == |calls|
    ensures var model := answer.step.value;
      var told := contents + answer.contents + ResultsOf(input, model.toolCalls)
                  + Closing(input.options, model, step);
      Plan(input, step, at, recorded, contents) ==
        if model.toolCalls == [] && (model.finishReason == "stop" || step == input.maxSteps)
        then Outcome(Finished, step, recorded + model.toolCalls, told)
        else Plan(input, step + 1, answer.next, recorded + model.toolCalls, told)
  {
    hide AnswerAt, CallsBeforeDoom, ResultsOf, Closing;
    var calls := answer.step.value.toolCalls;
    assert calls[..|calls|] == calls;
    assert recorded + [] == recorded;
  }

  // ----- the calls of a run come out of the script

  ghost predicate ValidScript(script: seq<ScriptCall>) {
    forall i | 0 <= i < |script| :: forall k | 0 <= k < |script[i].events| :: Valid(script[i].events[k])
  }

  lemma CallFromIsValid(event: Value)
    requires Valid(event)
    ensures Valid(CallFrom(event).input)
  {
    if event.Obj? && HasKey(event.fields, "input") {
      assert Valid(event.fields[FieldIndex(event.fields, "input")].value);
    }
  }

  lemma {:induction false} CallsInAreValid(script: seq<Value>)
    requires forall k | 0 <= k < |script| :: Valid(script[k])
    ensures ValidCalls(CallsIn(script))
  {
    hide Valid, CallFrom, StrField;
    if script == [] {
    } else {
      CallsInAreValid(script[..|script| - 1]);
      CallFromIsValid(script[|script| - 1]);
    }
  }

  lemma AnswerIsValid(script: seq<ScriptCall>, at: nat)
    requires ValidScript(script)
    ensures var step := AnswerAt(script, at).step; step.Some? ==> ValidCalls(step.value.toolCalls)
  {
    hide Valid, CallsIn, ContentsIn, LastFinish;
    if at < |script| {
      CallsInAreValid(script[at].events);
    }
    if at + 1 < |script| {
      CallsInAreValid(script[at + 1].events);
    }
  }

  /** Whatever a run puts to the detector was in the script. */
  lemma {:induction false} PlanIsValid(
    input: LoopInput, step: nat, at: nat, recorded: seq<ToolCall>, contents: seq<Event>)
    requires ValidScript(input.script) && ValidCalls(recorded)
    ensures ValidCalls(Plan(input, step, at, recorded, contents).recorded)
    decreases input.maxSteps + 1 - step
  {
    if step > input.maxSteps {
    } else {
      hide AnswerAt, CallsBeforeDoom, ValidScript, ValidCalls, Plan, ResultsOf, Closing;
      var answer := AnswerAt(input.script, at);
      AnswerIsValid(input.script, at);
      if answer.step.None? {
        PlanFails(input, step, at, recorded, contents, answer);
      } else {
        var calls := answer.step.value.toolCalls;
        var n := CallsBeforeDoom(recorded, calls, input.doomLoopThreshold);
        if n < |calls| {
          PlanIsDoomed(input, step, at, recorded, contents, answer, n);
          MoreValidCalls(recorded, calls, n + 1);
        } else {
          PlanGoesOn(input, step, at, recorded, contents, answer);
          MoreValidCalls(recorded, calls, n);
          assert calls[..n] == calls;
          PlanIsValid(input, step + 1, answer.next, recorded + calls,
                      contents + answer.contents + ResultsOf(input, calls)
                      + Closing(input.options, answer.step.value, step));
        }
      }
    }
  }

  lemma MoreValidCalls(recorded: seq<ToolCall>, calls: seq<ToolCall>, n: nat)
    requires ValidCalls(recorded) && ValidCalls(calls) && n <= |calls|
    ensures ValidCalls(recorded + calls[..n])
  {
    hide Valid;
  }

  lemma {:induction false} DoomComesFirst(recorded: seq<ToolCall>, calls: seq<ToolCall>, threshold: nat, n: nat)
    requires n <= |calls| && NeverFired(recorded + calls[..n], threshold)
    requires n < |calls| ==> Fires(recorded + calls[..n + 1], threshold)
    ensures CallsBeforeDoom(recorded, calls, threshold) == n
    decreases calls
  {
    hide Fires;
    if calls == [] {
    } else {
      var next, rest := recorded + [calls[0]], calls[1..];
      if n == 0 {
        assert calls[..1] == [calls[0]];
      } else {
        assert recorded + calls[..n] == next + rest[..n - 1];
        assert n < |calls| ==> recorded + calls[..n + 1] == next + rest[..n];
        assert (recorded + calls[..n])[..|recorded| + 1] == next;
        DoomComesFirst(next, rest, threshold, n - 1);
      }
    }
  }

  lemma NothingRead()
    ensures ReadStep([]) == EMPTY_STEP && ContentsIn([]) == []
  {}

  lemma OneMoreEvent(script: seq<Value>, i: nat)
    requires i < |script|
    ensures var before, event := ReadStep(script[..i]), script[i];
      ReadStep(script[..i + 1]) ==
        if StrField(event, "type") == "tool-call" then before.(toolCalls := before.toolCalls + [CallFrom(event)])
        else if StrField(event, "type") == "finish" then
          before.(finishReason := FinishReasonFrom(event), usage := UsageFrom(event))
        else before
    ensures ContentsIn(script[..i + 1]) == ContentsIn(script[..i]) +
      if StrField(script[i], "type") == "text-delta" then [TextDelta(0, StrField(script[i], "text"))]
      else if StrField(script[i], "type") == "tool-call" then [ToolCalled(CallFrom(script[i]))]
      else []
  {
    hide CallFrom, FinishReasonFrom, UsageFrom, StrField;
    assert script[..i + 1][..i] == script[..i];
    assert "tool-call" != "finish" by { assert |"tool-call"| != |"finish"|; }
  }
}
