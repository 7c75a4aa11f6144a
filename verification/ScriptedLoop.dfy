/**
 The scripted agent loop (src/core.rs:3744-4047): per step at most two model calls, the calls the
 model asks for, and the detector that stops a run which keeps repeating itself.
 */
module ScriptedLoop {
  import opened Prelude
  import opened Json
  import opened EventStream
  import opened DoomLoop
  import opened ScriptPlan
  import opened ScriptRuns

  class ScriptedAgentLoopRunner {
    const input: LoopInput
    var scriptIndex: nat
    var events: seq<Event>
    var seenToolsByCall: seq<seq<string>>
    var pauseStatuses: seq<string>
    var doomHistory: seq<string>
    var snapshotCount: nat
    var textCount: nat
    var finalSessionStatus: string
    /** Every call the detector was asked about; those before the last were executed. */
    ghost var recorded: seq<ToolCall>

    constructor (input: LoopInput)
      ensures this.input == input && scriptIndex == 0 && events == [] && seenToolsByCall == []
      ensures pauseStatuses == [] && doomHistory == [] && snapshotCount == 0 && textCount == 0
      ensures finalSessionStatus == "running" && recorded == []
    {
      this.input := input;
      scriptIndex, snapshotCount, textCount := 0, 0, 0;
      events, seenToolsByCall, pauseStatuses, doomHistory, recorded := [], [], [], [], [];
      finalSessionStatus := "running";
    }

    /** The stream so far follows the grammar and stands at this point of it. */
    ghost predicate At(phase: Phase, starts: nat, finishes: nat, pending: seq<string>)
      reads this
    {
      Follow(events) == Progress(phase, starts, finishes, textCount, pending)
    }

    ghost predicate HistoryIsBounded()
      reads this
    {
      doomHistory == LastKeys(recorded, input.doomLoopThreshold)
    }

    method NextScriptCall() returns (call: Option<ScriptCall>)
      modifies this`scriptIndex
      ensures call == if old(scriptIndex) < |input.script| then Some(input.script[old(scriptIndex)]) else None
      ensures scriptIndex == old(scriptIndex) + if call.Some? then 1 else 0
    {
      call := if scriptIndex < |input.script| then Some(input.script[scriptIndex]) else None;
      scriptIndex := scriptIndex + if call.Some? then 1 else 0;
    }

    /** One model answer becomes at most one text block and one event per call, all inside the step. */
    method ProcessModelEvents(script: seq<Value>, ghost starts: nat, ghost finishes: nat) returns (step: ModelStep)
      requires At(InStep, starts, finishes, [])
      modifies this`events, this`textCount
      ensures step == ReadStep(script)
      ensures At(InStep, starts, finishes, Ids(step.toolCalls))
      ensures CallsOf(events) == old(CallsOf(events)) + step.toolCalls
      ensures Contents(events) == old(Contents(events)) + ContentsIn(script)
      ensures AnsweredIds(events) == old(AnsweredIds(events))
      ensures old(textCount) <= textCount <= old(textCount) + 1
    {
      hide Follow, CallsOf, AnsweredIds, Contents, Advance, CallFrom, UsageFrom, FinishReasonFrom, StrField;
      hide ReadStep, ContentsIn;
      NothingRead();
      ghost var contentsBefore := Contents(events);
      step := EMPTY_STEP;
      var textStarted := false;
      var textId := 0;
      ghost var callsBefore := CallsOf(events);
      for i := 0 to |script|
        invariant step == ReadStep(script[..i])
        invariant Contents(events) == contentsBefore + ContentsIn(script[..i])
        invariant textStarted ==> textId == textCount
        invariant textCount == old(textCount) + if textStarted then 1 else 0
        invariant At(if textStarted then InText(textId) else InStep, starts, finishes, Ids(step.toolCalls))
        invariant CallsOf(events) == callsBefore + step.toolCalls
        invariant AnsweredIds(events) == old(AnsweredIds(events))
      {
        var event := script[i];
        var kind := StrField(event, "type");
        OneMoreEvent(script, i);
        AnswerMoves(starts, finishes, textCount, Ids(step.toolCalls), StrField(event, "text"), CallFrom(event));
        if kind == "text-delta" {
          if !textStarted {
            textStarted := true;
            textCount := textCount + 1;
            textId := textCount;
            Push(TextStart(textId));
            AnswerMoves(starts, finishes, textCount, Ids(step.toolCalls), StrField(event, "text"), CallFrom(event));
          }
          Push(TextDelta(textId, StrField(event, "text")));
        } else if kind == "tool-call" {
          var call := CallFrom(event);
          Push(ToolCalled(call));
          assert Ids(step.toolCalls + [call]) == Ids(step.toolCalls) + [call.callId];
          step := step.(toolCalls := step.toolCalls + [call]);
        } else if kind == "finish" {
          step := step.(finishReason := FinishReasonFrom(event), usage := UsageFrom(event));
        }
      }
      assert script[..|script|] == script;
      if textStarted {
        AnswerMoves(starts, finishes, textCount, Ids(step.toolCalls), "", ToolCall("", "", Null));
        Push(TextEnd(textId));
      }
    }

    /** The bounded history decides exactly as the full one would. */
    method RecordDoomLoop(call: ToolCall) returns (doomed: bool)
      requires HistoryIsBounded()
      modifies this`doomHistory, this`recorded
      ensures recorded == old(recorded) + [call] && HistoryIsBounded()
      ensures doomed <==> Fires(recorded, input.doomLoopThreshold)
    {
      PushKeepsLastKeys(recorded, call, input.doomLoopThreshold);
      doomHistory := doomHistory + [KeyOf(call)];
      recorded := recorded + [call];
      if |doomHistory| > input.doomLoopThreshold {
        doomHistory := doomHistory[1..];
      }
      doomed := |doomHistory| == input.doomLoopThreshold && doomHistory != []
                && forall i | 0 <= i < |doomHistory| :: doomHistory[i] == doomHistory[0];
      DoomedMeansFires(recorded, input.doomLoopThreshold);
    }

    method Push(event: Event)
      modifies this`events
      ensures events == old(events) + [event]
      ensures Follow(events) == Advance(old(Follow(events)), event)
      ensures CallsOf(events) == old(CallsOf(events)) + if event.ToolCalled? then [event.call] else []
      ensures AnsweredIds(events) == old(AnsweredIds(events)) + if event.ToolResult? then [event.callId] else []
      ensures Contents(events) == old(Contents(events)) + ContentOf(event)
    {
      hide Follow, CallsOf, AnsweredIds, Contents;
      Emitted(events, event);
      events := events + [event];
    }

    method EmitFixtureEchoResult(call: ToolCall)
      modifies this`events
      ensures events == old(events) + [ToolResult(call.callId, "echo:" + EchoValue(call.input), None)]
      ensures EchoValue(call.input) == match FieldOf(call.input, "value") case Some(Str(s)) => s case _ => "ok"
      ensures Follow(events) ==
        Advance(old(Follow(events)), ToolResult(call.callId, "echo:" + EchoValue(call.input), None))
      ensures Contents(events)
           == old(Contents(events)) + [ToolResult(call.callId, "echo:" + EchoValue(call.input), None)]
      ensures CallsOf(events) == old(CallsOf(events))
      ensures AnsweredIds(events) == old(AnsweredIds(events)) + [call.callId]
    {
      hide Follow, CallsOf, AnsweredIds, Contents;
      Push(ToolResult(call.callId, "echo:" + EchoValue(call.input), None));
    }

    /** A question pauses the session and is answered at once, or dismissed with an error result. */
    method EmitQuestionResult(call: ToolCall, ghost rest: seq<string>, ghost starts: nat, ghost finishes: nat)
      requires At(InStep, starts, finishes, [call.callId] + rest)
      modifies this`events, this`pauseStatuses
      ensures At(InStep, starts, finishes, rest)
      ensures pauseStatuses == old(pauseStatuses) + ["paused"]
      ensures CallsOf(events) == old(CallsOf(events))
      ensures AnsweredIds(events) == old(AnsweredIds(events)) + [call.callId]
      ensures var questions := FieldOf(call.input, "questions").GetOr(Arr([]));
        var told := [
          QuestionRequest(call.callId, questions),
          if input.replyQuestions then ToolResult(call.callId, AnswerText(questions), None)
          else ToolResult(call.callId, "", Some("The user dismissed this question"))];
        events == old(events) + told && Contents(events) == old(Contents(events)) + told
    {
      hide Follow, CallsOf, AnsweredIds, Contents;
      hide AnswerText, FieldOf;
      var questions := FieldOf(call.input, "questions").GetOr(Arr([]));
      pauseStatuses := pauseStatuses + ["paused"];
      Push(QuestionRequest(call.callId, questions));
      if !input.replyQuestions {
        Push(ToolResult(call.callId, "", Some("The user dismissed this question")));
        return;
      }
      Push(ToolResult(call.callId, AnswerText(questions), None));
    }

    /** Each tool is one of two fixtures. */
    method AnswerCall(call: ToolCall, ghost rest: seq<string>, ghost starts: nat, ghost finishes: nat)
      requires At(InStep, starts, finishes, [call.callId] + rest)
      modifies this`events, this`pauseStatuses
      ensures At(InStep, starts, finishes, rest)
      ensures CallsOf(events) == old(CallsOf(events))
      ensures Contents(events) == old(Contents(events)) + ResultOf(input, call)
      ensures AnsweredIds(events) == old(AnsweredIds(events)) + [call.callId]
      ensures pauseStatuses == old(pauseStatuses) + if call.name == "question" then ["paused"] else []
      ensures call.name != "question" ==>
        events == old(events) + [ToolResult(call.callId, "echo:" + EchoValue(call.input), None)]
    {
      hide Follow, CallsOf, AnsweredIds, Contents, Advance;
      if call.name == "question" {
        EmitQuestionResult(call, rest, starts, finishes);
      } else {
        ResultMoves(starts, finishes, textCount, call.callId, rest, "echo:" + EchoValue(call.input), None, "");
        EmitFixtureEchoResult(call);
      }
    }

    /** What every step keeps: closed steps, all calls answered, and no repeated run among them. */
    ghost predicate BetweenSteps(steps: nat)
      reads this
    {
      && At(Idle, steps, steps, [])
      && snapshotCount == steps
      && recorded == CallsOf(events)
      && HistoryIsBounded()
      && NeverFired(recorded, input.doomLoopThreshold)
      && |seenToolsByCall| <= 2 * steps
      && AskedOften(steps)
    }

    /** The model was asked once per step, and once more for each error it gave. */
    ghost predicate AskedOften(steps: nat)
      reads this`scriptIndex, this`seenToolsByCall
    {
      && scriptIndex <= |input.script|
      && |seenToolsByCall| == steps + ErrorsUpTo(input.script, scriptIndex)
      && forall i | 0 <= i < |seenToolsByCall| :: seenToolsByCall[i] == input.tools
    }

    /**
     What a finished run looks like. The run ends inside a step only when the model failed twice or the
     detector fired, and an error is then the last event; every call has its result unless the detector
     fired; and the calls that were executed never made it fire.
     */
    ghost predicate Ran(ending: Ending, steps: nat)
      reads this
    {
      && finalSessionStatus == "stop"
      && steps <= input.maxSteps
      && |seenToolsByCall| <= 2 * input.maxSteps
      && (if ending.ModelFailed? then steps > 0 && AskedOften(steps - 1) else AskedOften(steps))
      && match ending
         case Finished =>
           && At(Idle, steps, steps, []) && Executed(CallsOf(events)) && recorded == CallsOf(events)
           && events != [] && events[|events| - 1].StepFinish?
           && (events[|events| - 1].finishReason == "stop" || steps == input.maxSteps)
         case OutOfSteps => At(Over, steps, steps, []) && steps == input.maxSteps
                            && Executed(CallsOf(events)) && recorded == CallsOf(events)
         case ModelFailed => steps > 0 && At(Over, steps, steps - 1, []) && Executed(CallsOf(events))
                             && recorded == CallsOf(events)
         case Doomed =>
           var n := |recorded|;
           && steps > 0 && n > 0 && n <= |CallsOf(events)| && recorded == CallsOf(events)[..n]
           && At(Over, steps, steps - 1, Ids(CallsOf(events)[n - 1..]))
           && Executed(recorded[..n - 1])
           && Fires(recorded, input.doomLoopThreshold)
    }

    ghost predicate Executed(calls: seq<ToolCall>)
      reads this
    {
      AnsweredIds(events) == Ids(calls) && NeverFired(calls, input.doomLoopThreshold)
    }

    /** The model is asked at most twice: a first error is retried, a second ends the run. */
    method CallModel(ghost steps: nat) returns (step: Option<ModelStep>)
      requires steps > 0 && At(InStep, steps, steps - 1, [])
      modifies this`scriptIndex, this`events, this`textCount, this`seenToolsByCall, this`finalSessionStatus
      ensures var answer := AnswerAt(input.script, old(scriptIndex));
        && scriptIndex == answer.next && |seenToolsByCall| == |old(seenToolsByCall)| + answer.asked
        && step == answer.step && Contents(events) == old(Contents(events)) + answer.contents
      ensures old(seenToolsByCall) <= seenToolsByCall
      ensures forall i | old(|seenToolsByCall|) <= i < |seenToolsByCall| :: seenToolsByCall[i] == input.tools
      ensures step.None? ==>
        && 0 < scriptIndex <= |input.script| && input.script[scriptIndex - 1].error.Some?
        && events != [] && events[|events| - 1] == Failure(input.script[scriptIndex - 1].error.value)
      ensures CallsOf(events) == old(CallsOf(events)) + if step.Some? then step.value.toolCalls else []
      ensures AnsweredIds(events) == old(AnsweredIds(events))
      ensures step.Some? ==> At(InStep, steps, steps - 1, Ids(step.value.toolCalls))
                             && finalSessionStatus == old(finalSessionStatus)
      ensures step.None? ==> At(Over, steps, steps - 1, []) && finalSessionStatus == "stop"
    {
      hide Follow, CallsOf, AnsweredIds, Contents, Advance, ReadStep, ContentsIn;
      var maxRetry := 1;
      var attempt := 0;
      while true
        invariant 0 <= attempt <= maxRetry
        invariant |seenToolsByCall| == old(|seenToolsByCall|) + attempt && old(seenToolsByCall) <= seenToolsByCall
        invariant forall i | old(|seenToolsByCall|) <= i < |seenToolsByCall| :: seenToolsByCall[i] == input.tools
        invariant scriptIndex == old(scriptIndex) + attempt
        invariant attempt == 1 ==> old(scriptIndex) < |input.script| && input.script[old(scriptIndex)].error.Some?
        invariant At(InStep, steps, steps - 1, [])
        invariant CallsOf(events) == old(CallsOf(events)) && AnsweredIds(events) == old(AnsweredIds(events))
        invariant Contents(events) == old(Contents(events))
        invariant finalSessionStatus == old(finalSessionStatus)
        decreases maxRetry - attempt
      {
        attempt := attempt + 1;
        seenToolsByCall := seenToolsByCall + [input.tools];
        var call := NextScriptCall();
        if call.None? {
          return Some(EMPTY_STEP);
        }
        if call.value.error.Some? {
          if attempt <= maxRetry {
            continue;
          }
          StepMoves(steps, steps - 1, textCount, [], call.value.error.value);
          Push(Failure(call.value.error.value));
          finalSessionStatus := "stop";
          return None;
        }
        var answer := ProcessModelEvents(call.value.events, steps, steps - 1);
        return Some(answer);
      }
    }

    /** One call is put to the detector and then either answered or the end of the run. */
    method TakeCall(call: ToolCall, ghost rest: seq<string>, ghost steps: nat) returns (doomed: bool)
      requires steps > 0 && At(InStep, steps, steps - 1, [call.callId] + rest)
      requires HistoryIsBounded() && Executed(recorded)
      modifies this`events, this`pauseStatuses, this`doomHistory, this`recorded, this`finalSessionStatus
      ensures recorded == old(recorded) + [call]
      ensures CallsOf(events) == old(CallsOf(events))
      ensures Contents(events) == old(Contents(events)) +
        if doomed then [Failure(DoomMessage(input.doomLoopThreshold, call))] else ResultOf(input, call)
      ensures doomed <==> Fires(recorded, input.doomLoopThreshold)
      ensures !doomed ==>
        && At(InStep, steps, steps - 1, rest) && HistoryIsBounded() && Executed(recorded)
        && finalSessionStatus == old(finalSessionStatus)
      ensures doomed ==>
        && At(Over, steps, steps - 1, [call.callId] + rest) && Executed(old(recorded)) && finalSessionStatus == "stop"
        && events == old(events) + [Failure(DoomMessage(input.doomLoopThreshold, call))]
    {
      hide Follow, CallsOf, AnsweredIds, Contents, Advance, Fires, NeverFired, LastKeys, DoomMessage, ResultOf;
      ghost var executed := recorded;
      doomed := RecordDoomLoop(call);
      if doomed {
        ResultMoves(steps, steps - 1, textCount, call.callId, rest, "", None,
                    DoomMessage(input.doomLoopThreshold, call));
        Push(Failure(DoomMessage(input.doomLoopThreshold, call)));
        finalSessionStatus := "stop";
        return;
      }
      NeverFiredStep(executed, call, input.doomLoopThreshold);
      AnswerCall(call, rest, steps, steps - 1);
      assert Ids(executed + [call]) == Ids(executed) + [call.callId];
    }

    /** The step's calls are recorded and answered in order until one trips the detector. */
    method ExecuteCalls(calls: seq<ToolCall>, ghost steps: nat) returns (doomed: bool)
      requires steps > 0 && At(InStep, steps, steps - 1, Ids(calls))
      requires CallsOf(events) == recorded + calls && AnsweredIds(events) == Ids(recorded)
      requires HistoryIsBounded() && NeverFired(recorded, input.doomLoopThreshold)
      modifies this`events, this`pauseStatuses, this`doomHistory, this`recorded, this`finalSessionStatus
      ensures CallsOf(events) == old(CallsOf(events))
      ensures var n := CallsBeforeDoom(old(recorded), calls, input.doomLoopThreshold);
        && (doomed <==> n < |calls|)
        && recorded == old(recorded) + (if doomed then calls[..n + 1] else calls)
        && (doomed ==> Contents(events) == old(Contents(events)) + ResultsOf(input, calls[..n])
                                           + [Failure(DoomMessage(input.doomLoopThreshold, calls[n]))])
      ensures !doomed ==> Contents(events) == old(Contents(events)) + ResultsOf(input, calls)
      ensures !doomed ==>
        && At(InStep, steps, steps - 1, []) && recorded == CallsOf(events) && HistoryIsBounded()
        && Executed(recorded) && finalSessionStatus == old(finalSessionStatus)
      ensures doomed ==>
        var n := |recorded|;
        && finalSessionStatus == "stop" && 0 < n <= |CallsOf(events)| && recorded == CallsOf(events)[..n]
        && At(Over, steps, steps - 1, Ids(CallsOf(events)[n - 1..]))
        && Executed(recorded[..n - 1]) && Fires(recorded, input.doomLoopThreshold)
    {
      hide Follow, CallsOf, AnsweredIds, Contents, Advance, Fires, NeverFired, LastKeys, CallsBeforeDoom;
      hide ResultsOf, ResultOf, DoomMessage, Ids;
      ghost var before, told := recorded, Contents(events);
      NoResults(input, calls);
      for k := 0 to |calls|
        invariant At(InStep, steps, steps - 1, Ids(calls[k..]))
        invariant CallsOf(events) == before + calls && recorded == before + calls[..k]
        invariant HistoryIsBounded() && Executed(recorded)
        invariant Contents(events) == told + ResultsOf(input, calls[..k])
        invariant finalSessionStatus == old(finalSessionStatus)
      {
        PartsAt(before, calls, k);
        IdsFrom(calls, k);
        ResultsGrow(input, calls, k);
        doomed := TakeCall(calls[k], Ids(calls[k + 1..]), steps);
        if doomed {
          DoomComesFirst(before, calls, input.doomLoopThreshold, k);
          return;
        }
      }
      doomed := false;
      assert calls[|calls|..] == [] && calls[..|calls|] == calls;
      DoomComesFirst(before, calls, input.doomLoopThreshold, |calls|);
    }

    /** Everything after the calls of a step: warnings and the closing event. */
    method FinishStep(step: ModelStep, stepIndex: nat) returns (finishReason: string)
      requires stepIndex > 0 && At(InStep, stepIndex, stepIndex - 1, [])
      modifies this`events
      ensures At(Idle, stepIndex, stepIndex, [])
      ensures CallsOf(events) == old(CallsOf(events)) && AnsweredIds(events) == old(AnsweredIds(events))
      ensures Contents(events) == old(Contents(events)) + Closing(input.options, step, stepIndex)
      ensures events == old(events) + StepUsageWarnings(input.options, step.usage, stepIndex)
                        + [StepFinish(step.usage, finishReason)]
      ensures finishReason ==
        if step.toolCalls != [] && step.finishReason == "unknown" then "tool_call" else step.finishReason
    {
      hide Follow, CallsOf, AnsweredIds, Contents, StepUsageWarnings;
      ghost var told, before := Contents(events), events;
      var warnings := StepUsageWarnings(input.options, step.usage, stepIndex);
      for i := 0 to |warnings|
        invariant At(InStep, stepIndex, stepIndex - 1, [])
        invariant CallsOf(events) == old(CallsOf(events)) && AnsweredIds(events) == old(AnsweredIds(events))
        invariant Contents(events) == told + warnings[..i] && events == before + warnings[..i]
      {
        Push(warnings[i]);
      }
      assert warnings[..|warnings|] == warnings;
      finishReason := if step.toolCalls != [] && step.finishReason == "unknown" then "tool_call" else step.finishReason;
      Push(StepFinish(step.usage, finishReason));
    }

    lemma FailedRun(steps: nat)
      requires 0 < steps <= input.maxSteps && finalSessionStatus == "stop" && |seenToolsByCall| <= 2 * input.maxSteps
      requires At(Over, steps, steps - 1, []) && Executed(CallsOf(events)) && recorded == CallsOf(events)
      requires AskedOften(steps - 1)
      ensures Ran(ModelFailed, steps)
    {
      hide Follow, CallsOf, AnsweredIds, NeverFired, AskedOften;
    }

    lemma DoomedRun(steps: nat)
      requires 0 < steps <= input.maxSteps && finalSessionStatus == "stop" && |seenToolsByCall| <= 2 * input.maxSteps
      requires 0 < |recorded| <= |CallsOf(events)| && recorded == CallsOf(events)[..|recorded|]
      requires At(Over, steps, steps - 1, Ids(CallsOf(events)[|recorded| - 1..]))
      requires Executed(recorded[..|recorded| - 1]) && Fires(recorded, input.doomLoopThreshold)
      requires AskedOften(steps)
      ensures Ran(Doomed, steps)
    {
      hide Follow, CallsOf, AnsweredIds, NeverFired, Fires, AskedOften;
    }

    lemma FinishedRun(steps: nat)
      requires steps <= input.maxSteps && finalSessionStatus == "stop" && |seenToolsByCall| <= 2 * input.maxSteps
      requires At(Idle, steps, steps, []) && Executed(CallsOf(events)) && recorded == CallsOf(events)
      requires events != [] && events[|events| - 1].StepFinish?
      requires events[|events| - 1].finishReason == "stop" || steps == input.maxSteps
      requires AskedOften(steps)
      ensures Ran(Finished, steps)
    {
      hide Follow, CallsOf, AnsweredIds, NeverFired, AskedOften;
    }

    lemma SteppedOut(steps: nat)
      requires steps == input.maxSteps && finalSessionStatus == "stop" && |seenToolsByCall| <= 2 * input.maxSteps
      requires At(Over, steps, steps, []) && Executed(CallsOf(events)) && recorded == CallsOf(events)
      requires AskedOften(steps)
      ensures Ran(OutOfSteps, steps)
    {
      hide Follow, CallsOf, AnsweredIds, NeverFired, AskedOften;
    }

    /** The end of a step whose calls are all answered: a step without calls may be the last. */
    method CloseStep(step: ModelStep, stepIndex: nat) returns (stopped: bool)
      requires 0 < stepIndex <= input.maxSteps && At(InStep, stepIndex, stepIndex - 1, [])
      requires recorded == CallsOf(events) && Executed(recorded) && HistoryIsBounded()
      requires snapshotCount == stepIndex && |seenToolsByCall| <= 2 * stepIndex && AskedOften(stepIndex)
      modifies this`events, this`finalSessionStatus
      ensures stopped <==> step.toolCalls == [] && (step.finishReason == "stop" || stepIndex == input.maxSteps)
      ensures stopped ==> Ran(Finished, stepIndex)
      ensures !stopped ==> BetweenSteps(stepIndex) && AnsweredIds(events) == Ids(recorded)
      ensures Contents(events) == old(Contents(events)) + Closing(input.options, step, stepIndex)
    {
      hide Follow, CallsOf, AnsweredIds, Contents, LastKeys, NeverFired, Ran, Closing, StepUsageWarnings, AskedOften;
      var finishReason := FinishStep(step, stepIndex);
      if step.toolCalls != [] {
        return false;
      }
      if finishReason == "stop" || stepIndex >= input.maxSteps {
        finalSessionStatus := "stop";
        FinishedRun(stepIndex);
        return true;
      }
      return false;
    }

    /** The beginning of a step: it is announced and the model is asked, which may end the run. */
    method OpenStep(stepIndex: nat) returns (step: Option<ModelStep>)
      requires 0 < stepIndex <= input.maxSteps
      requires BetweenSteps(stepIndex - 1) && AnsweredIds(events) == Ids(recorded)
      modifies this`scriptIndex, this`events, this`textCount, this`seenToolsByCall, this`finalSessionStatus
      modifies this`snapshotCount
      ensures var answer := AnswerAt(input.script, old(scriptIndex));
        && step == answer.step && scriptIndex == answer.next
        && Contents(events) == old(Contents(events)) + answer.contents
      ensures step.None? ==> Ran(ModelFailed, stepIndex)
      ensures step.Some? ==>
        && At(InStep, stepIndex, stepIndex - 1, Ids(step.value.toolCalls))
        && CallsOf(events) == recorded + step.value.toolCalls && AnsweredIds(events) == Ids(recorded)
        && snapshotCount == stepIndex && |seenToolsByCall| <= 2 * stepIndex && AskedOften(stepIndex)
    {
      hide Follow, CallsOf, AnsweredIds, Contents, LastKeys, AnswerAt, NeverFired, Ran, Advance, ErrorsUpTo;
      snapshotCount := snapshotCount + 1;
      StepMoves(stepIndex - 1, stepIndex - 1, textCount, [], "");
      AskedForErrors(input.script, scriptIndex);
      Push(StepStart(snapshotCount));
      step := CallModel(stepIndex);
      if step.None? {
        assert recorded == CallsOf(events);
        FailedRun(stepIndex);
      }
    }

    /** The body of the step loop: either the run has ended, or everything holds between steps again. */
    method RunStep(stepIndex: nat) returns (stopped: bool, ghost ending: Ending)
      requires 1 <= stepIndex <= input.maxSteps
      requires BetweenSteps(stepIndex - 1) && AnsweredIds(events) == Ids(recorded)
      modifies this
      ensures stopped ==> Ran(ending, stepIndex)
      ensures !stopped ==> BetweenSteps(stepIndex) && AnsweredIds(events) == Ids(recorded)
      ensures var plan := Plan(input, stepIndex, old(scriptIndex), old(recorded), old(Contents(events)));
        plan == if stopped then Outcome(ending, stepIndex, recorded, Contents(events))
                else Plan(input, stepIndex + 1, scriptIndex, recorded, Contents(events))
    {
      hide Follow, CallsOf, AnsweredIds, Contents, LastKeys, AnswerAt, NeverFired, Fires, Plan, CallsBeforeDoom, Ran;
      hide ResultsOf, Closing, DoomMessage, StepUsageWarnings;
      ghost var answer := AnswerAt(input.script, scriptIndex);
      ghost var at, earlier, contents := scriptIndex, recorded, Contents(events);
      ending := Finished;
      var step := OpenStep(stepIndex);
      if step.None? {
        PlanFails(input, stepIndex, at, earlier, contents, answer);
        return true, ModelFailed;
      }
      var doomed := ExecuteCalls(step.value.toolCalls, stepIndex);
      if doomed {
        PlanIsDoomed(input, stepIndex, at, earlier, contents, answer,
                     CallsBeforeDoom(earlier, step.value.toolCalls, input.doomLoopThreshold));
        DoomedRun(stepIndex);
        return true, Doomed;
      }
      PlanGoesOn(input, stepIndex, at, earlier, contents, answer);
      stopped := CloseStep(step.value, stepIndex);
      ghost var calls := step.value.toolCalls;
      assert calls[..|calls|] == calls;
      assert recorded == earlier + calls;
    }

    /** `run`: a fresh runner always comes to a stop, with a stream that follows the grammar. */
    method Run() returns (ghost ending: Ending, ghost steps: nat)
      requires events == [] && recorded == [] && doomHistory == [] && seenToolsByCall == []
      requires scriptIndex == 0 && snapshotCount == 0 && textCount == 0
      modifies this
      ensures Ran(ending, steps)
      ensures Outcome(ending, steps, recorded, Contents(events)) == Plan(input, 1, 0, [], [])
    {
      hide Follow, CallsOf, AnsweredIds, Contents, LastKeys, Plan, Ran, ErrorsUpTo;
      NothingEmitted();
      NothingGood(input.script);
      assert LastKeys([], input.doomLoopThreshold) == [] by { NoKeys(input.doomLoopThreshold); }
      assert NeverFired(recorded, input.doomLoopThreshold);
      for stepIndex := 1 to input.maxSteps + 1
        invariant BetweenSteps(stepIndex - 1) && AnsweredIds(events) == Ids(recorded)
        invariant Plan(input, 1, 0, [], []) ==
                    Plan(input, stepIndex, scriptIndex, recorded, Contents(events))
      {
        var stopped;
        stopped, ending := RunStep(stepIndex);
        steps := stepIndex;
        if stopped {
          return;
        }
      }
      steps := input.maxSteps;
      ghost var contents := Contents(events);
      Push(Failure("max_steps exceeded"));
      finalSessionStatus := "stop";
      ending := OutOfSteps;
      PlanRunsOut(input, steps + 1, scriptIndex, recorded, contents);
      assert recorded == CallsOf(events) && AnsweredIds(events) == Ids(recorded);
      SteppedOut(steps);
    }
  }

  /** How a list of calls is taken apart at one of them. */
  lemma PartsAt(before: seq<ToolCall>, calls: seq<ToolCall>, k: nat)
    requires k < |calls|
    ensures before + calls[..k] + [calls[k]] == before + calls[..k + 1]
    ensures (before + calls[..k + 1])[..|before| + k] == before + calls[..k]
    ensures (before + calls)[..|before| + k + 1] == before + calls[..k + 1]
    ensures (before + calls)[|before| + k..] == calls[k..]
  {
  }

  lemma IdsFrom(calls: seq<ToolCall>, k: nat)
    requires k < |calls|
    ensures Ids(calls[k..]) == [calls[k].callId] + Ids(calls[k + 1..])
  {
  }

  lemma NoResults(input: LoopInput, calls: seq<ToolCall>)
    ensures calls[..0] == [] && ResultsOf(input, calls[..0]) == []
  {
  }

  lemma ResultsGrow(input: LoopInput, calls: seq<ToolCall>, k: nat)
    requires k < |calls|
    ensures ResultsOf(input, calls[..k + 1]) == ResultsOf(input, calls[..k]) + ResultOf(input, calls[k])
  {
    assert calls[..k + 1][..k] == calls[..k];
  }

  lemma NothingGood(script: seq<ScriptCall>)
    ensures GoodUpTo(script, 0) == [] && ErrorsUpTo(script, 0) == 0
  {
  }

  lemma NoKeys(threshold: nat)
    ensures LastKeys([], threshold) == []
  {
  }

  lemma DoomedMeansFires(recorded: seq<ToolCall>, threshold: nat)
    ensures var keys := LastKeys(recorded, threshold);
      Fires(recorded, threshold) <==>
        |keys| == threshold && keys != [] && forall i | 0 <= i < |keys| :: keys[i] == keys[0]
  {
    hide KeyOf;
    var keys := LastKeys(recorded, threshold);
    if |keys| == threshold && keys != [] {
      forall i | |recorded| - threshold <= i < |recorded|
        ensures KeyOf(recorded[i]) == keys[i - (|recorded| - threshold)]
      {
      }
      if Fires(recorded, threshold) {
        forall i | 0 <= i < |keys| ensures keys[i] == keys[0] {
          assert KeyOf(recorded[|recorded| - threshold + i]) == KeyOf(recorded[|recorded| - threshold]);
        }
      }
    }
  }

  /** A whole run from a fresh runner, and what its output says about itself. */
  method RunScriptedAgentLoop(input: LoopInput)
    returns (events: seq<Event>, modelCallCount: nat, finalSessionStatus: string, ghost ending: Ending)
    ensures finalSessionStatus == "stop"
    ensures modelCallCount <= 2 * input.maxSteps
    ensures !Follow(events).Broken?
    ensures var p := Follow(events);
      && (p.starts == p.finishes || (p.starts == p.finishes + 1 && events != [] && events[|events| - 1].Failure?))
      && p.starts <= input.maxSteps
    ensures exists read | 0 <= read <= |input.script| ::
      modelCallCount == Follow(events).starts + ErrorsUpTo(input.script, read) - if ending.ModelFailed? then 1 else 0
    ensures ending.ModelFailed? ==> exists p: nat | IsPair(input.script, p) ::
      (forall q: nat | q < p :: !IsPair(input.script, q)) && Follow(events).starts == |GoodUpTo(input.script, p)| + 1
    ensures NoTwoErrors(input.script) ==> exists recorded ::
      IsRunOf(input.(script := Good(input.script)), Outcome(ending, Follow(events).starts, recorded, Contents(events)))
      && if ending.Doomed? then recorded <= CallsOf(events) else recorded == CallsOf(events)
    ensures var plan := Plan(input, 1, 0, [], []);
      && ending == plan.ending && Follow(events).starts == plan.steps && Contents(events) == plan.contents
      && plan.recorded <= CallsOf(events)
      && |AnsweredIds(events)| == |plan.recorded| - if ending.Doomed? then 1 else 0
    ensures !ending.Doomed? ==> AnsweredIds(events) == Ids(CallsOf(events))
    ensures ending.Doomed? ==>
      && |AnsweredIds(events)| < |CallsOf(events)|
      && AnsweredIds(events) == Ids(CallsOf(events)[..|AnsweredIds(events)|])
      && Fires(CallsOf(events)[..|AnsweredIds(events)| + 1], input.doomLoopThreshold)
    ensures input.doomLoopThreshold == 0 ==> !ending.Doomed?
    ensures
      && |AnsweredIds(events)| <= |CallsOf(events)|
      && NeverFired(CallsOf(events)[..|AnsweredIds(events)|], input.doomLoopThreshold)
    ensures ValidScript(input.script) ==> ValidCalls(Plan(input, 1, 0, [], []).recorded)
    ensures ValidScript(input.script) && input.doomLoopThreshold >= 1 ==> forall at: nat ::
      !RepeatsAt(CallsOf(events)[..|AnsweredIds(events)|], at, input.doomLoopThreshold)
    ensures ValidScript(input.script) && ending.Doomed? ==>
      var asked := CallsOf(events)[..|AnsweredIds(events)| + 1];
      && 1 <= input.doomLoopThreshold <= |asked|
      && RepeatsAt(asked, |asked| - input.doomLoopThreshold, input.doomLoopThreshold)
  {
    hide ValidScript, RepeatsAt, IsRunOf, NoTwoErrors, IsPair, ErrorsUpTo, GoodUpTo, Good;
    hide Plan, Fires, CallsBeforeDoom, Contents, Follow, CallsOf, AnsweredIds;
    var runner := new ScriptedAgentLoopRunner(input);
    ghost var steps;
    ending, steps := runner.Run();
    events, modelCallCount := runner.events, |runner.seenToolsByCall|;
    finalSessionStatus := runner.finalSessionStatus;
    StepsBalance(events);
    FailureIsThePair(input, 1, 0, [], []) by { NothingGood(input.script); }
    if NoTwoErrors(input.script) {
      ScriptIsRun(input);
    }
    var calls := CallsOf(events);
    if ending.Doomed? {
      var n := |runner.recorded|;
      assert runner.recorded[..n - 1] == calls[..n - 1];
      assert calls[..n] == runner.recorded;
      ThresholdZeroNeverFires(runner.recorded);
    } else {
      assert calls[..|AnsweredIds(events)|] == calls;
    }
    if ValidScript(input.script) {
      PlanIsValid(input, 1, 0, [], []);
      ExecutedCallsVary(calls, Plan(input, 1, 0, [], []).recorded, |AnsweredIds(events)|, input.doomLoopThreshold);
    }
  }

  /** What never making the detector fire, or making it fire, means for valid calls. */
  lemma ExecutedCallsVary(calls: seq<ToolCall>, recorded: seq<ToolCall>, n: nat, threshold: nat)
    requires ValidCalls(recorded) && recorded <= calls && n <= |recorded| && NeverFired(calls[..n], threshold)
    ensures threshold >= 1 ==> forall at: nat :: !RepeatsAt(calls[..n], at, threshold)
    ensures n < |recorded| && Fires(calls[..n + 1], threshold) ==>
      1 <= threshold <= n + 1 && RepeatsAt(calls[..n + 1], n + 1 - threshold, threshold)
  {
    hide Valid, Fires, RepeatsAt, NeverFired;
    assert ValidCalls(calls[..n]) by { assert calls[..n] == recorded[..n]; }
    if threshold >= 1 {
      NoRepeatedRun(calls[..n], threshold);
    }
    if n < |recorded| {
      assert ValidCalls(calls[..n + 1]) by { assert calls[..n + 1] == recorded[..n + 1]; }
      FiresOnRepeatedCalls(calls[..n + 1], threshold);
    }
  }
}
