/**
 What the plan of a script amounts to (src/core.rs:3772-3874): single errors are as if they were not there,
 two in a row are what a run fails for, and without errors step `k` reads entry `k`.
 */
module ScriptRuns {
  import opened Prelude
  import opened Json
  import opened EventStream
  import opened DoomLoop
  import opened ScriptPlan

  // ----- what the events of an answer mean

  ghost predicate HasType(event: Value, kind: string) {
    FieldOf(event, "type") == Some(Str(kind))
  }

  function Text(field: Option<Value>): string {
    match field
    case Some(Str(s)) => s
    case _ => ""
  }

  function Count(field: Option<Value>): nat {
    match field
    case Some(Number(Int(n))) => if n >= 0 then n else 0
    case _ => 0
  }

  /** One text delta or tool call, field by field. */
  ghost predicate IsContent(e: Event, event: Value) {
    if HasType(event, "text-delta") then e == TextDelta(0, Text(FieldOf(event, "text")))
    else
      && HasType(event, "tool-call") && e.ToolCalled?
      && e.call.callId == Text(FieldOf(event, "call_id")) && e.call.name == Text(FieldOf(event, "name"))
      && e.call.input == match FieldOf(event, "input") case Some(v) => v case None => Obj([])
  }

  lemma TypesDiffer()
    ensures "text-delta" != "tool-call" && "text-delta" != "" && "tool-call" != "" && "finish" != ""
  {
    assert |"text-delta"| == 10 && |"tool-call"| == 9 && |"finish"| == 6;
  }

  lemma ContentInWords(event: Value)
    ensures ContentFrom(event) == [] <==> !HasType(event, "text-delta") && !HasType(event, "tool-call")
    ensures ContentFrom(event) != [] ==> |ContentFrom(event)| == 1 && IsContent(ContentFrom(event)[0], event)
  {
    TypesDiffer();
  }

  /** `at` lists the text deltas and tool calls of the script in order, and `contents` says what each is. */
  ghost predicate IsIndex(script: seq<Value>, contents: seq<Event>, at: seq<nat>) {
    && |at| == |contents| && (forall j, k | 0 <= j < k < |at| :: at[j] < at[k])
    && (forall k | 0 <= k < |at| :: at[k] < |script| && IsContent(contents[k], script[at[k]]))
    && forall i | 0 <= i < |script| && (HasType(script[i], "text-delta") || HasType(script[i], "tool-call")) :: i in at
  }

  lemma IndexStays(script: seq<Value>, contents: seq<Event>, at: seq<nat>, last: Value)
    requires IsIndex(script, contents, at) && !HasType(last, "text-delta") && !HasType(last, "tool-call")
    ensures IsIndex(script + [last], contents, at)
  {
    hide IsContent, HasType;
  }

  lemma IndexGrows(script: seq<Value>, contents: seq<Event>, at: seq<nat>, last: Value, e: Event)
    requires IsIndex(script, contents, at) && IsContent(e, last)
    ensures IsIndex(script + [last], contents + [e], at + [|script|])
  {
    hide IsContent, HasType;
    var s, next := script + [last], at + [|script|];
    forall k | 0 <= k < |next| ensures next[k] < |s| && IsContent((contents + [e])[k], s[next[k]]) {
      assert k < |at| ==> s[at[k]] == script[at[k]];
    }
    forall i | 0 <= i < |s| && (HasType(s[i], "text-delta") || HasType(s[i], "tool-call")) ensures i in next {
      assert next[|at|] == |script|;
      assert i < |script| ==> i in at;
    }
  }

  lemma NothingIndexed()
    ensures IsIndex([], [], [])
  {
  }

  /** An answer tells its text deltas and tool calls, each once and in order, and nothing else. */
  lemma {:induction false} ContentsAreExact(script: seq<Value>) returns (at: seq<nat>)
    ensures IsIndex(script, ContentsIn(script), at)
  {
    hide ContentFrom, IsContent, HasType, IsIndex;
    if script == [] {
      NothingIndexed();
      at := [];
    } else {
      var n := |script| - 1;
      at := ContentsAreExact(script[..n]);
      assert script[..n] + [script[n]] == script;
      ContentInWords(script[n]);
      if ContentFrom(script[n]) == [] {
        IndexStays(script[..n], ContentsIn(script[..n]), at, script[n]);
        assert ContentsIn(script) == ContentsIn(script[..n]);
      } else {
        var e := ContentFrom(script[n])[0];
        IndexGrows(script[..n], ContentsIn(script[..n]), at, script[n], e);
        assert ContentsIn(script) == ContentsIn(script[..n]) + [e];
        at := at + [n];
      }
    }
  }

  /** The calls of a step are those that its answer tells. */
  lemma {:induction false} CallsAreTold(script: seq<Value>)
    ensures ReadStep(script).toolCalls == CallsOf(ContentsIn(script))
  {
    hide CallFrom, FinishReasonFrom, UsageFrom, StrField;
    if script == [] {
    } else {
      var front, last := script[..|script| - 1], script[|script| - 1];
      CallsAreTold(front);
      TypesDiffer();
      if ContentFrom(last) == [] {
        assert ContentsIn(front) + [] == ContentsIn(front);
      } else {
        Emitted(ContentsIn(front), ContentFrom(last)[0]);
      }
    }
  }

  /** The last finish event decides the reason and the usage. */
  lemma {:induction false} LastFinishDecides(script: seq<Value>, i: nat)
    requires i < |script| && HasType(script[i], "finish")
    requires forall j | i < j < |script| :: !HasType(script[j], "finish")
    ensures ReadStep(script).finishReason == match FieldOf(script[i], "finish_reason")
                                             case Some(Str(reason)) => reason case _ => "unknown"
    ensures ReadStep(script).usage == match FieldOf(script[i], "usage")
      case Some(u) => Usage(Count(FieldOf(u, "input_tokens")), Count(FieldOf(u, "output_tokens")))
      case None => Usage(0, 0)
  {
    hide CallsIn, FieldOf;
    TypesDiffer();
    if i == |script| - 1 {
    } else {
      LastFinishDecides(script[..|script| - 1], i);
    }
  }

  lemma {:induction false} NoFinishNoReason(script: seq<Value>)
    requires forall j | 0 <= j < |script| :: !HasType(script[j], "finish")
    ensures ReadStep(script).finishReason == "unknown" && ReadStep(script).usage == Usage(0, 0)
  {
    hide CallsIn;
    TypesDiffer();
    if script == [] {
    } else {
      NoFinishNoReason(script[..|script| - 1]);
    }
  }

  // ----- errors

  /** The entries without an error among the first `n`. */
  function GoodUpTo(script: seq<ScriptCall>, n: nat): (good: seq<ScriptCall>)
    requires n <= |script|
    ensures |good| <= n
  {
    if n == 0 then []
    else GoodUpTo(script, n - 1) + if script[n - 1].error.None? then [script[n - 1]] else []
  }

  function Good(script: seq<ScriptCall>): seq<ScriptCall> {
    GoodUpTo(script, |script|)
  }

  function ErrorsUpTo(script: seq<ScriptCall>, n: nat): nat
    requires n <= |script|
  {
    n - |GoodUpTo(script, n)|
  }

  predicate IsPair(script: seq<ScriptCall>, p: nat) {
    p + 1 < |script| && script[p].error.Some? && script[p + 1].error.Some?
  }

  ghost predicate NoTwoErrors(script: seq<ScriptCall>) {
    forall p: nat :: !IsPair(script, p)
  }

  lemma {:induction false} GoodIsPrefix(script: seq<ScriptCall>, m: nat, n: nat)
    requires m <= n <= |script|
    ensures GoodUpTo(script, m) <= GoodUpTo(script, n)
  {
    if m == n {
    } else {
      GoodIsPrefix(script, m, n - 1);
    }
  }

  lemma GoodGrows(script: seq<ScriptCall>, n: nat)
    requires n < |script|
    ensures |GoodUpTo(script, n + 1)| == |GoodUpTo(script, n)| + if script[n].error.None? then 1 else 0
  {
  }

  /** Where an entry without an error stands among those without one. */
  lemma GoodAt(script: seq<ScriptCall>, at: nat)
    requires at < |script| && script[at].error.None?
    ensures var k := |GoodUpTo(script, at)|; k < |Good(script)| && Good(script)[k] == script[at]
  {
    GoodIsPrefix(script, at + 1, |script|);
    assert GoodUpTo(script, at + 1) == GoodUpTo(script, at) + [script[at]];
  }

  lemma {:induction false} GoodHaveNoError(script: seq<ScriptCall>, n: nat)
    requires n <= |script|
    ensures forall k | 0 <= k < |GoodUpTo(script, n)| :: GoodUpTo(script, n)[k].error.None?
  {
    if n == 0 {
    } else {
      GoodHaveNoError(script, n - 1);
    }
  }

  /** A step fails exactly at two errors in a row. */
  lemma FailsIff(script: seq<ScriptCall>, at: nat)
    ensures AnswerAt(script, at).step.None? <==> IsPair(script, at)
  {
  }

  /** After one error the next entry, the second to be asked, gives the calls, the reason, the usage and the text. */
  lemma RetryTakesTheNextEntry(script: seq<ScriptCall>, at: nat)
    requires at + 1 < |script| && script[at].error.Some? && script[at + 1].error.None?
    ensures var answer := AnswerAt(script, at);
      && answer.step == Some(ReadStep(script[at + 1].events)) && answer.contents == ContentsIn(script[at + 1].events)
      && answer.asked == 2 && answer.next == at + 2
  {
  }

  /** A step asks once, and once more for each error it meets, except that the second error ends the run. */
  lemma AskedForErrors(script: seq<ScriptCall>, at: nat)
    requires at <= |script|
    ensures var answer := AnswerAt(script, at);
      && at <= answer.next <= |script|
      && answer.asked == 1 + ErrorsUpTo(script, answer.next) - ErrorsUpTo(script, at)
                         - if answer.step.None? then 1 else 0
  {
    hide GoodUpTo, ReadStep, ContentsIn;
    if at < |script| {
      GoodGrows(script, at);
    }
    if at + 1 < |script| {
      GoodGrows(script, at + 1);
    }
  }

  /** Without two errors in a row an answer is what the entries without an error alone would give. */
  lemma AnswerSkipsErrors(script: seq<ScriptCall>, at: nat)
    requires NoTwoErrors(script) && at <= |script|
    ensures var answer, clean := AnswerAt(script, at), AnswerAt(Good(script), |GoodUpTo(script, at)|);
      && answer.step == clean.step && answer.contents == clean.contents
      && at <= answer.next <= |script| && |GoodUpTo(script, answer.next)| == clean.next
  {
    hide ReadStep, ContentsIn, GoodUpTo;
    GoodHaveNoError(script, |script|);
    if at < |script| {
      GoodGrows(script, at);
      if script[at].error.None? {
        GoodAt(script, at);
      } else if at + 1 < |script| {
        assert !IsPair(script, at);
        GoodAt(script, at + 1);
        GoodGrows(script, at + 1);
      }
    }
  }

  /** So a script without two errors in a row is run as if it had none. */
  lemma {:induction false} PlanSkipsErrors(
    input: LoopInput, step: nat, at: nat, recorded: seq<ToolCall>, contents: seq<Event>)
    requires NoTwoErrors(input.script) && at <= |input.script|
    ensures Plan(input, step, at, recorded, contents)
         == Plan(input.(script := Good(input.script)), step, |GoodUpTo(input.script, at)|, recorded, contents)
    decreases input.maxSteps + 1 - step
  {
    hide AnswerAt, CallsBeforeDoom, NoTwoErrors, Good, GoodUpTo, Plan, ResultsOf, Closing, DoomMessage;
    var clean, there := input.(script := Good(input.script)), |GoodUpTo(input.script, at)|;
    if step > input.maxSteps {
      PlanRunsOut(input, step, at, recorded, contents);
      PlanRunsOut(clean, step, there, recorded, contents);
    } else {
      var answer, other := AnswerAt(input.script, at), AnswerAt(clean.script, there);
      AnswerSkipsErrors(input.script, at);
      if answer.step.None? {
        PlanFails(input, step, at, recorded, contents, answer);
        PlanFails(clean, step, there, recorded, contents, other);
      } else {
        SameStep(input, clean, step, at, there, recorded, contents);
        var model := answer.step.value;
        if CallsBeforeDoom(recorded, model.toolCalls, input.doomLoopThreshold) == |model.toolCalls| {
          PlanSkipsErrors(input, step + 1, answer.next, recorded + model.toolCalls,
                          contents + answer.contents + ResultsOf(input, model.toolCalls)
                          + Closing(input.options, model, step));
        }
      }
    }
  }

  /** Two inputs whose scripts give the same answer make the same step of it. */
  lemma SameStep(x: LoopInput, y: LoopInput, step: nat, at: nat, there: nat,
                 recorded: seq<ToolCall>, contents: seq<Event>)
    requires y == x.(script := y.script) && step <= x.maxSteps
    requires var a, b := AnswerAt(x.script, at), AnswerAt(y.script, there);
      a.step == b.step && a.step.Some? && a.contents == b.contents
    ensures var answer, other := AnswerAt(x.script, at), AnswerAt(y.script, there);
      var model := answer.step.value;
      var told := contents + answer.contents + ResultsOf(x, model.toolCalls) + Closing(x.options, model, step);
      || Plan(x, step, at, recorded, contents) == Plan(y, step, there, recorded, contents)
      || (&& CallsBeforeDoom(recorded, model.toolCalls, x.doomLoopThreshold) == |model.toolCalls|
          && Plan(x, step, at, recorded, contents)
               == Plan(x, step + 1, answer.next, recorded + model.toolCalls, told)
          && Plan(y, step, there, recorded, contents)
               == Plan(y, step + 1, other.next, recorded + model.toolCalls, told))
  {
    hide AnswerAt, CallsBeforeDoom, Plan, ResultsOf, Closing, DoomMessage;
    var answer, other := AnswerAt(x.script, at), AnswerAt(y.script, there);
    var calls := answer.step.value.toolCalls;
    var n := CallsBeforeDoom(recorded, calls, x.doomLoopThreshold);
    SameResults(x, y, calls[..n]);
    SameResults(x, y, calls);
    if n < |calls| {
      PlanIsDoomed(x, step, at, recorded, contents, answer, n);
      PlanIsDoomed(y, step, there, recorded, contents, other, n);
    } else {
      PlanGoesOn(x, step, at, recorded, contents, answer);
      PlanGoesOn(y, step, there, recorded, contents, other);
    }
  }

  lemma PlanRunsOut(input: LoopInput, step: nat, at: nat, recorded: seq<ToolCall>, contents: seq<Event>)
    requires step > input.maxSteps
    ensures Plan(input, step, at, recorded, contents)
         == Outcome(OutOfSteps, input.maxSteps, recorded, contents + [Failure("max_steps exceeded")])
  {
  }

  lemma {:induction false} SameResults(x: LoopInput, y: LoopInput, calls: seq<ToolCall>)
    requires x.replyQuestions == y.replyQuestions
    ensures ResultsOf(x, calls) == ResultsOf(y, calls)
  {
    if calls == [] {
    } else {
      SameResults(x, y, calls[..|calls| - 1]);
    }
  }

  /** A run fails for the first two errors in a row and no others, in the step that meets them. */
  lemma {:induction false} FailureIsThePair(
    input: LoopInput, step: nat, at: nat, recorded: seq<ToolCall>, contents: seq<Event>)
    requires at <= |input.script| && forall p: nat | p < at :: !IsPair(input.script, p)
    requires at < |input.script| ==> step == |GoodUpTo(input.script, at)| + 1
    ensures var plan := Plan(input, step, at, recorded, contents);
      plan.ending.ModelFailed? ==>
        exists p: nat | IsPair(input.script, p) ::
          (forall q: nat | q < p :: !IsPair(input.script, q)) && plan.steps == |GoodUpTo(input.script, p)| + 1
    decreases input.maxSteps + 1 - step
  {
    if step > input.maxSteps {
      PlanRunsOut(input, step, at, recorded, contents);
    } else {
      hide AnswerAt, CallsBeforeDoom, GoodUpTo, Plan, ResultsOf, Closing, DoomMessage;
      var answer := AnswerAt(input.script, at);
      FailsIff(input.script, at);
      if answer.step.None? {
        PlanFails(input, step, at, recorded, contents, answer);
      } else {
        var model := answer.step.value;
        var n := CallsBeforeDoom(recorded, model.toolCalls, input.doomLoopThreshold);
        if n < |model.toolCalls| {
          PlanIsDoomed(input, step, at, recorded, contents, answer, n);
        } else {
          PlanGoesOn(input, step, at, recorded, contents, answer);
          NoPairPassed(input.script, at);
          FailureIsThePair(input, step + 1, answer.next, recorded + model.toolCalls,
                           contents + answer.contents + ResultsOf(input, model.toolCalls)
                           + Closing(input.options, model, step));
        }
      }
    }
  }

  lemma NoPairPassed(script: seq<ScriptCall>, at: nat)
    requires at <= |script| && AnswerAt(script, at).step.Some?
    ensures var next := AnswerAt(script, at).next;
      && at <= next <= |script|
      && (next < |script| ==> at < |script| && |GoodUpTo(script, next)| == |GoodUpTo(script, at)| + 1)
      && forall p: nat | at <= p < next :: !IsPair(script, p)
  {
    hide GoodUpTo, ReadStep, ContentsIn;
    if at < |script| {
      GoodGrows(script, at);
    }
    if at + 1 < |script| {
      GoodGrows(script, at + 1);
    }
  }

  // ----- a script without errors

  /** What step `k` gets: entry `k`, or nothing once the script is used up. */
  function StepAt(script: seq<ScriptCall>, k: nat): ModelStep
    requires k > 0
  {
    if k <= |script| then ReadStep(script[k - 1].events) else EMPTY_STEP
  }

  function SaidAt(script: seq<ScriptCall>, k: nat): seq<Event>
    requires k > 0
  {
    if k <= |script| then ContentsIn(script[k - 1].events) else []
  }

  function CallsUpTo(script: seq<ScriptCall>, k: nat): seq<ToolCall> {
    if k == 0 then [] else CallsUpTo(script, k - 1) + StepAt(script, k).toolCalls
  }

  /** What the first `k` steps tell: per step the answer, a result for every call, and the closing events. */
  function ToldUpTo(input: LoopInput, k: nat): seq<Event> {
    if k == 0 then []
    else
      var model := StepAt(input.script, k);
      ToldUpTo(input, k - 1) + SaidAt(input.script, k) + ResultsOf(input, model.toolCalls)
      + Closing(input.options, model, k)
  }

  /** The step neither asks for calls nor leaves a reason to go on. */
  predicate Ends(input: LoopInput, k: nat)
    requires k > 0
  {
    var model := StepAt(input.script, k);
    model.toolCalls == [] && (model.finishReason == "stop" || k == input.maxSteps)
  }

  /**
   What a run over a script without errors is: it ends with the first step that has no calls and says
   "stop" or is the last allowed, or with the first call that trips the detector, or for want of steps.
   */
  ghost predicate IsRunOf(input: LoopInput, run: Outcome) {
    && run.steps <= input.maxSteps
    && (forall k | 1 <= k < run.steps :: !Ends(input, k))
    && match run.ending
       case Finished =>
         && run.steps > 0 && Ends(input, run.steps)
         && run.recorded == CallsUpTo(input.script, run.steps) && run.contents == ToldUpTo(input, run.steps)
         && NeverFired(run.recorded, input.doomLoopThreshold)
       case OutOfSteps =>
         && run.steps == input.maxSteps && (run.steps > 0 ==> !Ends(input, run.steps))
         && run.recorded == CallsUpTo(input.script, run.steps)
         && run.contents == ToldUpTo(input, run.steps) + [Failure("max_steps exceeded")]
         && NeverFired(run.recorded, input.doomLoopThreshold)
       case Doomed =>
         && run.steps > 0
         && (exists n | 0 <= n < |StepAt(input.script, run.steps).toolCalls| :: IsDoomedAt(input, run, n))
       case ModelFailed => false
  }

  /** The detector fires at call `n` of the last step, and at no call before. */
  ghost predicate IsDoomedAt(input: LoopInput, run: Outcome, n: nat)
    requires run.steps > 0 && n < |StepAt(input.script, run.steps).toolCalls|
  {
    var calls := StepAt(input.script, run.steps).toolCalls;
    && run.recorded == CallsUpTo(input.script, run.steps - 1) + calls[..n + 1]
    && Fires(run.recorded, input.doomLoopThreshold)
    && NeverFired(CallsUpTo(input.script, run.steps - 1) + calls[..n], input.doomLoopThreshold)
    && run.contents == ToldUpTo(input, run.steps - 1) + SaidAt(input.script, run.steps)
                       + ResultsOf(input, calls[..n])
                       + [Failure("Detected repeated tool-call loop (threshold=" + Decimal(input.doomLoopThreshold)
                                  + "): " + calls[n].name + " " + Dumps(calls[n].input))]
  }

  /** Where the detector fires first. */
  lemma {:induction false} DoomIsFirst(recorded: seq<ToolCall>, calls: seq<ToolCall>, threshold: nat)
    requires NeverFired(recorded, threshold)
    ensures var n := CallsBeforeDoom(recorded, calls, threshold);
      && NeverFired(recorded + calls[..n], threshold)
      && (n < |calls| ==> Fires(recorded + calls[..n + 1], threshold))
    decreases calls
  {
    hide Fires, NeverFired;
    var n := CallsBeforeDoom(recorded, calls, threshold);
    if calls == [] || Fires(recorded + [calls[0]], threshold) {
      assert recorded + calls[..0] == recorded;
      assert calls != [] ==> calls[..1] == [calls[0]];
    } else {
      NeverFiredStep(recorded, calls[0], threshold);
      DoomIsFirst(recorded + [calls[0]], calls[1..], threshold);
      assert recorded + calls[..n] == recorded + [calls[0]] + calls[1..][..n - 1];
      assert n < |calls| ==> recorded + calls[..n + 1] == recorded + [calls[0]] + calls[1..][..n];
    }
  }

  /** The answer quotes the first question, or says "Question" where there is none. */
  lemma AnswerQuotesTheQuestion(questions: Value)
    ensures var question :=
        if questions.Arr? && questions.items != [] then
          match FieldOf(questions.items[0], "question") case Some(Str(s)) => s case _ => "Question"
        else "Question";
      AnswerText(questions) == "User has answered your questions: \"" + question
        + "\"=\"Fast path\". You can now continue with the user's answers in mind."
  {
    hide FieldOf;
  }

  lemma DoomIsReported(threshold: nat, call: ToolCall)
    ensures DoomMessage(threshold, call) == "Detected repeated tool-call loop (threshold=" + Decimal(threshold)
                                            + "): " + call.name + " " + Dumps(call.input)
  {
  }

  lemma CleanAnswer(script: seq<ScriptCall>, step: nat, at: nat)
    requires step > 0 && at == (if step - 1 < |script| then step - 1 else |script|)
    requires forall k | 0 <= k < |script| :: script[k].error.None?
    ensures var answer := AnswerAt(script, at);
      && answer.step == Some(StepAt(script, step)) && answer.contents == SaidAt(script, step)
      && answer.next == if step < |script| then step else |script|
  {
    hide ReadStep, ContentsIn;
  }

  /** No step before `step` ends the run. */
  ghost predicate GoesOnUntil(input: LoopInput, step: nat) {
    forall k | 1 <= k < step :: !Ends(input, k)
  }

  lemma DoomedIsRun(input: LoopInput, step: nat, n: nat, run: Outcome)
    requires 0 < step <= input.maxSteps && GoesOnUntil(input, step) && n < |StepAt(input.script, step).toolCalls|
    requires run.ending == Doomed && run.steps == step && IsDoomedAt(input, run, n)
    ensures IsRunOf(input, run)
  {
    hide IsDoomedAt, Ends, StepAt;
  }

  lemma FinishedIsRun(input: LoopInput, step: nat, run: Outcome)
    requires 0 < step <= input.maxSteps && GoesOnUntil(input, step) && Ends(input, step)
    requires run == Outcome(Finished, step, CallsUpTo(input.script, step), ToldUpTo(input, step))
    requires NeverFired(run.recorded, input.doomLoopThreshold)
    ensures IsRunOf(input, run)
  {
    hide Ends, CallsUpTo, ToldUpTo, NeverFired;
  }

  lemma SteppedOutIsRun(input: LoopInput, run: Outcome)
    requires GoesOnUntil(input, input.maxSteps + 1) && NeverFired(run.recorded, input.doomLoopThreshold)
    requires run == Outcome(OutOfSteps, input.maxSteps, CallsUpTo(input.script, input.maxSteps),
                            ToldUpTo(input, input.maxSteps) + [Failure("max_steps exceeded")])
    ensures IsRunOf(input, run)
  {
    hide Ends, CallsUpTo, ToldUpTo, NeverFired;
  }

  lemma StepGoesOn(input: LoopInput, step: nat)
    requires step > 0 && GoesOnUntil(input, step) && !Ends(input, step)
    ensures GoesOnUntil(input, step + 1)
  {
    hide Ends;
  }

  lemma DoomedPlanIsRun(input: LoopInput, step: nat, at: nat, n: nat)
    requires 0 < step <= input.maxSteps && GoesOnUntil(input, step)
    requires AnswerAt(input.script, at).step == Some(StepAt(input.script, step))
    requires AnswerAt(input.script, at).contents == SaidAt(input.script, step)
    requires var recorded, calls := CallsUpTo(input.script, step - 1), StepAt(input.script, step).toolCalls;
      && n < |calls| && n == CallsBeforeDoom(recorded, calls, input.doomLoopThreshold)
      && NeverFired(recorded + calls[..n], input.doomLoopThreshold)
      && Fires(recorded + calls[..n + 1], input.doomLoopThreshold)
    ensures IsRunOf(input, Plan(input, step, at, CallsUpTo(input.script, step - 1), ToldUpTo(input, step - 1)))
  {
    hide CallsBeforeDoom, NeverFired, Fires, StepAt, SaidAt, AnswerAt, ResultsOf, Closing, DoomMessage, Plan;
    hide IsRunOf, GoesOnUntil, CallsUpTo, ToldUpTo;
    var recorded, contents := CallsUpTo(input.script, step - 1), ToldUpTo(input, step - 1);
    PlanIsDoomed(input, step, at, recorded, contents, AnswerAt(input.script, at), n);
    DoomIsReported(input.doomLoopThreshold, StepAt(input.script, step).toolCalls[n]);
    DoomedIsRun(input, step, n, Plan(input, step, at, recorded, contents));
  }

  /** The plan of a script without errors is the run of it. */
  lemma {:induction false} PlanIsRun(
    input: LoopInput, step: nat, at: nat, recorded: seq<ToolCall>, contents: seq<Event>)
    requires 0 < step <= input.maxSteps + 1 && GoesOnUntil(input, step)
    requires at == (if step - 1 < |input.script| then step - 1 else |input.script|)
    requires forall k | 0 <= k < |input.script| :: input.script[k].error.None?
    requires recorded == CallsUpTo(input.script, step - 1) && contents == ToldUpTo(input, step - 1)
    requires NeverFired(recorded, input.doomLoopThreshold)
    ensures IsRunOf(input, Plan(input, step, at, recorded, contents))
    decreases input.maxSteps + 1 - step
  {
    hide CallsBeforeDoom, NeverFired, Fires, StepAt, SaidAt, AnswerAt, ResultsOf, Closing, DoomMessage, Plan;
    hide IsRunOf, GoesOnUntil;
    var plan := Plan(input, step, at, recorded, contents);
    if step > input.maxSteps {
      PlanRunsOut(input, step, at, recorded, contents);
      SteppedOutIsRun(input, plan);
    } else {
      CleanAnswer(input.script, step, at);
      var answer := AnswerAt(input.script, at);
      var calls := StepAt(input.script, step).toolCalls;
      var n := CallsBeforeDoom(recorded, calls, input.doomLoopThreshold);
      DoomIsFirst(recorded, calls, input.doomLoopThreshold);
      if n < |calls| {
        DoomedPlanIsRun(input, step, at, n);
      } else {
        assert calls[..n] == calls;
        PlanGoesOn(input, step, at, recorded, contents, answer);
        if Ends(input, step) {
          FinishedIsRun(input, step, plan);
        } else {
          StepGoesOn(input, step);
          PlanIsRun(input, step + 1, answer.next, recorded + calls, ToldUpTo(input, step));
        }
      }
    }
  }

  /** From the first step on, for any script without two errors in a row. */
  lemma ScriptIsRun(input: LoopInput)
    requires NoTwoErrors(input.script)
    ensures IsRunOf(input.(script := Good(input.script)), Plan(input, 1, 0, [], []))
  {
    hide Plan, IsRunOf, NoTwoErrors, Ends;
    PlanSkipsErrors(input, 1, 0, [], []);
    GoodHaveNoError(input.script, |input.script|);
    PlanIsRun(input.(script := Good(input.script)), 1, 0, [], []);
  }
}
