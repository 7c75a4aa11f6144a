/**
 The event stream of a scripted run and the grammar every run must follow, stated as an automaton
 over events (src/core.rs:3772-4047 emits them). `Broken` is reached by any event out of place.
 */
module EventStream {
  import opened Prelude
  import opened Json

  datatype ToolCall = ToolCall(callId: string, name: string, input: Value)

  datatype Usage = Usage(inputTokens: nat, outputTokens: nat)

  datatype Event =
    | StepStart(snapshot: nat)
    | TextStart(id: nat)
    | TextDelta(id: nat, text: string)
    | TextEnd(id: nat)
    | ToolCalled(call: ToolCall)
    | QuestionRequest(callId: string, questions: Value)
    | ToolResult(callId: string, output: string, error: Option<string>)
    | RuntimeWarning(step: nat, totalTokens: nat, threshold: nat)
    | StepFinish(usage: Usage, finishReason: string)
    | Failure(message: string)

  datatype Phase = Idle | InStep | InText(id: nat) | Over

  /** Steps opened and closed, text blocks opened, and the calls of this step still to be answered. */
  datatype Progress =
    | Progress(phase: Phase, starts: nat, finishes: nat, texts: nat, pending: seq<string>)
    | Broken

  const START: Progress := Progress(Idle, 0, 0, 0, [])

  /**
   Steps do not nest; text blocks lie inside a step, are numbered freshly, hold only their own deltas
   and are closed before any result; results answer the step's calls one by one in order; a step
   closes only when all its calls are answered; nothing follows an error.
   */
  function Advance(p: Progress, e: Event): Progress {
    if p.Broken? then Broken
    else
      match (e, p.phase)
      case (StepStart(n), Idle) =>
        if n == p.starts + 1 then p.(phase := InStep, starts := p.starts + 1) else Broken
      case (TextStart(id), InStep) =>
        if id == p.texts + 1 then p.(phase := InText(id), texts := id) else Broken
      case (TextDelta(id, _), InText(open)) => if id == open then p else Broken
      case (TextEnd(id), InText(open)) => if id == open then p.(phase := InStep) else Broken
      case (ToolCalled(call), InStep) => p.(pending := p.pending + [call.callId])
      case (ToolCalled(call), InText(_)) => p.(pending := p.pending + [call.callId])
      case (QuestionRequest(callId, _), InStep) =>
        if p.pending != [] && p.pending[0] == callId then p else Broken
      case (ToolResult(callId, _, _), InStep) =>
        if p.pending != [] && p.pending[0] == callId then p.(pending := p.pending[1..]) else Broken
      case (RuntimeWarning(_, _, _), InStep) => p
      case (StepFinish(_, _), InStep) =>
        if p.pending == [] then p.(phase := Idle, finishes := p.finishes + 1) else Broken
      case (Failure(_), InStep) => p.(phase := Over)
      case (Failure(_), Idle) => p.(phase := Over)
      case _ => Broken
  }

  function Follow(events: seq<Event>): Progress {
    if events == [] then START else Advance(Follow(events[..|events| - 1]), events[|events| - 1])
  }

  /** The calls announced, and the ids answered, in stream order. */
  function CallsOf(events: seq<Event>): seq<ToolCall> {
    if events == [] then []
    else
      var e := events[|events| - 1];
      CallsOf(events[..|events| - 1]) + if e.ToolCalled? then [e.call] else []
  }

  function AnsweredIds(events: seq<Event>): seq<string> {
    if events == [] then []
    else
      var e := events[|events| - 1];
      AnsweredIds(events[..|events| - 1]) + if e.ToolResult? then [e.callId] else []
  }

  /** What an event tells: nothing if it only opens or closes something, else itself without the id of its block. */
  function ContentOf(e: Event): seq<Event> {
    match e
    case StepStart(_) => []
    case TextStart(_) => []
    case TextEnd(_) => []
    case TextDelta(_, text) => [TextDelta(0, text)]
    case _ => [e]
  }

  function Contents(events: seq<Event>): seq<Event> {
    if events == [] then []
    else Contents(events[..|events| - 1]) + ContentOf(events[|events| - 1])
  }

  lemma Emitted(events: seq<Event>, e: Event)
    ensures Follow(events + [e]) == Advance(Follow(events), e)
    ensures CallsOf(events + [e]) == CallsOf(events) + if e.ToolCalled? then [e.call] else []
    ensures AnsweredIds(events + [e]) == AnsweredIds(events) + if e.ToolResult? then [e.callId] else []
    ensures Contents(events + [e]) == Contents(events) + ContentOf(e)
  {
    assert (events + [e])[..|events|] == events;
  }

  lemma NothingEmitted()
    ensures Follow([]) == START && CallsOf([]) == [] && AnsweredIds([]) == [] && Contents([]) == []
  {
  }

  /** The moves inside a model answer. */
  lemma AnswerMoves(starts: nat, finishes: nat, texts: nat, pending: seq<string>, text: string, call: ToolCall)
    ensures Advance(Progress(InStep, starts, finishes, texts, pending), TextStart(texts + 1))
         == Progress(InText(texts + 1), starts, finishes, texts + 1, pending)
    ensures Advance(Progress(InText(texts), starts, finishes, texts, pending), TextDelta(texts, text))
         == Progress(InText(texts), starts, finishes, texts, pending)
    ensures Advance(Progress(InText(texts), starts, finishes, texts, pending), TextEnd(texts))
         == Progress(InStep, starts, finishes, texts, pending)
    ensures Advance(Progress(InText(texts), starts, finishes, texts, pending), ToolCalled(call))
         == Progress(InText(texts), starts, finishes, texts, pending + [call.callId])
    ensures Advance(Progress(InStep, starts, finishes, texts, pending), ToolCalled(call))
         == Progress(InStep, starts, finishes, texts, pending + [call.callId])
  {
  }

  /** The moves that open a step and that end a run inside one. */
  lemma StepMoves(starts: nat, finishes: nat, texts: nat, pending: seq<string>, message: string)
    ensures Advance(Progress(Idle, starts, finishes, texts, pending), StepStart(starts + 1))
         == Progress(InStep, starts + 1, finishes, texts, pending)
    ensures Advance(Progress(InStep, starts, finishes, texts, pending), Failure(message))
         == Progress(Over, starts, finishes, texts, pending)
  {
  }

  /** The moves while calls are being answered. */
  lemma ResultMoves(starts: nat, finishes: nat, texts: nat, callId: string, rest: seq<string>,
                    output: string, error: Option<string>, message: string)
    ensures Advance(Progress(InStep, starts, finishes, texts, [callId] + rest), ToolResult(callId, output, error))
         == Progress(InStep, starts, finishes, texts, rest)
    ensures Advance(Progress(InStep, starts, finishes, texts, [callId] + rest), Failure(message))
         == Progress(Over, starts, finishes, texts, [callId] + rest)
  {
    assert ([callId] + rest)[1..] == rest;
  }

  function Ids(calls: seq<ToolCall>): (ids: seq<string>)
    ensures |ids| == |calls| && forall i | 0 <= i < |ids| :: ids[i] == calls[i].callId
  {
    seq(|calls|, i requires 0 <= i < |calls| => calls[i].callId)
  }

  // ----- what following the grammar means for a whole stream

  function CountOf(events: seq<Event>, wanted: Event -> bool): nat {
    if events == [] then 0
    else CountOf(events[..|events| - 1], wanted) + if wanted(events[|events| - 1]) then 1 else 0
  }

  /** The automaton's counters are the counts of the events. */
  lemma {:induction false} CountersCount(events: seq<Event>)
    requires !Follow(events).Broken?
    ensures var p := Follow(events);
      && p.starts == CountOf(events, (e: Event) => e.StepStart?)
      && p.finishes == CountOf(events, (e: Event) => e.StepFinish?)
      && p.texts == CountOf(events, (e: Event) => e.TextStart?)
      && p.texts == CountOf(events, (e: Event) => e.TextEnd?) + (if p.phase.InText? then 1 else 0)
  {
    if events == [] {
    } else {
      CountersCount(events[..|events| - 1]);
    }
  }

  /** Answers come in the order of the calls; the calls not yet answered are those pending. */
  lemma {:induction false} AnswersFollowCalls(events: seq<Event>)
    requires !Follow(events).Broken?
    ensures Ids(CallsOf(events)) == AnsweredIds(events) + Follow(events).pending
  {
    hide Follow, CallsOf, AnsweredIds, Ids, Advance;
    if events == [] {
      NothingEmitted();
      assert Ids([]) == [] + START.pending;
    } else {
      var front, e := events[..|events| - 1], events[|events| - 1];
      PrefixesFollow(events, |events| - 1);
      AnswersFollowCalls(front);
      assert events == front + [e];
      Emitted(front, e);
      AnswersStep(CallsOf(front), AnsweredIds(front), Follow(front), e);
    }
  }

  lemma AnswersStep(calls: seq<ToolCall>, answered: seq<string>, p: Progress, e: Event)
    requires !p.Broken? && !Advance(p, e).Broken? && Ids(calls) == answered + p.pending
    ensures Ids(if e.ToolCalled? then calls + [e.call] else calls)
         == (if e.ToolResult? then answered + [e.callId] else answered) + Advance(p, e).pending
  {
    if e.ToolCalled? {
      assert Ids(calls + [e.call]) == Ids(calls) + [e.call.callId];
    } else if e.ToolResult? {
      assert p.pending == [e.callId] + p.pending[1..];
    }
  }

  /** Opened steps outnumber closed ones by at most one, and only inside a step or after an error. */
  lemma {:induction false} StepsBalance(events: seq<Event>)
    requires !Follow(events).Broken?
    ensures var p := Follow(events);
      && p.finishes <= p.starts <= p.finishes + 1
      && (p.phase.Idle? ==> p.starts == p.finishes)
      && (p.phase.InStep? || p.phase.InText? ==> p.starts == p.finishes + 1)
      && (p.phase.Idle? || p.starts == p.finishes ==> p.pending == [])
      && (p.phase.Over? <==> events != [] && events[|events| - 1].Failure?)
  {
    if events == [] {
    } else {
      StepsBalance(events[..|events| - 1]);
    }
  }

  /** A text delta belongs to the one block of its id, which is open at that point. */
  lemma DeltasLieInTheirBlock(events: seq<Event>, i: nat)
    requires !Follow(events).Broken? && i < |events| && events[i].TextDelta?
    ensures Follow(events[..i]).Progress? && Follow(events[..i]).phase == InText(events[i].id)
  {
    PrefixesFollow(events, i + 1);
    assert events[..i + 1][..i] == events[..i];
  }

  /** Where an event stands: the stream before it follows the grammar, and it is the next move. */
  lemma NextMove(events: seq<Event>, i: nat)
    requires !Follow(events).Broken? && i < |events|
    ensures !Follow(events[..i]).Broken? && !Advance(Follow(events[..i]), events[i]).Broken?
  {
    PrefixesFollow(events, i + 1);
    assert events[..i + 1][..i] == events[..i];
  }

  /** A step closes when every call announced so far has its result. */
  lemma StepsCloseAnswered(events: seq<Event>, i: nat)
    requires !Follow(events).Broken? && i < |events| && events[i].StepFinish?
    ensures AnsweredIds(events[..i]) == Ids(CallsOf(events[..i]))
  {
    hide Follow, AnsweredIds, CallsOf, Ids;
    NextMove(events, i);
    AnswersFollowCalls(events[..i]);
    assert AnsweredIds(events[..i]) + [] == AnsweredIds(events[..i]);
  }

  /** A result names the first call that has none yet. */
  lemma ResultsNameTheirCall(events: seq<Event>, i: nat)
    requires !Follow(events).Broken? && i < |events| && events[i].ToolResult?
    ensures var n := |AnsweredIds(events[..i])|;
      n < |CallsOf(events[..i])| && events[i].callId == CallsOf(events[..i])[n].callId
  {
    hide Follow, AnsweredIds, CallsOf;
    NextMove(events, i);
    AnswersFollowCalls(events[..i]);
    var n := |AnsweredIds(events[..i])|;
    assert Ids(CallsOf(events[..i]))[n] == CallsOf(events[..i])[n].callId;
  }

  /** Nothing follows an error. */
  lemma NothingFollowsFailure(events: seq<Event>, i: nat)
    requires !Follow(events).Broken? && i < |events| && events[i].Failure?
    ensures i == |events| - 1
  {
    hide Follow;
    if i < |events| - 1 {
      NextMove(events, i);
      NextMove(events, i + 1);
      assert events[..i + 1] == events[..i] + [events[i]];
      Emitted(events[..i], events[i]);
      assert false;
    }
  }

  /** Steps and text blocks are numbered from one. */
  lemma StartsAreNumbered(events: seq<Event>, i: nat)
    requires !Follow(events).Broken? && i < |events|
    ensures events[i].StepStart? ==> events[i].snapshot == CountOf(events[..i], (e: Event) => e.StepStart?) + 1
    ensures events[i].TextStart? ==> events[i].id == CountOf(events[..i], (e: Event) => e.TextStart?) + 1
  {
    hide Follow, CountOf;
    NextMove(events, i);
    CountersCount(events[..i]);
  }

  lemma {:induction false} PrefixesFollow(events: seq<Event>, n: nat)
    requires n <= |events| && !Follow(events).Broken?
    ensures !Follow(events[..n]).Broken?
  {
    if n == |events| {
      assert events[..n] == events;
    } else {
      PrefixesFollow(events[..|events| - 1], n);
      assert events[..|events| - 1][..n] == events[..n];
    }
  }
}
