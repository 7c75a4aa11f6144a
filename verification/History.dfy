/**
 Normalising a compacted transcript (src/core.rs:2502-2636) and moving the references into it
 (src/core.rs:1722-1755). A compaction boundary replaces the transcript up to the message it names;
 system messages leave the transcript in one of several ways; everything else is kept in order.
 */
module History {
  import opened Prelude
  import opened Json

  datatype Role = System | User | Assistant | Tool

  datatype ChatMessage = ChatMessage(
    role: Role,
    content: string,
    name: Option<string>,
    toolCallId: Option<string>,
    metadata: map<string, Value>)
  {
    function MetaStr(key: string): Option<string> {
      if key in metadata then metadata[key].AsStr() else None
    }

    predicate IsBoundary() {
      MetaStr("kind") == Some("compaction_boundary")
    }

    predicate IsProfile() {
      "agent_profile" in metadata ||
      ("dynamic_system_prompt" in metadata && metadata["dynamic_system_prompt"].AsBool() == Some(true))
    }
  }

  datatype LegacySource = LegacySource(id: string, source: string, content: string)

  datatype WorkState = WorkState(
    id: string,
    summary: string,
    format: string,
    source: string,
    messagePosition: Option<nat>,
    compactedUntilMessageId: Option<string>,
    metadata: map<string, Value>)

  datatype Materialized = Materialized(
    messages: seq<ChatMessage>,
    legacySystemSources: seq<LegacySource>,
    workState: Option<WorkState>,
    discardedProfileSystemCount: nat,
    messageIndexMap: seq<Option<nat>>,
    messagePositionMap: seq<nat>)

  // ----- the cutoff

  /** `rposition`: the last of the first `n` messages with the given id. */
  function LastWithId(messages: seq<ChatMessage>, n: nat, id: string): (at: Option<nat>)
    requires n <= |messages|
    ensures at.Some? ==> at.value < n && messages[at.value].MetaStr("message_id") == Some(id)
    ensures at.Some? ==> forall j | at.value < j < n :: messages[j].MetaStr("message_id") != Some(id)
    ensures at.None? ==> forall j | 0 <= j < n :: messages[j].MetaStr("message_id") != Some(id)
  {
    if n == 0 then None
    else if messages[n - 1].MetaStr("message_id") == Some(id) then Some(n - 1)
    else LastWithId(messages, n - 1, id)
  }

  /** The message up to which the boundary at `i` summarises, if `i` is a boundary that names one. */
  function BoundaryCutoff(messages: seq<ChatMessage>, i: nat): (cutoff: Option<nat>)
    requires i < |messages|
    ensures cutoff.Some? ==> cutoff.value < i && messages[i].IsBoundary()
  {
    var until := messages[i].MetaStr("compacted_until_message_id");
    if !messages[i].IsBoundary() || until.None? || Trim(until.value) == "" then None
    else LastWithId(messages, i, until.value)
  }

  ghost predicate IsLastBoundary(messages: seq<ChatMessage>, i: nat, n: nat)
    requires i < n <= |messages|
  {
    BoundaryCutoff(messages, i).Some? && forall j | i < j < n :: BoundaryCutoff(messages, j).None?
  }

  /** `latest_compaction_boundary_cutoff`: that of the last boundary that names an earlier message. */
  function LatestCutoff(messages: seq<ChatMessage>, n: nat): Option<nat>
    requires n <= |messages|
  {
    if n == 0 then None
    else if BoundaryCutoff(messages, n - 1).Some? then BoundaryCutoff(messages, n - 1)
    else LatestCutoff(messages, n - 1)
  }

  lemma {:induction false} LatestCutoffIsLast(messages: seq<ChatMessage>, n: nat)
    requires n <= |messages|
    ensures LatestCutoff(messages, n).None? ==> forall i | 0 <= i < n :: BoundaryCutoff(messages, i).None?
    ensures LatestCutoff(messages, n).Some? ==> exists i | 0 <= i < n ::
      IsLastBoundary(messages, i, n) && BoundaryCutoff(messages, i) == LatestCutoff(messages, n)
  {
    if n == 0 {
    } else {
      if BoundaryCutoff(messages, n - 1).Some? {
        assert IsLastBoundary(messages, n - 1, n);
      } else {
        hide BoundaryCutoff, IsLastBoundary;
        LatestCutoffIsLast(messages, n - 1);
        if LatestCutoff(messages, n - 1).Some? {
          var i :| 0 <= i < n - 1 && IsLastBoundary(messages, i, n - 1)
                   && BoundaryCutoff(messages, i) == LatestCutoff(messages, n - 1);
          StillLast(messages, i, n);
        }
      }
    }
  }

  lemma StillLast(messages: seq<ChatMessage>, i: nat, n: nat)
    requires i < n - 1 < |messages| && IsLastBoundary(messages, i, n - 1) && BoundaryCutoff(messages, n - 1).None?
    ensures IsLastBoundary(messages, i, n)
  {
    hide BoundaryCutoff;
  }

  function Cutoff(messages: seq<ChatMessage>): Option<nat> {
    LatestCutoff(messages, |messages|)
  }

  // ----- what becomes of each message

  datatype Outcome = Summarized | Kept | ProfileDropped | BecameWorkState | BlankDropped | BecameLegacy

  function OutcomeOf(messages: seq<ChatMessage>, i: nat): Outcome
    requires i < |messages|
  {
    var m := messages[i];
    if Cutoff(messages).Some? && i <= Cutoff(messages).value then Summarized
    else if !m.role.System? then Kept
    else if m.IsProfile() then ProfileDropped
    else if m.IsBoundary() then BecameWorkState
    else if Trim(m.content) == "" then BlankDropped
    else BecameLegacy
  }

  /** How many of the first `n` messages have an outcome. */
  function Count(messages: seq<ChatMessage>, outcome: Outcome, n: nat): nat
    requires n <= |messages|
  {
    if n == 0 then 0
    else Count(messages, outcome, n - 1) + if OutcomeOf(messages, n - 1) == outcome then 1 else 0
  }

  function NonBlank(s: Option<string>): Option<string> {
    if s.Some? && Trim(s.value) != "" then s else None
  }

  function LegacyOf(message: ChatMessage, index: nat, digest: string -> string): LegacySource {
    var content := Trim(message.content);
    var hash := digest(content);
    var identity := NonBlank(message.MetaStr("message_id"))
      .GetOr(Decimal(index) + ":" + if |hash| <= 16 then hash else hash[..16]);
    LegacySource("legacy_system:" + identity,
                 NonBlank(message.MetaStr("source")).GetOr("session.messages[" + Decimal(index) + "]"),
                 content)
  }

  function WorkStateOf(message: ChatMessage): WorkState {
    WorkState(message.MetaStr("message_id").GetOr("compaction"),
              message.content,
              message.MetaStr("format").GetOr("session_compaction_boundary_v1"),
              message.MetaStr("source").GetOr("session.transcript.compaction"),
              Some(0),
              message.MetaStr("compacted_until_message_id"),
              message.metadata - {"kind", "message_id", "compacted_until_message_id", "format", "source"})
  }

  /** The work state that the first `n` messages leave behind: that of the last boundary among them. */
  function WorkStateAfter(messages: seq<ChatMessage>, n: nat): Option<WorkState>
    requires n <= |messages|
  {
    if n == 0 then None
    else if OutcomeOf(messages, n - 1).BecameWorkState? then Some(WorkStateOf(messages[n - 1]))
    else WorkStateAfter(messages, n - 1)
  }

  /** `h` is what the first `n` messages turn into. */
  ghost predicate Describes(messages: seq<ChatMessage>, n: nat, digest: string -> string, h: Materialized)
    requires n <= |messages|
  {
    && |h.messages| == Count(messages, Kept, n)
    && |h.legacySystemSources| == Count(messages, BecameLegacy, n)
    && h.discardedProfileSystemCount == Count(messages, ProfileDropped, n)
    && h.workState == WorkStateAfter(messages, n)
    && |h.messageIndexMap| == n
    && |h.messagePositionMap| >= n
    && (forall i | 0 <= i < n :: h.messagePositionMap[i] == Count(messages, Kept, i))
    && (forall i | 0 <= i < n :: DescribesAt(messages, i, digest, h))
  }

  ghost predicate DescribesAt(messages: seq<ChatMessage>, i: nat, digest: string -> string, h: Materialized)
    requires i < |messages| && i < |h.messageIndexMap|
  {
    && h.messageIndexMap[i] == (if OutcomeOf(messages, i).Kept? then Some(Count(messages, Kept, i)) else None)
    && (OutcomeOf(messages, i).Kept? ==>
          Count(messages, Kept, i) < |h.messages| && h.messages[Count(messages, Kept, i)] == messages[i])
    && (OutcomeOf(messages, i).BecameLegacy? ==>
          var k := Count(messages, BecameLegacy, i);
          k < |h.legacySystemSources| && h.legacySystemSources[k] == LegacyOf(messages[i], i, digest))
  }

  /** What one message adds, by its outcome. */
  ghost function Append(messages: seq<ChatMessage>, i: nat, digest: string -> string, h: Materialized): Materialized
    requires i < |messages|
  {
    var g := h.(messagePositionMap := h.messagePositionMap + [|h.messages|],
                messageIndexMap := h.messageIndexMap + [None]);
    match OutcomeOf(messages, i)
    case Kept => g.(messageIndexMap := h.messageIndexMap + [Some(|h.messages|)], messages := h.messages + [messages[i]])
    case ProfileDropped => g.(discardedProfileSystemCount := h.discardedProfileSystemCount + 1)
    case BecameWorkState => g.(workState := Some(WorkStateOf(messages[i])))
    case BecameLegacy => g.(legacySystemSources := h.legacySystemSources + [LegacyOf(messages[i], i, digest)])
    case _ => g
  }

  lemma AppendDescribes(messages: seq<ChatMessage>, i: nat, digest: string -> string, h: Materialized)
    requires i < |messages| && Describes(messages, i, digest, h) && |h.messagePositionMap| == i
    ensures Describes(messages, i + 1, digest, Append(messages, i, digest, h))
  {
    hide OutcomeOf, LegacyOf, WorkStateOf;
    var g := Append(messages, i, digest, h);
    DescribedStays(messages, i, digest, h, g);
    assert DescribesAt(messages, i, digest, g);
  }

  /** `materialize_context_history`. */
  method MaterializeHistory(messages: seq<ChatMessage>, digest: string -> string) returns (h: Materialized)
    ensures Describes(messages, |messages|, digest, h)
    ensures |h.messagePositionMap| == |messages| + 1
    ensures h.messagePositionMap[|messages|] == Count(messages, Kept, |messages|) == |h.messages|
  {
    hide LatestCutoff, BoundaryCutoff, LegacyOf, WorkStateOf, Trim, Count, WorkStateAfter, Describes;
    NothingDescribed(messages, digest);
    h := Materialized([], [], None, 0, [], []);
    var compactedUntil := Cutoff(messages);
    for index := 0 to |messages|
      invariant Describes(messages, index, digest, h)
      invariant |h.messagePositionMap| == |h.messageIndexMap| == index
    {
      var message := messages[index];
      ghost var before := h;
      h := h.(messagePositionMap := h.messagePositionMap + [|h.messages|],
              messageIndexMap := h.messageIndexMap + [None]);
      if compactedUntil.Some? && index <= compactedUntil.value {
      } else if !message.role.System? {
        h := h.(messageIndexMap := h.messageIndexMap[index := Some(|h.messages|)]);
        h := h.(messages := h.messages + [message]);
      } else if message.IsProfile() {
        h := h.(discardedProfileSystemCount := h.discardedProfileSystemCount + 1);
      } else if message.IsBoundary() {
        h := h.(workState := Some(WorkStateOf(message)));
      } else if Trim(message.content) == "" {
      } else {
        h := h.(legacySystemSources := h.legacySystemSources + [LegacyOf(message, index, digest)]);
      }
      assert h == Append(messages, index, digest, before);
      AppendDescribes(messages, index, digest, before);
    }
    ghost var before := h;
    h := h.(messagePositionMap := h.messagePositionMap + [|h.messages|]);
    LastPosition(messages, digest, before, h);
  }

  lemma NothingDescribed(messages: seq<ChatMessage>, digest: string -> string)
    ensures Describes(messages, 0, digest, Materialized([], [], None, 0, [], []))
  {
  }

  lemma LastPosition(messages: seq<ChatMessage>, digest: string -> string, h: Materialized, g: Materialized)
    requires Describes(messages, |messages|, digest, h) && |h.messagePositionMap| == |messages|
    requires g == h.(messagePositionMap := h.messagePositionMap + [|h.messages|])
    ensures Describes(messages, |messages|, digest, g) && Count(messages, Kept, |messages|) == |g.messages|
  {
    hide OutcomeOf, LegacyOf, WorkStateAfter, Count;
    DescribedStays(messages, |messages|, digest, h, g);
  }

  /** Appending to the outputs disturbs nothing that was there. */
  lemma DescribedStays(messages: seq<ChatMessage>, n: nat, digest: string -> string, h: Materialized, g: Materialized)
    requires n <= |messages| && Describes(messages, n, digest, h)
    requires h.messages <= g.messages && h.legacySystemSources <= g.legacySystemSources
    requires h.messageIndexMap <= g.messageIndexMap
    ensures forall i | 0 <= i < n :: DescribesAt(messages, i, digest, g)
  {
    hide OutcomeOf, LegacyOf, Count, WorkStateAfter;
    forall i | 0 <= i < n ensures DescribesAt(messages, i, digest, g) {
      assert DescribesAt(messages, i, digest, h);
    }
  }

  // ----- the maps are exact

  lemma {:induction false} CountGrows(messages: seq<ChatMessage>, outcome: Outcome, i: nat, j: nat)
    requires i <= j <= |messages|
    ensures Count(messages, outcome, i) <= Count(messages, outcome, j)
    ensures i < j && OutcomeOf(messages, i) == outcome ==>
      Count(messages, outcome, i) < Count(messages, outcome, j)
  {
    if i == j {
    } else if i == j - 1 {
    } else {
      CountGrows(messages, outcome, i, j - 1);
    }
  }

  /** Every message meets exactly one of the six fates. */
  lemma {:induction false} OutcomesPartition(messages: seq<ChatMessage>, n: nat)
    requires n <= |messages|
    ensures Count(messages, Summarized, n) + Count(messages, Kept, n) + Count(messages, ProfileDropped, n)
      + Count(messages, BecameWorkState, n) + Count(messages, BlankDropped, n) + Count(messages, BecameLegacy, n) == n
  {
    if n == 0 {
    } else {
      OutcomesPartition(messages, n - 1);
    }
  }

  lemma {:induction false} NthWith(messages: seq<ChatMessage>, outcome: Outcome, n: nat, k: nat) returns (i: nat)
    requires n <= |messages| && k < Count(messages, outcome, n)
    ensures i < n && OutcomeOf(messages, i) == outcome && Count(messages, outcome, i) == k
  {
    if OutcomeOf(messages, n - 1) == outcome && Count(messages, outcome, n - 1) == k {
      i := n - 1;
    } else {
      i := NthWith(messages, outcome, n - 1, k);
    }
  }

  /** The index map is a strictly increasing bijection from the kept messages onto the new transcript. */
  lemma IndexMapIsExact(messages: seq<ChatMessage>, digest: string -> string, h: Materialized)
    requires Describes(messages, |messages|, digest, h)
    ensures forall i | 0 <= i < |messages| && h.messageIndexMap[i].Some? ::
      h.messageIndexMap[i].value < |h.messages| && h.messages[h.messageIndexMap[i].value] == messages[i]
    ensures forall i, j | 0 <= i < j < |messages| && h.messageIndexMap[i].Some? && h.messageIndexMap[j].Some? ::
      h.messageIndexMap[i].value < h.messageIndexMap[j].value
    ensures forall k | 0 <= k < |h.messages| :: exists i | 0 <= i < |messages| :: h.messageIndexMap[i] == Some(k)
    ensures forall k | 0 <= k < |h.messages| :: !h.messages[k].role.System?
  {
    hide OutcomeOf, LegacyOf, WorkStateAfter;
    forall i | 0 <= i < |messages|
      ensures h.messageIndexMap[i] == if OutcomeOf(messages, i).Kept? then Some(Count(messages, Kept, i)) else None
      ensures h.messageIndexMap[i].Some? ==>
        h.messageIndexMap[i].value < |h.messages| && h.messages[h.messageIndexMap[i].value] == messages[i]
    {
      assert DescribesAt(messages, i, digest, h);
    }
    forall i, j | 0 <= i < j < |messages| && h.messageIndexMap[i].Some? && h.messageIndexMap[j].Some?
      ensures h.messageIndexMap[i].value < h.messageIndexMap[j].value
    {
      CountGrows(messages, Kept, i, j);
    }
    forall k | 0 <= k < |h.messages|
      ensures (exists i | 0 <= i < |messages| :: h.messageIndexMap[i] == Some(k)) && !h.messages[k].role.System?
    {
      var i := NthWith(messages, Kept, |messages|, k);
      assert h.messageIndexMap[i] == Some(k);
      KeptIsNoSystem(messages, i);
    }
  }

  lemma KeptIsNoSystem(messages: seq<ChatMessage>, i: nat)
    requires i < |messages| && OutcomeOf(messages, i).Kept?
    ensures !messages[i].role.System?
  {
  }

  // ----- compaction leaves a work state, and happens once

  lemma {:induction false} WorkStateComesFromABoundary(messages: seq<ChatMessage>, n: nat)
    requires n <= |messages|
    ensures WorkStateAfter(messages, n).Some? <==> exists i | 0 <= i < n :: OutcomeOf(messages, i).BecameWorkState?
  {
    if n == 0 {
    } else {
      WorkStateComesFromABoundary(messages, n - 1);
    }
  }

  /** A system message that marks a compaction boundary and is no profile prompt. */
  predicate IsSystemBoundary(m: ChatMessage) {
    m.role.System? && !m.IsProfile() && m.IsBoundary()
  }

  /**
   Dropping a summarised prefix leaves a work state in its place exactly when some boundary past the
   cutoff is a system message and no profile prompt.
   */
  lemma PrefixReplacedIff(messages: seq<ChatMessage>, digest: string -> string, h: Materialized)
    requires Describes(messages, |messages|, digest, h) && Cutoff(messages).Some?
    ensures h.workState.Some? <==>
      exists i | Cutoff(messages).value < i < |messages| :: IsSystemBoundary(messages[i])
  {
    hide DescribesAt, Count;
    WorkStateComesFromABoundary(messages, |messages|);
    if i :| Cutoff(messages).value < i < |messages| && IsSystemBoundary(messages[i]) {
      assert OutcomeOf(messages, i).BecameWorkState?;
    }
    if i :| 0 <= i < |messages| && OutcomeOf(messages, i).BecameWorkState? {
      assert IsSystemBoundary(messages[i]);
    }
  }

  /** Every boundary is a system message and no profile prompt, as the compactor writes them. */
  ghost predicate WellFormedBoundaries(messages: seq<ChatMessage>) {
    forall i | 0 <= i < |messages| && messages[i].IsBoundary() :: IsSystemBoundary(messages[i])
  }

  lemma WellFormedPrefixIsReplaced(messages: seq<ChatMessage>, digest: string -> string, h: Materialized)
    requires Describes(messages, |messages|, digest, h)
    requires WellFormedBoundaries(messages) && Count(messages, Summarized, |messages|) > 0
    ensures h.workState.Some?
  {
    hide DescribesAt, LatestCutoff;
    if Cutoff(messages).None? {
      NothingSummarized(messages, |messages|);
      assert false;
    }
    PrefixReplacedIff(messages, digest, h);
    LatestCutoffIsLast(messages, |messages|);
    var i :| 0 <= i < |messages| && BoundaryCutoff(messages, i) == Cutoff(messages);
    assert IsSystemBoundary(messages[i]);
  }

  lemma {:induction false} NothingSummarized(messages: seq<ChatMessage>, n: nat)
    requires n <= |messages| && Cutoff(messages).None?
    ensures Count(messages, Summarized, n) == 0
  {
    if n == 0 {
    } else {
      NothingSummarized(messages, n - 1);
    }
  }

  /** A non-system boundary drops the prefix and, being kept itself, leaves nothing in its place. */
  lemma PrefixCanBeLost(digest: string -> string, h: Materialized)
    requires Describes(LostPrefix(), 2, digest, h)
    ensures h.messages == [LostPrefix()[1]] && h.workState.None? && h.legacySystemSources == []
  {
    var m := LostPrefix();
    assert Trim("m1") == "m1" by { assert TrimStart("m1") == "m1"; }
    assert m[0].MetaStr("message_id") == Some("m1");
    assert LastWithId(m, 1, "m1") == Some(0);
    assert m[1].IsBoundary() && BoundaryCutoff(m, 1) == Some(0);
    assert Cutoff(m) == Some(0);
    assert OutcomeOf(m, 0).Summarized? && OutcomeOf(m, 1).Kept?;
    assert Count(m, Kept, 1) == 0 && Count(m, Kept, 2) == 1;
    assert Count(m, BecameLegacy, 1) == 0 && Count(m, BecameLegacy, 2) == 0;
    assert WorkStateAfter(m, 1).None? && WorkStateAfter(m, 2).None?;
    assert DescribesAt(m, 1, digest, h);
  }

  function LostPrefix(): seq<ChatMessage> {
    [ ChatMessage(User, "first", None, None, map["message_id" := Str("m1")]),
      ChatMessage(Assistant, "second", None, None,
                  map["kind" := Str("compaction_boundary"), "compacted_until_message_id" := Str("m1")]) ]
  }

  /** Message `i` stays and is still a boundary, one that names an earlier message that stays. */
  ghost predicate StillCuts(messages: seq<ChatMessage>, i: nat)
    requires i < |messages|
  {
    var until := messages[i].MetaStr("compacted_until_message_id");
    && OutcomeOf(messages, i).Kept? && messages[i].IsBoundary() && until.Some? && Trim(until.value) != ""
    && exists j | 0 <= j < i :: OutcomeOf(messages, j).Kept? && messages[j].MetaStr("message_id") == until
  }

  /** What a boundary cutoff means. */
  lemma CutoffMeans(messages: seq<ChatMessage>, i: nat)
    requires i < |messages|
    ensures var until := messages[i].MetaStr("compacted_until_message_id");
      var named := messages[i].IsBoundary() && until.Some? && Trim(until.value) != "";
      && (BoundaryCutoff(messages, i).Some? ==>
            named && messages[BoundaryCutoff(messages, i).value].MetaStr("message_id") == until)
      && (BoundaryCutoff(messages, i).None? && named ==>
            forall j | 0 <= j < i :: messages[j].MetaStr("message_id") != until)
  {
    hide Trim;
  }

  lemma MapLength(messages: seq<ChatMessage>, digest: string -> string, h: Materialized)
    requires Describes(messages, |messages|, digest, h)
    ensures |h.messageIndexMap| == |messages|
  {
  }

  /** Where a kept message stands in the new transcript. */
  lemma PlaceOfKept(messages: seq<ChatMessage>, digest: string -> string, h: Materialized, i: nat)
    requires Describes(messages, |messages|, digest, h) && i < |messages|
    ensures |h.messageIndexMap| == |messages| && (h.messageIndexMap[i].Some? <==> OutcomeOf(messages, i).Kept?)
  {
    RemappedSourceIsTheSameMessage(messages, digest, h, i);
  }

  lemma CutAgainOnlyIf(messages: seq<ChatMessage>, digest: string -> string, h: Materialized, k: nat)
    requires Describes(messages, |messages|, digest, h) && k < |h.messages| && BoundaryCutoff(h.messages, k).Some?
    ensures exists i | 0 <= i < |messages| :: StillCuts(messages, i)
  {
    var c := BoundaryCutoff(h.messages, k).value;
    CutoffMeans(h.messages, k);
    hide OutcomeOf, Cutoff, BoundaryCutoff, Trim, Describes;
    IndexMapIsExact(messages, digest, h);
    assert |h.messageIndexMap| == |messages| by { MapLength(messages, digest, h); }
    var i :| 0 <= i < |messages| && h.messageIndexMap[i] == Some(k);
    var j :| 0 <= j < |messages| && h.messageIndexMap[j] == Some(c);
    PlaceOfKept(messages, digest, h, i);
    PlaceOfKept(messages, digest, h, j);
    assert j < i && messages[i] == h.messages[k] && messages[j] == h.messages[c];
    assert StillCuts(messages, i);
  }

  lemma CutAgainIf(messages: seq<ChatMessage>, digest: string -> string, h: Materialized, i: nat)
    requires Describes(messages, |messages|, digest, h) && i < |messages| && StillCuts(messages, i)
    ensures exists k | 0 <= k < |h.messages| :: BoundaryCutoff(h.messages, k).Some?
  {
    hide OutcomeOf, Cutoff, BoundaryCutoff, Trim, Describes;
    var j :| 0 <= j < i && OutcomeOf(messages, j).Kept?
             && messages[j].MetaStr("message_id") == messages[i].MetaStr("compacted_until_message_id");
    PlaceOfKept(messages, digest, h, i);
    PlaceOfKept(messages, digest, h, j);
    IndexMapIsExact(messages, digest, h);
    var k, c := h.messageIndexMap[i].value, h.messageIndexMap[j].value;
    CutoffMeans(h.messages, k);
    assert c < k && h.messages[k] == messages[i] && h.messages[c] == messages[j];
    assert BoundaryCutoff(h.messages, k).Some?;
  }

  /** The kept messages are cut off again exactly when one of them still cuts. */
  lemma CutAgainIff(messages: seq<ChatMessage>, digest: string -> string, h: Materialized)
    requires Describes(messages, |messages|, digest, h)
    ensures Cutoff(h.messages).Some? <==> exists i | 0 <= i < |messages| :: StillCuts(messages, i)
  {
    hide OutcomeOf, BoundaryCutoff, Describes, StillCuts;
    LatestCutoffIsLast(h.messages, |h.messages|);
    if Cutoff(h.messages).Some? {
      var k :| 0 <= k < |h.messages| && BoundaryCutoff(h.messages, k) == Cutoff(h.messages);
      CutAgainOnlyIf(messages, digest, h, k);
    }
    if i :| 0 <= i < |messages| && StillCuts(messages, i) {
      CutAgainIf(messages, digest, h, i);
    }
  }

  /** Nothing is left of the first pass's side products, whatever the transcript. */
  lemma SecondPassOnlyCuts(messages: seq<ChatMessage>, digest: string -> string, h: Materialized, again: Materialized)
    requires Describes(messages, |messages|, digest, h)
    requires Describes(h.messages, |h.messages|, digest, again)
    ensures again.workState.None? && again.legacySystemSources == [] && again.discardedProfileSystemCount == 0
  {
    hide LatestCutoff, LegacyOf, WorkStateAfter, DescribesAt, Count;
    IndexMapIsExact(messages, digest, h);
    var kept := h.messages;
    WorkStateComesFromABoundary(kept, |kept|);
    NoneCounted(kept, BecameLegacy, |kept|);
    NoneCounted(kept, ProfileDropped, |kept|);
  }

  lemma {:induction false} NoneCounted(messages: seq<ChatMessage>, outcome: Outcome, n: nat)
    requires n <= |messages| && forall i | 0 <= i < n :: OutcomeOf(messages, i) != outcome
    ensures Count(messages, outcome, n) == 0
  {
    if n == 0 {
    } else {
      NoneCounted(messages, outcome, n - 1);
    }
  }

  /**
   A second pass over the kept messages finds no system message, so it can only cut; it changes nothing
   at all exactly when no kept boundary names an earlier kept message.
   */
  lemma SecondPassIff(messages: seq<ChatMessage>, digest: string -> string, h: Materialized, again: Materialized)
    requires Describes(messages, |messages|, digest, h)
    requires Describes(h.messages, |h.messages|, digest, again)
    ensures again.messages == h.messages <==> !exists i | 0 <= i < |messages| :: StillCuts(messages, i)
    ensures again.messages == h.messages ==>
      && again.messageIndexMap == seq(|h.messages|, i => Some(i))
      && forall i | 0 <= i < |h.messages| :: again.messagePositionMap[i] == i
    ensures again.workState.None? && again.legacySystemSources == [] && again.discardedProfileSystemCount == 0
  {
    hide LatestCutoff, LegacyOf, WorkStateAfter, StillCuts;
    IndexMapIsExact(messages, digest, h);
    CutAgainIff(messages, digest, h);
    SecondPassOnlyCuts(messages, digest, h, again);
    var kept := h.messages;
    if Cutoff(kept).None? {
      AllKept(kept, |kept|);
      forall i | 0 <= i < |kept|
        ensures again.messages[i] == kept[i] && again.messageIndexMap[i] == Some(i) && again.messagePositionMap[i] == i
      {
        AllKept(kept, i);
        assert DescribesAt(kept, i, digest, again);
      }
      assert again.messages == kept;
    } else {
      LatestCutoffIsLast(kept, |kept|);
      var c := Cutoff(kept).value;
      assert c < |kept|;
      assert OutcomeOf(kept, c).Summarized?;
      NotAllKept(kept, c, |kept|);
    }
  }

  lemma {:induction false} AllKept(messages: seq<ChatMessage>, n: nat)
    requires n <= |messages| && Cutoff(messages).None?
    requires forall i | 0 <= i < |messages| :: !messages[i].role.System?
    ensures Count(messages, Kept, n) == n
    ensures forall i | 0 <= i < n :: OutcomeOf(messages, i).Kept?
  {
    if n == 0 {
    } else {
      AllKept(messages, n - 1);
    }
  }

  lemma {:induction false} NotAllKept(messages: seq<ChatMessage>, c: nat, n: nat)
    requires c < n <= |messages| && !OutcomeOf(messages, c).Kept?
    ensures Count(messages, Kept, n) < n
  {
    CountAtMost(messages, c);
    if c == n - 1 {
    } else {
      NotAllKept(messages, c, n - 1);
    }
  }

  lemma {:induction false} CountAtMost(messages: seq<ChatMessage>, n: nat)
    requires n <= |messages|
    ensures Count(messages, Kept, n) <= n
  {
    if n == 0 {
    } else {
      CountAtMost(messages, n - 1);
    }
  }

  /** With well-formed boundaries a second pass changes nothing. */
  lemma WellFormedHistoryIsStable(messages: seq<ChatMessage>, digest: string -> string,
                                  h: Materialized, again: Materialized)
    requires Describes(messages, |messages|, digest, h) && Describes(h.messages, |h.messages|, digest, again)
    requires WellFormedBoundaries(messages)
    ensures again.messages == h.messages && again.messageIndexMap == seq(|h.messages|, i => Some(i))
    ensures forall i | 0 <= i < |h.messages| :: again.messagePositionMap[i] == i
    ensures again.workState.None? && again.legacySystemSources == [] && again.discardedProfileSystemCount == 0
  {
    hide LatestCutoff, Count, Describes;
    SecondPassIff(messages, digest, h, again);
  }

  // ----- references into the transcript move with it

  function RemapSource(h: Materialized, source: Option<nat>): Option<nat> {
    if source.Some? && source.value < |h.messageIndexMap| then h.messageIndexMap[source.value] else None
  }

  function RemapPosition(h: Materialized, position: nat): Option<nat> {
    if position < |h.messagePositionMap| then Some(h.messagePositionMap[position])
    else if h.messagePositionMap == [] then None
    else Some(h.messagePositionMap[|h.messagePositionMap| - 1])
  }

  /** An attachment keeps its message, or loses its source when the message is not kept. */
  lemma RemappedSourceIsTheSameMessage(messages: seq<ChatMessage>, digest: string -> string,
                                       h: Materialized, source: nat)
    requires Describes(messages, |messages|, digest, h)
    ensures var moved := RemapSource(h, Some(source));
      && (moved.Some? <==> source < |messages| && OutcomeOf(messages, source).Kept?)
      && (moved.Some? ==> moved.value < |h.messages| && h.messages[moved.value] == messages[source])
  {
    hide OutcomeOf, LegacyOf, WorkStateAfter;
    if source < |messages| {
      assert DescribesAt(messages, source, digest, h);
    }
  }

  /** A position moves to the number of kept messages before it; past the end it stays the end. */
  lemma RemappedPositionCountsKept(messages: seq<ChatMessage>, digest: string -> string,
                                   h: Materialized, p: nat, q: nat)
    requires Describes(messages, |messages|, digest, h)
    requires |h.messagePositionMap| == |messages| + 1 && h.messagePositionMap[|messages|] == |h.messages|
    requires p <= q
    ensures RemapPosition(h, p).Some? && RemapPosition(h, q).Some?
    ensures RemapPosition(h, p).value == Count(messages, Kept, if p <= |messages| then p else |messages|)
    ensures RemapPosition(h, p).value <= RemapPosition(h, q).value <= |h.messages|
  {
    hide OutcomeOf, LegacyOf, WorkStateAfter, DescribesAt;
    var n := |messages|;
    CountGrows(messages, Kept, if p <= n then p else n, if q <= n then q else n);
    CountGrows(messages, Kept, if q <= n then q else n, n);
  }
}
