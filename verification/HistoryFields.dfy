/**
 What becomes of each message of a compacted transcript (src/core.rs:2502-2636), said of the fields of
 the messages: which boundary cuts, which messages stay, and what the work state, the legacy sources and
 the count of dropped prompts hold.
 */
module HistoryFields {
  import opened Prelude
  import opened Json
  import opened History

  // ----- the cutoff

  /** Message `i` is a boundary that names a message, and `c` is the last one before it with that id. */
  ghost predicate CutsAt(messages: seq<ChatMessage>, i: nat, c: nat)
    requires i < |messages|
  {
    var until := messages[i].MetaStr("compacted_until_message_id");
    && messages[i].MetaStr("kind") == Some("compaction_boundary")
    && until.Some? && Trim(until.value) != ""
    && c < i && messages[c].MetaStr("message_id") == until
    && forall j | c < j < i :: messages[j].MetaStr("message_id") != until
  }

  lemma CutsAtIff(messages: seq<ChatMessage>, i: nat, c: nat)
    requires i < |messages|
    ensures BoundaryCutoff(messages, i) == Some(c) <==> CutsAt(messages, i, c)
  {
    hide Trim;
  }

  lemma NoCutIff(messages: seq<ChatMessage>, i: nat)
    requires i < |messages|
    ensures BoundaryCutoff(messages, i).None? <==> forall c: nat :: !CutsAt(messages, i, c)
  {
    hide CutsAt, BoundaryCutoff;
    forall c: nat ensures BoundaryCutoff(messages, i) == Some(c) <==> CutsAt(messages, i, c) {
      CutsAtIff(messages, i, c);
    }
    if BoundaryCutoff(messages, i).Some? {
      assert CutsAt(messages, i, BoundaryCutoff(messages, i).value);
    }
  }

  /** The cutoff is that of the last boundary that names an earlier message. */
  lemma CutoffIff(messages: seq<ChatMessage>, c: nat)
    ensures Cutoff(messages) == Some(c) <==>
      exists i: nat | i < |messages| && CutsAt(messages, i, c) ::
        forall j: nat, d: nat | i < j < |messages| :: !CutsAt(messages, j, d)
  {
    hide CutsAt, BoundaryCutoff, LatestCutoff, IsLastBoundary;
    var n := |messages|;
    LatestCutoffIsLast(messages, n);
    if Cutoff(messages) == Some(c) {
      var i :| 0 <= i < n && IsLastBoundary(messages, i, n) && BoundaryCutoff(messages, i) == Some(c);
      CutsAtIff(messages, i, c);
      LastCutsLast(messages, i);
    }
    if i: nat :| i < n && CutsAt(messages, i, c) && forall j: nat, d: nat | i < j < n :: !CutsAt(messages, j, d) {
      CutsAtIff(messages, i, c);
      LastDecides(messages, i, n);
    }
  }

  lemma LastCutsLast(messages: seq<ChatMessage>, i: nat)
    requires i < |messages| && IsLastBoundary(messages, i, |messages|)
    ensures forall j: nat, d: nat | i < j < |messages| :: !CutsAt(messages, j, d)
  {
    hide CutsAt, BoundaryCutoff;
    forall j: nat, d: nat | i < j < |messages| ensures !CutsAt(messages, j, d) {
      NoCutIff(messages, j);
    }
  }

  lemma {:induction false} LastDecides(messages: seq<ChatMessage>, i: nat, n: nat)
    requires i < n <= |messages| && BoundaryCutoff(messages, i).Some?
    requires forall j: nat, d: nat | i < j < |messages| :: !CutsAt(messages, j, d)
    ensures LatestCutoff(messages, n) == BoundaryCutoff(messages, i)
  {
    hide CutsAt, BoundaryCutoff;
    if i == n - 1 {
    } else {
      NoCutIff(messages, n - 1);
      LastDecides(messages, i, n - 1);
    }
  }

  // ----- who stays

  predicate IsPast(messages: seq<ChatMessage>, i: nat) {
    Cutoff(messages).None? || Cutoff(messages).value < i
  }

  /** A system message that carries a profile, or is marked as a prompt that is rebuilt each turn. */
  predicate IsPrompt(m: ChatMessage) {
    "agent_profile" in m.metadata ||
    ("dynamic_system_prompt" in m.metadata && m.metadata["dynamic_system_prompt"] == Bool(true))
  }

  /** The messages that stay are those past the cutoff that are no system messages, unchanged and in order. */
  lemma KeptIff(messages: seq<ChatMessage>, digest: string -> string, h: Materialized, i: nat)
    requires Describes(messages, |messages|, digest, h) && i < |messages|
    ensures |h.messageIndexMap| == |messages|
    ensures h.messageIndexMap[i].Some? <==> IsPast(messages, i) && messages[i].role != System
    ensures h.messageIndexMap[i].Some? ==>
      h.messageIndexMap[i].value < |h.messages| && h.messages[h.messageIndexMap[i].value] == messages[i]
  {
    hide LatestCutoff, LegacyOf, WorkStateAfter, Trim;
    assert DescribesAt(messages, i, digest, h);
  }

  // ----- the work state

  predicate BecomesWorkState(messages: seq<ChatMessage>, i: nat)
    requires i < |messages|
  {
    && IsPast(messages, i) && messages[i].role == System && !IsPrompt(messages[i])
    && messages[i].MetaStr("kind") == Some("compaction_boundary")
  }

  /** The last such boundary hands over its text, its position, its names or their defaults, and its other metadata. */
  lemma WorkStateIsTheBoundary(messages: seq<ChatMessage>, digest: string -> string, h: Materialized, i: nat)
    requires Describes(messages, |messages|, digest, h) && i < |messages| && BecomesWorkState(messages, i)
    requires forall j: nat | i < j < |messages| :: !BecomesWorkState(messages, j)
    ensures h.workState.Some?
    ensures var m, w := messages[i], h.workState.value;
      && w.summary == m.content && w.messagePosition == Some(0)
      && w.id == (match m.MetaStr("message_id") case Some(id) => id case None => "compaction")
      && w.format == (match m.MetaStr("format") case Some(f) => f case None => "session_compaction_boundary_v1")
      && w.source == (match m.MetaStr("source") case Some(s) => s case None => "session.transcript.compaction")
      && w.compactedUntilMessageId == m.MetaStr("compacted_until_message_id")
      && w.metadata == map key | key in m.metadata &&
           key !in {"kind", "message_id", "compacted_until_message_id", "format", "source"} :: m.metadata[key]
  {
    hide LatestCutoff, DescribesAt, Count, Trim, LegacyOf;
    LastWorkState(messages, i, |messages|);
  }

  lemma {:induction false} LastWorkState(messages: seq<ChatMessage>, i: nat, n: nat)
    requires i < n <= |messages| && BecomesWorkState(messages, i)
    requires forall j: nat | i < j < |messages| :: !BecomesWorkState(messages, j)
    ensures WorkStateAfter(messages, n) == Some(WorkStateOf(messages[i]))
  {
    hide LatestCutoff, WorkStateOf, Trim;
    if i == n - 1 {
    } else {
      LastWorkState(messages, i, n - 1);
      assert !BecomesWorkState(messages, n - 1);
    }
  }

  /** Without such a boundary there is none. */
  lemma NoWorkStateIff(messages: seq<ChatMessage>, digest: string -> string, h: Materialized)
    requires Describes(messages, |messages|, digest, h)
    ensures h.workState.None? <==> forall i: nat | i < |messages| :: !BecomesWorkState(messages, i)
  {
    hide LatestCutoff, DescribesAt, Count, Trim, LegacyOf, WorkStateAfter;
    WorkStateComesFromABoundary(messages, |messages|);
    assert forall i: nat | i < |messages| :: OutcomeOf(messages, i).BecameWorkState? <==> BecomesWorkState(messages, i);
  }

  // ----- legacy sources

  predicate BecomesLegacy(messages: seq<ChatMessage>, i: nat)
    requires i < |messages|
  {
    && IsPast(messages, i) && messages[i].role == System && !IsPrompt(messages[i])
    && messages[i].MetaStr("kind") != Some("compaction_boundary") && Trim(messages[i].content) != ""
  }

  /** Any other system text that is not blank is a legacy source: its trimmed text under its names or their defaults. */
  lemma LegacyKeepsTheText(messages: seq<ChatMessage>, digest: string -> string, h: Materialized, i: nat)
    returns (k: nat)
    requires Describes(messages, |messages|, digest, h) && i < |messages| && BecomesLegacy(messages, i)
    ensures k < |h.legacySystemSources| && k == Count(messages, BecameLegacy, i)
    ensures var m, source := messages[i], h.legacySystemSources[k];
      && source.content == Trim(m.content)
      && source.source == (match m.MetaStr("source")
           case Some(s) => if Trim(s) != "" then s else "session.messages[" + Decimal(i) + "]"
           case None => "session.messages[" + Decimal(i) + "]")
      && (m.MetaStr("message_id").Some? && Trim(m.MetaStr("message_id").value) != "" ==>
            source.id == "legacy_system:" + m.MetaStr("message_id").value)
      && ((m.MetaStr("message_id").None? || Trim(m.MetaStr("message_id").value) == "") &&
          |digest(Trim(m.content))| >= 16 ==>
            source.id == "legacy_system:" + (Decimal(i) + ":" + digest(Trim(m.content))[..16]))
  {
    hide LatestCutoff, Trim, Count, WorkStateAfter, Decimal;
    assert DescribesAt(messages, i, digest, h);
    k := Count(messages, BecameLegacy, i);
  }

  /** There are no others. */
  lemma LegacyComesFromAMessage(messages: seq<ChatMessage>, digest: string -> string, h: Materialized, k: nat)
    returns (i: nat)
    requires Describes(messages, |messages|, digest, h) && k < |h.legacySystemSources|
    ensures i < |messages| && BecomesLegacy(messages, i) && k == Count(messages, BecameLegacy, i)
  {
    hide LatestCutoff, Trim, WorkStateAfter, LegacyOf, DescribesAt;
    i := NthWith(messages, BecameLegacy, |messages|, k);
  }

  // ----- dropped prompts

  ghost function PositionsOf(messages: seq<ChatMessage>, outcome: Outcome, n: nat): set<nat>
    requires n <= |messages|
  {
    set i: nat | i < n && OutcomeOf(messages, i) == outcome
  }

  lemma {:induction false} CountIsSize(messages: seq<ChatMessage>, outcome: Outcome, n: nat)
    requires n <= |messages|
    ensures Count(messages, outcome, n) == |PositionsOf(messages, outcome, n)|
  {
    hide OutcomeOf, PositionsOf;
    if n == 0 {
      NoPositions(messages, outcome);
    } else {
      CountIsSize(messages, outcome, n - 1);
      PositionsGrow(messages, outcome, n - 1);
    }
  }

  lemma NoPositions(messages: seq<ChatMessage>, outcome: Outcome)
    ensures PositionsOf(messages, outcome, 0) == {}
  {
  }

  lemma PositionsGrow(messages: seq<ChatMessage>, outcome: Outcome, n: nat)
    requires n < |messages|
    ensures |PositionsOf(messages, outcome, n + 1)|
         == |PositionsOf(messages, outcome, n)| + if OutcomeOf(messages, n) == outcome then 1 else 0
  {
    hide OutcomeOf;
    var before := PositionsOf(messages, outcome, n);
    assert PositionsOf(messages, outcome, n + 1)
        == if OutcomeOf(messages, n) == outcome then before + {n} else before;
  }

  /** Prompts past the cutoff are dropped and counted. */
  lemma PromptsAreCounted(messages: seq<ChatMessage>, digest: string -> string, h: Materialized)
    requires Describes(messages, |messages|, digest, h)
    ensures h.discardedProfileSystemCount
         == |set i: nat | i < |messages| && IsPast(messages, i) && messages[i].role == System && IsPrompt(messages[i])|
  {
    hide LatestCutoff, Trim, WorkStateAfter, LegacyOf, DescribesAt, Count;
    CountIsSize(messages, ProfileDropped, |messages|);
    assert PositionsOf(messages, ProfileDropped, |messages|)
        == set i: nat | i < |messages| && IsPast(messages, i) && messages[i].role == System && IsPrompt(messages[i]);
  }
}
