/**
 The context item of a message (src/core.rs:4756-4804) and when two messages share an id.
 */
module MessageItems {
  import opened Prelude
  import opened Json
  import JsonParser
  import opened Utf8Text
  import opened ContextItems
  import opened Deduplication
  import opened History

  const PRIORITY_INSTRUCTION: int := 100

  const PRIORITY_RUNTIME: int := 90

  const PRIORITY_TOOL_RESULT: int := 50

  const PRIORITY_MESSAGE: int := 40

  /** How text becomes bytes and a metadata map becomes a JSON object. */
  datatype Rendering = Rendering(bytes: string -> Text, fields: map<string, Value> -> Value)

  function RoleName(role: Role): string {
    match role
    case System => "system"
    case User => "user"
    case Assistant => "assistant"
    case Tool => "tool"
  }

  function MessageKind(m: ChatMessage): string {
    if m.role.Tool? then "tool_result" else "message"
  }

  /** A tool-call id stands in for role and index. */
  function Identifier(index: nat, m: ChatMessage): string {
    m.toolCallId.GetOr(RoleName(m.role) + ":" + Decimal(index))
  }

  function MessageId(index: nat, m: ChatMessage): string {
    MessageKind(m) + ":" + Identifier(index, m)
  }

  function OptionalStr(s: Option<string>): Value {
    if s.Some? then Str(s.value) else Null
  }

  function MessageMetadata(rendering: Rendering, m: ChatMessage): Metadata {
    var own := map["role" := Str(RoleName(m.role)), "name" := OptionalStr(m.name),
                   "tool_call_id" := OptionalStr(m.toolCallId)];
    if m.metadata == map[] then own else own["message_metadata" := rendering.fields(m.metadata)]
  }

  /** `message_context_item`. */
  function MessageItem(rendering: Rendering, index: nat, m: ChatMessage, latestUser: bool): ContextItem {
    var priority :=
      if m.role.System? then PRIORITY_INSTRUCTION
      else if latestUser then PRIORITY_RUNTIME
      else if m.role.Tool? then PRIORITY_TOOL_RESULT
      else PRIORITY_MESSAGE;
    ContextItem(MessageId(index, m), MessageKind(m), "session.messages[" + Decimal(index) + "]",
                rendering.bytes(m.content), priority, 0, m.role.System? || latestUser, m.role.System?, None,
                MessageMetadata(rendering, m), Message)
  }

  /** The latest user message is required, takes part in no semantic deduplication, and carries no mark. */
  lemma LatestUserIsRequired(rendering: Rendering, index: nat, m: ChatMessage)
    requires m.role.User?
    ensures var item := MessageItem(rendering, index, m, true);
      item.Required() && !item.stablePrefix && !item.IsDuplicate() && item.kind == "message"
  {
    var metadata := MessageMetadata(rendering, m);
    assert |"context_semantic_duplicate_of"| == 29;
    assert |"role"| == 4 && |"name"| == 4 && |"tool_call_id"| == 12 && |"message_metadata"| == 16;
    assert "context_semantic_duplicate_of" !in metadata;
  }

  /**
   Only system messages and the latest user message are pinned, and only the former are stable; with equal
   pins they rank above tool results, and those above all other messages.
   */
  lemma MessagesRankByRole(rendering: Rendering, i: nat, m: ChatMessage, latest: bool)
    requires latest ==> m.role == User
    ensures var item := MessageItem(rendering, i, m, latest);
      && item.content == rendering.bytes(m.content) && item.delivery == Message && item.tokenEstimate == 0
      && (item.pinned <==> m.role == System || latest) && (item.stablePrefix <==> m.role == System)
      && item.priority == (match m.role
           case System => 100
           case User => if latest then 90 else 40
           case Assistant => 40
           case Tool => 50)
  {
  }

  // ----- ids

  lemma RoleNamesDiffer(x: Role, y: Role, a: string, b: string)
    requires RoleName(x) + ":" + a == RoleName(y) + ":" + b
    ensures x == y && a == b
  {
    var s, t := RoleName(x) + ":" + a, RoleName(y) + ":" + b;
    assert s[0] == RoleName(x)[0] && t[0] == RoleName(y)[0];
    assert s[|RoleName(x)| + 1..] == a && t[|RoleName(y)| + 1..] == b;
  }

  lemma KindsDiffer(m: ChatMessage, n: ChatMessage, a: string, b: string)
    requires MessageKind(m) + ":" + a == MessageKind(n) + ":" + b
    ensures MessageKind(m) == MessageKind(n) && a == b
  {
    var s, t := MessageKind(m) + ":" + a, MessageKind(n) + ":" + b;
    assert s[0] == MessageKind(m)[0] && t[0] == MessageKind(n)[0];
    assert s[|MessageKind(m)| + 1..] == a && t[|MessageKind(n)| + 1..] == b;
  }

  lemma GeneratedIdentifiersDiffer(i: nat, x: Role, j: nat, y: Role)
    ensures RoleName(x) + ":" + Decimal(i) == RoleName(y) + ":" + Decimal(j) <==> x == y && i == j
  {
    hide RoleName, Decimal;
    if RoleName(x) + ":" + Decimal(i) == RoleName(y) + ":" + Decimal(j) {
      RoleNamesDiffer(x, y, Decimal(i), Decimal(j));
      JsonParser.ReadUndoesDecimal(i);
      JsonParser.ReadUndoesDecimal(j);
    }
  }

  /**
   When two messages share an id: both or neither are tool results, and they have the same tool-call id,
   or are the same message without one, or the tool-call id of one spells the role and index of the other.
   */
  lemma MessageIdsCollideIff(i: nat, m: ChatMessage, j: nat, n: ChatMessage)
    ensures MessageId(i, m) == MessageId(j, n) <==>
      && MessageKind(m) == MessageKind(n)
      && match (m.toolCallId, n.toolCallId)
         case (Some(a), Some(b)) => a == b
         case (None, Some(b)) => b == RoleName(m.role) + ":" + Decimal(i)
         case (Some(a), None) => a == RoleName(n.role) + ":" + Decimal(j)
         case (None, None) => m.role == n.role && i == j
  {
    hide MessageKind, RoleName, Decimal;
    if MessageId(i, m) == MessageId(j, n) {
      KindsDiffer(m, n, Identifier(i, m), Identifier(j, n));
    }
    GeneratedIdentifiersDiffer(i, m.role, j, n.role);
  }

  // ----- which messages survive deduplication by id

  /** The collected item at `q` is that of some message. */
  ghost predicate IsMessageAt(
    rendering: Rendering, items: seq<ContextItem>, q: nat, i: nat, m: ChatMessage, latest: bool)
  {
    q < |items| && items[q] == MessageItem(rendering, i, m, latest)
  }

  /**
   Interleaving keeps every message; deduplication by id then drops one exactly when an earlier item with
   its id is not outranked by it, or a later one outranks it. No other item may come from the same place
   in the session, which only the messages name.
   */
  lemma MessageIsLostIff(rendering: Rendering, items: seq<ContextItem>, out: seq<ContextItem>,
                         q: nat, i: nat, m: ChatMessage, latest: bool)
    requires IsDeduped(items, out) && IsMessageAt(rendering, items, q, i, m, latest)
    requires forall p | 0 <= p < |items| && p != q :: items[p].source != items[q].source
    ensures items[q] !in out <==>
      exists p | 0 <= p < |items| && p != q && items[p].id == MessageId(i, m) ::
        if p < q then !Outranks(items[q], items[p]) else Outranks(items[p], items[q])
  {
    hide IsDeduped, Outranks, MessageId, MessageMetadata;
    DroppedIff(items, out, q);
  }

  /** Of two results of the same tool call the later is lost. */
  lemma SecondToolResultIsLost(rendering: Rendering, items: seq<ContextItem>, out: seq<ContextItem>,
                               p: nat, i: nat, m: ChatMessage, q: nat, j: nat, n: ChatMessage)
    requires m.role.Tool? && n.role.Tool? && m.toolCallId.Some? && m.toolCallId == n.toolCallId
    requires p < q && IsDeduped(items, out)
    requires IsMessageAt(rendering, items, p, i, m, false) && IsMessageAt(rendering, items, q, j, n, false)
    requires forall k | 0 <= k < |items| && k != q :: items[k].source != items[q].source
    ensures items[q] !in out
  {
    hide IsDeduped, MessageMetadata, Decimal;
    MessageIsLostIff(rendering, items, out, q, j, n, false);
    MessageIdsCollideIff(i, m, j, n);
    assert items[p].id == MessageId(j, n);
  }

  /** A user message of an earlier turn is lost to an earlier answer whose tool-call id spells its role and index. */
  lemma UserMessageCanBeLost(rendering: Rendering, out: seq<ContextItem>)
    requires var answer := ChatMessage(Assistant, "", None, Some("user:5"), map[]);
      var question := ChatMessage(User, "question", None, None, map[]);
      IsDeduped([MessageItem(rendering, 2, answer, false), MessageItem(rendering, 5, question, false)], out)
    ensures var question := ChatMessage(User, "question", None, None, map[]);
      MessageItem(rendering, 5, question, false) !in out
  {
    hide IsDeduped, MessageMetadata;
    var answer := ChatMessage(Assistant, "", None, Some("user:5"), map[]);
    var question := ChatMessage(User, "question", None, None, map[]);
    var items := [MessageItem(rendering, 2, answer, false), MessageItem(rendering, 5, question, false)];
    SourcesDiffer(2, 5);
    MessageIsLostIff(rendering, items, out, 1, 5, question, false);
    assert Decimal(5) == "5" && RoleName(User) + ":" + Decimal(5) == "user:5";
    MessageIdsCollideIff(2, answer, 5, question);
    assert items[0].id == MessageId(5, question);
  }

  lemma SourcesDiffer(i: nat, j: nat)
    requires i != j
    ensures "session.messages[" + Decimal(i) + "]" != "session.messages[" + Decimal(j) + "]"
  {
    hide Decimal;
    JsonParser.ReadUndoesDecimal(i);
    JsonParser.ReadUndoesDecimal(j);
    var start := "session.messages[";
    var s, t := start + Decimal(i) + "]", start + Decimal(j) + "]";
    assert s[|start|..|s| - 1] == Decimal(i) && t[|start|..|t| - 1] == Decimal(j);
  }
}
