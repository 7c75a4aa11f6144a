/**
 A message survives its way into a context item and out again (src/core.rs:4756-4804, 4906-4945): the
 provider gets for its item what it would get for the message itself (src/protocol/src/protocol.rs:799-843).
 */
module MessageRendering {
  import opened Prelude
  import opened Json
  import opened Utf8Text
  import opened Payload
  import opened History
  import opened MessageItems

  function MetadataOf(m: ChatMessage, key: string): Option<Value> {
    if key in m.metadata then Some(m.metadata[key]) else None
  }

  /** The tool calls an assistant message carries along. */
  function CarriedCalls(m: ChatMessage): Option<Value> {
    match MetadataOf(m, "tool_calls")
    case Some(Arr(calls)) => if m.role.Assistant? && calls != [] then Some(Arr(calls)) else None
    case _ => None
  }

  /** `materialize_openai_compatible_messages`, for one message. */
  function MaterializeMessage(m: ChatMessage): Value {
    var calls := CarriedCalls(m);
    Obj([Field("role", Str(RoleName(m.role))),
         Field("content", if calls.Some? && m.content == "" then Null else Str(m.content))]
        + (if !m.role.Tool? && m.name.Some? then [Field("name", Str(m.name.value))] else [])
        + (if m.toolCallId.Some? then [Field("tool_call_id", Str(m.toolCallId.value))] else [])
        + (if calls.Some? then [Field("tool_calls", calls.value)] else []))
  }

  /** Text and metadata can be read back from what the item holds. */
  ghost predicate ReadsBack(rendering: Rendering, decode: Text -> string) {
    && (forall s :: decode(rendering.bytes(s)) == s)
    && forall fields, key :: FieldOf(rendering.fields(fields), key) == if key in fields then Some(fields[key]) else None
  }

  lemma ItemMetadata(rendering: Rendering, m: ChatMessage)
    ensures var metadata := MessageMetadata(rendering, m);
      && "role" in metadata && metadata["role"] == Str(RoleName(m.role))
      && "name" in metadata && metadata["name"] == OptionalStr(m.name)
      && "tool_call_id" in metadata && metadata["tool_call_id"] == OptionalStr(m.toolCallId)
      && ("message_metadata" in metadata <==> m.metadata != map[])
      && (m.metadata != map[] ==> metadata["message_metadata"] == rendering.fields(m.metadata))
  {
    assert |"role"| == 4 && |"name"| == 4 && |"tool_call_id"| == 12 && |"message_metadata"| == 16;
    assert "role"[0] != "name"[0];
  }

  lemma RoleIsKept(rendering: Rendering, i: nat, m: ChatMessage, latest: bool)
    ensures RenderedRole(MessageItem(rendering, i, m, latest)) == RoleName(m.role)
  {
    hide MessageMetadata, MessageId;
    ItemMetadata(rendering, m);
  }

  lemma CallsAreKept(rendering: Rendering, decode: Text -> string, i: nat, m: ChatMessage, latest: bool)
    requires ReadsBack(rendering, decode)
    ensures ToolCalls(MessageItem(rendering, i, m, latest)) == CarriedCalls(m)
  {
    hide MessageMetadata, MessageId, FieldOf;
    ItemMetadata(rendering, m);
    RoleIsKept(rendering, i, m, latest);
    assert RoleName(m.role) == "assistant" <==> m.role.Assistant? by {
      assert |RoleName(User)| == 4 && |RoleName(System)| == 6 && |RoleName(Tool)| == 4 && |"assistant"| == 9;
    }
    assert m.metadata != map[] ==>
      FieldOf(rendering.fields(m.metadata), "tool_calls") == MetadataOf(m, "tool_calls");
  }

  /** The provider gets the message: its role, its text, its name, its tool-call id and its tool calls. */
  lemma MessageSurvivesItsItem(rendering: Rendering, decode: Text -> string, i: nat, m: ChatMessage, latest: bool)
    requires ReadsBack(rendering, decode)
    ensures RenderItem(decode, MessageItem(rendering, i, m, latest)) == Arr([MaterializeMessage(m)])
  {
    hide MessageMetadata, MessageId, ToolCalls, CarriedCalls, RenderedRole;
    var item := MessageItem(rendering, i, m, latest);
    ItemMetadata(rendering, m);
    RoleIsKept(rendering, i, m, latest);
    CallsAreKept(rendering, decode, i, m, latest);
    assert item.MetaStr("name") == m.name && item.MetaStr("tool_call_id") == m.toolCallId;
    assert RoleName(m.role) == "tool" <==> m.role.Tool? by {
      assert |RoleName(Assistant)| == 9 && |RoleName(System)| == 6 && "user"[0] != "tool"[0];
    }
  }
}
