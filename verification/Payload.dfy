/**
 What one context item costs in a request: the message it becomes (src/core.rs:4906-4945) and the JSON
 array it is rendered to (src/protocol/src/protocol.rs:799-843), with bounds on its printed size.
 */
module Payload {
  import opened Prelude
  import opened Json
  import opened Utf8Text
  import opened ContextItems
  import opened PrintedSize

  /** Items without a role of a conversation are sent as system messages. */
  function RenderedRole(item: ContextItem): string {
    match item.MetaStr("role")
    case Some(role) => if role == "user" || role == "assistant" || role == "tool" then role else "system"
    case None => "system"
  }

  /** The tool calls that an assistant message carries along. */
  function ToolCalls(item: ContextItem): Option<Value> {
    if RenderedRole(item) != "assistant" || (item.kind != "message" && item.kind != "tool_result") then None
    else if "message_metadata" !in item.metadata then None
    else
      match FieldOf(item.metadata["message_metadata"], "tool_calls")
      case Some(Arr(calls)) => if calls == [] then None else Some(Arr(calls))
      case _ => None
  }

  function RenderedFields(decode: Text -> string, item: ContextItem): seq<Field> {
    var content := decode(item.content);
    var calls := ToolCalls(item);
    var name, id := item.MetaStr("name"), item.MetaStr("tool_call_id");
    [Field("role", Str(RenderedRole(item))),
     Field("content", if calls.Some? && content == "" then Null else Str(content))]
    + (if RenderedRole(item) != "tool" && name.Some? then [Field("name", Str(name.value))] else [])
    + (if id.Some? then [Field("tool_call_id", Str(id.value))] else [])
    + (if calls.Some? then [Field("tool_calls", calls.value)] else [])
  }

  /** The provider message array for one item; `decode` reads UTF-8. */
  function RenderItem(decode: Text -> string, item: ContextItem): Value {
    Arr([Obj(RenderedFields(decode, item))])
  }

  /** Whatever no one in a dialogue wrote is sent as a system message with its text. */
  lemma OtherItemsAreSystem(decode: Text -> string, item: ContextItem)
    requires item.MetaStr("role") !in {Some("user"), Some("assistant"), Some("tool")}
    ensures var fields := RenderedFields(decode, item);
      && RenderItem(decode, item) == Arr([Obj(fields)]) && |fields| >= 2
      && fields[0] == Field("role", Str("system")) && fields[1] == Field("content", Str(decode(item.content)))
  {
    assert RenderedRole(item) == "system";
  }

  /** An item that is rendered to a role and its content and nothing else. */
  predicate IsPlain(item: ContextItem) {
    && item.MetaStr("name").None? && item.MetaStr("tool_call_id").None?
    && RenderedRole(item) != "assistant"
  }

  lemma PlainText(role: string, content: string)
    ensures var fields := [Field("role", Str(role)), Field("content", Str(content))];
      Dumps(Arr([Obj(fields)])) ==
        "[" + ("{" + (Quote("content") + ": " + Quote(content) + ", "
                      + (Quote("role") + ": " + Quote(role))) + "}") + "]"
  {
    hide Quote, EscapeAll, SortedKeys;
    var x, y := Field("content", Str(content)), Field("role", Str(role));
    assert !KeyLeq("role", "content") by { assert "content"[0] < "role"[0]; }
    TwoFieldsText(x, y);
    assert DumpsItems([Obj([y, x])]) == Dumps(Obj([y, x]));
  }

  const RENDERING_OVERHEAD: nat := 200

  /** A plain item prints to at least its content and to at most six times that and a constant. */
  lemma PlainSize(decode: Text -> string, item: ContextItem)
    requires IsPlain(item) && Utf8Size(decode(item.content)) == |item.content|
    ensures |item.content| <= Utf8Size(Dumps(RenderItem(decode, item))) <= 6 * |item.content| + RENDERING_OVERHEAD
  {
    hide Quote, Dumps, Utf8Size;
    var role, content := RenderedRole(item), decode(item.content);
    assert RenderedFields(decode, item) == [Field("role", Str(role)), Field("content", Str(content))];
    PlainText(role, content);
    EntrySize("content", content);
    EntrySize("role", role);
    AsciiSize("content");
    AsciiSize("role");
    AsciiSize(role);
    var first, second := Quote("content") + ": " + Quote(content), Quote("role") + ": " + Quote(role);
    Around(first, second);
  }

  lemma Around(first: string, second: string)
    ensures Utf8Size("[" + ("{" + (first + ", " + second) + "}") + "]") == Utf8Size(first) + Utf8Size(second) + 6
  {
    hide Utf8Size;
    AsciiSize(", ");
    AsciiSize("[");
    AsciiSize("{");
    AsciiSize("]");
    AsciiSize("}");
    var entries := first + ", " + second;
    SizeConcat(first, ", ");
    SizeConcat(first + ", ", second);
    SizeConcat("{", entries);
    SizeConcat("{" + entries, "}");
    SizeConcat("[", "{" + entries + "}");
    SizeConcat("[" + ("{" + entries + "}"), "]");
  }
}
