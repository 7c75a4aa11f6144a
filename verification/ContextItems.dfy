/**
 Context items, how their token cost is estimated, and how one required item is cut down
 (src/core.rs:990-1029, 1882-2016, 2104-2117, 2206-2211).
 */
module ContextItems {
  import opened Prelude
  import opened Json
  import opened Utf8Text
  import opened Truncation

  datatype Delivery = Message | ToolManifest | TraceOnly

  type Metadata = map<string, Value>

  datatype ContextItem = ContextItem(
    id: string,
    kind: string,
    source: string,
    content: Text,
    priority: int,
    tokenEstimate: nat,
    pinned: bool,
    stablePrefix: bool,
    ttlTurns: Option<nat>,
    metadata: Metadata,
    delivery: Delivery)
  {
    function MetaStr(key: string): Option<string> {
      if key in metadata then metadata[key].AsStr() else None
    }

    function MetaU64(key: string): Option<nat> {
      if key in metadata then metadata[key].AsU64() else None
    }

    function MetaBool(key: string): Option<bool> {
      if key in metadata then metadata[key].AsBool() else None
    }

    /** Pinned and sent as a message: the request must carry it. */
    predicate Required() {
      pinned && delivery.Message?
    }

    predicate IsDuplicate() {
      MetaStr("context_semantic_duplicate_of").Some?
    }
  }

  datatype PreviewLimits = PreviewLimits(bytes: nat, lines: nat, lineChars: nat)

  /**
   What the builder is configured with. `payload` is the provider message array for one item; the
   crate that renders it is not part of this model, so nothing is assumed about it.
   */
  datatype Builder = Builder(
    tokenBudget: Option<nat>,
    bytesPerToken: nat,
    previewLimits: PreviewLimits,
    traceOnly: bool,
    contextWindow: Option<nat>,
    reservedOutputTokens: nat,
    fitRequiredContext: bool,
    payload: ContextItem -> Value)

  // ----- token estimates

  function Utf8Width(c: char): (n: nat)
    ensures 1 <= n <= 4
  {
    if c < '\U{80}' then 1 else if c < '\U{800}' then 2 else if c < '\U{10000}' then 3 else 4
  }

  function Utf8Size(s: string): (n: nat)
    ensures n >= |s|
  {
    if s == [] then 0 else Utf8Width(s[0]) + Utf8Size(s[1..])
  }

  function Max(a: nat, b: nat): nat {
    if a < b then b else a
  }

  function CeilDiv(a: nat, b: nat): nat
    requires b > 0
  {
    if a % b == 0 then a / b else a / b + 1
  }

  function TokensForBytes(bytes: nat, bytesPerToken: nat): (tokens: nat)
    ensures tokens * Max(bytesPerToken, 1) >= bytes
    ensures bytes > 0 ==> tokens >= 1 && (tokens - 1) * Max(bytesPerToken, 1) < bytes
  {
    CeilDivCovers(bytes, Max(bytesPerToken, 1));
    Max(CeilDiv(bytes, Max(bytesPerToken, 1)), if bytes > 0 then 1 else 0)
  }

  /** Bytes of canonical JSON over bytes per token, rounded up; no value is free. */
  function EstimateSerializedTokens(value: Value, bytesPerToken: nat): (tokens: nat)
    ensures tokens >= 1
    ensures (tokens - 1) * Max(bytesPerToken, 1) < Utf8Size(Dumps(value)) <= tokens * Max(bytesPerToken, 1)
  {
    assert Dumps(value) != [];
    TokensForBytes(Utf8Size(Dumps(value)), bytesPerToken)
  }

  lemma CeilDivCovers(a: nat, b: nat)
    requires b > 0
    ensures CeilDiv(a, b) * b >= a && forall c: nat | c >= CeilDiv(a, b) :: c * b >= a
    ensures a > 0 ==> CeilDiv(a, b) >= 1 && (CeilDiv(a, b) - 1) * b < a
  {
    assert a == a / b * b + a % b;
    forall c: nat | c >= CeilDiv(a, b) ensures c * b >= a {
      assert (c - CeilDiv(a, b)) * b >= 0;
    }
  }

  function EstimateItem(b: Builder, item: ContextItem): (tokens: nat)
    ensures tokens >= 1
  {
    EstimateSerializedTokens(b.payload(item), b.bytesPerToken)
  }

  /** The fewest tokens that cover what the item is printed to. */
  lemma EstimateItemIsTight(b: Builder, item: ContextItem)
    ensures var tokens, perToken := EstimateItem(b, item), Max(b.bytesPerToken, 1);
      (tokens - 1) * perToken < Utf8Size(Dumps(b.payload(item))) <= tokens * perToken
  {
    hide Dumps, Utf8Size, EstimateSerializedTokens;
  }

  // ----- cutting one required item

  predicate HasPrefix(s: string, prefix: string) {
    |prefix| <= |s| && s[..|prefix|] == prefix
  }

  /** Which required items give way first; the latest user message is last. */
  function TruncationOrder(item: ContextItem): nat {
    if item.kind == "checkpoint" then 0
    else if HasPrefix(item.kind, "attachment_") then 10
    else if item.kind == "todo" then 20
    else if item.kind == "goal" then 25
    else if item.kind == "plan" then 27
    else if item.kind == "runtime" || item.kind == "sandbox" then 30
    else if item.kind == "work_state" then 40
    else if item.MetaStr("role") == Some("system") then 50
    else if item.MetaStr("role") == Some("user") then 60
    else 35
  }

  /** The size below which the first pass will not cut an item. */
  function MinimumBytes(item: ContextItem): nat {
    if item.kind == "checkpoint" then 128
    else if HasPrefix(item.kind, "attachment_") then 320
    else if item.kind in ["goal", "plan", "todo", "runtime", "sandbox"] then 256
    else if item.kind == "work_state" then 512
    else if item.MetaStr("role") == Some("system") then 768
    else if item.MetaStr("role") == Some("user") then 640
    else 256
  }

  const HARD_MINIMUM_BYTES: nat := 96

  function TruncationStrategy(item: ContextItem): (string, bool) {
    if HasPrefix(item.kind, "attachment_") then ("attachment_header_head_tail", true)
    else if item.kind in ["goal", "plan", "todo"] then ("todo_header_head_tail", true)
    else if item.kind == "work_state" then ("work_state_sections_head_tail", true)
    else if item.MetaStr("role") == Some("system") then ("instruction_sections_head_tail", false)
    else if item.MetaStr("role") == Some("user") then ("latest_user_head_tail", false)
    else ("head_tail", item.content != [] && item.content[0] == '[' as Byte)
  }

  function TruncateContent(item: ContextItem, maxBytes: nat): (content: Text)
    ensures |content| <= maxBytes
  {
    if TruncationStrategy(item).0 == "instruction_sections_head_tail"
    then TruncateInstructionSections(item.content, maxBytes)
    else TruncateHeadTail(item.content, maxBytes, TruncationStrategy(item).1)
  }

  function OriginalEstimate(item: ContextItem): nat {
    item.MetaU64("context_original_token_estimate").GetOr(item.tokenEstimate)
  }

  function OriginalBytes(item: ContextItem): nat {
    item.MetaU64("context_original_bytes").GetOr(|item.content|)
  }

  function Natural(n: nat): Value {
    Number(Int(n))
  }

  function TruncateRequired(b: Builder, item: ContextItem, maxBytes: nat): ContextItem {
    if |item.content| <= maxBytes then item
    else
      var content := TruncateContent(item, maxBytes);
      var fitted := item.(
        content := content,
        metadata := item.metadata
          ["context_truncated" := Bool(true)]
          ["context_truncation_reason" := Str("required_context_budget")]
          ["context_truncation_strategy" := Str(TruncationStrategy(item).0)]
          ["context_original_token_estimate" := Natural(OriginalEstimate(item))]
          ["context_original_bytes" := Natural(OriginalBytes(item))]
          ["context_retained_bytes" := Natural(|content|)]);
      fitted.(tokenEstimate := EstimateItem(b, fitted))
  }

  const TRUNCATION_KEYS: set<string> := {
    "context_truncated", "context_truncation_reason", "context_truncation_strategy",
    "context_original_token_estimate", "context_original_bytes", "context_retained_bytes" }

  /** Nothing but the content, its estimate and the truncation record may differ. */
  ghost predicate SameIdentity(x: ContextItem, y: ContextItem) {
    && y == x.(content := y.content, tokenEstimate := y.tokenEstimate, metadata := y.metadata)
    && x.metadata.Keys - TRUNCATION_KEYS == y.metadata.Keys - TRUNCATION_KEYS
    && forall key | key in x.metadata && key !in TRUNCATION_KEYS ::
         key in y.metadata && y.metadata[key] == x.metadata[key]
  }

  /** A cut item keeps its identity, fits its limit, and records what it was before the first cut. */
  lemma TruncateRequiredFacts(b: Builder, item: ContextItem, maxBytes: nat)
    ensures var cut := TruncateRequired(b, item, maxBytes);
      && SameIdentity(item, cut)
      && cut.Required() == item.Required()
      && (|item.content| <= maxBytes <==> cut == item)
      && |cut.content| <= Min(maxBytes, |item.content|)
      && OriginalEstimate(cut) == OriginalEstimate(item) && OriginalBytes(cut) == OriginalBytes(item)
      && (cut != item ==> cut.tokenEstimate >= 1
                          && cut.tokenEstimate == EstimateItem(b, cut.(tokenEstimate := item.tokenEstimate))
                          && cut.MetaStr("context_truncation_reason") == Some("required_context_budget")
                          && cut.MetaBool("context_truncated") == Some(true)
                          && cut.MetaU64("context_retained_bytes") == Some(|cut.content|))
  {
    hide TruncateContent, EstimateItem, TruncationStrategy;
    var cut := TruncateRequired(b, item, maxBytes);
    if |item.content| > maxBytes {
      assert |cut.content| <= maxBytes;
      assert cut.metadata["context_original_token_estimate"] == Natural(OriginalEstimate(item));
      assert cut.metadata["context_original_bytes"] == Natural(OriginalBytes(item));
    }
  }

  lemma TruncateRequiredIsValid(b: Builder, item: ContextItem, maxBytes: nat)
    requires ValidUtf8(item.content)
    ensures ValidUtf8(TruncateRequired(b, item, maxBytes).content)
  {
    hide ValidUtf8, TruncateHeadTail, TruncateInstructionSections;
    HeadTailIsValid(item.content, maxBytes, TruncationStrategy(item).1);
    SectionsAreValid(item.content, maxBytes);
  }
}
