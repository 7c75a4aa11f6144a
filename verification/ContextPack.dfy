/**
 Building a pack from collected items (src/core.rs:1241-1318) and the end-to-end promise: unless the
 pack is flagged as overflowed, its estimate fits the model's window together with the reserved
 output (src/core.rs:584-604, 4245-4257).
 */
module ContextPack {
  import opened Prelude
  import opened Json
  import opened Utf8Text
  import opened ContextItems
  import opened PrintedSize
  import opened ToolPreview
  import opened Fitting
  import opened Projection
  import opened ProjectionLaws
  import opened Deduplication

  datatype PackBudget = PackBudget(
    enabled: bool,
    contextWindow: Option<nat>,
    reservedOutputTokens: nat,
    inputLimitTokens: Option<nat>,
    fixedOverheadTokens: nat,
    itemBudgetTokens: Option<nat>,
    selectedItemTokens: nat,
    overflowed: bool)

  datatype Pack = Pack(
    items: seq<ContextItem>,
    trace: seq<TraceEntry>,
    providerItems: Option<seq<ContextItem>>,
    estimatedInputTokens: nat,
    budget: PackBudget)

  /** What the tools and the options weigh as they are sent, with 30 bytes of braces, keys and separators. */
  function FixedBytes(tools: Value, modelOptions: Value): nat {
    Utf8Size(Dumps(tools)) + Utf8Size(Dumps(modelOptions)) + 30
  }

  function FixedOverhead(b: Builder, tools: Value, modelOptions: Value): (tokens: nat)
    ensures tokens >= 1
  {
    EstimateSerializedTokens(Obj([Field("tools", tools), Field("model_options", modelOptions)]), b.bytesPerToken)
  }

  /** The fewest tokens that cover the tools and the options. */
  lemma FixedOverheadCovers(b: Builder, tools: Value, modelOptions: Value)
    ensures var tokens, perToken := FixedOverhead(b, tools, modelOptions), Max(b.bytesPerToken, 1);
      (tokens - 1) * perToken < FixedBytes(tools, modelOptions) <= tokens * perToken
  {
    hide *;
    FixedBytesAreExact(tools, modelOptions);
    hide FixedBytes;
    var value := Obj([Field("tools", tools), Field("model_options", modelOptions)]);
    FixedIsEstimate(b, tools, modelOptions);
    assert FixedOverhead(b, tools, modelOptions) == EstimateSerializedTokens(value, b.bytesPerToken);
  }

  lemma FixedIsEstimate(b: Builder, tools: Value, modelOptions: Value)
    ensures FixedOverhead(b, tools, modelOptions) == EstimateSerializedTokens(
      Obj([Field("tools", tools), Field("model_options", modelOptions)]), b.bytesPerToken)
  {
    hide EstimateSerializedTokens;
  }

  lemma FixedBytesAreExact(tools: Value, modelOptions: Value)
    ensures Utf8Size(Dumps(Obj([Field("tools", tools), Field("model_options", modelOptions)])))
         == FixedBytes(tools, modelOptions)
  {
    hide Dumps, Utf8Size, Quote, KeyLeq;
    var x, y := Field("model_options", modelOptions), Field("tools", tools);
    FixedKeysInOrder();
    FixedKeySizes();
    TwoFieldsSize(x, y);
  }

  lemma FixedKeysInOrder()
    ensures !KeyLeq("tools", "model_options")
  {
    assert "model_options"[0] < "tools"[0];
  }

  lemma FixedKeySizes()
    ensures Utf8Size(Quote("model_options")) == 15 && Utf8Size(Quote("tools")) == 7
  {
    hide *;
    assert |"model_options"| == 13 && |"tools"| == 5;
    PlainQuote("model_options");
    PlainQuote("tools");
  }

  /** `with_estimates`: only a message without an estimate gets one. */
  function WithEstimate(b: Builder, item: ContextItem): (r: ContextItem)
    ensures r.id == item.id && r == item.(tokenEstimate := r.tokenEstimate)
    ensures r.delivery.Message? ==> r.tokenEstimate >= 1
    ensures item.tokenEstimate != 0 || !item.delivery.Message? ==> r == item
    ensures r != item ==> r.tokenEstimate == EstimateItem(b, item)
  {
    if item.tokenEstimate == 0 && item.delivery.Message? then item.(tokenEstimate := EstimateItem(b, item)) else item
  }

  function MapItems(f: ContextItem -> ContextItem, items: seq<ContextItem>): (r: seq<ContextItem>)
    ensures |r| == |items| && forall i | 0 <= i < |items| :: r[i] == f(items[i])
  {
    seq(|items|, i requires 0 <= i < |items| => f(items[i]))
  }

  // ----- what the provider sees

  predicate IsSelected(items: seq<ContextItem>, trace: seq<TraceEntry>, stable: bool, i: nat)
    requires i < |items| == |trace|
  {
    trace[i].included && items[i].delivery.Message? && items[i].stablePrefix == stable
  }

  /** The selected items with a given stability, in order. */
  function SelectFrom(items: seq<ContextItem>, trace: seq<TraceEntry>, stable: bool): seq<ContextItem>
    requires |items| == |trace|
  {
    if items == [] then []
    else
      var n := |items| - 1;
      SelectFrom(items[..n], trace[..n], stable) + if IsSelected(items, trace, stable, n) then [items[n]] else []
  }

  /** The selected positions, in rising order. */
  function SelectedAt(items: seq<ContextItem>, trace: seq<TraceEntry>, stable: bool, n: nat): (at: seq<nat>)
    requires n <= |items| == |trace|
    ensures forall k | 0 <= k < |at| :: at[k] < n && IsSelected(items, trace, stable, at[k])
    ensures forall j, k | 0 <= j < k < |at| :: at[j] < at[k]
    ensures forall i | 0 <= i < n && IsSelected(items, trace, stable, i) :: i in at
  {
    if n == 0 then []
    else if IsSelected(items, trace, stable, n - 1) then SelectedAt(items, trace, stable, n - 1) + [n - 1]
    else SelectedAt(items, trace, stable, n - 1)
  }

  /** The selection holds the selected items, each once and in item order. */
  lemma {:induction false} SelectFromIsExact(items: seq<ContextItem>, trace: seq<TraceEntry>, stable: bool)
    requires |items| == |trace|
    ensures var r, at := SelectFrom(items, trace, stable), SelectedAt(items, trace, stable, |items|);
      |r| == |at| && forall k | 0 <= k < |r| :: r[k] == items[at[k]]
  {
    hide IsSelected;
    if items == [] {
    } else {
      var n := |items| - 1;
      SelectFromIsExact(items[..n], trace[..n], stable);
      SelectedInFront(items, trace, stable, n, n);
      PickOneMore(items, SelectFrom(items[..n], trace[..n], stable), SelectedAt(items, trace, stable, n));
    }
  }

  lemma PickOneMore(items: seq<ContextItem>, picked: seq<ContextItem>, at: seq<nat>)
    requires items != [] && |picked| == |at|
    requires forall k | 0 <= k < |at| :: at[k] < |items| - 1 && picked[k] == items[..|items| - 1][at[k]]
    ensures var n := |items| - 1;
      && (forall k | 0 <= k < |at| :: picked[k] == items[at[k]])
      && forall k | 0 <= k <= |at| :: (picked + [items[n]])[k] == items[(at + [n])[k]]
  {
  }

  lemma {:induction false} SelectedInFront(
    items: seq<ContextItem>, trace: seq<TraceEntry>, stable: bool, m: nat, n: nat)
    requires n <= m <= |items| == |trace|
    ensures SelectedAt(items[..m], trace[..m], stable, n) == SelectedAt(items, trace, stable, n)
  {
    if n == 0 {
    } else {
      SelectedInFront(items, trace, stable, m, n - 1);
    }
  }

  /** The provider sees the included messages, each once: the stable ones first, otherwise in item order. */
  ghost predicate IsRequest(items: seq<ContextItem>, trace: seq<TraceEntry>, request: seq<ContextItem>)
    requires |items| == |trace|
  {
    exists at: seq<nat> | |at| == |request| ::
      && (forall k | 0 <= k < |at| ::
            at[k] < |items| && request[k] == items[at[k]] && trace[at[k]].included && items[at[k]].delivery.Message?)
      && (forall i | 0 <= i < |items| && trace[i].included && items[i].delivery.Message? :: i in at)
      && forall j, k | 0 <= j < k < |at| ::
           if request[j].stablePrefix == request[k].stablePrefix then at[j] < at[k] else request[j].stablePrefix
  }

  lemma SelectionIsRequest(items: seq<ContextItem>, trace: seq<TraceEntry>)
    requires |items| == |trace|
    ensures IsRequest(items, trace, SelectFrom(items, trace, true) + SelectFrom(items, trace, false))
  {
    hide SelectFrom, SelectedAt, IsSelected;
    var n := |items|;
    SelectFromIsExact(items, trace, true);
    SelectFromIsExact(items, trace, false);
    TwoSelections(items, trace, SelectedAt(items, trace, true, n), SelectedAt(items, trace, false, n),
                  SelectFrom(items, trace, true), SelectFrom(items, trace, false));
  }

  ghost predicate ListsSelected(items: seq<ContextItem>, trace: seq<TraceEntry>, stable: bool, at: seq<nat>,
                                picked: seq<ContextItem>)
    requires |items| == |trace|
  {
    && |picked| == |at|
    && (forall k | 0 <= k < |at| ::
          at[k] < |items| && IsSelected(items, trace, stable, at[k]) && picked[k] == items[at[k]])
    && (forall j, k | 0 <= j < k < |at| :: at[j] < at[k])
    && forall i | 0 <= i < |items| && IsSelected(items, trace, stable, i) :: i in at
  }

  lemma TwoSelections(items: seq<ContextItem>, trace: seq<TraceEntry>, stable: seq<nat>, other: seq<nat>,
                      first: seq<ContextItem>, second: seq<ContextItem>)
    requires |items| == |trace|
    requires ListsSelected(items, trace, true, stable, first) && ListsSelected(items, trace, false, other, second)
    ensures IsRequest(items, trace, first + second)
  {
    var at, request := stable + other, first + second;
    forall k | 0 <= k < |at|
      ensures at[k] < |items| && request[k] == items[at[k]] && IsSelected(items, trace, k < |stable|, at[k])
    {
      assert k >= |stable| ==> at[k] == other[k - |stable|] && request[k] == second[k - |stable|];
    }
    forall i | 0 <= i < |items| && trace[i].included && items[i].delivery.Message? ensures i in at {
      assert IsSelected(items, trace, items[i].stablePrefix, i);
    }
    forall j, k | 0 <= j < k < |at|
      ensures if request[j].stablePrefix == request[k].stablePrefix then at[j] < at[k] else request[j].stablePrefix
    {
      assert request[j].stablePrefix == (j < |stable|) && request[k].stablePrefix == (k < |stable|);
    }
  }

  // ----- build

  /** The trace entries that raise the overflow flag. */
  predicate AnyExhausted(trace: seq<TraceEntry>) {
    exists i | 0 <= i < |trace| :: !trace[i].included && trace[i].dropReason == Some(REQUIRED_BUDGET_EXHAUSTED)
  }

  ghost predicate RequiredDropped(pack: Pack)
    requires |pack.trace| == |pack.items|
  {
    !(RequiredOriginals(pack.items) <= Chosen(pack.trace))
  }

  /** An item with its estimate and, in a pack for the provider, its preview limit. */
  function Limited(b: Builder, item: ContextItem): (r: ContextItem)
    ensures r.id == item.id && r.Required() == item.Required() && r.delivery == item.delivery && r.pinned == item.pinned
    ensures r.IsDuplicate() == item.IsDuplicate()
    ensures item.kind != "tool_result" ==> r == WithEstimate(b, item)
  {
    var estimated := WithEstimate(b, item);
    PreviewKeepsIdentity(b, estimated);
    if b.traceOnly then estimated else LimitToolResult(b, estimated)
  }

  /** What the budget is applied to: ids made unique, repeats marked, missing estimates filled in, results limited. */
  ghost predicate IsPrepared(b: Builder, collected: seq<ContextItem>, fingerprint: Fingerprint,
                             items: seq<ContextItem>)
  {
    exists unique, marked ::
      && IsDeduped(collected, unique) && Marks(unique, fingerprint, marked) && |items| == |marked|
      && forall k | 0 <= k < |items| :: items[k] == Limited(b, marked[k])
  }

  /** The part of `build` before anything is budgeted. */
  method Prepare(b: Builder, collected: seq<ContextItem>, fingerprint: Fingerprint)
    returns (items: seq<ContextItem>)
    ensures IsPrepared(b, collected, fingerprint, items)
    ensures UniqueIds(items)
    ensures forall i | 0 <= i < |collected| :: HasId(items, collected[i].id)
    ensures forall k | 0 <= k < |items| :: HasId(collected, items[k].id)
  {
    hide IsDeduped, Marks, WithEstimate, LimitToolResult, IsPrepared, UniqueIds, HasId;
    var unique := DedupeItems(collected);
    var marked := SemanticDedupeItems(unique, fingerprint);
    assert |marked| == |unique| by { MarksKeepIds(unique, fingerprint, marked); }
    items := MapItems(item => WithEstimate(b, item), marked);
    if !b.traceOnly {
      items := MapItems(item => LimitToolResult(b, item), items);
    }
    assert forall k | 0 <= k < |items| :: items[k] == Limited(b, marked[k]);
    PreparedFacts(b, collected, fingerprint, unique, marked, items);
  }

  lemma PreparedFacts(b: Builder, collected: seq<ContextItem>, fingerprint: Fingerprint,
                      unique: seq<ContextItem>, marked: seq<ContextItem>, items: seq<ContextItem>)
    requires IsDeduped(collected, unique) && Marks(unique, fingerprint, marked)
    requires |items| == |marked| && forall k | 0 <= k < |items| :: items[k] == Limited(b, marked[k])
    ensures IsPrepared(b, collected, fingerprint, items)
    ensures UniqueIds(items)
    ensures forall i | 0 <= i < |collected| :: HasId(items, collected[i].id)
    ensures forall k | 0 <= k < |items| :: HasId(collected, items[k].id)
  {
    hide IsBest, FirstAt, Marks, Limited;
    MarksKeepIds(unique, fingerprint, marked);
    assert |items| == |unique| && forall k | 0 <= k < |items| :: items[k].id == unique[k].id;
    forall i | 0 <= i < |collected| ensures HasId(items, collected[i].id) {
      var k :| 0 <= k < |unique| && unique[k].id == collected[i].id;
      assert items[k].id == collected[i].id;
    }
  }

  lemma MarksKeepIds(items: seq<ContextItem>, fingerprint: Fingerprint, out: seq<ContextItem>)
    requires Marks(items, fingerprint, out)
    ensures |out| == |items| && forall k | 0 <= k < |items| :: out[k].id == items[k].id
  {
    forall k | 0 <= k < |items| ensures out[k].id == items[k].id {
      assert MarkedAt(items, fingerprint, k, out[k]);
    }
  }

  /** The sum over the selected items, accumulated in item order. */
  method SelectedTokens(items: seq<ContextItem>, trace: seq<TraceEntry>) returns (tokens: nat)
    requires |trace| == |items|
    ensures tokens == Used(items, Chosen(trace))
  {
    tokens := 0;
    for i := 0 to |items|
      invariant tokens == UsedUpTo(items, Chosen(trace), i)
    {
      if trace[i].included && items[i].delivery.Message? {
        tokens := tokens + items[i].tokenEstimate;
      }
    }
  }

  /** What fitting makes of the prepared items under an item budget. */
  ghost predicate IsFitted(b: Builder, prepared: seq<ContextItem>, items: seq<ContextItem>, budget: Option<nat>) {
    && |items| == |prepared|
    && (!b.fitRequiredContext || budget.None? ==> items == prepared)
    && (b.fitRequiredContext && budget.Some? ==>
          && (forall i | 0 <= i < |items| :: Shed(b, prepared[i], items[i]))
          && ShedInOrder(b, prepared, items)
          && (items == prepared <==>
                || RequiredSum(prepared) <= budget.value
                || forall i | 0 <= i < |prepared| && prepared[i].Required() :: !CanShrink(b, prepared[i]))
          && (|| RequiredSum(items) <= budget.value
              || forall i | 0 <= i < |items| && items[i].Required() :: AtFloor(b, items[i])))
  }

  /** Fitting, where the options ask for it and there is a budget. */
  method FitItems(b: Builder, prepared: seq<ContextItem>, budget: Option<nat>) returns (items: seq<ContextItem>)
    ensures IsFitted(b, prepared, items, budget)
    ensures |items| == |prepared| && forall i | 0 <= i < |prepared| :: items[i].id == prepared[i].id
    ensures UniqueIds(prepared) ==> UniqueIds(items)
  {
    hide Shed, ShedInOrder, SoftShed, HardShed, RequiredSum, CanShrink, AtFloor, OriginalEstimate, OriginalBytes;
    hide SoftCutsAreTight, HardCutsInOrder, LastCutWasNeeded;
    items := prepared;
    if b.fitRequiredContext && budget.Some? {
      ghost var soft;
      items, soft := FitRequiredItems(b, prepared, budget.value);
      forall i | 0 <= i < |prepared| ensures items[i].id == prepared[i].id {
        ShedKeepsIdentity(b, prepared[i], items[i]);
      }
    }
  }

  /** What a pack is: prepared items, fitted, and of those the greedy choice. */
  ghost predicate IsBuilt(b: Builder, collected: seq<ContextItem>, fingerprint: Fingerprint,
                          prepared: seq<ContextItem>, pack: Pack)
  {
    && IsPrepared(b, collected, fingerprint, prepared)
    && IsFitted(b, prepared, pack.items, pack.budget.itemBudgetTokens)
    && UniqueIds(pack.items) && |pack.trace| == |pack.items|
    && pack.budget.itemBudgetTokens == (if b.tokenBudget.None? then None
         else Some(SaturatingSub(b.tokenBudget.value, pack.budget.fixedOverheadTokens)))
    && IsGreedy(pack.items, Chosen(pack.trace), pack.budget.itemBudgetTokens)
    && (pack.budget.overflowed <==>
          || RequiredDropped(pack)
          || (b.tokenBudget.Some? && pack.budget.fixedOverheadTokens > b.tokenBudget.value))
  }

  /**
   `build`, from the collected items on. With a budget, a pack that is not flagged as overflowed
   stays within it and carries every required item that is no duplicate; a pack is flagged exactly
   when the fixed part alone is over budget or some such item was dropped. If required context may be
   fitted, an item is only ever dropped when no required item could be made cheaper.
   */
  method Build(b: Builder, collected: seq<ContextItem>, fingerprint: Fingerprint,
               tools: Value, modelOptions: Value)
    returns (pack: Pack, ghost prepared: seq<ContextItem>)
    ensures IsBuilt(b, collected, fingerprint, prepared, pack)
    ensures forall i | 0 <= i < |pack.items| :: pack.trace[i] == TraceOf(pack.items[i], pack.trace[i].dropReason)
              && (pack.trace[i].included || pack.trace[i].dropReason == Some(DropReason(pack.items[i])))
    ensures forall i | 0 <= i < |collected| :: HasId(pack.items, collected[i].id)
    ensures pack.budget.fixedOverheadTokens == FixedOverhead(b, tools, modelOptions)
    ensures Utf8Size(Dumps(tools)) + Utf8Size(Dumps(modelOptions)) + 30
              <= pack.budget.fixedOverheadTokens * Max(b.bytesPerToken, 1)
    ensures pack.budget.inputLimitTokens == b.tokenBudget && pack.budget.enabled == b.tokenBudget.Some?
    ensures pack.budget.reservedOutputTokens == b.reservedOutputTokens && pack.budget.contextWindow == b.contextWindow
    ensures pack.budget.selectedItemTokens == Used(pack.items, Chosen(pack.trace))
    ensures pack.estimatedInputTokens == pack.budget.fixedOverheadTokens + pack.budget.selectedItemTokens
    ensures b.tokenBudget.Some? && !pack.budget.overflowed ==> pack.estimatedInputTokens <= b.tokenBudget.value
    ensures b.tokenBudget.Some? && RequiredDropped(pack) ==>
              RequiredSum(pack.items) > pack.budget.itemBudgetTokens.value
    ensures pack.providerItems.None? <==> b.traceOnly
    ensures !b.traceOnly ==> IsRequest(pack.items, pack.trace, pack.providerItems.value)
    ensures !b.traceOnly ==> forall i | 0 <= i < |pack.items| && pack.items[i].kind == "tool_result" ::
              |pack.items[i].content| <= Max(b.previewLimits.bytes, 1)
  {
    hide Used, RequiredSum, IsGreedy, SelectFrom, IsPrepared, IsFitted, TraceOf, AnyExhausted, IsRequest;
    hide FixedOverhead, Dumps, Utf8Size, UniqueIds, HasId, Chosen, DropReason, RequiredOriginals, Max;
    FixedOverheadCovers(b, tools, modelOptions);
    var items := Prepare(b, collected, fingerprint);
    prepared := items;
    var overhead := FixedOverhead(b, tools, modelOptions);
    var itemBudget := if b.tokenBudget.None? then None else Some(SaturatingSub(b.tokenBudget.value, overhead));
    items := FitItems(b, items, itemBudget);
    assert forall i | 0 <= i < |collected| :: HasId(items, collected[i].id) by {
      SameIdsKept(collected, prepared, items);
    }
    var trace := Project(items, itemBudget);
    var selected := SelectedTokens(items, trace);
    var overflowed := AnyExhausted(trace) || (b.tokenBudget.Some? && overhead > b.tokenBudget.value);
    if itemBudget.Some? {
      GreedyStaysInBudget(items, Chosen(trace), itemBudget.value);
    }
    pack := Pack(items, trace,
      if b.traceOnly then None else Some(SelectFrom(items, trace, true) + SelectFrom(items, trace, false)),
      overhead + selected,
      PackBudget(b.tokenBudget.Some?, b.contextWindow, b.reservedOutputTokens, b.tokenBudget, overhead,
                 itemBudget, selected, overflowed));
    SelectionIsRequest(items, trace);
    ToolResultsAreLimited(b, collected, fingerprint, prepared, items, itemBudget);
    ExhaustedMeansRequired(items, trace, itemBudget);
    if itemBudget.Some? {
      DroppedMeansOverBudget(items, Chosen(trace), itemBudget.value);
    }
  }

  lemma ToolResultsAreLimited(b: Builder, collected: seq<ContextItem>, fingerprint: Fingerprint,
                              prepared: seq<ContextItem>, items: seq<ContextItem>, budget: Option<nat>)
    requires IsPrepared(b, collected, fingerprint, prepared) && IsFitted(b, prepared, items, budget)
    ensures !b.traceOnly ==> forall i | 0 <= i < |items| && items[i].kind == "tool_result" ::
              |items[i].content| <= Max(b.previewLimits.bytes, 1)
  {
    hide IsDeduped, Marks, Limited, Shed, ShedInOrder, RequiredSum, CanShrink, AtFloor;
    var unique, marked :| IsDeduped(collected, unique) && Marks(unique, fingerprint, marked)
      && |prepared| == |marked| && forall k | 0 <= k < |prepared| :: prepared[k] == Limited(b, marked[k]);
    forall i | 0 <= i < |items| && items[i].kind == "tool_result" && !b.traceOnly
      ensures |items[i].content| <= Max(b.previewLimits.bytes, 1)
    {
      LimitedIsShort(b, marked[i]);
      if b.fitRequiredContext && budget.Some? {
        ShedKeepsIdentity(b, prepared[i], items[i]);
      }
    }
  }

  lemma LimitedIsShort(b: Builder, item: ContextItem)
    ensures Limited(b, item).kind == item.kind
    ensures !b.traceOnly && item.kind == "tool_result" ==>
      |Limited(b, item).content| <= Max(b.previewLimits.bytes, 1)
    ensures Limited(b, item).content != item.content ==>
      OriginalBytes(Limited(b, item)) == |item.content| && OriginalEstimate(Limited(b, item))
        == if item.tokenEstimate == 0 && item.delivery.Message? then EstimateItem(b, item) else item.tokenEstimate
  {
    hide Lines, PreviewContent, EstimateItem;
    PreviewKeepsIdentity(b, WithEstimate(b, item));
  }

  lemma SameIdsKept(collected: seq<ContextItem>, items: seq<ContextItem>, out: seq<ContextItem>)
    requires |out| == |items| && forall i | 0 <= i < |items| :: out[i].id == items[i].id
    requires forall i | 0 <= i < |collected| :: HasId(items, collected[i].id)
    ensures forall i | 0 <= i < |collected| :: HasId(out, collected[i].id)
  {
    forall i | 0 <= i < |collected| ensures HasId(out, collected[i].id) {
      var k :| 0 <= k < |items| && items[k].id == collected[i].id;
      assert out[k].id == collected[i].id;
    }
  }

  /** The drop reason that raises the flag is given to dropped required originals and to nothing else. */
  lemma ExhaustedMeansRequired(items: seq<ContextItem>, trace: seq<TraceEntry>, budget: Option<nat>)
    requires |trace| == |items| && IsGreedy(items, Chosen(trace), budget)
    requires forall i | 0 <= i < |items| :: trace[i] == TraceOf(items[i], trace[i].dropReason)
    requires forall i | 0 <= i < |items| :: trace[i].included || trace[i].dropReason == Some(DropReason(items[i]))
    ensures AnyExhausted(trace) <==> !(RequiredOriginals(items) <= Chosen(trace))
  {
    hide Used;
    assert |REQUIRED_BUDGET_EXHAUSTED| == 25 && |MODEL_CONTEXT_BUDGET| == 20 && |SEMANTIC_DUPLICATE| == 18;
    forall i | 0 <= i < |items| && !trace[i].included
      ensures trace[i].dropReason == Some(REQUIRED_BUDGET_EXHAUSTED) <==> i in RequiredOriginals(items)
    {
      assert i !in Chosen(trace);
      assert !Fits(items, Chosen(trace), i, budget);
    }
  }

  // ----- the model's window

  datatype BudgetConfig = BudgetConfig(
    enabled: bool,
    strategy: string,
    reserveOutputTokens: nat,
    guardRatio: real,
    inputSafetyMarginTokens: nat,
    useSafetyMarginTokens: bool,
    explicitInputSafetyMarginTokens: bool,
    bytesPerToken: nat,
    previewLimits: PreviewLimits)

  /** What loading the options guarantees about the ratio. */
  predicate ValidConfig(config: BudgetConfig) {
    0.0 < config.guardRatio <= 1.0
  }

  /** A product whose size is all that matters here. */
  function Scaled(x: real, ratio: real): (p: real)
    requires 0.0 <= x && 0.0 < ratio <= 1.0
    ensures 0.0 <= p <= x
  {
    ScaledDown(x, ratio);
    x * ratio
  }

  lemma ScaledDown(x: real, ratio: real)
    requires 0.0 <= x && 0.0 <= ratio <= 1.0
    ensures 0.0 <= x * ratio <= x
  {
    var rest := 1.0 - ratio;
    assert x * rest >= 0.0;
    assert x * ratio + x * rest == x;
  }

  /** The window times the guard ratio, truncated as the cast to an integer does. */
  function ScaledWindow(window: nat, ratio: real): (tokens: nat)
    requires 0.0 < ratio <= 1.0
    ensures tokens <= window && tokens as real <= Scaled(window as real, ratio) < tokens as real + 1.0
  {
    hide Scaled;
    Scaled(window as real, ratio).Floor
  }

  function ComputeInputLimitTokens(window: nat, config: BudgetConfig): (limit: nat)
    requires ValidConfig(config)
    ensures limit > 0 ==> limit + config.reserveOutputTokens <= window
  {
    var limit := SaturatingSub(SaturatingSub(window, config.reserveOutputTokens), config.inputSafetyMarginTokens);
    if config.useSafetyMarginTokens && (limit > 0 || config.explicitInputSafetyMarginTokens) then limit
    else SaturatingSub(ScaledWindow(window, config.guardRatio), config.reserveOutputTokens)
  }

  /** A margin that was asked for is never traded for the ratio; a default one is, when it leaves nothing. */
  lemma InputLimitCases(window: nat, config: BudgetConfig)
    requires ValidConfig(config)
    ensures var limit := ComputeInputLimitTokens(window, config);
      var reserve := config.reserveOutputTokens;
      var taken := reserve + config.inputSafetyMarginTokens;
      && (config.useSafetyMarginTokens && taken < window ==> limit + taken == window)
      && (config.useSafetyMarginTokens && window <= taken && config.explicitInputSafetyMarginTokens ==> limit == 0)
      && (!config.useSafetyMarginTokens || (window <= taken && !config.explicitInputSafetyMarginTokens) ==>
            var scaled := Scaled(window as real, config.guardRatio);
            if limit > 0 then (limit + reserve) as real <= scaled < (limit + reserve) as real + 1.0
            else scaled < reserve as real + 1.0)
  {
    hide ScaledWindow, Scaled;
    var scaled := ScaledWindow(window, config.guardRatio);
  }

  function BuildOptionsForModel(
    config: BudgetConfig, window: nat, traceOnly: bool, payload: ContextItem -> Value): Builder
    requires ValidConfig(config)
  {
    Builder(if config.enabled then Some(ComputeInputLimitTokens(window, config)) else None,
            config.bytesPerToken, config.previewLimits, traceOnly, Some(window), config.reserveOutputTokens,
            config.strategy != "error", payload)
  }

  /**
   Budget soundness end to end: the pack keeps the safety margin where the window has room for it, and
   otherwise stays within the guarded share of the window. A window that leaves no room always comes
   out overflowed, because the fixed part of a request is never free.
   */
  method BuildForModel(config: BudgetConfig, window: nat, traceOnly: bool, payload: ContextItem -> Value,
                       collected: seq<ContextItem>, fingerprint: Fingerprint,
                       tools: Value, modelOptions: Value) returns (pack: Pack, ghost prepared: seq<ContextItem>)
    requires ValidConfig(config)
    ensures IsBuilt(BuildOptionsForModel(config, window, traceOnly, payload), collected, fingerprint, prepared, pack)
    ensures config.enabled && !pack.budget.overflowed ==>
              && pack.estimatedInputTokens <= ComputeInputLimitTokens(window, config)
              && pack.estimatedInputTokens + config.reserveOutputTokens <= window
    ensures config.enabled && !pack.budget.overflowed ==>
              var taken := config.reserveOutputTokens + config.inputSafetyMarginTokens;
              if config.useSafetyMarginTokens && taken < window then pack.estimatedInputTokens + taken <= window
              else (pack.estimatedInputTokens + config.reserveOutputTokens) as real
                     <= Scaled(window as real, config.guardRatio)
    ensures config.enabled && ComputeInputLimitTokens(window, config) == 0 ==> pack.budget.overflowed
    ensures config.enabled && !pack.budget.overflowed ==>
              Utf8Size(Dumps(tools)) + Utf8Size(Dumps(modelOptions)) + 30
                <= (window - config.reserveOutputTokens - pack.budget.selectedItemTokens) * Max(config.bytesPerToken, 1)
    ensures pack.providerItems.None? <==> traceOnly
    ensures !traceOnly ==> IsRequest(pack.items, pack.trace, pack.providerItems.value)
    ensures !traceOnly ==> forall i | 0 <= i < |pack.items| && pack.items[i].kind == "tool_result" ::
              |pack.items[i].content| <= Max(config.previewLimits.bytes, 1)
    ensures config.strategy == "error" || !config.enabled ==> pack.items == prepared
    ensures pack.budget.enabled == config.enabled && pack.budget.contextWindow == Some(window)
    ensures pack.budget.reservedOutputTokens == config.reserveOutputTokens
    ensures config.enabled && pack.budget.overflowed && config.strategy != "error"
            && pack.budget.fixedOverheadTokens <= ComputeInputLimitTokens(window, config) ==>
              && RequiredSum(pack.items) + pack.budget.fixedOverheadTokens > ComputeInputLimitTokens(window, config)
              && var b := BuildOptionsForModel(config, window, traceOnly, payload);
                 forall i | 0 <= i < |pack.items| && pack.items[i].Required() :: AtFloor(b, pack.items[i])
  {
    hide Used, RequiredSum, IsGreedy, AtFloor, SelectFrom, IsPrepared, TraceOf, ComputeInputLimitTokens, Scaled;
    hide Dumps, Utf8Size, IsRequest;
    InputLimitCases(window, config);
    var b := BuildOptionsForModel(config, window, traceOnly, payload);
    pack, prepared := Build(b, collected, fingerprint, tools, modelOptions);
    if config.enabled && !pack.budget.overflowed {
      MoreTokensMoreBytes(pack.budget.fixedOverheadTokens,
                          window - config.reserveOutputTokens - pack.budget.selectedItemTokens,
                          Max(config.bytesPerToken, 1));
    }
  }

  lemma MoreTokensMoreBytes(few: nat, many: nat, perToken: nat)
    requires few <= many
    ensures few * perToken <= many * perToken
  {
    assert (many - few) * perToken >= 0;
  }

  /** A required original is only dropped when the required items as a whole exceed the budget. */
  lemma DroppedMeansOverBudget(items: seq<ContextItem>, chosen: set<nat>, budget: nat)
    requires IsGreedy(items, chosen, Some(budget))
    ensures !(RequiredOriginals(items) <= chosen) ==> RequiredSum(items) > budget
  {
    hide Used;
    RequiredAllIncludedIff(items, chosen, budget);
    OriginalsCostAtMostTheSum(items, |items|);
    assert items[..|items|] == items;
    UsedIsTotal(items, RequiredOriginals(items));
  }

  lemma UsedIsTotal(items: seq<ContextItem>, chosen: set<nat>)
    ensures Used(items, chosen) == UsedUpTo(items, chosen, |items|)
  {
  }
}
