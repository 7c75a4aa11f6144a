/**
 What a token estimate is worth in bytes (src/core.rs:584-604, 1241-1318): the included items and the fixed
 part of a request, as they are printed, take no more bytes than the tokens of the estimate stand for, so a
 pack that is not overflowed fits the model's window in bytes as well.
 */
module RequestSize {
  import opened Json
  import opened Utf8Text
  import opened ContextItems
  import opened ToolPreview
  import opened Fitting
  import opened Projection
  import opened Deduplication
  import opened ContextPack
  import opened Payload
  import opened PackLaws

  /** The builder prices items by the message they become. */
  ghost predicate Renders(b: Builder, decode: Text -> string) {
    forall item :: b.payload(item) == RenderItem(decode, item)
  }

  function PrintedBytes(b: Builder, item: ContextItem): nat {
    Utf8Size(Dumps(b.payload(item)))
  }

  /** The estimate covers what the item is printed to. */
  predicate IsPriced(b: Builder, item: ContextItem) {
    item.delivery.Message? ==> PrintedBytes(b, item) <= item.tokenEstimate * Max(b.bytesPerToken, 1)
  }

  /** An item comes with a fair estimate or with none. */
  predicate IsUnpricedOrFair(b: Builder, item: ContextItem) {
    item.tokenEstimate == 0 || IsPriced(b, item)
  }

  /** What the chosen messages among the first `n` items are printed to. */
  ghost function BytesUpTo(b: Builder, items: seq<ContextItem>, chosen: set<nat>, n: nat): nat
    requires n <= |items|
  {
    if n == 0 then 0
    else BytesUpTo(b, items, chosen, n - 1)
         + if n - 1 in chosen && items[n - 1].delivery.Message? then PrintedBytes(b, items[n - 1]) else 0
  }

  // ----- every way to an estimate is fair

  lemma EstimateIsFair(b: Builder, decode: Text -> string, item: ContextItem)
    requires Renders(b, decode)
    ensures IsPriced(b, item.(tokenEstimate := EstimateItem(b, item)))
  {
    hide Dumps, Utf8Size, RenderItem;
    SameRendering(decode, item, item.(tokenEstimate := EstimateItem(b, item)));
  }

  lemma CutIsFair(b: Builder, decode: Text -> string, item: ContextItem, maxBytes: nat)
    requires Renders(b, decode) && IsPriced(b, item)
    ensures IsPriced(b, TruncateRequired(b, item, maxBytes))
  {
    hide IsPriced, EstimateItem, TruncateContent, TruncationStrategy, RenderItem;
    TruncateRequiredFacts(b, item, maxBytes);
    var cut := TruncateRequired(b, item, maxBytes);
    if cut != item {
      EstimateIsFair(b, decode, cut.(tokenEstimate := item.tokenEstimate));
    }
  }

  lemma PreviewIsFair(b: Builder, decode: Text -> string, item: ContextItem)
    requires Renders(b, decode) && IsPriced(b, item)
    ensures IsPriced(b, LimitToolResult(b, item))
  {
    hide IsPriced, EstimateItem, PreviewContent, Lines, IsWithin, RenderItem;
    var limited := LimitToolResult(b, item);
    if limited != item {
      EstimateIsFair(b, decode, limited.(tokenEstimate := item.tokenEstimate));
    }
  }

  lemma LimitedIsFair(b: Builder, decode: Text -> string, item: ContextItem)
    requires Renders(b, decode) && IsUnpricedOrFair(b, item)
    ensures IsPriced(b, Limited(b, item))
  {
    hide PrintedBytes, EstimateItem, LimitToolResult, RenderItem;
    EstimateIsFair(b, decode, item);
    PreviewIsFair(b, decode, WithEstimate(b, item));
  }

  lemma MarkIsFair(b: Builder, decode: Text -> string, item: ContextItem, winner: string, meaning: string)
    requires Renders(b, decode) && IsUnpricedOrFair(b, item)
    ensures IsUnpricedOrFair(b, MarkDuplicate(item, winner, meaning))
  {
    hide Dumps, Utf8Size, RenderItem;
    assert |"context_semantic_duplicate_of"| == 29 && |"context_semantic_fingerprint"| == 28;
    assert |"name"| == 4 && |"role"| == 4 && |"tool_call_id"| == 12 && |"message_metadata"| == 16;
    SameRendering(decode, MarkDuplicate(item, winner, meaning), item);
  }

  lemma ShedIsFair(b: Builder, decode: Text -> string, before: ContextItem, after: ContextItem)
    requires Renders(b, decode) && IsPriced(b, before) && Shed(b, before, after)
    ensures IsPriced(b, after)
  {
    hide IsPriced, TruncateRequired, RenderItem;
    var mid :| SoftShed(b, before, mid) && HardShed(b, mid, after);
    if mid != before {
      var n :| MinimumBytes(before) <= n < |before.content| && mid == TruncateRequired(b, before, n);
      CutIsFair(b, decode, before, n);
    }
    if after != mid {
      CutIsFair(b, decode, mid, HARD_MINIMUM_BYTES);
    }
  }

  lemma PreparedAreFair(b: Builder, decode: Text -> string, collected: seq<ContextItem>, fingerprint: Fingerprint,
                        prepared: seq<ContextItem>)
    requires Renders(b, decode) && IsPrepared(b, collected, fingerprint, prepared)
    requires forall i | 0 <= i < |collected| :: IsUnpricedOrFair(b, collected[i])
    ensures forall k | 0 <= k < |prepared| :: IsPriced(b, prepared[k])
  {
    hide IsPriced, IsUnpricedOrFair, Limited, IsRepeat, FirstAt, BestAt, Renders, Winner, MarkDuplicate;
    var unique: seq<ContextItem>, marked: seq<ContextItem> :|
      && IsDeduped(collected, unique) && Marks(unique, fingerprint, marked) && |prepared| == |marked|
      && forall k | 0 <= k < |prepared| :: prepared[k] == Limited(b, marked[k]);
    forall k | 0 <= k < |prepared| ensures IsPriced(b, prepared[k]) {
      assert IsBest(collected, |collected|, unique[k]) && MarkedAt(unique, fingerprint, k, marked[k]);
      if IsRepeat(unique, fingerprint, k) {
        RepeatHasMeaning(unique, fingerprint, k);
        MarkIsFair(b, decode, unique[k], unique[Winner(unique, fingerprint, k)].id, fingerprint(unique[k]).value);
      }
      LimitedIsFair(b, decode, marked[k]);
    }
  }

  lemma RepeatHasMeaning(items: seq<ContextItem>, fingerprint: Fingerprint, k: nat)
    requires k < |items| && IsRepeat(items, fingerprint, k)
    ensures fingerprint(items[k]).Some?
  {
  }

  lemma PackIsFair(b: Builder, decode: Text -> string, collected: seq<ContextItem>, fingerprint: Fingerprint,
                   prepared: seq<ContextItem>, pack: Pack)
    requires Renders(b, decode) && IsBuilt(b, collected, fingerprint, prepared, pack)
    requires forall i | 0 <= i < |collected| :: IsUnpricedOrFair(b, collected[i])
    ensures forall k | 0 <= k < |pack.items| :: IsPriced(b, pack.items[k])
  {
    hide IsPriced, IsUnpricedOrFair, IsPrepared, Shed, ShedInOrder, RequiredSum, CanShrink, AtFloor, IsGreedy, Renders;
    PreparedAreFair(b, decode, collected, fingerprint, prepared);
    forall k | 0 <= k < |pack.items| ensures IsPriced(b, pack.items[k]) {
      if b.fitRequiredContext && pack.budget.itemBudgetTokens.Some? {
        ShedIsFair(b, decode, prepared[k], pack.items[k]);
      }
    }
  }

  lemma {:induction false} TokensCoverBytes(b: Builder, items: seq<ContextItem>, chosen: set<nat>, n: nat)
    requires n <= |items| && forall k | 0 <= k < |items| :: IsPriced(b, items[k])
    ensures BytesUpTo(b, items, chosen, n) <= UsedUpTo(items, chosen, n) * Max(b.bytesPerToken, 1)
  {
    hide PrintedBytes, Max;
    if n == 0 {
    } else {
      TokensCoverBytes(b, items, chosen, n - 1);
      var last, per := items[n - 1], Max(b.bytesPerToken, 1);
      assert IsPriced(b, last);
      var used := UsedUpTo(items, chosen, n - 1);
      assert (used + last.tokenEstimate) * per == used * per + last.tokenEstimate * per;
    }
  }

  // ----- the whole request

  /** The printed tools, options and included messages take no more bytes than the estimated tokens stand for. */
  lemma EstimateCoversRequest(b: Builder, decode: Text -> string, collected: seq<ContextItem>,
                              fingerprint: Fingerprint, prepared: seq<ContextItem>, pack: Pack,
                              tools: Value, modelOptions: Value)
    requires Renders(b, decode) && IsBuilt(b, collected, fingerprint, prepared, pack)
    requires forall i | 0 <= i < |collected| :: IsUnpricedOrFair(b, collected[i])
    requires pack.budget.fixedOverheadTokens == FixedOverhead(b, tools, modelOptions)
    requires pack.estimatedInputTokens == pack.budget.fixedOverheadTokens + Used(pack.items, Chosen(pack.trace))
    ensures Utf8Size(Dumps(tools)) + Utf8Size(Dumps(modelOptions)) + 30
              + BytesUpTo(b, pack.items, Chosen(pack.trace), |pack.items|)
              <= pack.estimatedInputTokens * Max(b.bytesPerToken, 1)
  {
    hide IsPriced, IsUnpricedOrFair, IsBuilt, Renders, Dumps, Utf8Size, FixedOverhead, BytesUpTo, Max;
    PackIsFair(b, decode, collected, fingerprint, prepared, pack);
    TokensCoverBytes(b, pack.items, Chosen(pack.trace), |pack.items|);
    FixedOverheadCovers(b, tools, modelOptions);
    TokensAdd(pack.budget.fixedOverheadTokens, Used(pack.items, Chosen(pack.trace)), Max(b.bytesPerToken, 1),
              FixedBytes(tools, modelOptions), BytesUpTo(b, pack.items, Chosen(pack.trace), |pack.items|));
  }

  lemma TokensAdd(x: nat, y: nat, perToken: nat, m: nat, n: nat)
    requires m <= x * perToken && n <= y * perToken
    ensures m + n <= (x + y) * perToken
  {
    assert (x + y) * perToken == x * perToken + y * perToken;
  }

  /** So a pack for a model that is not overflowed fits the window, in bytes, beside the reserved output. */
  lemma RequestFitsWindow(config: BudgetConfig, window: nat, traceOnly: bool, payload: ContextItem -> Value,
                          decode: Text -> string, collected: seq<ContextItem>, fingerprint: Fingerprint,
                          prepared: seq<ContextItem>, pack: Pack, tools: Value, modelOptions: Value)
    requires ValidConfig(config) && config.enabled && !pack.budget.overflowed
    requires var b := BuildOptionsForModel(config, window, traceOnly, payload);
      && Renders(b, decode) && IsBuilt(b, collected, fingerprint, prepared, pack)
      && (forall i | 0 <= i < |collected| :: IsUnpricedOrFair(b, collected[i]))
      && pack.budget.fixedOverheadTokens == FixedOverhead(b, tools, modelOptions)
    requires pack.estimatedInputTokens == pack.budget.fixedOverheadTokens + Used(pack.items, Chosen(pack.trace))
    requires pack.estimatedInputTokens + config.reserveOutputTokens <= window
    ensures var b := BuildOptionsForModel(config, window, traceOnly, payload);
      Utf8Size(Dumps(tools)) + Utf8Size(Dumps(modelOptions)) + 30
        + BytesUpTo(b, pack.items, Chosen(pack.trace), |pack.items|)
        <= (window - config.reserveOutputTokens) * Max(config.bytesPerToken, 1)
  {
    hide IsBuilt, IsUnpricedOrFair, Renders, Dumps, Utf8Size, FixedOverhead, BytesUpTo, Used;
    var b := BuildOptionsForModel(config, window, traceOnly, payload);
    EstimateCoversRequest(b, decode, collected, fingerprint, prepared, pack, tools, modelOptions);
    MoreTokensMoreBytes(pack.estimatedInputTokens, window - config.reserveOutputTokens, Max(config.bytesPerToken, 1));
  }
}
