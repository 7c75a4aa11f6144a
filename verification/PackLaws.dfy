/**
 What a whole pack guarantees beyond its budget (src/core.rs:1241-1318): where required content is lost
 in silence, and when required items are cut for nothing.
 */
module PackLaws {
  import opened Prelude
  import opened Json
  import opened Utf8Text
  import opened ContextItems
  import opened Fitting
  import opened Projection
  import opened ProjectionLaws
  import opened Deduplication
  import opened Meaning
  import opened SemanticLoss
  import opened ContextPack
  import opened Payload

  // ----- from the collected items to the pack

  lemma FittingKeepsPlaces(b: Builder, prepared: seq<ContextItem>, items: seq<ContextItem>, budget: Option<nat>, k: nat)
    requires IsFitted(b, prepared, items, budget) && k < |items|
    ensures items[k].id == prepared[k].id && items[k].pinned == prepared[k].pinned
    ensures items[k].delivery == prepared[k].delivery && items[k].IsDuplicate() == prepared[k].IsDuplicate()
  {
    hide Shed, ShedInOrder, RequiredSum, CanShrink, AtFloor, OriginalEstimate, OriginalBytes;
    if b.fitRequiredContext && budget.Some? {
      ShedKeepsIdentity(b, prepared[k], items[k]);
      SameMark(prepared[k], items[k]);
    }
  }

  lemma SameMark(x: ContextItem, y: ContextItem)
    requires SameIdentity(x, y)
    ensures x.IsDuplicate() == y.IsDuplicate()
  {
    var key := "context_semantic_duplicate_of";
    assert |key| == 29 && |"context_truncated"| == 17 && |"context_truncation_reason"| == 25;
    assert |"context_truncation_strategy"| == 27 && |"context_original_token_estimate"| == 31;
    assert |"context_original_bytes"| == 22 && |"context_retained_bytes"| == 22;
    assert key !in TRUNCATION_KEYS;
    assert key in x.metadata.Keys - TRUNCATION_KEYS <==> key in y.metadata.Keys - TRUNCATION_KEYS;
  }

  /** The items of a pack are the deduplicated items, with exactly the repeats marked. */
  lemma PackMarksRepeats(b: Builder, collected: seq<ContextItem>, fingerprint: Fingerprint,
                         prepared: seq<ContextItem>, pack: Pack) returns (unique: seq<ContextItem>)
    requires IsBuilt(b, collected, fingerprint, prepared, pack) && Unmarked(collected)
    ensures IsDeduped(collected, unique) && RepeatsMarked(unique, fingerprint, pack.items)
    ensures forall k | 0 <= k < |unique| :: pack.items[k].id == unique[k].id
  {
    hide IsGreedy, IsFitted, Marks, IsRepeat, Limited, FirstAt;
    var marked;
    unique, marked :| IsDeduped(collected, unique) && Marks(unique, fingerprint, marked) && |prepared| == |marked|
      && forall k | 0 <= k < |prepared| :: prepared[k] == Limited(b, marked[k]);
    assert Unmarked(unique) by {
      forall k | 0 <= k < |unique| ensures !unique[k].IsDuplicate() {
        assert IsBest(collected, |collected|, unique[k]);
      }
    }
    MarksMarkRepeats(unique, fingerprint, marked);
    MarksKeepIds(unique, fingerprint, marked);
    assert |pack.items| == |prepared| by { FittedLength(b, prepared, pack); }
    forall k | 0 <= k < |unique|
      ensures pack.items[k].IsDuplicate() <==> IsRepeat(unique, fingerprint, k)
      ensures pack.items[k].pinned == unique[k].pinned && pack.items[k].delivery == unique[k].delivery
      ensures pack.items[k].id == unique[k].id
    {
      FittingKeepsPlaces(b, prepared, pack.items, pack.budget.itemBudgetTokens, k);
    }
  }

  lemma FittedLength(b: Builder, prepared: seq<ContextItem>, pack: Pack)
    requires IsFitted(b, prepared, pack.items, pack.budget.itemBudgetTokens)
    ensures |pack.items| == |prepared|
  {
  }

  // ----- required content lost in silence

  /**
   A pack that is not flagged as overflowed sends no copy of some required content exactly when the
   first copy is not pinned, does not fit behind the items ranked ahead of it, and all else is in order.
   */
  lemma PackLosesInSilenceIff(b: Builder, collected: seq<ContextItem>, fingerprint: Fingerprint,
                              prepared: seq<ContextItem>, pack: Pack, unique: seq<ContextItem>, i: nat)
    requires IsBuilt(b, collected, fingerprint, prepared, pack) && b.tokenBudget.Some?
    requires RepeatsMarked(unique, fingerprint, pack.items) && OneDeliveryPerMeaning(unique, fingerprint)
    requires i < |unique| && unique[i].Required() && fingerprint(unique[i]).Some?
    ensures var w := Winner(unique, fingerprint, i);
      var budget := pack.budget.itemBudgetTokens.value;
      !pack.budget.overflowed && !SomeCopyChosen(unique, fingerprint, Chosen(pack.trace), i) <==>
        && !unique[w].pinned
        && Used(pack.items, TakenAhead(pack.items, Some(budget), w)) + pack.items[w].tokenEstimate > budget
        && Used(pack.items, RequiredOriginals(pack.items)) <= budget
        && pack.budget.fixedOverheadTokens <= b.tokenBudget.value
  {
    hide Used, Winner, IsGreedy, IsPrepared, IsFitted, TakenAhead, SomeCopyChosen, RepeatsMarked, OneDeliveryPerMeaning;
    assert |unique| == |pack.items| by { MarkedLength(unique, fingerprint, pack.items); }
    LostInSilenceIff(unique, fingerprint, pack.items, Chosen(pack.trace), pack.budget.itemBudgetTokens.value, i);
  }

  lemma MarkedLength(items: seq<ContextItem>, fingerprint: Fingerprint, out: seq<ContextItem>)
    requires RepeatsMarked(items, fingerprint, out)
    ensures |out| == |items|
  {
  }

  // ----- required items cut for nothing

  /**
   Fitting counts marked repeats, which are never sent. So it cuts although every required original
   would have been included uncut exactly when the originals fit, their sum with the repeats does not,
   and some required item can be made cheaper.
   */
  lemma CutForNothingIff(b: Builder, prepared: seq<ContextItem>, items: seq<ContextItem>, budget: nat)
    requires b.fitRequiredContext && IsFitted(b, prepared, items, Some(budget))
    ensures items != prepared && RequiredOriginals(prepared) <= Taken(prepared, Some(budget)) <==>
      && Used(prepared, RequiredOriginals(prepared)) <= budget < RequiredSum(prepared)
      && exists i | 0 <= i < |prepared| :: prepared[i].Required() && CanShrink(b, prepared[i])
  {
    hide Used, RequiredSum, CanShrink, Taken, ShedInOrder, Shed, AtFloor;
    TakenIsGreedy(prepared, Some(budget));
    RequiredAllIncludedIff(prepared, Taken(prepared, Some(budget)), budget);
  }

  /** Twice the same instructions of 4000 bytes, under two ids. */
  function LongItem(id: string): ContextItem {
    ContextItem(id, "instruction", "test", seq(4000, _ => 'x' as Byte), 100, 0, true, true, None, map[], Message)
  }

  function LongItems(): seq<ContextItem> {
    [LongItem("first"), LongItem("second")]
  }

  /** The builder estimates by the real rendering, at some usual number of bytes per token. */
  ghost predicate RendersItems(b: Builder, decode: Text -> string) {
    && 1 <= b.bytesPerToken <= 3000
    && (forall item :: b.payload(item) == RenderItem(decode, item))
    && forall t | ValidUtf8(t) :: Utf8Size(decode(t)) == |t|
  }

  lemma LongItemIsPlain(id: string, metadata: Metadata)
    requires metadata.Keys !! {"name", "tool_call_id", "role"}
    ensures IsPlain(LongItem(id).(metadata := metadata)) && ValidUtf8(LongItem(id).content)
  {
    AsciiIsValid(LongItem(id).content);
  }

  /** Cut to 96 bytes it is cheaper, whatever the rendering adds around the content. */
  lemma LongItemShrinks(b: Builder, decode: Text -> string, item: ContextItem)
    requires RendersItems(b, decode)
    requires item == LongItem("first").(tokenEstimate := EstimateItem(b, LongItem("first")))
    ensures CanShrink(b, item)
  {
    hide TruncateContent, TruncationStrategy, SoftMinimum, ValidUtf8, IsPlain, Dumps, RenderItem;
    var full := LongItem("first");
    LongItemIsPlain("first", map[]);
    assert full.(metadata := map[]) == full;
    PlainSize(decode, full);
    var cut := TruncateRequired(b, item, HARD_MINIMUM_BYTES);
    TruncateRequiredFacts(b, item, HARD_MINIMUM_BYTES);
    TruncateRequiredIsValid(b, item, HARD_MINIMUM_BYTES);
    CutIsPlain(b, item);
    PlainSize(decode, cut);
    CutEstimateOf(b, item);
    Cheaper(b, decode, full, cut);
    assert CutEstimate(b, item, HARD_MINIMUM_BYTES) < item.tokenEstimate;
  }

  lemma CutIsPlain(b: Builder, item: ContextItem)
    requires item.metadata == map[] && |item.content| > HARD_MINIMUM_BYTES
    ensures IsPlain(TruncateRequired(b, item, HARD_MINIMUM_BYTES))
  {
    hide TruncateContent, TruncationStrategy, EstimateItem;
    var keys := TRUNCATION_KEYS;
    assert |"name"| == 4 && |"role"| == 4 && |"tool_call_id"| == 12;
    assert |"context_truncated"| == 17 && |"context_truncation_reason"| == 25 && |"context_truncation_strategy"| == 27;
    assert |"context_original_token_estimate"| == 31 && |"context_original_bytes"| == 22;
    assert |"context_retained_bytes"| == 22;
  }

  /** The estimate of a cut is that of the cut item; estimates do not look at the estimate field. */
  lemma CutEstimateOf(b: Builder, item: ContextItem)
    requires exists decode :: RendersItems(b, decode)
    requires |item.content| > HARD_MINIMUM_BYTES
    ensures var cut := TruncateRequired(b, item, HARD_MINIMUM_BYTES); cut.tokenEstimate == EstimateItem(b, cut)
  {
    hide TruncateContent, TruncationStrategy, EstimateSerializedTokens, ValidUtf8;
    var decode :| RendersItems(b, decode);
    var cut := TruncateRequired(b, item, HARD_MINIMUM_BYTES);
    forall x: ContextItem, n: nat ensures b.payload(x.(tokenEstimate := n)) == b.payload(x) {
      SameRendering(decode, x, x.(tokenEstimate := n));
    }
  }

  lemma SameRendering(decode: Text -> string, x: ContextItem, y: ContextItem)
    requires x.content == y.content && x.kind == y.kind
    requires forall key | key in {"role", "name", "tool_call_id", "message_metadata"} ::
      (key in x.metadata <==> key in y.metadata) && (key in x.metadata ==> x.metadata[key] == y.metadata[key])
    ensures RenderItem(decode, x) == RenderItem(decode, y)
  {
  }

  lemma Cheaper(b: Builder, decode: Text -> string, full: ContextItem, cut: ContextItem)
    requires RendersItems(b, decode) && |cut.content| <= HARD_MINIMUM_BYTES && |full.content| == 4000
    requires |full.content| <= Utf8Size(Dumps(RenderItem(decode, full)))
    requires Utf8Size(Dumps(RenderItem(decode, cut))) <= 6 * |cut.content| + RENDERING_OVERHEAD
    ensures EstimateItem(b, cut) < EstimateItem(b, full)
  {
    hide Dumps, Utf8Size, RenderItem, ValidUtf8, EstimateSerializedTokens;
    FewerTokens(EstimateItem(b, cut), EstimateItem(b, full), b.bytesPerToken);
  }

  lemma FewerTokens(few: nat, many: nat, per: nat)
    requires (few - 1) * per < 776 && 4000 <= many * per && per <= 3000
    ensures few < many
  {
    assert few * per == (few - 1) * per + per < 4000;
    assert (many - few) * per == many * per - few * per > 0;
  }

  /** What is budgeted of the two: the second is marked as the repeat of the first, at the same estimate. */
  function LongPrepared(b: Builder, meaning: string): seq<ContextItem> {
    var tokens := EstimateItem(b, LongItem("first"));
    [LongItem("first").(tokenEstimate := tokens),
     MarkDuplicate(LongItem("second"), "first", meaning).(tokenEstimate := tokens)]
  }

  lemma LongItemsPrepared(b: Builder, decode: Text -> string, reading: Reading, meaning: string,
                          prepared: seq<ContextItem>)
    requires RendersItems(b, decode) && SemanticFingerprint(reading, LongItem("first")) == Some(meaning)
    requires IsPrepared(b, LongItems(), item => SemanticFingerprint(reading, item), prepared)
    ensures prepared == LongPrepared(b, meaning)
  {
    hide IsDeduped, EstimateItem, RendersItems, UniqueIds, Limited, Marks, SemanticFingerprint, LongItem, MarkDuplicate;
    var items, fingerprint := LongItems(), item => SemanticFingerprint(reading, item);
    var unique, marked :| IsDeduped(items, unique) && Marks(unique, fingerprint, marked) && |prepared| == |marked|
      && forall k | 0 <= k < |prepared| :: prepared[k] == Limited(b, marked[k]);
    LongItemsHaveIds();
    UniqueItemsStay(items, unique);
    LongItemsMarked(reading, meaning, marked);
    assert |prepared| == 2 && prepared[0] == Limited(b, marked[0]) && prepared[1] == Limited(b, marked[1]);
    LongItemsLimited(b, decode, meaning);
  }

  lemma LongItemsHaveIds()
    ensures UniqueIds(LongItems())
  {
    assert LongItems()[0].id != LongItems()[1].id by { assert "first"[0] != "second"[0]; }
  }

  lemma LongItemsLimited(b: Builder, decode: Text -> string, meaning: string)
    requires RendersItems(b, decode)
    ensures Limited(b, LongItem("first")) == LongPrepared(b, meaning)[0]
    ensures Limited(b, MarkDuplicate(LongItem("second"), "first", meaning)) == LongPrepared(b, meaning)[1]
  {
    hide EstimateItem, RenderItem, ValidUtf8, Limited;
    MarkCostsNothing(b, decode, meaning);
    LimitedLong(b, LongItem("first"));
    LimitedLong(b, MarkDuplicate(LongItem("second"), "first", meaning));
  }

  lemma LimitedLong(b: Builder, item: ContextItem)
    requires item.kind == "instruction" && item.tokenEstimate == 0 && item.delivery.Message?
    ensures Limited(b, item) == item.(tokenEstimate := EstimateItem(b, item))
  {
    hide Limited, EstimateItem;
    assert item.kind != "tool_result" by { assert |item.kind| == 11; }
  }

  lemma LongItemsMarked(reading: Reading, meaning: string, marked: seq<ContextItem>)
    requires SemanticFingerprint(reading, LongItem("first")) == Some(meaning)
    requires Marks(LongItems(), item => SemanticFingerprint(reading, item), marked)
    ensures marked == [LongItem("first"), MarkDuplicate(LongItem("second"), "first", meaning)]
  {
    hide Dumps, MarkDuplicate;
    var items, fingerprint := LongItems(), item => SemanticFingerprint(reading, item);
    assert MeaningValue(reading, items[0]) == MeaningValue(reading, items[1]);
    assert fingerprint(items[0]) == fingerprint(items[1]) == Some(meaning);
    assert IsRepeat(items, fingerprint, 1) && !IsRepeat(items, fingerprint, 0);
    assert Winner(items, fingerprint, 1) == 0;
    assert MarkedAt(items, fingerprint, 0, marked[0]) && MarkedAt(items, fingerprint, 1, marked[1]);
  }

  lemma LongItemHasMeaning(reading: Reading)
    requires reading.normalize(LongItem("first").content) != ""
    ensures SemanticFingerprint(reading, LongItem("first")).Some?
  {
    hide Dumps;
  }

  lemma MarkCostsNothing(b: Builder, decode: Text -> string, meaning: string)
    requires RendersItems(b, decode)
    ensures EstimateItem(b, MarkDuplicate(LongItem("second"), "first", meaning)) == EstimateItem(b, LongItem("first"))
  {
    hide ValidUtf8, RenderItem;
    assert |"context_semantic_duplicate_of"| == 29 && |"context_semantic_fingerprint"| == 28;
    assert |"name"| == 4 && |"role"| == 4 && |"tool_call_id"| == 12 && |"message_metadata"| == 16;
    SameRendering(decode, MarkDuplicate(LongItem("second"), "first", meaning), LongItem("first"));
  }

  /**
   Such a case, with the real rendering: an item budget that one copy of the instructions fits. The only
   copy that is sent would fit uncut, and yet the pack has it cut.
   */
  lemma CutForNothing(b: Builder, decode: Text -> string, reading: Reading, prepared: seq<ContextItem>, pack: Pack)
    requires RendersItems(b, decode) && reading.normalize(LongItem("first").content) != ""
    requires b.fitRequiredContext && IsBuilt(b, LongItems(), item => SemanticFingerprint(reading, item), prepared, pack)
    requires pack.budget.itemBudgetTokens == Some(EstimateItem(b, LongItem("first")))
    ensures pack.items != prepared && RequiredOriginals(prepared) <= Taken(prepared, pack.budget.itemBudgetTokens)
  {
    hide IsPrepared, Shed, ShedInOrder, AtFloor, Taken, EstimateItem, CanShrink, IsGreedy, ValidUtf8, RenderItem;
    var tokens := EstimateItem(b, LongItem("first"));
    LongItemHasMeaning(reading);
    var meaning := SemanticFingerprint(reading, LongItem("first")).value;
    LongItemsPrepared(b, decode, reading, meaning, prepared);
    LongSums(b, meaning);
    LongItemShrinks(b, decode, prepared[0]);
    assert prepared[0].Required() && CanShrink(b, prepared[0]);
    CutForNothingIff(b, prepared, pack.items, tokens);
  }

  lemma LongSums(b: Builder, meaning: string)
    ensures var prepared, tokens := LongPrepared(b, meaning), EstimateItem(b, LongItem("first"));
      && RequiredOriginals(prepared) == {0} && Used(prepared, {0}) == tokens && RequiredSum(prepared) == 2 * tokens
      && tokens >= 1
  {
    hide EstimateItem, LongItem;
    var prepared := LongPrepared(b, meaning);
    LongAreRequired(b, meaning);
    UsedStep(prepared, {}, 0);
    NothingUsed(prepared, 2);
    assert {} + {0} == {0 as nat};
    assert RequiredSum(prepared[1..][1..]) == 0;
    assert RequiredSum(prepared[1..]) == prepared[1].tokenEstimate;
  }

  lemma LongAreRequired(b: Builder, meaning: string)
    ensures var prepared := LongPrepared(b, meaning);
      prepared[0].Required() && prepared[1].Required() && !prepared[0].IsDuplicate() && prepared[1].IsDuplicate()
  {
    hide EstimateItem;
    var prepared := LongPrepared(b, meaning);
    assert |"context_semantic_duplicate_of"| == 29 && |"context_semantic_fingerprint"| == 28;
    assert prepared[1].metadata["context_semantic_duplicate_of"] == Str("first");
  }
}
