/**
 What semantic deduplication can lose (src/core.rs:1681-1706 with 1493-1519): of the copies of one
 meaning only the first can be sent, whatever its rank, and only dropped required originals raise the
 overflow flag.
 */
module SemanticLoss {
  import opened Prelude
  import opened Json
  import opened Utf8Text
  import opened ContextItems
  import opened Projection
  import opened ProjectionLaws
  import opened Deduplication
  import opened Meaning

  /** Exactly the repeats are marked, and nothing that decides about projection has changed. */
  ghost predicate RepeatsMarked(items: seq<ContextItem>, fingerprint: Fingerprint, out: seq<ContextItem>) {
    && |out| == |items|
    && forall i | 0 <= i < |items| ::
         && (out[i].IsDuplicate() <==> IsRepeat(items, fingerprint, i))
         && out[i].pinned == items[i].pinned && out[i].delivery == items[i].delivery
  }

  ghost predicate Unmarked(items: seq<ContextItem>) {
    forall i | 0 <= i < |items| :: !items[i].IsDuplicate()
  }

  lemma MarksMarkRepeats(items: seq<ContextItem>, fingerprint: Fingerprint, out: seq<ContextItem>)
    requires Marks(items, fingerprint, out) && Unmarked(items)
    ensures RepeatsMarked(items, fingerprint, out)
  {
    hide Winner, IsRepeat;
    forall i | 0 <= i < |items|
      ensures out[i].IsDuplicate() <==> IsRepeat(items, fingerprint, i)
      ensures out[i].pinned == items[i].pinned && out[i].delivery == items[i].delivery
    {
      assert MarkedAt(items, fingerprint, i, out[i]);
    }
  }

  lemma OnlyTheWinnerIsNoRepeat(items: seq<ContextItem>, fingerprint: Fingerprint, i: nat)
    requires i < |items| && fingerprint(items[i]).Some?
    ensures IsRepeat(items, fingerprint, i) <==> Winner(items, fingerprint, i) != i
    ensures !IsRepeat(items, fingerprint, Winner(items, fingerprint, i))
  {
  }

  /** Some copy of the meaning of item `i` is chosen. */
  ghost predicate SomeCopyChosen(items: seq<ContextItem>, fingerprint: Fingerprint, chosen: set<nat>, i: nat)
    requires i < |items|
  {
    exists j | 0 <= j < |items| && fingerprint(items[j]) == fingerprint(items[i]) :: j in chosen
  }

  /** A copy is sent exactly when the first one is taken, which the items ranked ahead of the first decide. */
  lemma MeaningSurvivesIffFirstCopyDoes(items: seq<ContextItem>, fingerprint: Fingerprint, out: seq<ContextItem>,
                                        chosen: set<nat>, budget: Option<nat>, i: nat)
    requires RepeatsMarked(items, fingerprint, out) && IsGreedy(out, chosen, budget)
    requires i < |items| && fingerprint(items[i]).Some?
    ensures SomeCopyChosen(items, fingerprint, chosen, i) <==> Takes(out, budget, Winner(items, fingerprint, i))
  {
    hide Winner, IsRepeat, IsGreedy;
    var w := Winner(items, fingerprint, i);
    GreedyIsTaken(out, chosen, budget);
    forall j | 0 <= j < |items| && fingerprint(items[j]) == fingerprint(items[i]) && j in chosen ensures j == w {
      OnlyTheWinnerIsNoRepeat(items, fingerprint, j);
      OneWinner(items, fingerprint, i, j);
      assert Takes(out, budget, j);
    }
    if w in chosen {
      assert SomeCopyChosen(items, fingerprint, chosen, i);
    }
  }

  lemma OneWinner(items: seq<ContextItem>, fingerprint: Fingerprint, i: nat, j: nat)
    requires i < |items| && j < |items| && fingerprint(items[i]) == fingerprint(items[j])
    ensures Winner(items, fingerprint, i) == Winner(items, fingerprint, j)
  {
  }

  /** Items that mean the same are delivered the same way. */
  ghost predicate OneDeliveryPerMeaning(items: seq<ContextItem>, fingerprint: Fingerprint) {
    forall i, j | 0 <= i < |items| && 0 <= j < |items| && fingerprint(items[i]).Some? &&
                  fingerprint(items[i]) == fingerprint(items[j]) :: items[i].delivery == items[j].delivery
  }

  lemma FingerprintsKeepDeliveriesApart(items: seq<ContextItem>, reading: Reading)
    requires forall i, j | 0 <= i < |items| && 0 <= j < |items| :: ToldApart(reading, items[i], items[j])
    ensures OneDeliveryPerMeaning(items, item => SemanticFingerprint(reading, item))
  {
    hide SemanticFingerprint, ToldApart;
    forall i, j | 0 <= i < |items| && 0 <= j < |items| && SemanticFingerprint(reading, items[i]).Some? &&
                  SemanticFingerprint(reading, items[i]) == SemanticFingerprint(reading, items[j])
      ensures items[i].delivery == items[j].delivery
    {
      SameMeaningIff(reading, items[i], items[j]);
    }
  }

  /**
   When required content disappears in silence: no copy of it is sent and yet every required original
   is. This happens exactly when the first copy is not pinned, does not fit into what the items ranked
   ahead of it leave, and the required originals fit the budget together.
   */
  lemma LostInSilenceIff(items: seq<ContextItem>, fingerprint: Fingerprint, out: seq<ContextItem>,
                         chosen: set<nat>, budget: nat, i: nat)
    requires RepeatsMarked(items, fingerprint, out) && OneDeliveryPerMeaning(items, fingerprint)
    requires IsGreedy(out, chosen, Some(budget))
    requires i < |items| && items[i].Required() && fingerprint(items[i]).Some?
    ensures var w := Winner(items, fingerprint, i);
      RequiredOriginals(out) <= chosen && !SomeCopyChosen(items, fingerprint, chosen, i) <==>
        && !items[w].pinned
        && Used(out, TakenAhead(out, Some(budget), w)) + out[w].tokenEstimate > budget
        && Used(out, RequiredOriginals(out)) <= budget
  {
    hide Used, Winner, IsRepeat, IsGreedy, TakenAhead, SomeCopyChosen;
    var w := Winner(items, fingerprint, i);
    MeaningSurvivesIffFirstCopyDoes(items, fingerprint, out, chosen, Some(budget), i);
    RequiredAllIncludedIff(out, chosen, budget);
    OnlyTheWinnerIsNoRepeat(items, fingerprint, i);
    GreedyIsTaken(out, chosen, Some(budget));
    assert items[w].delivery.Message?;
    assert Takes(out, Some(budget), w) <==>
      Used(out, TakenAhead(out, Some(budget), w)) + out[w].tokenEstimate <= budget;
    assert items[w].pinned ==> w in RequiredOriginals(out);
  }

  function Copy(id: string, pinned: bool, tokens: nat): ContextItem {
    ContextItem(id, "instruction", "test", ['x' as Byte], 100, tokens, pinned, true, None, map[], Message)
  }

  /**
   One copy always survives the budget: false. Here a pinned copy that would fit is marked as the
   duplicate of an unpinned one that does not, nothing is included, and no required item counts as lost.
   */
  lemma PinnedCopyCanBeLost(reading: Reading)
    requires reading.normalize(['x' as Byte]) == "x"
    ensures var items := [Copy("large", false, 11), Copy("small", true, 10)];
      var fingerprint := item => SemanticFingerprint(reading, item);
      && fingerprint(items[0]).Some? && fingerprint(items[1]) == fingerprint(items[0])
      && var out := [items[0], MarkDuplicate(items[1], "large", fingerprint(items[0]).value)];
         && Marks(items, fingerprint, out)
         && items[1].Required() && items[1].tokenEstimate <= 10
         && IsGreedy(out, {}, Some(10)) && RequiredOriginals(out) == {}
  {
    hide Dumps;
    var items := [Copy("large", false, 11), Copy("small", true, 10)];
    var fingerprint := item => SemanticFingerprint(reading, item);
    assert MeaningValue(reading, items[0]) == MeaningValue(reading, items[1]);
    var meaning := fingerprint(items[0]).value;
    var out := [items[0], MarkDuplicate(items[1], "large", meaning)];
    assert fingerprint(items[0]) == fingerprint(items[1]);
    assert IsRepeat(items, fingerprint, 1) && !IsRepeat(items, fingerprint, 0);
    assert Winner(items, fingerprint, 1) == 0;
    assert out[1].metadata["context_semantic_duplicate_of"] == Str("large");
    assert AheadIn(out, {}, 0) == {};
    NothingUsed(out, 2);
  }
}
