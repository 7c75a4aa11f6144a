/**
 Which items go into the request (src/core.rs:1472-1579): walk the items by rank, required ones
 first, and take each that still fits. `IsGreedy` says what is taken without mentioning the walk.
 */
module Projection {
  import opened Prelude
  import opened Sorting
  import opened ContextItems

  datatype TraceEntry = TraceEntry(
    itemId: string,
    kind: string,
    source: string,
    priority: int,
    pinned: bool,
    stablePrefix: bool,
    tokenEstimate: nat,
    included: bool,
    dropReason: Option<string>,
    delivery: Delivery,
    truncated: bool,
    originalTokenEstimate: Option<nat>,
    semanticDuplicateOf: Option<string>)

  function TraceOf(item: ContextItem, dropReason: Option<string>): TraceEntry {
    var truncated := item.MetaBool("context_truncated").GetOr(false);
    TraceEntry(item.id, item.kind, item.source, item.priority, item.pinned, item.stablePrefix,
               item.tokenEstimate, dropReason.None?, dropReason, item.delivery, truncated,
               if truncated then Some(OriginalEstimate(item)) else None,
               item.MetaStr("context_semantic_duplicate_of"))
  }

  const SEMANTIC_DUPLICATE: string := "semantic_duplicate"
  const REQUIRED_BUDGET_EXHAUSTED: string := "required_budget_exhausted"
  const MODEL_CONTEXT_BUDGET: string := "model_context_budget"
  const NOT_SELECTED: string := "not_selected"

  function DropReason(item: ContextItem): string {
    if item.IsDuplicate() then SEMANTIC_DUPLICATE
    else if item.pinned then REQUIRED_BUDGET_EXHAUSTED
    else MODEL_CONTEXT_BUDGET
  }

  ghost predicate UniqueIds(items: seq<ContextItem>) {
    forall i, j | 0 <= i < j < |items| :: items[i].id != items[j].id
  }

  // ----- what a choice costs

  function Cost(item: ContextItem): nat {
    if item.delivery.Message? then item.tokenEstimate else 0
  }

  /** The message tokens of the chosen items. */
  ghost function Used(items: seq<ContextItem>, chosen: set<nat>): nat {
    UsedUpTo(items, chosen, |items|)
  }

  ghost function UsedUpTo(items: seq<ContextItem>, chosen: set<nat>, n: nat): nat
    requires n <= |items|
  {
    if n == 0 then 0 else UsedUpTo(items, chosen, n - 1) + if n - 1 in chosen then Cost(items[n - 1]) else 0
  }

  lemma {:induction false} UsedGrows(items: seq<ContextItem>, chosen: set<nat>, i: nat, n: nat)
    requires n <= |items| && i < |items| && i !in chosen
    ensures UsedUpTo(items, chosen + {i}, n) == UsedUpTo(items, chosen, n) + if i < n then Cost(items[i]) else 0
  {
    if n == 0 {
    } else {
      UsedGrows(items, chosen, i, n - 1);
    }
  }

  lemma {:induction false} UsedMonotone(items: seq<ContextItem>, a: set<nat>, b: set<nat>, n: nat)
    requires n <= |items|
    requires forall i | 0 <= i < n && i in a && items[i].delivery.Message? :: i in b
    ensures UsedUpTo(items, a, n) <= UsedUpTo(items, b, n)
  {
    if n == 0 {
    } else {
      UsedMonotone(items, a, b, n - 1);
    }
  }

  // ----- the greedy choice

  function ProjectionKey(items: seq<ContextItem>, i: nat): RankKey
    requires i < |items|
  {
    RankKey(if items[i].pinned then 0 else 1, -items[i].priority, i)
  }

  /** `j` is considered before `i`: pinned first, then by falling priority, then by position. */
  predicate Ahead(items: seq<ContextItem>, j: nat, i: nat)
    requires j < |items| && i < |items|
  {
    RankBefore(ProjectionKey(items, j), ProjectionKey(items, i))
  }

  ghost function AheadIn(items: seq<ContextItem>, chosen: set<nat>, i: nat): set<nat>
    requires i < |items|
  {
    set j | j in chosen && j < |items| && Ahead(items, j, i)
  }

  ghost predicate Fits(items: seq<ContextItem>, chosen: set<nat>, i: nat, budget: Option<nat>)
    requires i < |items|
  {
    && !items[i].IsDuplicate()
    && (!items[i].delivery.Message? || budget.None? ||
        Used(items, AheadIn(items, chosen, i)) + items[i].tokenEstimate <= budget.value)
  }

  /** An item is chosen exactly when it fits beside the chosen items ahead of it. */
  ghost predicate IsGreedy(items: seq<ContextItem>, chosen: set<nat>, budget: Option<nat>) {
    && (forall i | i in chosen :: i < |items|)
    && forall i | 0 <= i < |items| :: i in chosen <==> Fits(items, chosen, i, budget)
  }

  ghost function Chosen(trace: seq<TraceEntry>): set<nat> {
    set i: nat | i < |trace| && trace[i].included
  }

  // ----- the walk

  function ProjectionKeys(items: seq<ContextItem>): (keys: seq<RankKey>)
    ensures |keys| == |items| && forall i | 0 <= i < |items| :: keys[i] == ProjectionKey(items, i)
    ensures Positions(keys)
  {
    seq(|items|, i requires 0 <= i < |items| => ProjectionKey(items, i))
  }

  ghost predicate IsWalk(items: seq<ContextItem>, keys: seq<RankKey>) {
    && (forall k | 0 <= k < |keys| :: keys[k].index < |items| && keys[k] == ProjectionKey(items, keys[k].index))
    && (forall i | 0 <= i < |items| :: ProjectionKey(items, i) in keys)
    && (forall j, k | 0 <= j < k < |keys| :: RankBefore(keys[j], keys[k]))
  }

  lemma RankedKeysAreAWalk(items: seq<ContextItem>)
    ensures IsWalk(items, Sort(ProjectionKeys(items), RankLeq))
  {
    hide Sort;
    var unsorted := ProjectionKeys(items);
    var keys := RankingIsStrict(unsorted);
    forall k | 0 <= k < |keys|
      ensures keys[k].index < |items| && keys[k] == ProjectionKey(items, keys[k].index)
    {
      assert keys[k] in unsorted;
    }
    forall i | 0 <= i < |items| ensures ProjectionKey(items, i) in keys {
      assert unsorted[i] in unsorted;
    }
  }

  lemma WalkStart(items: seq<ContextItem>, keys: seq<RankKey>, budget: Option<nat>)
    requires IsWalk(items, keys)
    ensures WalkedTo(items, keys, 0, {}, budget) && Recorded(items, keys, 0, {}, {}, map[])
  {
  }

  lemma WalkStays(items: seq<ContextItem>, keys: seq<RankKey>, k: nat)
    requires IsWalk(items, keys) && k < |keys|
    ensures keys[k].index < |items|
  {
  }

  lemma WalkReaches(items: seq<ContextItem>, keys: seq<RankKey>, i: nat) returns (k: nat)
    requires IsWalk(items, keys) && i < |items|
    ensures k < |keys| && keys[k].index == i
  {
    assert ProjectionKey(items, i) in keys;
    k :| 0 <= k < |keys| && keys[k] == ProjectionKey(items, i);
  }

  /** The part of the walk up to `done` has chosen `chosen`. */
  ghost predicate WalkedTo(items: seq<ContextItem>, keys: seq<RankKey>, done: nat,
                           chosen: set<nat>, budget: Option<nat>)
    requires done <= |keys| && IsWalk(items, keys)
  {
    && (forall i | i in chosen :: i < |items| && exists k | 0 <= k < done :: keys[k].index == i)
    && (forall k | 0 <= k < done :: keys[k].index in chosen <==> Fits(items, chosen, keys[k].index, budget))
  }

  lemma WalkStep(items: seq<ContextItem>, keys: seq<RankKey>, done: nat, chosen: set<nat>, budget: Option<nat>)
    requires done < |keys| && IsWalk(items, keys) && WalkedTo(items, keys, done, chosen, budget)
    ensures AheadIn(items, chosen, keys[done].index) == chosen && keys[done].index !in chosen
    ensures var i := keys[done].index;
      var next := if Fits(items, chosen, i, budget) then chosen + {i} else chosen;
      WalkedTo(items, keys, done + 1, next, budget)
  {
    hide Used;
    var i := keys[done].index;
    var next := if Fits(items, chosen, i, budget) then chosen + {i} else chosen;
    assert AheadIn(items, chosen, i) == chosen;
    forall k | 0 <= k <= done
      ensures AheadIn(items, next, keys[k].index) == AheadIn(items, chosen, keys[k].index)
    {
    }
  }

  lemma WalkIsGreedy(items: seq<ContextItem>, keys: seq<RankKey>, chosen: set<nat>, budget: Option<nat>)
    requires IsWalk(items, keys) && WalkedTo(items, keys, |keys|, chosen, budget)
    ensures IsGreedy(items, chosen, budget)
  {
    hide Used;
    forall i | 0 <= i < |items| ensures i in chosen <==> Fits(items, chosen, i, budget) {
      var _ := WalkReaches(items, keys, i);
    }
  }

  /** The ids recorded so far, and why the others were dropped. */
  ghost predicate Recorded(items: seq<ContextItem>, keys: seq<RankKey>, done: nat, chosen: set<nat>,
                           included: set<string>, dropped: map<string, string>)
    requires done <= |keys| && IsWalk(items, keys)
  {
    && (forall k | 0 <= k < done :: items[keys[k].index].id in included || items[keys[k].index].id in dropped)
    && (forall id | id in dropped :: dropped[id] != NOT_SELECTED)
    && (UniqueIds(items) ==> forall k | 0 <= k < done :: var i := keys[k].index;
          && (items[i].id in included <==> i in chosen)
          && (i !in chosen ==> items[i].id in dropped && dropped[items[i].id] == DropReason(items[i])))
    && (UniqueIds(items) ==> forall k | done <= k < |keys| ::
          items[keys[k].index].id !in included && items[keys[k].index].id !in dropped)
  }

  lemma RecordStep(items: seq<ContextItem>, keys: seq<RankKey>, done: nat, chosen: set<nat>, take: bool,
                   included: set<string>, dropped: map<string, string>)
    requires done < |keys| && IsWalk(items, keys) && Recorded(items, keys, done, chosen, included, dropped)
    requires keys[done].index !in chosen
    ensures var i := keys[done].index;
      Recorded(items, keys, done + 1, if take then chosen + {i} else chosen,
               if take then included + {items[i].id} else included,
               if take then dropped else dropped[items[i].id := DropReason(items[i])])
  {
    var i := keys[done].index;
    assert DropReason(items[i]) != NOT_SELECTED by { DropReasonsDiffer(items[i]); }
    if UniqueIds(items) {
      forall k | 0 <= k < |keys| && k != done
        ensures keys[k].index != i && items[keys[k].index].id != items[i].id
      {
        assert RankBefore(keys[k], keys[done]) || RankBefore(keys[done], keys[k]);
        assert keys[k].index < i || i < keys[k].index;
      }
    }
  }

  lemma DropReasonsDiffer(item: ContextItem)
    ensures DropReason(item) != NOT_SELECTED
  {
    assert |NOT_SELECTED| == 12 && |SEMANTIC_DUPLICATE| == 18;
    assert |REQUIRED_BUDGET_EXHAUSTED| == 25 && |MODEL_CONTEXT_BUDGET| == 20;
  }

  /**
   `project`: one entry per item in item order, included exactly when it has no drop reason. With the
   unique ids that deduplication leaves, the included items are the greedy choice.
   */
  method Project(items: seq<ContextItem>, budget: Option<nat>) returns (trace: seq<TraceEntry>)
    ensures |trace| == |items|
    ensures forall i | 0 <= i < |items| :: trace[i] == TraceOf(items[i], trace[i].dropReason)
    ensures forall i | 0 <= i < |items| :: trace[i].dropReason != Some(NOT_SELECTED)
    ensures UniqueIds(items) ==> IsGreedy(items, Chosen(trace), budget)
    ensures UniqueIds(items) ==> forall i | 0 <= i < |items| ::
              trace[i].included || trace[i].dropReason == Some(DropReason(items[i]))
    ensures forall i | 0 <= i < |items| :: Reports(trace[i], items[i])
  {
    hide Used, TraceOf, Recorded, IsGreedy, WalkedTo, IsWalk, UniqueIds;
    var included: set<string> := {};
    var dropped: map<string, string> := map[];
    var used := 0;
    var ranked := Sort(ProjectionKeys(items), RankLeq);
    RankedKeysAreAWalk(items);
    ghost var chosen: set<nat> := {};
    NothingUsed(items, |items|);
    WalkStart(items, ranked, budget);
    for k := 0 to |ranked|
      invariant IsWalk(items, ranked) && WalkedTo(items, ranked, k, chosen, budget)
      invariant used == Used(items, chosen)
      invariant Recorded(items, ranked, k, chosen, included, dropped)
    {
      WalkStays(items, ranked, k);
      var item := items[ranked[k].index];
      WalkStep(items, ranked, k, chosen, budget);
      UsedStep(items, chosen, ranked[k].index);
      RecordStep(items, ranked, k, chosen, Fits(items, chosen, ranked[k].index, budget), included, dropped);
      if item.IsDuplicate() {
        dropped := dropped[item.id := SEMANTIC_DUPLICATE];
      } else if !item.delivery.Message? || budget.None? || used + item.tokenEstimate <= budget.value {
        included := included + {item.id};
        chosen := chosen + {ranked[k].index};
        if item.delivery.Message? {
          used := used + item.tokenEstimate;
        }
      } else {
        dropped := dropped[item.id := if item.pinned then REQUIRED_BUDGET_EXHAUSTED else MODEL_CONTEXT_BUDGET];
      }
    }
    WalkIsGreedy(items, ranked, chosen, budget);
    EverythingRecorded(items, ranked, chosen, included, dropped);
    trace := seq(|items|, i requires 0 <= i < |items| => EntryFor(items[i], included, dropped));
    forall i | 0 <= i < |items|
      ensures trace[i] == TraceOf(items[i], trace[i].dropReason) && trace[i].dropReason != Some(NOT_SELECTED)
      ensures trace[i].included <==> items[i].id in included
      ensures items[i].id !in included ==> trace[i].dropReason == Some(dropped[items[i].id])
    {
      TraceOfShape(items[i], trace[i].dropReason);
    }
    forall i | 0 <= i < |items| ensures Reports(trace[i], items[i]) {
      TraceReports(items[i], trace[i].dropReason);
    }
    if UniqueIds(items) {
      assert forall i | i in chosen :: i < |items| by { ChosenStays(items, ranked, chosen, budget); }
      assert Chosen(trace) == chosen;
    }
  }

  /** The entry repeats what the item is, and says how it was truncated and of what it is a duplicate. */
  predicate Reports(entry: TraceEntry, item: ContextItem) {
    && entry.itemId == item.id && entry.kind == item.kind && entry.source == item.source
    && entry.priority == item.priority && entry.pinned == item.pinned && entry.stablePrefix == item.stablePrefix
    && entry.tokenEstimate == item.tokenEstimate && entry.delivery == item.delivery
    && (entry.included <==> entry.dropReason.None?)
    && (entry.truncated <==> item.MetaBool("context_truncated") == Some(true))
    && (if !entry.truncated then entry.originalTokenEstimate.None?
        else if item.MetaU64("context_original_token_estimate").Some?
          then entry.originalTokenEstimate == item.MetaU64("context_original_token_estimate")
        else entry.originalTokenEstimate == Some(item.tokenEstimate))
    && entry.semanticDuplicateOf == item.MetaStr("context_semantic_duplicate_of")
  }

  lemma TraceReports(item: ContextItem, reason: Option<string>)
    ensures Reports(TraceOf(item, reason), item)
  {
  }

  /** A repeat is dropped as one; anything else for the budget, which is an error for pinned items only. */
  lemma ReasonsAreApt(item: ContextItem)
    ensures DropReason(item) == "semantic_duplicate" <==> item.MetaStr("context_semantic_duplicate_of").Some?
    ensures DropReason(item) == "required_budget_exhausted" <==>
      item.MetaStr("context_semantic_duplicate_of").None? && item.pinned
    ensures DropReason(item) == "model_context_budget" <==>
      item.MetaStr("context_semantic_duplicate_of").None? && !item.pinned
  {
    assert |"required_budget_exhausted"| == 25 && |"model_context_budget"| == 20 && |"semantic_duplicate"| == 18;
  }

  lemma ChosenStays(items: seq<ContextItem>, keys: seq<RankKey>, chosen: set<nat>, budget: Option<nat>)
    requires IsWalk(items, keys) && WalkedTo(items, keys, |keys|, chosen, budget)
    ensures forall i | i in chosen :: i < |items|
  {
  }

  function EntryFor(item: ContextItem, included: set<string>, dropped: map<string, string>): (e: TraceEntry)
    ensures e == TraceOf(item, e.dropReason) && (e.included <==> item.id in included)
    ensures item.id !in included && item.id in dropped ==> e.dropReason == Some(dropped[item.id])
  {
    TraceOf(item, if item.id in included then None
                  else if item.id in dropped then Some(dropped[item.id])
                  else Some(NOT_SELECTED))
  }

  lemma TraceOfShape(item: ContextItem, reason: Option<string>)
    ensures TraceOf(item, reason).dropReason == reason && TraceOf(item, reason).included == reason.None?
  {
  }

  lemma {:induction false} NothingUsed(items: seq<ContextItem>, n: nat)
    requires n <= |items|
    ensures UsedUpTo(items, {}, n) == 0 && (n == |items| ==> Used(items, {}) == 0)
  {
    if n == 0 {
    } else {
      NothingUsed(items, n - 1);
    }
  }

  lemma UsedStep(items: seq<ContextItem>, chosen: set<nat>, i: nat)
    requires i < |items| && i !in chosen
    ensures Used(items, chosen + {i})
         == Used(items, chosen) + if items[i].delivery.Message? then items[i].tokenEstimate else 0
  {
    UsedGrows(items, chosen, i, |items|);
  }

  lemma EverythingRecorded(items: seq<ContextItem>, keys: seq<RankKey>, chosen: set<nat>,
                           included: set<string>, dropped: map<string, string>)
    requires IsWalk(items, keys) && Recorded(items, keys, |keys|, chosen, included, dropped)
    ensures forall i | 0 <= i < |items| :: items[i].id in included || items[i].id in dropped
    ensures forall id | id in dropped :: dropped[id] != NOT_SELECTED
    ensures UniqueIds(items) ==> forall i | 0 <= i < |items| ::
      && (items[i].id in included <==> i in chosen)
      && (i !in chosen ==> items[i].id in dropped && dropped[items[i].id] == DropReason(items[i]))
  {
    forall i | 0 <= i < |items|
      ensures items[i].id in included || items[i].id in dropped
      ensures UniqueIds(items) ==>
        && (items[i].id in included <==> i in chosen)
        && (i !in chosen ==> items[i].id in dropped && dropped[items[i].id] == DropReason(items[i]))
    {
      var _ := WalkReaches(items, keys, i);
    }
  }
}
