/**
 Shrinking the required items until they fit the budget: a binary search for the largest size of
 one item (src/core.rs:1935-1963) inside a two-pass shedding loop (src/core.rs:1581-1660).

 The estimator is arbitrary. In particular it need not grow with content, and except where
 `Monotone` is written the theorems do not assume that it does.
 */
module Fitting {
  import opened Prelude
  import opened Sorting
  import opened Utf8Text
  import opened Truncation
  import opened ContextItems
  import opened CutContent

  /** The estimate of `item` cut to `size` bytes. */
  function CutEstimate(b: Builder, item: ContextItem, size: nat): nat {
    TruncateRequired(b, item, size).tokenEstimate
  }

  ghost predicate Monotone(b: Builder, item: ContextItem, minimumBytes: nat) {
    forall m, n | minimumBytes <= m <= n < |item.content| :: CutEstimate(b, item, m) <= CutEstimate(b, item, n)
  }

  /** `size` meets the target and one byte more does not, or would be the whole item. */
  ghost predicate LocallyLargest(b: Builder, item: ContextItem, target: nat, size: nat) {
    && size < |item.content|
    && CutEstimate(b, item, size) <= target
    && (size + 1 == |item.content| || CutEstimate(b, item, size + 1) > target)
  }

  /**
   Whenever the smallest cut meets the target so does the result, and it cannot be one byte longer;
   with a monotone estimator no longer cut meets the target at all.
   */
  method FitRequiredItemToTokens(b: Builder, item: ContextItem, target: nat, minimumBytes: nat)
    returns (best: ContextItem)
    ensures item.tokenEstimate <= target || |item.content| <= minimumBytes ==> best == item
    ensures item.tokenEstimate > target && |item.content| > minimumBytes ==>
      if CutEstimate(b, item, minimumBytes) > target then best == TruncateRequired(b, item, minimumBytes)
      else exists size | minimumBytes <= size < |item.content| ::
             && best == TruncateRequired(b, item, size)
             && LocallyLargest(b, item, target, size)
             && (Monotone(b, item, minimumBytes) ==>
                   forall n | size < n < |item.content| :: CutEstimate(b, item, n) > target)
  {
    hide TruncateRequired;
    if item.tokenEstimate <= target || |item.content| <= minimumBytes {
      return item;
    }
    var low := Min(minimumBytes, |item.content|);
    var high := SaturatingSub(|item.content|, 1);
    best := TruncateRequired(b, item, low);
    if best.tokenEstimate > target {
      return best;
    }
    ghost var size := low;
    while low <= high
      invariant minimumBytes <= low <= high + 1 <= |item.content|
      invariant size == if low == minimumBytes then low else low - 1
      invariant best == TruncateRequired(b, item, size) && best.tokenEstimate <= target
      invariant minimumBytes <= high
      invariant high + 1 == |item.content| || CutEstimate(b, item, high + 1) > target
    {
      var middle := low + (high - low) / 2;
      var candidate := TruncateRequired(b, item, middle);
      if candidate.tokenEstimate <= target {
        best := candidate;
        size := middle;
        low := middle + 1;
      } else if middle == 0 {
        break;
      } else {
        high := middle - 1;
      }
    }
    assert LocallyLargest(b, item, target, size);
  }

  // ----- which items are required, and in what order they give way

  function Weight(item: ContextItem): nat {
    if item.Required() then item.tokenEstimate else 0
  }

  function RequiredSum(items: seq<ContextItem>): nat {
    if items == [] then 0 else Weight(items[0]) + RequiredSum(items[1..])
  }

  lemma {:induction false} RequiredSumUpdate(items: seq<ContextItem>, i: nat, x: ContextItem)
    requires i < |items|
    ensures RequiredSum(items[i := x]) == RequiredSum(items) - Weight(items[i]) + Weight(x)
    ensures RequiredSum(items) >= Weight(items[i])
  {
    if i == 0 {
    } else {
      assert items[i := x][1..] == items[1..][i - 1 := x];
      RequiredSumUpdate(items[1..], i - 1, x);
    }
  }

  function KeyOf(items: seq<ContextItem>, i: nat): RankKey
    requires i < |items|
  {
    RankKey(TruncationOrder(items[i]), items[i].priority, i)
  }

  function RequiredKeys(items: seq<ContextItem>, n: nat): (keys: seq<RankKey>)
    requires n <= |items|
    ensures forall k | 0 <= k < |keys| :: keys[k].index < n && items[keys[k].index].Required()
                                           && keys[k] == KeyOf(items, keys[k].index)
    ensures forall i | 0 <= i < n && items[i].Required() :: KeyOf(items, i) in keys
    ensures Positions(keys)
  {
    if n == 0 then []
    else if items[n - 1].Required() then RequiredKeys(items, n - 1) + [KeyOf(items, n - 1)]
    else RequiredKeys(items, n - 1)
  }

  /** The shedding schedule: every required item once, strictly in shedding order. */
  ghost predicate IsSchedule(items: seq<ContextItem>, keys: seq<RankKey>) {
    && (forall k | 0 <= k < |keys| :: keys[k].index < |items| && items[keys[k].index].Required()
                                        && keys[k] == KeyOf(items, keys[k].index))
    && (forall i | 0 <= i < |items| && items[i].Required() :: KeyOf(items, i) in keys)
    && (forall j, k | 0 <= j < k < |keys| :: RankBefore(keys[j], keys[k]))
  }

  lemma SortedKeysAreASchedule(items: seq<ContextItem>)
    ensures IsSchedule(items, Sort(RequiredKeys(items, |items|), RankLeq))
  {
    hide Sort, TruncationOrder, RequiredKeys;
    var unsorted := RequiredKeys(items, |items|);
    var keys := RankingIsStrict(unsorted);
    forall k | 0 <= k < |keys| ensures keys[k] in unsorted {
    }
  }

  // ----- one pass down to the soft minimums

  function SoftMinimum(b: Builder, item: ContextItem): nat {
    CutEstimate(b, item, MinimumBytes(item))
  }

  /** What the first pass may do to an item. */
  ghost predicate SoftShed(b: Builder, before: ContextItem, after: ContextItem) {
    after == before ||
    (before.Required() && SoftMinimum(b, before) < before.tokenEstimate && after.tokenEstimate < before.tokenEstimate &&
      exists n | MinimumBytes(before) <= n < |before.content| :: after == TruncateRequired(b, before, n))
  }

  /**
   A cut is as mild as its turn allowed: it gives up all that its soft minimum would, or else one
   byte more would have left the total over the budget.
   */
  ghost predicate Tight(b: Builder, items: seq<ContextItem>, out: seq<ContextItem>, i: nat, budget: nat)
    requires i < |items| == |out|
  {
    || out[i].tokenEstimate <= SoftMinimum(b, items[i])
    || exists n | MinimumBytes(items[i]) <= n < |items[i].content| ::
         && out[i] == TruncateRequired(b, items[i], n)
         && (n + 1 == |items[i].content| || RequiredSum(out[i := TruncateRequired(b, items[i], n + 1)]) > budget)
  }

  /** Everything the first pass promises about the part of the schedule it has gone through. */
  ghost predicate SoftPass(b: Builder, items: seq<ContextItem>, out: seq<ContextItem>,
                           keys: seq<RankKey>, done: nat, budget: nat)
    requires done <= |keys| && IsSchedule(items, keys)
  {
    && |out| == |items|
    && (forall i | 0 <= i < |items| :: SoftShed(b, items[i], out[i]))
    && (forall k | done <= k < |keys| :: out[keys[k].index] == items[keys[k].index])
    && (RequiredSum(out) > budget ==> forall k | 0 <= k < done :: GaveAll(b, items, out, keys[k].index))
    && (forall j, k | 0 <= j < k < done && out[keys[k].index] != items[keys[k].index] ::
          GaveAll(b, items, out, keys[j].index))
    && (forall k | 0 <= k < done && out[keys[k].index] != items[keys[k].index] ::
          Tight(b, items, out, keys[k].index, budget))
  }

  ghost predicate GaveAll(b: Builder, items: seq<ContextItem>, out: seq<ContextItem>, i: nat)
    requires i < |items| == |out|
  {
    out[i].tokenEstimate <= SoftMinimum(b, items[i])
  }

  /** Shedding from one more item, the next in the schedule, keeps every promise of the pass. */
  lemma SoftPassStep(b: Builder, items: seq<ContextItem>, out: seq<ContextItem>, keys: seq<RankKey>,
                     done: nat, budget: nat, fitted: ContextItem)
    requires done < |keys| && IsSchedule(items, keys) && SoftPass(b, items, out, keys, done, budget)
    requires RequiredSum(out) > budget
    requires var i := keys[done].index;
      && SoftShed(b, items[i], fitted)
      && (fitted.tokenEstimate <= SoftMinimum(b, items[i]) ||
          (RequiredSum(out[i := fitted]) <= budget && Tight(b, items, out[i := fitted], i, budget)))
    ensures SoftPass(b, items, out[keys[done].index := fitted], keys, done + 1, budget)
  {
    hide RequiredSum, TruncateRequired, MinimumBytes, TruncationOrder;
    var i := keys[done].index;
    var next := out[i := fitted];
    forall k | 0 <= k < |keys| && k != done ensures keys[k].index != i {
    }
    forall k | 0 <= k < done ensures GaveAll(b, items, next, keys[k].index) {
      assert GaveAll(b, items, out, keys[k].index);
    }
    if RequiredSum(next) > budget {
      assert GaveAll(b, items, next, i);
    }
  }

  /** The size the binary search finds for one turn is the mildest fair cut. */
  lemma SoftCutIsFair(b: Builder, items: seq<ContextItem>, out: seq<ContextItem>, i: nat, budget: nat,
                      target: nat, size: nat)
    requires i < |items| == |out| && out[i] == items[i] && items[i].Required() && RequiredSum(out) > budget
    requires items[i].tokenEstimate > SoftMinimum(b, items[i])
    requires target == items[i].tokenEstimate
                       - Min(RequiredSum(out) - budget, items[i].tokenEstimate - SoftMinimum(b, items[i]))
    requires MinimumBytes(items[i]) <= size && LocallyLargest(b, items[i], target, size)
    ensures var fitted := TruncateRequired(b, items[i], size);
      && SoftShed(b, items[i], fitted)
      && (fitted.tokenEstimate <= SoftMinimum(b, items[i]) ||
          (RequiredSum(out[i := fitted]) <= budget && Tight(b, items, out[i := fitted], i, budget)))
  {
    hide TruncateRequired, MinimumBytes, RequiredSum;
    var item := items[i];
    var fitted := TruncateRequired(b, item, size);
    var longer := TruncateRequired(b, item, size + 1);
    TruncateRequiredFacts(b, item, size);
    TruncateRequiredFacts(b, item, size + 1);
    RequiredSumUpdate(out, i, fitted);
    RequiredSumUpdate(out, i, longer);
    assert out[i := fitted][i := longer] == out[i := longer];
  }

  /** One turn of the first loop that cuts something. */
  lemma SoftTurn(b: Builder, items: seq<ContextItem>, out: seq<ContextItem>, keys: seq<RankKey>, k: nat,
                 budget: nat, target: nat, size: nat)
    requires k < |keys| && IsSchedule(items, keys) && SoftPass(b, items, out, keys, k, budget)
    requires RequiredSum(out) > budget
    requires var i := keys[k].index;
      && items[i].tokenEstimate > SoftMinimum(b, items[i])
      && target == items[i].tokenEstimate
                   - Min(RequiredSum(out) - budget, items[i].tokenEstimate - SoftMinimum(b, items[i]))
      && MinimumBytes(items[i]) <= size && LocallyLargest(b, items[i], target, size)
    ensures var i := keys[k].index; var fitted := TruncateRequired(b, items[i], size);
      && SoftPass(b, items, out[i := fitted], keys, k + 1, budget)
      && fitted.tokenEstimate < items[i].tokenEstimate <= RequiredSum(out)
      && RequiredSum(out[i := fitted]) == RequiredSum(out) - items[i].tokenEstimate + fitted.tokenEstimate
      && LastCutWasNeeded(items, out[i := fitted], budget)
  {
    hide TruncateRequired, MinimumBytes, TruncationOrder, RequiredSum, LastCutWasNeeded;
    var i := keys[k].index;
    var fitted := TruncateRequired(b, items[i], size);
    assert out[i] == items[i];
    SoftCutIsFair(b, items, out, i, budget, target, size);
    SoftPassStep(b, items, out, keys, k, budget, fitted);
    TruncateRequiredFacts(b, items[i], size);
    RequiredSumUpdate(out, i, fitted);
    CutIsNeeded(items, out, i, fitted, budget);
  }

  lemma SoftPassStart(b: Builder, items: seq<ContextItem>, keys: seq<RankKey>, budget: nat)
    requires IsSchedule(items, keys)
    ensures SoftPass(b, items, items, keys, 0, budget) && LastCutWasNeeded(items, items, budget)
  {
    hide RequiredSum, TruncateRequired, MinimumBytes, TruncationOrder;
  }

  lemma SoftPassNext(b: Builder, items: seq<ContextItem>, out: seq<ContextItem>, keys: seq<RankKey>,
                     k: nat, budget: nat)
    requires k < |keys| && IsSchedule(items, keys) && SoftPass(b, items, out, keys, k, budget)
    ensures var i := keys[k].index; i < |items| == |out| && out[i] == items[i] && items[i].Required()
    ensures SoftShed(b, items[keys[k].index], items[keys[k].index])
  {
    hide RequiredSum, TruncateRequired, MinimumBytes, TruncationOrder;
  }

  /** The first loop: in schedule order, cut no item below its soft minimum and stop once all fits. */
  method ShedToSoftMinimums(b: Builder, items: seq<ContextItem>, keys: seq<RankKey>, budget: nat)
    returns (out: seq<ContextItem>, overflow: nat)
    requires IsSchedule(items, keys)
    ensures SoftPass(b, items, out, keys, |keys|, budget)
    ensures overflow == SaturatingSub(RequiredSum(out), budget)
    ensures RequiredSum(items) > budget ==> LastCutWasNeeded(items, out, budget)
  {
    hide TruncateRequired, MinimumBytes, TruncationOrder, RequiredSum, SoftPass, IsSchedule, LastCutWasNeeded;
    SoftPassStart(b, items, keys, budget);
    out := items;
    overflow := SaturatingSub(RequiredSum(items), budget);
    for k := 0 to |keys|
      invariant SoftPass(b, items, out, keys, k, budget)
      invariant overflow == SaturatingSub(RequiredSum(out), budget)
      invariant RequiredSum(items) > budget ==> LastCutWasNeeded(items, out, budget)
    {
      if overflow == 0 {
        SoftPassIsOver(b, items, out, keys, k, budget);
        break;
      }
      SoftPassNext(b, items, out, keys, k, budget);
      var i := keys[k].index;
      var current := out[i];
      var minimumBytes := MinimumBytes(current);
      var minimum := TruncateRequired(b, current, minimumBytes);
      var maxReduction := SaturatingSub(current.tokenEstimate, minimum.tokenEstimate);
      if maxReduction == 0 {
        SoftPassStep(b, items, out, keys, k, budget, current);
        assert out[i := current] == out;
        continue;
      }
      var target := SaturatingSub(current.tokenEstimate, Min(overflow, maxReduction));
      var fitted := FitRequiredItemToTokens(b, current, target, minimumBytes);
      assert |current.content| > minimumBytes by { TruncateRequiredFacts(b, current, minimumBytes); }
      ghost var size :| minimumBytes <= size < |current.content|
        && fitted == TruncateRequired(b, current, size) && LocallyLargest(b, current, target, size);
      SoftTurn(b, items, out, keys, k, budget, target, size);
      var actualReduction := SaturatingSub(current.tokenEstimate, fitted.tokenEstimate);
      overflow := SaturatingSub(overflow, actualReduction);
      out := out[i := fitted];
    }
  }

  /** Some item was cut, and undoing that cut alone puts the total back over the budget. */
  ghost predicate LastCutWasNeeded(before: seq<ContextItem>, after: seq<ContextItem>, budget: nat) {
    && |before| == |after|
    && (after == before ||
        exists i | 0 <= i < |before| :: after[i] != before[i] && RequiredSum(after[i := before[i]]) > budget)
  }

  lemma CutIsNeeded(before: seq<ContextItem>, current: seq<ContextItem>, i: nat, fitted: ContextItem, budget: nat)
    requires i < |before| == |current| && current[i] == before[i] && fitted != before[i]
    requires RequiredSum(current) > budget
    ensures LastCutWasNeeded(before, current[i := fitted], budget)
  {
    hide RequiredSum;
    assert current[i := fitted][i := before[i]] == current;
  }

  /** Nothing is over the budget any more, so the untouched rest of the schedule is in order too. */
  lemma SoftPassIsOver(b: Builder, items: seq<ContextItem>, out: seq<ContextItem>, keys: seq<RankKey>,
                       done: nat, budget: nat)
    requires done <= |keys| && IsSchedule(items, keys) && SoftPass(b, items, out, keys, done, budget)
    requires RequiredSum(out) <= budget
    ensures SoftPass(b, items, out, keys, |keys|, budget)
  {
    hide RequiredSum, TruncateRequired, MinimumBytes, TruncationOrder;
  }

  // ----- the second pass, down to the hard minimum

  /** Cutting the item to the hard minimum would not make it cheaper. */
  ghost predicate AtFloor(b: Builder, item: ContextItem) {
    CutEstimate(b, item, HARD_MINIMUM_BYTES) >= item.tokenEstimate
  }

  ghost predicate HardShed(b: Builder, before: ContextItem, after: ContextItem) {
    after == before ||
    (before.Required() && after == TruncateRequired(b, before, HARD_MINIMUM_BYTES)
     && after.tokenEstimate < before.tokenEstimate)
  }

  ghost predicate HardPass(b: Builder, items: seq<ContextItem>, out: seq<ContextItem>,
                           keys: seq<RankKey>, done: nat, budget: nat)
    requires done <= |keys| && IsSchedule(items, keys)
  {
    && |out| == |items|
    && (forall i | 0 <= i < |items| :: HardShed(b, items[i], out[i]))
    && (forall k | done <= k < |keys| :: out[keys[k].index] == items[keys[k].index])
    && (RequiredSum(out) > budget ==> forall k | 0 <= k < done :: AtFloor(b, out[keys[k].index]))
    && (forall j, k | 0 <= j < k < done && out[keys[k].index] != items[keys[k].index] ::
          AtFloor(b, out[keys[j].index]))
  }

  /** An item cut to the hard minimum is at its floor: a second cut there changes nothing. */
  lemma HardCutIsFinal(b: Builder, item: ContextItem)
    ensures AtFloor(b, TruncateRequired(b, item, HARD_MINIMUM_BYTES))
  {
    hide TruncateRequired;
    TruncateRequiredFacts(b, item, HARD_MINIMUM_BYTES);
    TruncateRequiredFacts(b, TruncateRequired(b, item, HARD_MINIMUM_BYTES), HARD_MINIMUM_BYTES);
  }

  lemma HardPassStep(b: Builder, items: seq<ContextItem>, out: seq<ContextItem>, keys: seq<RankKey>,
                     done: nat, budget: nat, cut: ContextItem)
    requires done < |keys| && IsSchedule(items, keys) && HardPass(b, items, out, keys, done, budget)
    requires RequiredSum(out) > budget
    requires HardShed(b, items[keys[done].index], cut) && AtFloor(b, cut)
    ensures HardPass(b, items, out[keys[done].index := cut], keys, done + 1, budget)
  {
    hide RequiredSum, TruncateRequired, TruncationOrder;
    var i := keys[done].index;
    forall k | 0 <= k < |keys| && k != done ensures keys[k].index != i {
    }
  }

  /** The second loop: in the same order, cut to the hard minimum and stop once all fits. */
  method ShedToHardMinimums(b: Builder, items: seq<ContextItem>, keys: seq<RankKey>, budget: nat)
    returns (out: seq<ContextItem>)
    requires IsSchedule(items, keys)
    ensures HardPass(b, items, out, keys, |keys|, budget)
    ensures LastCutWasNeeded(items, out, budget)
  {
    hide TruncateRequired, TruncationOrder, RequiredSum;
    out := items;
    var overflow := SaturatingSub(RequiredSum(items), budget);
    for k := 0 to |keys|
      invariant HardPass(b, items, out, keys, k, budget)
      invariant overflow == SaturatingSub(RequiredSum(out), budget)
      invariant LastCutWasNeeded(items, out, budget)
    {
      if overflow == 0 {
        break;
      }
      var i := keys[k].index;
      var current := out[i];
      var minimum := TruncateRequired(b, current, HARD_MINIMUM_BYTES);
      var reduction := SaturatingSub(current.tokenEstimate, minimum.tokenEstimate);
      if reduction > 0 {
        HardCutIsFinal(b, current);
        HardPassStep(b, items, out, keys, k, budget, minimum);
        TruncateRequiredFacts(b, current, HARD_MINIMUM_BYTES);
        RequiredSumUpdate(out, i, minimum);
        CutIsNeeded(items, out, i, minimum, budget);
        overflow := SaturatingSub(overflow, reduction);
        out := out[i := minimum];
      } else {
        HardPassStep(b, items, out, keys, k, budget, current);
        assert out[i := current] == out;
      }
    }
  }

  // ----- both passes

  /** What fitting may do to an item: at most one soft cut and then at most one hard cut. */
  ghost predicate Shed(b: Builder, before: ContextItem, after: ContextItem) {
    exists mid :: SoftShed(b, before, mid) && HardShed(b, mid, after)
  }

  /**
   Identity survives: only the content, its estimate and the truncation record of a required item
   can change, the estimate only downwards, and the record still names the first estimate.
   */
  lemma ShedKeepsIdentity(b: Builder, before: ContextItem, after: ContextItem)
    requires Shed(b, before, after)
    ensures SameIdentity(before, after) && after.Required() == before.Required()
    ensures after.tokenEstimate <= before.tokenEstimate && |after.content| <= |before.content|
    ensures after != before ==> before.Required() && after.tokenEstimate < before.tokenEstimate
                                && after.MetaBool("context_truncated") == Some(true)
    ensures OriginalEstimate(after) == OriginalEstimate(before) && OriginalBytes(after) == OriginalBytes(before)
    ensures ValidUtf8(before.content) ==> ValidUtf8(after.content)
  {
    hide TruncateRequired, MinimumBytes, ValidUtf8, OriginalEstimate, OriginalBytes;
    var mid :| SoftShed(b, before, mid) && HardShed(b, mid, after);
    if mid != before {
      var n :| MinimumBytes(before) <= n < |before.content| && mid == TruncateRequired(b, before, n);
      TruncateRequiredFacts(b, before, n);
      if ValidUtf8(before.content) { TruncateRequiredIsValid(b, before, n); }
    }
    if after != mid {
      TruncateRequiredFacts(b, mid, HARD_MINIMUM_BYTES);
      if ValidUtf8(mid.content) { TruncateRequiredIsValid(b, mid, HARD_MINIMUM_BYTES); }
    }
  }

  /** What the two passes leave of an item's content: a cut to no less than its soft minimum, and one to 96 bytes. */
  ghost predicate ContentKept(before: ContextItem, mid: ContextItem, after: ContextItem) {
    && (mid != before ==>
          exists n | SoftFloor(CategoryOf(before)) <= n < |before.content| :: IsCut(before, n, mid.content))
    && (after != mid ==> |mid.content| > 96 && IsCut(mid, 96, after.content))
  }

  lemma ShedKeepsContent(b: Builder, before: ContextItem, mid: ContextItem, after: ContextItem)
    requires SoftShed(b, before, mid) && HardShed(b, mid, after) && ValidUtf8(before.content)
    ensures ContentKept(before, mid, after)
  {
    hide TruncateRequired, MinimumBytes, ValidUtf8, IsCut, SoftFloor, CategoryOf, TruncationOrder;
    if mid != before {
      CategoriesDecide(before, before);
      var n :| MinimumBytes(before) <= n < |before.content| && mid == TruncateRequired(b, before, n);
      CutKeeps(b, before, n);
      TruncateRequiredIsValid(b, before, n);
    }
    if after != mid {
      TruncateRequiredFacts(b, mid, HARD_MINIMUM_BYTES);
      CutKeeps(b, mid, 96);
    }
  }

  /** One cut of a user's text: no header, and both ends of the text are there. */
  lemma UserTextIsCut(item: ContextItem, maxBytes: nat, content: Text) returns (head: nat, tail: nat)
    requires CategoryOf(item) == UserText && 96 <= maxBytes < |item.content| && IsCut(item, maxBytes, content)
    ensures head <= tail <= |item.content| && content == item.content[..head] + Marker() + item.content[tail..]
    ensures var room := maxBytes - |Marker()|;
      room * 2 / 3 - 4 < head <= room * 2 / 3 && room - room * 2 / 3 - 4 < |item.content| - tail <= room - room * 2 / 3
  {
    hide Marker, IsHeader, CategoryOf, KeepsFirstLine, IsSystemText, HasInstructions, SectionsKept;
    UserTextHasNoHeader(item);
    var header: nat :| IsHeader(item.content, maxBytes, KeepsFirstLine(item), header)
                       && EndsKept(item.content, maxBytes, header, content);
    var room := maxBytes - |Marker()|;
    head, tail :| header <= head <= tail <= |item.content|
      && content == item.content[..head] + Marker() + item.content[tail..]
      && room * 2 / 3 - 4 < head - header <= room * 2 / 3
      && room - room * 2 / 3 - 4 < |item.content| - tail <= room - room * 2 / 3;
  }

  lemma UserTextHasNoHeader(item: ContextItem)
    requires CategoryOf(item) == UserText
    ensures !KeepsFirstLine(item) && !IsSystemText(item)
    ensures forall header: nat, n: nat | IsHeader(item.content, n, false, header) :: header == 0
  {
  }

  lemma TwoCuts(text: Text, marker: Text, head: nat, tail: nat, h: nat, t: nat)
    requires head <= tail <= |text| && h <= head
    requires var mid := text[..head] + marker + text[tail..]; h <= t <= |mid| && |mid| - t <= |text| - tail
    ensures var mid := text[..head] + marker + text[tail..];
      mid[..h] == text[..h] && mid[t..] == text[|text| - (|mid| - t)..]
  {
  }

  /** However often a user's text is cut, the beginning and the end of it are what the user wrote. */
  lemma UserTextKeepsBothEnds(b: Builder, before: ContextItem, mid: ContextItem, after: ContextItem)
    returns (head: nat, tail: nat)
    requires SoftShed(b, before, mid) && HardShed(b, mid, after) && ValidUtf8(before.content)
    requires CategoryOf(before) == UserText && after != before
    ensures head <= tail <= |before.content| && head >= 28 && |before.content| - tail >= 13
    ensures after.content == before.content[..head] + Marker() + before.content[tail..]
  {
    hide SoftShed, HardShed, ValidUtf8, IsCut, CategoryOf, Marker;
    ShedKeepsContent(b, before, mid, after);
    if mid == before {
      head, tail := UserTextIsCut(before, 96, after.content);
    } else {
      var n :| SoftFloor(CategoryOf(before)) <= n < |before.content| && IsCut(before, n, mid.content);
      head, tail := UserTextIsCut(before, n, mid.content);
      if after != mid {
        SameCategory(b, before, mid);
        var h, t := UserTextIsCut(mid, 96, after.content);
        TwoCuts(before.content, Marker(), head, tail, h, t);
        head, tail := h, |before.content| - (|mid.content| - t);
      }
    }
  }

  lemma SameCategory(b: Builder, before: ContextItem, mid: ContextItem)
    requires SoftShed(b, before, mid)
    ensures CategoryOf(mid) == CategoryOf(before)
  {
    hide SoftShed, SameIdentity, OriginalEstimate, OriginalBytes;
    assert HardShed(b, mid, mid);
    ShedKeepsIdentity(b, before, mid);
    SameRole(before, mid);
  }

  lemma SameRole(x: ContextItem, y: ContextItem)
    requires SameIdentity(x, y)
    ensures x.kind == y.kind && x.MetaStr("role") == y.MetaStr("role")
  {
    assert "role" !in TRUNCATION_KEYS;
    assert "role" in x.metadata.Keys - TRUNCATION_KEYS <==> "role" in y.metadata.Keys - TRUNCATION_KEYS;
  }

  lemma IdentityKeepsKey(x: seq<ContextItem>, y: seq<ContextItem>, i: nat)
    requires i < |x| == |y| && SameIdentity(x[i], y[i])
    ensures KeyOf(x, i) == KeyOf(y, i) && y[i].Required() == x[i].Required()
  {
    assert "role" !in TRUNCATION_KEYS;
    assert x[i].MetaStr("role") == y[i].MetaStr("role") by {
      assert "role" in x[i].metadata.Keys - TRUNCATION_KEYS <==> "role" in y[i].metadata.Keys - TRUNCATION_KEYS;
    }
  }

  lemma ScheduleSurvives(b: Builder, items: seq<ContextItem>, soft: seq<ContextItem>, keys: seq<RankKey>)
    requires |soft| == |items| && IsSchedule(items, keys)
    requires forall i | 0 <= i < |items| :: SoftShed(b, items[i], soft[i])
    ensures IsSchedule(soft, keys)
  {
    hide TruncateRequired, MinimumBytes, TruncationOrder, SameIdentity, OriginalEstimate, OriginalBytes;
    forall i | 0 <= i < |items|
      ensures KeyOf(items, i) == KeyOf(soft, i) && soft[i].Required() == items[i].Required()
    {
      assert HardShed(b, soft[i], soft[i]);
      ShedKeepsIdentity(b, items[i], soft[i]);
      IdentityKeepsKey(items, soft, i);
    }
  }

  /** Before `j` is cut at all, everything ahead of it has given up all that its soft minimum allows. */
  ghost predicate ShedInOrder(b: Builder, items: seq<ContextItem>, out: seq<ContextItem>) {
    && |out| == |items|
    && forall i, j | 0 <= i < |items| && 0 <= j < |items| && items[i].Required() && items[j].Required()
                     && RankBefore(KeyOf(items, i), KeyOf(items, j)) && out[j] != items[j] ::
         GaveAll(b, items, out, i)
  }

  /** A user message, which comes last in the truncation order. */
  predicate IsUserTurn(item: ContextItem) {
    TruncationOrder(item) == 60
  }

  /**
   A user turn is cut only after every other required item has given up all that its soft minimum
   allows, and the more important of two user turns only after the other, or the later after the earlier.
   */
  lemma UserTurnGivesWayLast(b: Builder, items: seq<ContextItem>, out: seq<ContextItem>, i: nat, j: nat)
    requires ShedInOrder(b, items, out) && i < |items| && j < |items| && i != j
    requires items[i].Required() && items[j].Required() && IsUserTurn(items[j]) && out[j] != items[j]
    requires !IsUserTurn(items[i]) || items[i].priority < items[j].priority
             || (items[i].priority == items[j].priority && i < j)
    ensures GaveAll(b, items, out, i)
    ensures items[j].MetaStr("role") == Some("user")
  {
    hide GaveAll;
    assert RankBefore(KeyOf(items, i), KeyOf(items, j));
  }

  /** The sort of the item, its priority and its position, in this order, say which of two gives way first. */
  predicate GivesWayBefore(items: seq<ContextItem>, i: nat, j: nat)
    requires i < |items| && j < |items|
  {
    var x, y := PlaceOf(CategoryOf(items[i])), PlaceOf(CategoryOf(items[j]));
    x < y || (x == y && (items[i].priority < items[j].priority || (items[i].priority == items[j].priority && i < j)))
  }

  lemma KeysSayWhoGivesWay(items: seq<ContextItem>, i: nat, j: nat)
    requires i < |items| && j < |items|
    ensures RankBefore(KeyOf(items, i), KeyOf(items, j)) <==> GivesWayBefore(items, i, j)
  {
    hide TruncationOrder, MinimumBytes, PlaceOf, CategoryOf, SoftFloor;
    CategoriesDecide(items[i], items[j]);
    CategoriesDecide(items[j], items[i]);
  }

  /**
   An item is cut only after every required item that gives way before it has given up all that its soft
   minimum allows, and cut to the hard minimum only after all those are at their floor.
   */
  lemma ItemsGiveWayInTurn(b: Builder, items: seq<ContextItem>, soft: seq<ContextItem>, out: seq<ContextItem>,
                           i: nat, j: nat)
    requires ShedInOrder(b, items, out) && HardCutsInOrder(b, soft, out)
    requires |soft| == |items| && forall k | 0 <= k < |items| :: SoftShed(b, items[k], soft[k])
    requires i < |items| && j < |items| && GivesWayBefore(items, i, j)
    requires items[i].pinned && items[i].delivery.Message? && items[j].pinned && items[j].delivery.Message?
    ensures out[j] != items[j] ==> GaveAll(b, items, out, i)
    ensures out[j] != soft[j] ==> AtFloor(b, out[i])
  {
    hide TruncateRequired, MinimumBytes, GivesWayBefore, GaveAll, AtFloor, SameIdentity, TruncationOrder;
    hide OriginalEstimate, OriginalBytes;
    KeysSayWhoGivesWay(items, i, j);
    forall k | k == i || k == j
      ensures KeyOf(items, k) == KeyOf(soft, k) && soft[k].Required()
    {
      assert SoftShed(b, items[k], soft[k]) && HardShed(b, soft[k], soft[k]);
      ShedKeepsIdentity(b, items[k], soft[k]);
      IdentityKeepsKey(items, soft, k);
    }
  }

  lemma OrderOfSchedule(items: seq<ContextItem>, keys: seq<RankKey>, i: nat, j: nat) returns (p: nat, q: nat)
    requires IsSchedule(items, keys) && i < |items| && j < |items|
    requires items[i].Required() && items[j].Required() && RankBefore(KeyOf(items, i), KeyOf(items, j))
    ensures p < q < |keys| && keys[p].index == i && keys[q].index == j
  {
    hide TruncationOrder;
    assert KeyOf(items, i) in keys && KeyOf(items, j) in keys;
    p :| 0 <= p < |keys| && keys[p] == KeyOf(items, i);
    q :| 0 <= q < |keys| && keys[q] == KeyOf(items, j);
  }

  lemma PassesShedInOrder(b: Builder, items: seq<ContextItem>, soft: seq<ContextItem>, out: seq<ContextItem>,
                          keys: seq<RankKey>, budget: nat)
    requires IsSchedule(items, keys) && IsSchedule(soft, keys)
    requires SoftPass(b, items, soft, keys, |keys|, budget) && HardPass(b, soft, out, keys, |keys|, budget)
    requires RequiredSum(soft) <= budget ==> out == soft
    ensures ShedInOrder(b, items, out)
  {
    hide TruncateRequired, MinimumBytes, TruncationOrder, RequiredSum;
    forall i, j | 0 <= i < |items| && 0 <= j < |items| && items[i].Required() && items[j].Required()
                  && RankBefore(KeyOf(items, i), KeyOf(items, j)) && out[j] != items[j]
      ensures GaveAll(b, items, out, i)
    {
      var p, q := OrderOfSchedule(items, keys, i, j);
      assert HardShed(b, soft[i], out[i]);
      assert GaveAll(b, items, soft, keys[p].index) by {
        if RequiredSum(soft) <= budget {
          assert soft[keys[q].index] != items[keys[q].index];
        }
      }
    }
  }

  /** Before an item is cut to the hard minimum, everything ahead of it is at its floor. */
  ghost predicate HardCutsInOrder(b: Builder, soft: seq<ContextItem>, out: seq<ContextItem>) {
    && |out| == |soft|
    && forall i, j | 0 <= i < |soft| && 0 <= j < |soft| && soft[i].Required() && soft[j].Required()
                     && RankBefore(KeyOf(soft, i), KeyOf(soft, j)) && out[j] != soft[j] ::
         AtFloor(b, out[i])
  }

  lemma HardPassCutsInOrder(b: Builder, soft: seq<ContextItem>, out: seq<ContextItem>,
                            keys: seq<RankKey>, budget: nat)
    requires IsSchedule(soft, keys) && HardPass(b, soft, out, keys, |keys|, budget)
    ensures HardCutsInOrder(b, soft, out)
    ensures RequiredSum(out) > budget ==> forall i | 0 <= i < |out| && soft[i].Required() :: AtFloor(b, out[i])
  {
    hide TruncateRequired, TruncationOrder, RequiredSum;
    forall i, j | 0 <= i < |soft| && 0 <= j < |soft| && soft[i].Required() && soft[j].Required()
                  && RankBefore(KeyOf(soft, i), KeyOf(soft, j)) && out[j] != soft[j]
      ensures AtFloor(b, out[i])
    {
      var p, q := OrderOfSchedule(soft, keys, i, j);
      assert out[keys[q].index] != soft[keys[q].index];
    }
    if RequiredSum(out) > budget {
      forall i | 0 <= i < |out| && soft[i].Required() ensures AtFloor(b, out[i]) {
        assert KeyOf(soft, i) in keys;
        var p :| 0 <= p < |keys| && keys[p] == KeyOf(soft, i);
        assert AtFloor(b, out[keys[p].index]);
      }
    }
  }

  /** Each item that the first pass cut was cut no further than its turn demanded. */
  ghost predicate SoftCutsAreTight(b: Builder, items: seq<ContextItem>, soft: seq<ContextItem>, budget: nat) {
    && |soft| == |items|
    && forall i | 0 <= i < |items| && soft[i] != items[i] :: Tight(b, items, soft, i, budget)
  }

  lemma SoftPassIsTight(b: Builder, items: seq<ContextItem>, soft: seq<ContextItem>, keys: seq<RankKey>, budget: nat)
    requires IsSchedule(items, keys) && SoftPass(b, items, soft, keys, |keys|, budget)
    ensures SoftCutsAreTight(b, items, soft, budget)
  {
    hide TruncateRequired, MinimumBytes, TruncationOrder, RequiredSum;
    forall i | 0 <= i < |items| && soft[i] != items[i] ensures Tight(b, items, soft, i, budget) {
      assert SoftShed(b, items[i], soft[i]);
      assert KeyOf(items, i) in keys;
      var k :| 0 <= k < |keys| && keys[k] == KeyOf(items, i);
      assert soft[keys[k].index] != items[keys[k].index];
    }
  }

  /** One of the two cuts would make the item cheaper. */
  ghost predicate CanShrink(b: Builder, item: ContextItem) {
    SoftMinimum(b, item) < item.tokenEstimate || !AtFloor(b, item)
  }

  /** Items stay as they are exactly when there is nothing to gain from any of them. */
  lemma UncutIff(b: Builder, items: seq<ContextItem>, soft: seq<ContextItem>, out: seq<ContextItem>, budget: nat)
    requires |out| == |soft| == |items| && RequiredSum(items) > budget
    requires forall i | 0 <= i < |items| :: SoftShed(b, items[i], soft[i]) && HardShed(b, soft[i], out[i])
    requires RequiredSum(soft) > budget ==>
      forall i | 0 <= i < |items| && items[i].Required() :: GaveAll(b, items, soft, i)
    requires RequiredSum(out) > budget ==> forall i | 0 <= i < |out| && out[i].Required() :: AtFloor(b, out[i])
    ensures out == items <==> forall i | 0 <= i < |items| && items[i].Required() :: !CanShrink(b, items[i])
  {
    hide TruncateRequired, MinimumBytes, RequiredSum;
    if out == items {
      forall i | 0 <= i < |items| ensures soft[i] == items[i] {
        assert SoftShed(b, items[i], soft[i]) && HardShed(b, soft[i], out[i]);
      }
      assert soft == items;
      forall i | 0 <= i < |items| && items[i].Required() ensures !CanShrink(b, items[i]) {
        assert GaveAll(b, items, soft, i) && AtFloor(b, out[i]);
      }
    }
    if forall i | 0 <= i < |items| && items[i].Required() :: !CanShrink(b, items[i]) {
      forall i | 0 <= i < |items| ensures out[i] == items[i] {
        assert SoftShed(b, items[i], soft[i]) && HardShed(b, soft[i], out[i]);
        assert items[i].Required() ==> !CanShrink(b, items[i]);
      }
    }
  }

  /**
   `fit_required_items`: either the required items fit the budget, or none of them can be made
   cheaper by the hard cut. Items are cut in shedding order, no further than their turn demands, and
   below their soft minimum only when all soft cuts together were not enough.
   */
  method FitRequiredItems(b: Builder, items: seq<ContextItem>, budget: nat)
    returns (out: seq<ContextItem>, ghost soft: seq<ContextItem>)
    ensures |out| == |soft| == |items|
    ensures out == items <==>
      RequiredSum(items) <= budget || forall i | 0 <= i < |items| && items[i].Required() :: !CanShrink(b, items[i])
    ensures RequiredSum(out) <= budget || forall i | 0 <= i < |out| && out[i].Required() :: AtFloor(b, out[i])
    ensures forall i | 0 <= i < |items| :: Shed(b, items[i], out[i])
    ensures ShedInOrder(b, items, out)
    ensures forall i | 0 <= i < |items| :: SoftShed(b, items[i], soft[i]) && HardShed(b, soft[i], out[i])
    ensures forall i | 0 <= i < |items| && ValidUtf8(items[i].content) :: ContentKept(items[i], soft[i], out[i])
    ensures SoftCutsAreTight(b, items, soft, budget) && HardCutsInOrder(b, soft, out)
    ensures RequiredSum(soft) <= budget ==> out == soft
    ensures LastCutWasNeeded(items, soft, budget) && LastCutWasNeeded(soft, out, budget)
  {
    hide TruncateRequired, MinimumBytes, TruncationOrder, RequiredSum, SameIdentity;
    hide SoftPass, HardPass, ShedInOrder, HardCutsInOrder, SoftCutsAreTight, CanShrink, GaveAll;
    hide ValidUtf8, ContentKept;
    if RequiredSum(items) <= budget {
      NothingShed(b, items, budget);
      forall i | 0 <= i < |items| ensures ContentKept(items[i], items[i], items[i]) {
        NothingCut(items[i]);
      }
      return items, items;
    }
    var keys := Sort(RequiredKeys(items, |items|), RankLeq);
    SortedKeysAreASchedule(items);
    var softOut, overflow := ShedToSoftMinimums(b, items, keys, budget);
    soft := softOut;
    SoftPassShape(b, items, soft, keys, budget);
    ScheduleSurvives(b, items, soft, keys);
    out := softOut;
    if overflow > 0 {
      out := ShedToHardMinimums(b, softOut, keys, budget);
    } else {
      HardPassSkipped(b, soft, keys, budget);
    }
    HardPassShape(b, soft, out, keys, budget);
    PassesShedInOrder(b, items, soft, out, keys, budget);
    HardPassCutsInOrder(b, soft, out, keys, budget);
    SoftPassIsTight(b, items, soft, keys, budget);
    forall i | 0 <= i < |items|
      ensures Shed(b, items[i], out[i]) && out[i].Required() == soft[i].Required()
      ensures ValidUtf8(items[i].content) ==> ContentKept(items[i], soft[i], out[i])
    {
      if ValidUtf8(items[i].content) { ShedKeepsContent(b, items[i], soft[i], out[i]); }
      ShedKeepsIdentity(b, items[i], out[i]);
      assert HardShed(b, soft[i], soft[i]);
      ShedKeepsIdentity(b, items[i], soft[i]);
    }
    UncutIff(b, items, soft, out, budget);
  }

  lemma NothingCut(item: ContextItem)
    ensures ContentKept(item, item, item)
  {
  }

  lemma NothingShed(b: Builder, items: seq<ContextItem>, budget: nat)
    ensures forall i | 0 <= i < |items| :: SoftShed(b, items[i], items[i]) && HardShed(b, items[i], items[i])
    ensures forall i | 0 <= i < |items| :: Shed(b, items[i], items[i])
    ensures ShedInOrder(b, items, items) && HardCutsInOrder(b, items, items)
    ensures SoftCutsAreTight(b, items, items, budget)
  {
    hide TruncateRequired, MinimumBytes, TruncationOrder;
    forall i | 0 <= i < |items| ensures Shed(b, items[i], items[i]) {
      assert SoftShed(b, items[i], items[i]) && HardShed(b, items[i], items[i]);
    }
  }

  lemma SoftPassShape(b: Builder, items: seq<ContextItem>, soft: seq<ContextItem>, keys: seq<RankKey>, budget: nat)
    requires IsSchedule(items, keys) && SoftPass(b, items, soft, keys, |keys|, budget)
    ensures |soft| == |items| && forall i | 0 <= i < |items| :: SoftShed(b, items[i], soft[i])
    ensures RequiredSum(soft) > budget ==>
      forall i | 0 <= i < |items| && items[i].Required() :: GaveAll(b, items, soft, i)
  {
    hide TruncateRequired, MinimumBytes, RequiredSum, TruncationOrder, GaveAll, Tight, SoftShed;
    if RequiredSum(soft) > budget {
      forall i | 0 <= i < |items| && items[i].Required() ensures GaveAll(b, items, soft, i) {
        assert KeyOf(items, i) in keys;
        var k :| 0 <= k < |keys| && keys[k] == KeyOf(items, i);
        assert GaveAll(b, items, soft, keys[k].index);
      }
    }
  }

  lemma HardPassShape(b: Builder, soft: seq<ContextItem>, out: seq<ContextItem>, keys: seq<RankKey>, budget: nat)
    requires IsSchedule(soft, keys) && HardPass(b, soft, out, keys, |keys|, budget)
    ensures |out| == |soft| && forall i | 0 <= i < |soft| :: HardShed(b, soft[i], out[i])
  {
  }

  lemma HardPassSkipped(b: Builder, soft: seq<ContextItem>, keys: seq<RankKey>, budget: nat)
    requires IsSchedule(soft, keys) && RequiredSum(soft) <= budget
    ensures HardPass(b, soft, soft, keys, |keys|, budget)
  {
    hide RequiredSum, TruncateRequired, TruncationOrder;
  }
}
