/**
 What the greedy choice guarantees: it never overspends, it leaves nothing out that would still fit,
 there is only one, and unpinned items have no say in which pinned items are taken.
 */
module ProjectionLaws {
  import opened Prelude
  import opened ContextItems
  import opened Fitting
  import opened Projection

  /** The message of the choice that is ranked last among the first `n` items, if there is one. */
  lemma {:induction false} LastMessage(items: seq<ContextItem>, chosen: set<nat>, n: nat) returns (last: Option<nat>)
    requires n <= |items|
    ensures last.None? ==> forall i | 0 <= i < n && i in chosen :: !items[i].delivery.Message?
    ensures last.Some? ==>
      && last.value < n && last.value in chosen && items[last.value].delivery.Message?
      && forall i | 0 <= i < n && i in chosen && items[i].delivery.Message? && i != last.value ::
           Ahead(items, i, last.value)
  {
    if n == 0 {
      last := None;
    } else {
      last := LastMessage(items, chosen, n - 1);
      if n - 1 in chosen && items[n - 1].delivery.Message? && (last.None? || Ahead(items, last.value, n - 1)) {
        last := Some(n - 1);
      }
    }
  }

  /** The chosen messages never cost more than the budget. */
  lemma GreedyStaysInBudget(items: seq<ContextItem>, chosen: set<nat>, budget: nat)
    requires IsGreedy(items, chosen, Some(budget))
    ensures Used(items, chosen) <= budget
  {
    var last := LastMessage(items, chosen, |items|);
    if last.None? {
      UsedMonotone(items, chosen, {}, |items|);
      NothingUsed(items, |items|);
    } else {
      var i := last.value;
      var ahead := AheadIn(items, chosen, i);
      assert Fits(items, chosen, i, Some(budget));
      UsedStep(items, ahead, i);
      UsedMonotone(items, chosen, ahead + {i}, |items|);
    }
  }

  /** An item that the budget kept out does not fit in what is left at the end either. */
  lemma NothingDroppedWouldFit(items: seq<ContextItem>, chosen: set<nat>, budget: nat, i: nat)
    requires IsGreedy(items, chosen, Some(budget))
    requires i < |items| && i !in chosen && !items[i].IsDuplicate()
    ensures items[i].delivery.Message? && Used(items, chosen) + items[i].tokenEstimate > budget
  {
    assert !Fits(items, chosen, i, Some(budget));
    UsedMonotone(items, AheadIn(items, chosen, i), chosen, |items|);
  }

  /**
   Who comes first: of two messages the pinned one, else the one with the higher priority, else the
   earlier. If the one behind is taken, so is the one in front, as long as it costs no more.
   */
  lemma FirstComeFirstServed(items: seq<ContextItem>, chosen: set<nat>, budget: Option<nat>, i: nat, j: nat)
    requires IsGreedy(items, chosen, budget) && i < |items| && j < |items|
    requires
      || (items[i].pinned && !items[j].pinned)
      || (items[i].pinned == items[j].pinned && items[i].priority > items[j].priority)
      || (items[i].pinned == items[j].pinned && items[i].priority == items[j].priority && i < j)
    requires items[i].MetaStr("context_semantic_duplicate_of").None?
    requires items[j].delivery.Message? && items[i].tokenEstimate <= items[j].tokenEstimate
    ensures j in chosen ==> i in chosen
  {
    UsedMonotone(items, AheadIn(items, chosen, i), AheadIn(items, chosen, j), |items|);
    assert Fits(items, chosen, j, budget) ==> Fits(items, chosen, i, budget);
  }

  /** Without a budget everything is taken that is no duplicate. */
  lemma NoBudgetTakesAll(items: seq<ContextItem>, chosen: set<nat>)
    requires IsGreedy(items, chosen, None)
    ensures forall i: nat | i < |items| ::
      i in chosen <==> items[i].MetaStr("context_semantic_duplicate_of").None?
  {
    forall i: nat | i < |items|
      ensures i in chosen <==> items[i].MetaStr("context_semantic_duplicate_of").None?
    {
      assert i in chosen <==> Fits(items, chosen, i, None);
    }
  }

  // ----- there is only one greedy choice

  ghost function AllAhead(items: seq<ContextItem>, i: nat): set<nat>
    requires i < |items|
  {
    set j: nat | j < |items| && Ahead(items, j, i)
  }

  lemma AheadShrinks(items: seq<ContextItem>, j: nat, i: nat)
    requires i < |items| && j < |items| && Ahead(items, j, i)
    ensures |AllAhead(items, j)| < |AllAhead(items, i)|
  {
    var x, y := AllAhead(items, j), AllAhead(items, i);
    assert x <= y && j in y - x;
    assert x < y;
    ProperSubsetIsSmaller(x, y);
  }

  lemma ProperSubsetIsSmaller(x: set<nat>, y: set<nat>)
    requires x < y
    ensures |x| < |y|
  {
    var e :| e in y - x;
    assert |y - x| > 0 && |y| == |x| + |y - x|;
  }

  lemma {:induction false} SameDecision(items: seq<ContextItem>, a: set<nat>, b: set<nat>, budget: Option<nat>, i: nat)
    requires IsGreedy(items, a, budget) && IsGreedy(items, b, budget) && i < |items|
    ensures i in a <==> i in b
    decreases |AllAhead(items, i)|
  {
    forall j | 0 <= j < |items| && Ahead(items, j, i)
      ensures j in a <==> j in b
    {
      AheadShrinks(items, j, i);
      SameDecision(items, a, b, budget, j);
    }
    assert AheadIn(items, a, i) == AheadIn(items, b, i);
    assert Fits(items, a, i, budget) <==> Fits(items, b, i, budget);
  }

  lemma GreedyIsUnique(items: seq<ContextItem>, a: set<nat>, b: set<nat>, budget: Option<nat>)
    requires IsGreedy(items, a, budget) && IsGreedy(items, b, budget)
    ensures a == b
  {
    forall i: nat ensures i in a <==> i in b {
      if i < |items| {
        SameDecision(items, a, b, budget, i);
      }
    }
  }

  // ----- the greedy choice, computed from the items alone

  ghost function TakenAhead(items: seq<ContextItem>, budget: Option<nat>, i: nat): (ahead: set<nat>)
    requires i < |items|
    decreases |AllAhead(items, i)|, 0
  {
    set j | j in AllAhead(items, i) && (AheadShrinks(items, j, i); Takes(items, budget, j))
  }

  /** Whether item `i` is taken. Only `i` and the items ranked ahead of it have a say. */
  ghost predicate Takes(items: seq<ContextItem>, budget: Option<nat>, i: nat)
    requires i < |items|
    decreases |AllAhead(items, i)|, 1
  {
    && !items[i].IsDuplicate()
    && (!items[i].delivery.Message? || budget.None? ||
        Used(items, TakenAhead(items, budget, i)) + items[i].tokenEstimate <= budget.value)
  }

  ghost function Taken(items: seq<ContextItem>, budget: Option<nat>): set<nat> {
    set i: nat | i < |items| && Takes(items, budget, i)
  }

  lemma TakenIsGreedy(items: seq<ContextItem>, budget: Option<nat>)
    ensures IsGreedy(items, Taken(items, budget), budget)
  {
    hide Used;
    var taken := Taken(items, budget);
    forall i | 0 <= i < |items| ensures i in taken <==> Fits(items, taken, i, budget) {
      assert AheadIn(items, taken, i) == TakenAhead(items, budget, i);
      assert Takes(items, budget, i) <==> Fits(items, taken, i, budget);
    }
  }

  /** There is exactly one greedy choice, and it is this one. */
  lemma GreedyIsTaken(items: seq<ContextItem>, chosen: set<nat>, budget: Option<nat>)
    ensures IsGreedy(items, chosen, budget) <==> chosen == Taken(items, budget)
  {
    hide IsGreedy, Taken;
    TakenIsGreedy(items, budget);
    if IsGreedy(items, chosen, budget) {
      GreedyIsUnique(items, chosen, Taken(items, budget), budget);
    }
  }

  // ----- required items

  ghost function RequiredOriginals(items: seq<ContextItem>): set<nat> {
    set i: nat | i < |items| && items[i].Required() && !items[i].IsDuplicate()
  }

  lemma RequiredCome(items: seq<ContextItem>, chosen: set<nat>, budget: nat, i: nat)
    requires IsGreedy(items, chosen, Some(budget)) && i in RequiredOriginals(items)
    requires Used(items, RequiredOriginals(items)) <= budget
    ensures i in chosen
  {
    var required := RequiredOriginals(items);
    var ahead := AheadIn(items, chosen, i);
    assert forall j | j in ahead && items[j].delivery.Message? :: j in required by {
      forall j | j in ahead && items[j].delivery.Message? ensures j in required {
        assert Fits(items, chosen, j, Some(budget));
      }
    }
    UsedStep(items, ahead, i);
    UsedMonotone(items, ahead + {i}, required, |items|);
  }

  /** All required items that are no duplicates get in exactly when together they fit the budget. */
  lemma RequiredAllIncludedIff(items: seq<ContextItem>, chosen: set<nat>, budget: nat)
    requires IsGreedy(items, chosen, Some(budget))
    ensures RequiredOriginals(items) <= chosen <==> Used(items, RequiredOriginals(items)) <= budget
  {
    var required := RequiredOriginals(items);
    if Used(items, required) <= budget {
      forall i | i in required ensures i in chosen {
        RequiredCome(items, chosen, budget, i);
      }
    }
    if required <= chosen {
      UsedMonotone(items, required, chosen, |items|);
      GreedyStaysInBudget(items, chosen, budget);
    }
  }

  lemma {:induction false} OriginalsCostAtMostTheSum(items: seq<ContextItem>, n: nat)
    requires n <= |items|
    ensures UsedUpTo(items, RequiredOriginals(items), n) <= RequiredSum(items[..n])
  {
    if n == 0 {
    } else {
      OriginalsCostAtMostTheSum(items, n - 1);
      RequiredSumAppend(items[..n - 1], items[n - 1]);
      assert items[..n] == items[..n - 1] + [items[n - 1]];
    }
  }

  /** The required sum is what the pinned messages would use, duplicates included. */
  lemma {:induction false} RequiredSumIsUsed(items: seq<ContextItem>, n: nat)
    requires n <= |items|
    ensures RequiredSum(items[..n])
         == UsedUpTo(items, (set i: nat | i < |items| && items[i].pinned && items[i].delivery.Message?), n)
  {
    if n == 0 {
    } else {
      RequiredSumIsUsed(items, n - 1);
      RequiredSumAppend(items[..n - 1], items[n - 1]);
      assert items[..n] == items[..n - 1] + [items[n - 1]];
    }
  }

  lemma {:induction false} RequiredSumAppend(items: seq<ContextItem>, x: ContextItem)
    ensures RequiredSum(items + [x]) == RequiredSum(items) + Weight(x)
  {
    if items == [] {
      assert items + [x] == [x];
    } else {
      assert (items + [x])[1..] == items[1..] + [x];
      RequiredSumAppend(items[1..], x);
    }
  }

  // ----- unpinned items have no say

  ghost function PinnedIndices(items: seq<ContextItem>, n: nat): (at: seq<nat>)
    requires n <= |items|
    ensures forall k | 0 <= k < |at| :: at[k] < n && items[at[k]].pinned
    ensures forall j, k | 0 <= j < k < |at| :: at[j] < at[k]
    ensures forall i | 0 <= i < n && items[i].pinned :: i in at
  {
    if n == 0 then []
    else if items[n - 1].pinned then PinnedIndices(items, n - 1) + [n - 1]
    else PinnedIndices(items, n - 1)
  }

  /** The list with every unpinned item removed. */
  ghost function PinnedItems(items: seq<ContextItem>): (pinned: seq<ContextItem>)
    ensures |pinned| == |PinnedIndices(items, |items|)|
    ensures forall k | 0 <= k < |pinned| :: pinned[k] == items[PinnedIndices(items, |items|)[k]]
  {
    var at := PinnedIndices(items, |items|);
    seq(|at|, k requires 0 <= k < |at| => items[at[k]])
  }

  /** The decisions about the pinned items, by their place among the pinned items. */
  ghost function PinnedChoice(items: seq<ContextItem>, chosen: set<nat>): set<nat> {
    var at := PinnedIndices(items, |items|);
    set k: nat | k < |at| && at[k] in chosen
  }

  lemma {:induction false} UsedThroughPinned(items: seq<ContextItem>, s: set<nat>)
    requires forall k | k in s :: k < |PinnedItems(items)|
    ensures var at := PinnedIndices(items, |items|);
      Used(PinnedItems(items), s) == Used(items, set k | k in s :: at[k])
    decreases |s|
  {
    hide PinnedIndices, PinnedItems, Used;
    var at := PinnedIndices(items, |items|);
    var pinned := PinnedItems(items);
    var whole := set k | k in s :: at[k];
    if s == {} {
      assert whole == {};
      NothingUsed(items, |items|);
      NothingUsed(pinned, |pinned|);
    } else {
      var e :| e in s;
      var rest := s - {e};
      UsedThroughPinned(items, rest);
      UsedStep(pinned, rest, e);
      var image := set k | k in rest :: at[k];
      assert at[e] !in image;
      UsedStep(items, image, at[e]);
      assert rest + {e} == s;
      assert image + {at[e]} == whole;
    }
  }

  /** Only pinned items are ever ahead of a pinned item, so its decision survives their removal. */
  lemma PinnedChoiceIsGreedy(items: seq<ContextItem>, chosen: set<nat>, budget: Option<nat>)
    requires IsGreedy(items, chosen, budget)
    ensures IsGreedy(PinnedItems(items), PinnedChoice(items, chosen), budget)
  {
    hide Used;
    var at := PinnedIndices(items, |items|);
    var pinned, choice := PinnedItems(items), PinnedChoice(items, chosen);
    forall k | 0 <= k < |pinned| ensures k in choice <==> Fits(pinned, choice, k, budget) {
      var ahead := AheadIn(pinned, choice, k);
      UsedThroughPinned(items, ahead);
      AheadThroughPinned(items, chosen, k);
      assert Fits(pinned, choice, k, budget) <==> Fits(items, chosen, at[k], budget);
    }
  }

  lemma AheadThroughPinned(items: seq<ContextItem>, chosen: set<nat>, k: nat)
    requires k < |PinnedItems(items)|
    ensures var at := PinnedIndices(items, |items|);
      (set j | j in AheadIn(PinnedItems(items), PinnedChoice(items, chosen), k) :: at[j])
        == AheadIn(items, chosen, at[k])
  {
    hide PinnedIndices, PinnedItems, Ahead;
    var at := PinnedIndices(items, |items|);
    var pinned, choice := PinnedItems(items), PinnedChoice(items, chosen);
    var image := set j | j in AheadIn(pinned, choice, k) :: at[j];
    forall j: nat | j < |pinned| ensures Ahead(pinned, j, k) <==> Ahead(items, at[j], at[k]) {
      AheadOfPinned(items, j, k);
    }
    forall i | i in AheadIn(items, chosen, at[k]) ensures i in image {
      assert items[i].pinned by { PinnedAhead(items, i, at[k]); }
      var j :| 0 <= j < |at| && at[j] == i;
      assert Ahead(pinned, j, k) <==> Ahead(items, at[j], at[k]);
      assert j in AheadIn(pinned, choice, k);
    }
  }

  lemma AheadOfPinned(items: seq<ContextItem>, j: nat, k: nat)
    requires j < |PinnedItems(items)| && k < |PinnedItems(items)|
    ensures var at := PinnedIndices(items, |items|);
      Ahead(PinnedItems(items), j, k) <==> Ahead(items, at[j], at[k])
  {
    hide PinnedIndices, PinnedItems;
  }

  lemma PinnedAhead(items: seq<ContextItem>, i: nat, j: nat)
    requires i < |items| && j < |items| && Ahead(items, i, j) && items[j].pinned
    ensures items[i].pinned
  {
  }

  /** Item lists that agree on their pinned items agree on which of them are included. */
  lemma UnpinnedItemsHaveNoSay(x: seq<ContextItem>, a: set<nat>, y: seq<ContextItem>, b: set<nat>, budget: Option<nat>)
    requires IsGreedy(x, a, budget) && IsGreedy(y, b, budget)
    requires PinnedItems(x) == PinnedItems(y)
    ensures PinnedChoice(x, a) == PinnedChoice(y, b)
  {
    PinnedChoiceIsGreedy(x, a, budget);
    PinnedChoiceIsGreedy(y, b, budget);
    GreedyIsUnique(PinnedItems(x), PinnedChoice(x, a), PinnedChoice(y, b), budget);
  }
}
