/**
 Deduplication by id and by meaning (src/core.rs:1662-1706). By id, the best-ranked copy takes the
 place of the first. By meaning, the first copy wins whatever its rank, and later ones are marked.
 */
module Deduplication {
  import opened Prelude
  import opened Json
  import opened ContextItems
  import opened Projection

  /** `item_rank` of `x` is above that of `y`: pinned, then priority, then estimate. */
  predicate Outranks(x: ContextItem, y: ContextItem) {
    || (x.pinned && !y.pinned)
    || (x.pinned == y.pinned && (x.priority > y.priority ||
         (x.priority == y.priority && x.tokenEstimate > y.tokenEstimate)))
  }

  ghost predicate HasId(items: seq<ContextItem>, id: string) {
    exists i | 0 <= i < |items| :: items[i].id == id
  }

  /** Where an id first appears. */
  ghost function FirstAt(items: seq<ContextItem>, id: string): (i: nat)
    requires HasId(items, id)
    ensures i < |items| && items[i].id == id && forall j | 0 <= j < i :: items[j].id != id
  {
    if items[0].id == id then 0
    else
      assert HasId(items[1..], id) by {
        var i :| 0 <= i < |items| && items[i].id == id;
        assert items[1..][i - 1].id == id;
      }
      1 + FirstAt(items[1..], id)
  }

  /** Among the first `n` items, `best` is the earliest of those with its id that none outranks. */
  ghost predicate IsBest(items: seq<ContextItem>, n: nat, best: ContextItem)
    requires n <= |items|
  {
    exists j | 0 <= j < n :: items[j] == best && BestAt(items, n, j)
  }

  ghost predicate BestAt(items: seq<ContextItem>, n: nat, j: nat)
    requires n <= |items| && j < |items|
  {
    forall i | 0 <= i < n && items[i].id == items[j].id ::
      !Outranks(items[i], items[j]) && (i < j ==> Outranks(items[j], items[i]))
  }

  /** The ids of the first `n` items in order of first appearance. */
  ghost predicate OrderedSoFar(items: seq<ContextItem>, n: nat, order: seq<string>)
    requires n <= |items|
  {
    && (forall i | 0 <= i < n :: items[i].id in order)
    && (forall k | 0 <= k < |order| :: HasId(items, order[k]) && FirstAt(items, order[k]) < n)
    && (forall k, l | 0 <= k < l < |order| :: FirstAt(items, order[k]) < FirstAt(items, order[l]))
  }

  ghost predicate BestSoFar(items: seq<ContextItem>, n: nat, byId: map<string, ContextItem>)
    requires n <= |items|
  {
    && (forall i | 0 <= i < n :: items[i].id in byId)
    && (forall id | id in byId :: byId[id].id == id && IsBest(items, n, byId[id]))
  }

  lemma FirstSeenHere(items: seq<ContextItem>, n: nat)
    requires n < |items| && forall i | 0 <= i < n :: items[i].id != items[n].id
    ensures HasId(items, items[n].id) && FirstAt(items, items[n].id) == n
  {
    hide FirstAt;
  }

  lemma OrderStep(items: seq<ContextItem>, n: nat, order: seq<string>)
    requires n < |items| && OrderedSoFar(items, n, order)
    ensures OrderedSoFar(items, n + 1, if items[n].id in order then order else order + [items[n].id])
  {
    hide FirstAt, HasId;
    if items[n].id !in order {
      FirstSeenHere(items, n);
      OneMoreId(items, n, order, items[n].id);
    }
  }

  lemma OneMoreId(items: seq<ContextItem>, n: nat, order: seq<string>, id: string)
    requires n < |items| && items[n].id == id && OrderedSoFar(items, n, order)
    requires HasId(items, id) && FirstAt(items, id) == n
    ensures OrderedSoFar(items, n + 1, order + [id])
  {
    hide FirstAt, HasId;
    var next := order + [id];
    assert forall k | 0 <= k < |order| :: next[k] == order[k];
    forall k, l | 0 <= k < l < |next| ensures FirstAt(items, next[k]) < FirstAt(items, next[l]) {
      assert l < |order| ==> FirstAt(items, order[k]) < FirstAt(items, order[l]);
    }
  }

  /** How the best copies change when one more item is seen. */
  lemma BestStep(items: seq<ContextItem>, n: nat, byId: map<string, ContextItem>)
    requires n < |items| && BestSoFar(items, n, byId)
    ensures var item := items[n];
      BestSoFar(items, n + 1,
                if item.id !in byId || Outranks(item, byId[item.id]) then byId[item.id := item] else byId)
  {
    hide IsBest;
    var item := items[n];
    forall id | id in byId && (id != item.id || !Outranks(item, byId[id]))
      ensures IsBest(items, n + 1, byId[id])
    {
      BestStays(items, n, byId[id]);
    }
    if item.id !in byId || Outranks(item, byId[item.id]) {
      NewBest(items, n, if item.id in byId then Some(byId[item.id]) else None);
    }
  }

  lemma BestStays(items: seq<ContextItem>, n: nat, best: ContextItem)
    requires n < |items| && IsBest(items, n, best)
    requires items[n].id == best.id ==> !Outranks(items[n], best)
    ensures IsBest(items, n + 1, best)
  {
    var j :| 0 <= j < n && items[j] == best && BestAt(items, n, j);
    assert BestAt(items, n + 1, j);
  }

  lemma NewBest(items: seq<ContextItem>, n: nat, best: Option<ContextItem>)
    requires n < |items|
    requires best.None? ==> forall i | 0 <= i < n :: items[i].id != items[n].id
    requires best.Some? ==>
      best.value.id == items[n].id && IsBest(items, n, best.value) && Outranks(items[n], best.value)
    ensures IsBest(items, n + 1, items[n])
  {
    if best.Some? {
      var j :| 0 <= j < n && items[j] == best.value && BestAt(items, n, j);
      forall i | 0 <= i < n && items[i].id == items[n].id ensures Outranks(items[n], items[i]) {
        assert !Outranks(items[i], items[j]);
      }
    }
    assert BestAt(items, n + 1, n);
  }

  /**
   One item per id, in the order in which the ids first appear, and for each id the earliest of its
   best-ranked copies.
   */
  ghost predicate IsDeduped(items: seq<ContextItem>, out: seq<ContextItem>) {
    && UniqueIds(out)
    && (forall k | 0 <= k < |out| :: IsBest(items, |items|, out[k]) && HasId(items, out[k].id))
    && (forall i | 0 <= i < |items| :: HasId(out, items[i].id))
    && (forall k, l | 0 <= k < l < |out| :: FirstAt(items, out[k].id) < FirstAt(items, out[l].id))
  }

  /** `dedupe_items`. */
  method DedupeItems(items: seq<ContextItem>) returns (out: seq<ContextItem>)
    ensures IsDeduped(items, out)
  {
    hide FirstAt, IsBest, Outranks, OrderedSoFar, BestSoFar;
    var byId: map<string, ContextItem> := map[];
    var order: seq<string> := [];
    NothingCollected(items);
    for n := 0 to |items|
      invariant OrderedSoFar(items, n, order) && BestSoFar(items, n, byId)
      invariant forall id :: id in order <==> id in byId
    {
      var item := items[n];
      OrderStep(items, n, order);
      BestStep(items, n, byId);
      if item.id in byId {
        if Outranks(item, byId[item.id]) {
          byId := byId[item.id := item];
        }
      } else {
        order := order + [item.id];
        byId := byId[item.id := item];
      }
    }
    ghost var all := byId;
    OrderIsDistinct(items, order);
    out := [];
    for k := 0 to |order|
      invariant |out| == k
      invariant forall l | 0 <= l < k :: out[l] == all[order[l]]
      invariant forall l | k <= l < |order| :: order[l] in byId && byId[order[l]] == all[order[l]]
    {
      if order[k] in byId {
        out := out + [byId[order[k]]];
        byId := byId - {order[k]};
      }
    }
    AllCollected(items, all, order, out);
  }

  lemma NothingCollected(items: seq<ContextItem>)
    ensures OrderedSoFar(items, 0, []) && BestSoFar(items, 0, map[])
  {
  }

  lemma OrderIsDistinct(items: seq<ContextItem>, order: seq<string>)
    requires OrderedSoFar(items, |items|, order)
    ensures forall k, l | 0 <= k < l < |order| :: order[k] != order[l]
  {
    hide FirstAt;
  }

  lemma AllCollected(items: seq<ContextItem>, byId: map<string, ContextItem>, order: seq<string>, out: seq<ContextItem>)
    requires OrderedSoFar(items, |items|, order) && BestSoFar(items, |items|, byId)
    requires forall id :: id in order <==> id in byId
    requires |out| == |order| && forall l | 0 <= l < |order| :: out[l] == byId[order[l]]
    ensures IsDeduped(items, out)
  {
    hide FirstAt, HasId, IsBest, OrderedSoFar, BestSoFar;
    assert forall l | 0 <= l < |out| :: out[l].id == order[l] && IsBest(items, |items|, out[l]) by {
      BestFacts(items, byId);
    }
    OrderIsDistinct(items, order);
    OrderFacts(items, order);
    forall i | 0 <= i < |items| ensures HasId(out, items[i].id) {
      assert items[i].id in order;
      IdAt(out, order, items[i].id);
    }
    forall k | 0 <= k < |out| ensures HasId(items, out[k].id) {
      assert HasId(items, order[k]);
    }
    forall k, l | 0 <= k < l < |out| ensures FirstAt(items, out[k].id) < FirstAt(items, out[l].id) {
      assert FirstAt(items, order[k]) < FirstAt(items, order[l]);
    }
  }

  lemma IdAt(out: seq<ContextItem>, order: seq<string>, id: string)
    requires |out| == |order| && id in order && forall l | 0 <= l < |out| :: out[l].id == order[l]
    ensures HasId(out, id)
  {
    var l :| 0 <= l < |order| && order[l] == id;
    assert out[l].id == id;
  }

  lemma BestFacts(items: seq<ContextItem>, byId: map<string, ContextItem>)
    requires BestSoFar(items, |items|, byId)
    ensures forall id | id in byId :: byId[id].id == id && IsBest(items, |items|, byId[id])
  {
    hide IsBest;
  }

  lemma OrderFacts(items: seq<ContextItem>, order: seq<string>)
    requires OrderedSoFar(items, |items|, order)
    ensures forall i | 0 <= i < |items| :: items[i].id in order
    ensures forall k | 0 <= k < |order| :: HasId(items, order[k])
    ensures forall k, l | 0 <= k < l < |order| :: FirstAt(items, order[k]) < FirstAt(items, order[l])
  {
    hide FirstAt;
  }

  lemma OneBestPlace(items: seq<ContextItem>, i: nat, j: nat)
    requires i < |items| && j < |items| && items[i].id == items[j].id
    requires BestAt(items, |items|, i) && BestAt(items, |items|, j)
    ensures i == j
  {
    hide Outranks;
  }

  /** An item is kept exactly when no item with its id outranks it and it outranks all earlier ones. */
  lemma KeptIffBest(items: seq<ContextItem>, out: seq<ContextItem>, q: nat)
    requires IsDeduped(items, out) && q < |items|
    ensures items[q] in out <==> IsBest(items, |items|, items[q])
  {
    hide FirstAt, UniqueIds, Outranks, BestAt;
    if IsBest(items, |items|, items[q]) {
      var j :| 0 <= j < |items| && items[j] == items[q] && BestAt(items, |items|, j);
      var k :| 0 <= k < |out| && out[k].id == items[q].id;
      var i :| 0 <= i < |items| && items[i] == out[k] && BestAt(items, |items|, i);
      OneBestPlace(items, i, j);
    }
  }

  /** An item that differs from all others is dropped exactly when another one with its id takes its place. */
  lemma DroppedIff(items: seq<ContextItem>, out: seq<ContextItem>, q: nat)
    requires IsDeduped(items, out) && q < |items|
    requires forall p | 0 <= p < |items| && p != q :: items[p] != items[q]
    ensures items[q] !in out <==>
      exists p | 0 <= p < |items| && p != q && items[p].id == items[q].id ::
        if p < q then !Outranks(items[q], items[p]) else Outranks(items[p], items[q])
  {
    hide FirstAt, UniqueIds, Outranks, IsDeduped;
    KeptIffBest(items, out, q);
    assert IsBest(items, |items|, items[q]) <==> BestAt(items, |items|, q);
    BestAtMeans(items, q);
  }

  /**
   Who is dropped for whom: an unpinned copy for a pinned one, else the lower priority for the higher, else
   the lower estimate for the higher, and between equals the later for the earlier.
   */
  lemma BetterCopyWins(items: seq<ContextItem>, out: seq<ContextItem>, p: nat, q: nat)
    requires IsDeduped(items, out) && p < |items| && q < |items| && p != q
    requires items[p].id == items[q].id && items[p] != items[q]
    requires var x, y := items[p], items[q];
      || (x.pinned && !y.pinned)
      || (x.pinned == y.pinned && x.priority > y.priority)
      || (x.pinned == y.pinned && x.priority == y.priority && x.tokenEstimate > y.tokenEstimate)
      || (x.pinned == y.pinned && x.priority == y.priority && x.tokenEstimate == y.tokenEstimate
          && p < q && forall j | 0 <= j < p :: items[j] != y)
    ensures items[q] !in out
  {
    hide IsDeduped;
    KeptIffBest(items, out, q);
  }

  lemma BestAtMeans(items: seq<ContextItem>, q: nat)
    requires q < |items|
    ensures BestAt(items, |items|, q) <==>
      forall p | 0 <= p < |items| && p != q && items[p].id == items[q].id ::
        if p < q then Outranks(items[q], items[p]) else !Outranks(items[p], items[q])
  {
  }

  lemma {:induction false} IncreasingOnto(f: seq<nat>, n: nat)
    requires forall j, k | 0 <= j < k < |f| :: f[j] < f[k]
    requires (forall k | 0 <= k < |f| :: f[k] < n) && forall i: nat | i < n :: i in f
    ensures |f| == n && forall k | 0 <= k < n :: f[k] == k
  {
    if f == [] {
      assert n > 0 ==> n - 1 in f;
    } else {
      var m := |f| - 1;
      assert f[m] < n && n - 1 in f;
      assert f[m] == n - 1;
      forall i: nat | i < n - 1 ensures i in f[..m] {
        assert i in f;
      }
      IncreasingOnto(f[..m], n - 1);
    }
  }

  /** Items whose ids are all different stay as they are. */
  lemma UniqueItemsStay(items: seq<ContextItem>, out: seq<ContextItem>)
    requires IsDeduped(items, out) && UniqueIds(items)
    ensures out == items
  {
    hide FirstAt, Outranks;
    var f := seq(|out|, k requires 0 <= k < |out| => FirstAt(items, out[k].id));
    forall k | 0 <= k < |out| ensures f[k] < |items| && out[k] == items[f[k]] {
      assert IsBest(items, |items|, out[k]);
      var j :| 0 <= j < |items| && items[j] == out[k];
      assert f[k] == j;
    }
    forall i: nat | i < |items| ensures i in f {
      assert HasId(out, items[i].id);
      var k :| 0 <= k < |out| && out[k].id == items[i].id;
      assert f[k] == i;
    }
    IncreasingOnto(f, |items|);
  }

  // ----- by meaning

  type Fingerprint = ContextItem -> Option<string>

  /** An earlier item means the same. */
  ghost predicate IsRepeat(items: seq<ContextItem>, fingerprint: Fingerprint, i: nat)
    requires i < |items|
  {
    fingerprint(items[i]).Some? && exists j | 0 <= j < i :: fingerprint(items[j]) == fingerprint(items[i])
  }

  /** The first item that means the same as item `i`. */
  ghost function Winner(items: seq<ContextItem>, fingerprint: Fingerprint, i: nat): (w: nat)
    requires i < |items|
    ensures w <= i && fingerprint(items[w]) == fingerprint(items[i])
    ensures forall j | 0 <= j < w :: fingerprint(items[j]) != fingerprint(items[i])
  {
    FirstMeaning(items, fingerprint, fingerprint(items[i]), i)
  }

  ghost function FirstMeaning(
    items: seq<ContextItem>, fingerprint: Fingerprint, meaning: Option<string>, i: nat): (w: nat)
    requires i < |items| && fingerprint(items[i]) == meaning
    ensures w <= i && fingerprint(items[w]) == meaning && forall j | 0 <= j < w :: fingerprint(items[j]) != meaning
  {
    if exists j | 0 <= j < i :: fingerprint(items[j]) == meaning
    then var j :| 0 <= j < i && fingerprint(items[j]) == meaning; FirstMeaning(items, fingerprint, meaning, j)
    else i
  }

  function MarkDuplicate(item: ContextItem, winnerId: string, meaning: string): ContextItem {
    item.(metadata := item.metadata
      ["context_semantic_duplicate_of" := Str(winnerId)]
      ["context_semantic_fingerprint" := Str(meaning)])
  }

  ghost predicate MarkedAt(items: seq<ContextItem>, fingerprint: Fingerprint, i: nat, after: ContextItem)
    requires i < |items|
  {
    after == if IsRepeat(items, fingerprint, i)
             then MarkDuplicate(items[i], items[Winner(items, fingerprint, i)].id, fingerprint(items[i]).value)
             else items[i]
  }

  ghost predicate Marks(items: seq<ContextItem>, fingerprint: Fingerprint, out: seq<ContextItem>) {
    && |out| == |items|
    && forall i | 0 <= i < |items| :: MarkedAt(items, fingerprint, i, out[i])
  }

  ghost predicate IsRecorded(items: seq<ContextItem>, fingerprint: Fingerprint, winners: map<string, string>, k: nat)
    requires k < |items|
  {
    var meaning := fingerprint(items[k]);
    meaning.Some? ==> meaning.value in winners && winners[meaning.value] == items[Winner(items, fingerprint, k)].id
  }

  ghost predicate IsSeen(items: seq<ContextItem>, fingerprint: Fingerprint, n: nat, meaning: string)
    requires n <= |items|
  {
    exists k | 0 <= k < n :: fingerprint(items[k]) == Some(meaning)
  }

  /** The table of winners after `n` items: every meaning seen, with the id of its first item. */
  ghost predicate WinnersSoFar(items: seq<ContextItem>, fingerprint: Fingerprint, n: nat, winners: map<string, string>)
    requires n <= |items|
  {
    && (forall k | 0 <= k < n :: IsRecorded(items, fingerprint, winners, k))
    && (forall meaning | meaning in winners :: IsSeen(items, fingerprint, n, meaning))
  }

  lemma TableShowsRepeats(items: seq<ContextItem>, fingerprint: Fingerprint, n: nat, winners: map<string, string>)
    requires n < |items| && WinnersSoFar(items, fingerprint, n, winners) && fingerprint(items[n]).Some?
    ensures var meaning := fingerprint(items[n]).value;
      && (meaning in winners <==> IsRepeat(items, fingerprint, n))
      && (meaning in winners ==> winners[meaning] == items[Winner(items, fingerprint, n)].id)
      && (meaning !in winners ==> Winner(items, fingerprint, n) == n)
  {
    hide Winner;
    var meaning := fingerprint(items[n]).value;
    if meaning in winners {
      assert IsSeen(items, fingerprint, n, meaning);
      var k :| 0 <= k < n && fingerprint(items[k]) == Some(meaning);
      SameWinner(items, fingerprint, k, n);
      assert IsRecorded(items, fingerprint, winners, k);
    } else {
      forall j | 0 <= j < n ensures fingerprint(items[j]) != Some(meaning) {
        assert IsRecorded(items, fingerprint, winners, j);
      }
    }
  }

  lemma WinnersStep(items: seq<ContextItem>, fingerprint: Fingerprint, n: nat, winners: map<string, string>)
    requires n < |items| && WinnersSoFar(items, fingerprint, n, winners)
    ensures var meaning := fingerprint(items[n]);
      WinnersSoFar(items, fingerprint, n + 1,
                   if meaning.None? || meaning.value in winners then winners
                   else winners[meaning.value := items[n].id])
  {
    hide IsRecorded, IsSeen, Winner;
    var meaning := fingerprint(items[n]);
    var next := if meaning.None? || meaning.value in winners then winners
                else winners[meaning.value := items[n].id];
    forall k | 0 <= k < n + 1 ensures IsRecorded(items, fingerprint, next, k) {
      if k < n {
        assert IsRecorded(items, fingerprint, winners, k);
        StillRecorded(items, fingerprint, winners, next, k);
      } else {
        NowRecorded(items, fingerprint, n, winners);
      }
    }
    forall p | p in next ensures IsSeen(items, fingerprint, n + 1, p) {
      assert p in winners ==> IsSeen(items, fingerprint, n, p);
      StillSeen(items, fingerprint, n, p);
    }
  }

  lemma StillRecorded(items: seq<ContextItem>, fingerprint: Fingerprint, winners: map<string, string>,
                      next: map<string, string>, k: nat)
    requires k < |items| && IsRecorded(items, fingerprint, winners, k)
    requires forall p | p in winners :: p in next && next[p] == winners[p]
    ensures IsRecorded(items, fingerprint, next, k)
  {
    hide Winner;
  }

  lemma NowRecorded(items: seq<ContextItem>, fingerprint: Fingerprint, n: nat, winners: map<string, string>)
    requires n < |items| && WinnersSoFar(items, fingerprint, n, winners)
    ensures var meaning := fingerprint(items[n]);
      IsRecorded(items, fingerprint,
                 if meaning.None? || meaning.value in winners then winners
                 else winners[meaning.value := items[n].id], n)
  {
    hide Winner, WinnersSoFar;
    if fingerprint(items[n]).Some? {
      TableShowsRepeats(items, fingerprint, n, winners);
    }
  }

  lemma StillSeen(items: seq<ContextItem>, fingerprint: Fingerprint, n: nat, meaning: string)
    requires n < |items|
    ensures IsSeen(items, fingerprint, n, meaning) || fingerprint(items[n]) == Some(meaning)
      ==> IsSeen(items, fingerprint, n + 1, meaning)
  {
    if k :| 0 <= k < n && fingerprint(items[k]) == Some(meaning) {
      assert k < n + 1;
    }
  }

  /** `semantic_dedupe_items`: every repeat is marked with the id of the first item that means the same. */
  method SemanticDedupeItems(items: seq<ContextItem>, fingerprint: Fingerprint) returns (out: seq<ContextItem>)
    ensures Marks(items, fingerprint, out)
    ensures UniqueIds(items) ==> UniqueIds(out)
  {
    hide Winner, WinnersSoFar, IsRepeat;
    var winners: map<string, string> := map[];
    out := [];
    assert WinnersSoFar(items, fingerprint, 0, winners) by { NoWinners(items, fingerprint); }
    for i := 0 to |items|
      invariant |out| == i && WinnersSoFar(items, fingerprint, i, winners)
      invariant forall k | 0 <= k < i :: MarkedAt(items, fingerprint, k, out[k])
    {
      var item := items[i];
      WinnersStep(items, fingerprint, i, winners);
      var meaning := fingerprint(item);
      if meaning.Some? { TableShowsRepeats(items, fingerprint, i, winners); }
      if meaning.None? {
        NotARepeat(items, fingerprint, i);
        out := out + [item];
      } else if meaning.value in winners {
        out := out + [MarkDuplicate(item, winners[meaning.value], meaning.value)];
      } else {
        winners := winners[meaning.value := item.id];
        out := out + [item];
      }
    }
    assert forall k | 0 <= k < |out| :: MarkedAt(items, fingerprint, k, out[k]) && out[k].id == items[k].id;
  }

  /** A repeat names the first item of its meaning and that meaning; nothing else about it changes. */
  lemma RepeatsNameTheFirst(items: seq<ContextItem>, fingerprint: Fingerprint, out: seq<ContextItem>, i: nat)
    requires Marks(items, fingerprint, out) && i < |items|
    ensures |out| == |items| && out[i] == items[i].(metadata := out[i].metadata)
    ensures forall key | key !in {"context_semantic_duplicate_of", "context_semantic_fingerprint"} ::
      (key in out[i].metadata <==> key in items[i].metadata)
      && (key in items[i].metadata ==> out[i].metadata[key] == items[i].metadata[key])
    ensures forall w | 0 <= w < i && fingerprint(items[w]).Some? && fingerprint(items[w]) == fingerprint(items[i])
                       && (forall j | 0 <= j < w :: fingerprint(items[j]) != fingerprint(items[i])) ::
      && out[i].MetaStr("context_semantic_duplicate_of") == Some(items[w].id)
      && out[i].MetaStr("context_semantic_fingerprint") == fingerprint(items[i])
    ensures (fingerprint(items[i]).None? || forall j | 0 <= j < i :: fingerprint(items[j]) != fingerprint(items[i])) ==>
      out[i] == items[i]
  {
    hide Winner;
    assert MarkedAt(items, fingerprint, i, out[i]);
    assert |"context_semantic_duplicate_of"| == 29 && |"context_semantic_fingerprint"| == 28;
  }

  lemma NoWinners(items: seq<ContextItem>, fingerprint: Fingerprint)
    ensures WinnersSoFar(items, fingerprint, 0, map[])
  {
  }

  lemma NotARepeat(items: seq<ContextItem>, fingerprint: Fingerprint, i: nat)
    requires i < |items| && fingerprint(items[i]).None?
    ensures !IsRepeat(items, fingerprint, i)
  {
  }

  lemma SameWinner(items: seq<ContextItem>, fingerprint: Fingerprint, k: nat, i: nat)
    requires k < i < |items| && fingerprint(items[k]) == fingerprint(items[i])
    ensures Winner(items, fingerprint, k) == Winner(items, fingerprint, i)
  {
  }
}
