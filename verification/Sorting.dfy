/**
 The source sorts with the standard library: request items by rank, JSON keys, directory entries
 and durations. Any sorting algorithm will do in the model, because over a total order the sorted
 rearrangement of a sequence is unique (`SortedIsUnique`).
 */
module Sorting {

  ghost predicate TotalOrder<T(!new)>(leq: (T, T) -> bool) {
    && (forall x, y :: leq(x, y) || leq(y, x))
    && (forall x, y :: leq(x, y) && leq(y, x) ==> x == y)
    && (forall x, y, z :: leq(x, y) && leq(y, z) ==> leq(x, z))
  }

  ghost predicate Sorted<T(!new)>(s: seq<T>, leq: (T, T) -> bool) {
    forall i, j | 0 <= i < j < |s| :: leq(s[i], s[j])
  }

  function Insert<T>(x: T, s: seq<T>, leq: (T, T) -> bool): seq<T> {
    if s == [] || leq(x, s[0]) then [x] + s else [s[0]] + Insert(x, s[1..], leq)
  }

  function Sort<T>(s: seq<T>, leq: (T, T) -> bool): seq<T> {
    if s == [] then [] else Insert(s[0], Sort(s[1..], leq), leq)
  }

  lemma {:induction false} InsertKeepsElements<T(!new)>(x: T, s: seq<T>, leq: (T, T) -> bool)
    ensures multiset(Insert(x, s, leq)) == multiset(s) + multiset{x}
  {
    if s == [] || leq(x, s[0]) {
    } else {
      InsertKeepsElements(x, s[1..], leq);
      assert s == [s[0]] + s[1..];
    }
  }

  lemma {:induction false} InsertKeepsOrder<T(!new)>(x: T, s: seq<T>, leq: (T, T) -> bool)
    requires TotalOrder(leq) && Sorted(s, leq)
    ensures Sorted(Insert(x, s, leq), leq)
  {
    if s == [] || leq(x, s[0]) {
    } else {
      InsertKeepsOrder(x, s[1..], leq);
      var t := Insert(x, s[1..], leq);
      forall k | 0 <= k < |t|
        ensures leq(s[0], t[k])
      {
        InsertKeepsElements(x, s[1..], leq);
        assert t[k] in multiset(t);
        assert t[k] in s[1..] || t[k] == x;
      }
    }
  }

  /** Sorting rearranges its input into order. */
  lemma {:induction false} SortIsCorrect<T(!new)>(s: seq<T>, leq: (T, T) -> bool)
    requires TotalOrder(leq)
    ensures Sorted(Sort(s, leq), leq)
    ensures multiset(Sort(s, leq)) == multiset(s)
    ensures |Sort(s, leq)| == |s|
  {
    if s == [] {
    } else {
      SortIsCorrect(s[1..], leq);
      InsertKeepsOrder(s[0], Sort(s[1..], leq), leq);
      InsertKeepsElements(s[0], Sort(s[1..], leq), leq);
      assert s == [s[0]] + s[1..];
    }
    assert |multiset(Sort(s, leq))| == |Sort(s, leq)|;
    assert |multiset(s)| == |s|;
  }

  lemma SameFirst<T(!new)>(a: seq<T>, b: seq<T>, leq: (T, T) -> bool)
    requires TotalOrder(leq) && Sorted(a, leq) && Sorted(b, leq) && multiset(a) == multiset(b) && a != []
    ensures b != [] && a[0] == b[0]
  {
    assert a[0] in multiset(b) by { assert a[0] in multiset(a); }
    assert b[0] in multiset(a) by { assert b[0] in multiset(b); }
    var i :| 0 <= i < |b| && b[i] == a[0];
    var j :| 0 <= j < |a| && a[j] == b[0];
    assert leq(b[0], b[i]) && leq(a[0], a[j]);
  }

  lemma WithoutFirst<T>(s: seq<T>)
    requires s != []
    ensures multiset(s[1..]) == multiset(s) - multiset{s[0]}
  {
    assert s == [s[0]] + s[1..];
  }

  /** Two sorted rearrangements of the same elements are the same sequence. */
  lemma {:induction false} SortedIsUnique<T(!new)>(a: seq<T>, b: seq<T>, leq: (T, T) -> bool)
    requires TotalOrder(leq)
    requires Sorted(a, leq) && Sorted(b, leq) && multiset(a) == multiset(b)
    ensures a == b
  {
    if a == [] {
      assert |multiset(b)| == 0;
    } else {
      SameFirst(a, b, leq);
      hide TotalOrder;
      WithoutFirst(a);
      WithoutFirst(b);
      SortedIsUnique(a[1..], b[1..], leq);
      assert a == [a[0]] + a[1..] && b == [b[0]] + b[1..];
    }
  }

  /** Sorting forgets the order its input came in. */
  lemma SortIgnoresInputOrder<T(!new)>(s: seq<T>, t: seq<T>, leq: (T, T) -> bool)
    requires TotalOrder(leq) && multiset(s) == multiset(t)
    ensures Sort(s, leq) == Sort(t, leq)
  {
    SortIsCorrect(s, leq);
    SortIsCorrect(t, leq);
    SortedIsUnique(Sort(s, leq), Sort(t, leq), leq);
  }

  // ----- ranking keys: two numbers and, to break ties, a position

  datatype RankKey = RankKey(major: int, minor: int, index: nat)

  predicate RankBefore(x: RankKey, y: RankKey) {
    x.major < y.major || (x.major == y.major &&
      (x.minor < y.minor || (x.minor == y.minor && x.index < y.index)))
  }

  predicate RankLeq(x: RankKey, y: RankKey) {
    x == y || RankBefore(x, y)
  }

  /** Positions in increasing order, each with its key. */
  ghost predicate Positions(keys: seq<RankKey>) {
    forall j, k | 0 <= j < k < |keys| :: keys[j].index < keys[k].index
  }

  lemma {:induction false} AtMostOnce(s: seq<RankKey>, x: RankKey)
    requires Positions(s)
    ensures multiset(s)[x] <= 1
  {
    if s == [] {
    } else {
      assert s == [s[0]] + s[1..];
      AtMostOnce(s[1..], x);
      if s[0] == x {
        assert x !in s[1..];
      }
    }
  }

  lemma DistinctStaysDistinct(unsorted: seq<RankKey>, keys: seq<RankKey>, j: nat, k: nat)
    requires multiset(keys) == multiset(unsorted) && j < k < |keys|
    requires Positions(unsorted)
    ensures keys[j] != keys[k]
  {
    if keys[j] == keys[k] {
      var x := keys[j];
      assert keys == keys[..k] + [keys[k]] + keys[k + 1..];
      assert x in keys[..k];
      assert multiset(keys)[x] >= 2;
      AtMostOnce(unsorted, x);
    }
  }

  /** Ranking puts every key in its place: the same keys, strictly one after the other. */
  lemma RankingIsStrict(unsorted: seq<RankKey>) returns (keys: seq<RankKey>)
    requires Positions(unsorted)
    ensures keys == Sort(unsorted, RankLeq)
    ensures forall x :: x in keys <==> x in unsorted
    ensures forall j, k | 0 <= j < k < |keys| :: RankBefore(keys[j], keys[k])
  {
    hide Sort;
    keys := Sort(unsorted, RankLeq);
    SortIsCorrect(unsorted, RankLeq);
    forall x ensures x in keys <==> x in unsorted {
      assert x in keys <==> x in multiset(keys);
      assert x in unsorted <==> x in multiset(unsorted);
    }
    forall j, k | 0 <= j < k < |keys| ensures RankBefore(keys[j], keys[k]) {
      assert RankLeq(keys[j], keys[k]);
      DistinctStaysDistinct(unsorted, keys, j, k);
    }
  }
}
