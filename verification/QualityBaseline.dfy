/**
 The baseline of a quality gate (eval/src/evidence.rs:269-299, 389-397): totals that stop at the largest
 64-bit number, and the 95th percentile of the durations by the nearest-rank rule.
 */
module QualityBaseline {
  import opened Prelude
  import opened Json
  import opened Sorting

  const U64_MAX: nat := 0xFFFF_FFFF_FFFF_FFFF

  type u64 = x: nat | x <= U64_MAX

  function Saturated(n: nat): u64 {
    if n <= U64_MAX then n else U64_MAX
  }

  predicate Leq(x: u64, y: u64) {
    x <= y
  }

  // ----- the nearest rank

  /** Counting from one. Indices are 64 bits wide, like the values. */
  function Rank(n: nat): nat {
    Saturated(Saturated(95 * n) + 99) / 100
  }

  lemma RankBounds(n: nat)
    requires n > 0
    ensures 1 <= Rank(n) <= n
    ensures 100 * (Rank(n) - 1) < 95 * n
    ensures 100 * Rank(n) >= 95 * n <==> 95 * n <= 100 * (U64_MAX / 100)
  {}

  function Percentile95(values: seq<u64>): (r: u64) {
    if values == [] then 0
    else
      SortIsCorrect(values, Leq);
      RankBounds(|values|);
      Sort(values, Leq)[Rank(|values|) - 1]
  }

  /** `nearest_rank_95`. */
  method NearestRank95(values: seq<u64>) returns (r: u64)
    ensures r == Percentile95(values)
  {
    hide Sort;
    if values == [] {
      return 0;
    }
    var sorted := Sort(values, Leq);
    SortIsCorrect(values, Leq);
    RankBounds(|values|);
    var rank := Saturated(Saturated(95 * |sorted|) + 99) / 100;
    var index := (if rank > 1 then rank else 1) - 1;
    r := sorted[if index < |sorted| - 1 then index else |sorted| - 1];
  }

  function CountBelow(values: seq<u64>, bound: nat): (count: nat)
    ensures count <= |values|
  {
    if values == [] then 0 else (if values[0] < bound then 1 else 0) + CountBelow(values[1..], bound)
  }

  /** How many values are not above `r`. */
  function CountAtMost(values: seq<u64>, r: u64): nat {
    CountBelow(values, r + 1)
  }

  lemma {:induction false} CountConcat(a: seq<u64>, b: seq<u64>, bound: nat)
    ensures CountBelow(a + b, bound) == CountBelow(a, bound) + CountBelow(b, bound)
  {
    if a == [] {
      assert a + b == b;
    } else {
      assert (a + b)[1..] == a[1..] + b;
      CountConcat(a[1..], b, bound);
    }
  }

  lemma {:induction false} CountAll(values: seq<u64>, bound: nat)
    ensures (forall x | x in values :: x < bound) ==> CountBelow(values, bound) == |values|
    ensures (forall x | x in values :: x >= bound) ==> CountBelow(values, bound) == 0
  {
    if values == [] {
    } else {
      CountAll(values[1..], bound);
      assert values[0] in values && forall x | x in values[1..] :: x in values;
    }
  }

  lemma {:induction false} CountInsert(x: u64, s: seq<u64>, bound: nat)
    ensures CountBelow(Insert(x, s, Leq), bound) == CountBelow([x] + s, bound)
  {
    if s == [] || Leq(x, s[0]) {
    } else {
      CountInsert(x, s[1..], bound);
      assert Insert(x, s, Leq) == [s[0]] + Insert(x, s[1..], Leq);
      CountConcat([s[0]], Insert(x, s[1..], Leq), bound);
      CountConcat([x], s, bound);
      CountConcat([x], s[1..], bound);
      CountConcat([s[0]], s[1..], bound);
      assert [s[0]] + s[1..] == s;
    }
  }

  lemma {:induction false} CountSort(s: seq<u64>, bound: nat)
    ensures CountBelow(Sort(s, Leq), bound) == CountBelow(s, bound)
  {
    if s == [] {
    } else {
      CountSort(s[1..], bound);
      CountInsert(s[0], Sort(s[1..], Leq), bound);
      CountConcat([s[0]], Sort(s[1..], Leq), bound);
    }
  }

  lemma SortedCounts(s: seq<u64>, k: nat)
    requires Sorted(s, Leq) && k < |s|
    ensures CountBelow(s, s[k]) <= k < CountAtMost(s, s[k])
    ensures (forall i | k < i < |s| :: s[k] < s[i]) ==> CountAtMost(s, s[k]) == k + 1
  {
    hide CountBelow;
    var r: nat := s[k];
    var above: nat := r + 1;
    assert s == s[..k] + s[k..] && s == s[..k + 1] + s[k + 1..];
    CountConcat(s[..k], s[k..], r);
    CountConcat(s[..k + 1], s[k + 1..], above);
    CountAll(s[k..], r);
    CountAll(s[..k + 1], above);
    CountAll(s[k + 1..], above);
  }

  /** The nearest rank: enough values are at most `r`, and not enough are below it. */
  ghost predicate IsNearestRank(values: seq<u64>, r: u64) {
    && r in values
    && 100 * CountAtMost(values, r) >= 95 * |values|
    && 100 * CountBelow(values, r) < 95 * |values|
  }

  lemma {:induction false} CountGrows(values: seq<u64>, low: nat, high: nat)
    requires low <= high
    ensures CountBelow(values, low) <= CountBelow(values, high)
  {
    if values == [] {
    } else {
      CountGrows(values[1..], low, high);
    }
  }

  /** There is only one nearest rank. */
  lemma NearestRankIsUnique(values: seq<u64>, r: u64, other: u64)
    requires IsNearestRank(values, r) && IsNearestRank(values, other)
    ensures r == other
  {
    if r < other {
      CountGrows(values, r + 1, other);
    } else if other < r {
      CountGrows(values, other + 1, r);
    }
  }

  /**
   The percentile is the nearest rank as long as the rank computation does not saturate, and then it is
   the nearest rank of any list of different values only if it does not.
   */
  lemma PercentileIsNearestRank(values: seq<u64>)
    requires values != []
    ensures 95 * |values| <= 100 * (U64_MAX / 100) ==> IsNearestRank(values, Percentile95(values))
    ensures (forall i, j | 0 <= i < j < |values| :: values[i] != values[j]) ==>
      (IsNearestRank(values, Percentile95(values)) <==> 95 * |values| <= 100 * (U64_MAX / 100))
  {
    hide CountBelow, Sort, Rank;
    var sorted, k, r := Sort(values, Leq), Rank(|values|) - 1, Percentile95(values);
    RankBounds(|values|);
    SortIsCorrect(values, Leq);
    assert r in values by { assert r in multiset(sorted); }
    SortedCounts(sorted, k);
    CountSort(values, r);
    var bound: nat := r;
    CountSort(values, bound + 1);
    if forall i, j | 0 <= i < j < |values| :: values[i] != values[j] {
      forall i | k < i < |sorted| ensures sorted[k] < sorted[i] {
        assert Leq(sorted[k], sorted[i]);
        SortStaysDistinct(values, sorted, k, i);
      }
    }
  }

  lemma SortStaysDistinct(values: seq<u64>, sorted: seq<u64>, j: nat, k: nat)
    requires multiset(sorted) == multiset(values) && j < k < |sorted|
    requires forall i, j | 0 <= i < j < |values| :: values[i] != values[j]
    ensures sorted[j] != sorted[k]
  {
    if sorted[j] == sorted[k] {
      var x := sorted[j];
      assert sorted == sorted[..k] + [sorted[k]] + sorted[k + 1..];
      assert x in sorted[..k];
      assert multiset(sorted)[x] >= 2;
      OnceOnly(values, x);
    }
  }

  lemma {:induction false} OnceOnly(values: seq<u64>, x: u64)
    requires forall i, j | 0 <= i < j < |values| :: values[i] != values[j]
    ensures multiset(values)[x] <= 1
  {
    if values == [] {
    } else {
      assert values == [values[0]] + values[1..];
      OnceOnly(values[1..], x);
      if values[0] == x {
        assert x !in values[1..];
      }
    }
  }

  /** The percentile does not depend on the order of the durations. */
  lemma PercentileIgnoresOrder(a: seq<u64>, b: seq<u64>)
    requires multiset(a) == multiset(b)
    ensures Percentile95(a) == Percentile95(b)
  {
    hide Sort;
    SortIgnoresInputOrder(a, b, Leq);
    assert |a| == |multiset(a)| == |b|;
  }

  // ----- the baseline

  /** The fields of one reported case; `None` for a count that is missing or is not a natural number. */
  datatype CaseReport = CaseReport(
    durationMs: Option<u64>, inputTokens: Option<u64>, outputTokens: Option<u64>, cost: real)

  datatype Baseline = Baseline(
    baselineId: string, caseCount: u64, p95DurationMs: u64, totalTokens: u64, totalCostMicrounits: u64)

  /** `non_negative_number`. */
  function ReadCount(report: Value, key: string): Option<u64> {
    match FieldOf(report, key)
    case None => None
    case Some(v) =>
      (match v.AsU64()
       case Some(n) => if n <= U64_MAX then Some(n) else None
       case None => None)
  }

  /** A cost that is missing or no number counts as nothing; `floats` gives a number its value. */
  function ReadCost(floats: Num -> real, report: Value): real {
    match FieldOf(report, "cost")
    case Some(Number(n)) => floats(n)
    case _ => 0.0
  }

  function ReadCase(floats: Num -> real, report: Value): CaseReport {
    CaseReport(ReadCount(report, "duration_ms"), ReadCount(report, "input_tokens"),
               ReadCount(report, "output_tokens"), ReadCost(floats, report))
  }

  function ReadCases(floats: Num -> real, reports: seq<Value>): (cases: seq<CaseReport>)
    ensures |cases| == |reports| && forall i | 0 <= i < |cases| :: cases[i] == ReadCase(floats, reports[i])
  {
    seq(|reports|, i requires 0 <= i < |reports| => ReadCase(floats, reports[i]))
  }

  predicate IsUsable(report: CaseReport) {
    report.durationMs.Some? && report.inputTokens.Some? && report.outputTokens.Some? && report.cost >= 0.0
  }

  function Round(x: real): nat
    requires x >= 0.0
  {
    (x + 0.5).Floor
  }

  predicate AllUsable(cases: seq<CaseReport>) {
    forall i | 0 <= i < |cases| :: IsUsable(cases[i])
  }

  function Durations(cases: seq<CaseReport>): seq<u64>
    requires AllUsable(cases)
  {
    if cases == [] then []
    else
      var last := cases[|cases| - 1];
      assert IsUsable(last);
      Durations(cases[..|cases| - 1]) + [last.durationMs.value]
  }

  function Tokens(cases: seq<CaseReport>): nat
    requires AllUsable(cases)
  {
    if cases == [] then 0
    else
      var last := cases[|cases| - 1];
      assert IsUsable(last);
      Tokens(cases[..|cases| - 1]) + last.inputTokens.value + last.outputTokens.value
  }

  function Microunits(cases: seq<CaseReport>): nat
    requires AllUsable(cases)
  {
    if cases == [] then 0
    else
      var last := cases[|cases| - 1];
      assert IsUsable(last);
      Microunits(cases[..|cases| - 1]) + Round(last.cost * 1000000.0)
  }

  // ----- what the totals are made of

  /** The field holds the 64-bit natural number. */
  ghost predicate Holds(report: Value, key: string, n: nat) {
    n <= 0xFFFF_FFFF_FFFF_FFFF && FieldOf(report, key) == Some(Number(Int(n)))
  }

  /** A case is usable whose three counts are there and whose cost, if it is a number at all, is not negative. */
  lemma UsableIff(floats: Num -> real, report: Value)
    ensures IsUsable(ReadCase(floats, report)) <==>
      && (exists n: nat :: Holds(report, "duration_ms", n))
      && (exists n: nat :: Holds(report, "input_tokens", n)) && (exists n: nat :: Holds(report, "output_tokens", n))
      && match FieldOf(report, "cost") case Some(Number(x)) => floats(x) >= 0.0 case _ => true
  {
    hide FieldOf;
    CountIsRead(report, "duration_ms");
    CountIsRead(report, "input_tokens");
    CountIsRead(report, "output_tokens");
  }

  lemma CountIsRead(report: Value, key: string)
    ensures ReadCount(report, key).Some? <==> exists n: nat :: Holds(report, key, n)
    ensures forall n: nat :: Holds(report, key, n) ==> ReadCount(report, key) == Some(n)
  {
    hide FieldOf;
    if ReadCount(report, key).Some? {
      assert Holds(report, key, ReadCount(report, key).value);
    }
  }

  /** Each case adds its duration to the list, both its counts to the tokens, and its cost in microunits, rounded. */
  lemma TotalsGrow(floats: Num -> real, cases: seq<CaseReport>, report: Value, d: nat, m: nat, n: nat)
    requires AllUsable(cases) && IsUsable(ReadCase(floats, report))
    requires Holds(report, "duration_ms", d) && Holds(report, "input_tokens", m) && Holds(report, "output_tokens", n)
    ensures AllUsable([]) && Durations([]) == [] && Tokens([]) == 0 && Microunits([]) == 0
    ensures var more := cases + [ReadCase(floats, report)];
      var units := (match FieldOf(report, "cost") case Some(Number(x)) => floats(x) case _ => 0.0) * 1000000.0;
      && AllUsable(more) && Durations(more) == Durations(cases) + [d] && Tokens(more) == Tokens(cases) + m + n
      && (Microunits(more) - Microunits(cases)) as real - 0.5 <= units
           < (Microunits(more) - Microunits(cases)) as real + 0.5
  {
    hide FieldOf;
    CountIsRead(report, "duration_ms");
    CountIsRead(report, "input_tokens");
    CountIsRead(report, "output_tokens");
    var more := cases + [ReadCase(floats, report)];
    assert more[..|more| - 1] == cases;
    assert forall i | 0 <= i < |more| :: IsUsable(more[i]);
  }

  /** `baseline_from_report`: each case is rounded on its own, and the totals are exact up to the limit. */
  method BaselineFromReport(baselineId: string, floats: Num -> real, reports: seq<Value>, caseCount: u64)
    returns (r: Result<Baseline>)
    ensures var cases := ReadCases(floats, reports);
      && (r.Ok? <==> AllUsable(cases))
      && (r.Ok? ==> r.value == Baseline(
            baselineId, caseCount, Percentile95(Durations(cases)),
            Saturated(Tokens(cases)), Saturated(Microunits(cases))))
  {
    hide Percentile95, ReadCase;
    ghost var cases := ReadCases(floats, reports);
    var durations: seq<u64> := [];
    var totalTokens: u64, totalCost: u64 := 0, 0;
    for i := 0 to |reports|
      invariant AllUsable(cases[..i])
      invariant durations == Durations(cases[..i])
      invariant totalTokens == Saturated(Tokens(cases[..i]))
      invariant totalCost == Saturated(Microunits(cases[..i]))
    {
      var report := ReadCase(floats, reports[i]);
      if report.durationMs.None? || report.inputTokens.None? || report.outputTokens.None? {
        assert !IsUsable(report);
        return Err("field must be a non-negative integer");
      }
      durations := durations + [report.durationMs.value];
      totalTokens := Saturated(Saturated(totalTokens + report.inputTokens.value) + report.outputTokens.value);
      if report.cost < 0.0 {
        assert !IsUsable(report);
        return Err("baseline case has invalid cost");
      }
      totalCost := Saturated(totalCost + Saturated(Round(report.cost * 1000000.0)));
      assert cases[..i + 1][..i] == cases[..i];
    }
    assert cases[..|cases|] == cases;
    var p95 := NearestRank95(durations);
    r := Ok(Baseline(baselineId, caseCount, p95, totalTokens, totalCost));
  }
}
