/** The report's aggregates: means over the queries that did not fail, latency percentiles by
    nearest rank, and the same per repository and per language. */
module Aggregates {
  import opened EvalData
  import opened Seqs
  import opened Sorting
  import opened Text

  datatype LatencyStats = LatencyStats(mean: real, p50: real, p95: real, p99: real)

  datatype Aggregate = Aggregate(queries: nat, errors: nat, queriesRetried: nat,
                                 ndcg10: real, recall10: real, recall20: real, mrr: real,
                                 latency: LatencyStats)

  // ----- Sorting latencies -----

  ghost predicate Rising(s: seq<real>) { forall i, j :: 0 <= i < j < |s| ==> s[i] <= s[j] }

  function InsertReal(x: real, s: seq<real>): (r: seq<real>)
    ensures |r| == |s| + 1
    ensures forall y :: y in r <==> y == x || y in s
  {
    if s == [] || s[|s|-1] <= x then s + [x] else InsertReal(x, s[..|s|-1]) + [s[|s|-1]]
  }

  lemma {:induction false} InsertRises(x: real, s: seq<real>)
    requires Rising(s)
    ensures Rising(InsertReal(x, s))
  {
    if s != [] && s[|s|-1] > x {
      var front := s[..|s|-1];
      InsertRises(x, front);
      var r := InsertReal(x, front);
      forall i | 0 <= i < |r|
        ensures r[i] <= s[|s|-1]
      {
        assert r[i] in r;
      }
    }
  }

  // sort.Float64s
  function SortReals(s: seq<real>): (r: seq<real>)
    ensures |r| == |s| && Rising(r) && forall y :: y in r <==> y in s
  {
    if s == [] then []
    else
      InsertRises(s[|s|-1], SortReals(s[..|s|-1]));
      InsertReal(s[|s|-1], SortReals(s[..|s|-1]))
  }

  lemma {:induction false} InsertCounts(x: real, s: seq<real>, p: real -> bool)
    ensures Count(InsertReal(x, s), p) == Count(s, p) + Bit(p(x))
  {
    hide Count;
    if s == [] || s[|s|-1] <= x {
      CountAppend(s, x, p);
    } else {
      InsertCounts(x, s[..|s|-1], p);
      CountAppend(InsertReal(x, s[..|s|-1]), s[|s|-1], p);
      CountAppend(s[..|s|-1], s[|s|-1], p);
      assert s == s[..|s|-1] + [s[|s|-1]];
    }
  }

  lemma {:induction false} SortCounts(s: seq<real>, p: real -> bool)
    ensures Count(SortReals(s), p) == Count(s, p)
  {
    if s != [] {
      SortCounts(s[..|s|-1], p);
      InsertCounts(s[|s|-1], SortReals(s[..|s|-1]), p);
    }
  }

  function Same(x: real): real { x }

  lemma {:induction false} InsertSum(x: real, s: seq<real>)
    ensures Sum(InsertReal(x, s), Same) == Sum(s, Same) + x
  {
    hide Sum;
    if s == [] || s[|s|-1] <= x {
      SumAppend(s, x, Same);
    } else {
      InsertSum(x, s[..|s|-1]);
      SumAppend(InsertReal(x, s[..|s|-1]), s[|s|-1], Same);
      SumAppend(s[..|s|-1], s[|s|-1], Same);
      assert s == s[..|s|-1] + [s[|s|-1]];
    }
  }

  lemma {:induction false} SortSum(s: seq<real>)
    ensures Sum(SortReals(s), Same) == Sum(s, Same)
  {
    if s != [] {
      SortSum(s[..|s|-1]);
      InsertSum(s[|s|-1], SortReals(s[..|s|-1]));
    }
  }

  // ----- Percentiles -----

  function Ceil(x: real): int { -(-x).Floor }

  lemma CeilBounds(x: real)
    ensures x <= Ceil(x) as real < x + 1.0
  {}

  // How many of n elements p percent are.
  function Share(p: real, n: nat): real { p / 100.0 * (n as real) }

  function Rank(p: real, n: nat): int
  {
    var rank := Ceil(Share(p, n));
    if rank > n then n else if rank < 1 then 1 else rank
  }

  method Percentile(sorted: seq<real>, p: real) returns (v: real)
    ensures sorted == [] ==> v == 0.0
    ensures sorted != [] ==> 1 <= Rank(p, |sorted|) <= |sorted| && v == sorted[Rank(p, |sorted|) - 1]
  {
    hide Share, Ceil;
    var n := |sorted|;
    if n == 0 {
      return 0.0;
    }
    if n == 1 {
      return sorted[0];
    }
    var rank := Ceil(Share(p, n));
    if rank < 1 {
      rank := 1;
    }
    if rank > n {
      rank := n;
    }
    return sorted[rank - 1];
  }

  function AtMost(v: real): real -> bool { (x: real) => x <= v }

  function Below(v: real): real -> bool { (x: real) => x < v }

  // v is the p-th percentile of s by nearest rank: at least p percent of s are at most v, and
  // fewer than p percent are below v.
  ghost predicate IsPercentile(s: seq<real>, p: real, v: real)
  {
    && v in s
    && Count(s, AtMost(v)) as real >= Share(p, |s|)
    && Count(s, Below(v)) as real < Share(p, |s|)
  }

  // In a rising sequence at least i + 1 elements are at most s[i], and at most i are below it.
  lemma {:induction false} RisingCounts(s: seq<real>, i: nat)
    requires Rising(s) && i < |s|
    ensures Count(s, AtMost(s[i])) >= i + 1 && Count(s, Below(s[i])) <= i
  {
    var v := s[i];
    RisingPrefix(s, i + 1, v);
    if i < |s| - 1 {
      RisingCounts(s[..|s|-1], i);
    } else {
      CountBound(s[..|s|-1], Below(v));
    }
  }

  lemma {:induction false} RisingPrefix(s: seq<real>, n: nat, v: real)
    requires n <= |s| && forall j :: 0 <= j < n ==> s[j] <= v
    ensures Count(s, AtMost(v)) >= n
  {
    if n < |s| {
      RisingPrefix(s[..|s|-1], n, v);
    } else if n > 0 {
      RisingPrefix(s[..|s|-1], n - 1, v);
    }
  }

  /** For 0 < p <= 100 the element that Percentile picks from the sorted latencies is the p-th
      percentile of the latencies as they came. */
  lemma PercentileIsNearestRank(s: seq<real>, p: real)
    requires s != [] && 0.0 < p <= 100.0
    ensures IsPercentile(s, p, SortReals(s)[Rank(p, |s|) - 1])
  {
    hide Count, SortReals, Ceil, Share;
    PositiveShare(p, |s|);
    CeilBounds(Share(p, |s|));
    var rank := Rank(p, |s|);
    var v := SortReals(s)[rank - 1];
    assert v in SortReals(s);
    RisingCounts(SortReals(s), rank - 1);
    SortCounts(s, AtMost(v));
    SortCounts(s, Below(v));
  }

  lemma PositiveShare(p: real, n: nat)
    requires n > 0 && 0.0 < p <= 100.0
    ensures 0.0 < Share(p, n) <= n as real
  {
    var q := p / 100.0;
    assert 0.0 < q <= 1.0;
    assert q * (n as real) <= 1.0 * (n as real);
  }

  lemma {:induction false} CountSmaller(s: seq<real>, p: real -> bool, q: real -> bool)
    requires forall i :: 0 <= i < |s| && p(s[i]) ==> q(s[i])
    ensures Count(s, p) <= Count(s, q)
  {
    if s != [] {
      CountSmaller(s[..|s|-1], p, q);
    }
  }

  /** There is only one p-th percentile, so it does not depend on the order of the results. */
  lemma PercentileUnique(s: seq<real>, p: real, v: real, w: real)
    requires IsPercentile(s, p, v) && IsPercentile(s, p, w)
    ensures v == w
  {
    hide Count;
    if v < w {
      CountSmaller(s, AtMost(v), Below(w));
    } else if w < v {
      CountSmaller(s, AtMost(w), Below(v));
    }
  }

  lemma ShareRises(p: real, q: real, n: nat)
    requires p <= q
    ensures Share(p, n) <= Share(q, n)
  {
    var x, y := p / 100.0, q / 100.0;
    assert x <= y;
    assert x * (n as real) <= y * (n as real);
  }

  lemma PercentilesRise(s: seq<real>, p: real, q: real)
    requires s != [] && p <= q
    ensures SortReals(s)[Rank(p, |s|) - 1] <= SortReals(s)[Rank(q, |s|) - 1]
  {
    hide SortReals, Share, Ceil;
    ShareRises(p, q, |s|);
    CeilBounds(Share(p, |s|));
    CeilBounds(Share(q, |s|));
    assert Rank(p, |s|) <= Rank(q, |s|);
  }

  function Ratio(x: real, n: nat): real { if n == 0 then 0.0 else x / (n as real) }

  function Times(x: real, n: nat): real { x * (n as real) }

  lemma RatioTimes(x: real, n: nat)
    ensures n != 0 || x == 0.0 ==> Times(Ratio(x, n), n) == x
  {}

  const NO_STATS := LatencyStats(0.0, 0.0, 0.0, 0.0)

  function Stats(s: seq<real>): LatencyStats
  {
    if s == [] then NO_STATS
    else
      var sorted := SortReals(s);
      LatencyStats(Ratio(Sum(s, Same), |s|), sorted[Rank(50.0, |s|)-1], sorted[Rank(95.0, |s|)-1],
                   sorted[Rank(99.0, |s|)-1])
  }

  /** The reported percentiles are the nearest-rank ones, and rise. */
  method ComputeLatencyStats(latencies: seq<real>) returns (r: LatencyStats)
    ensures r == Stats(latencies)
    ensures latencies == [] ==> r == NO_STATS
    ensures latencies != [] ==>
      && Times(r.mean, |latencies|) == Sum(latencies, Same)
      && IsPercentile(latencies, 50.0, r.p50) && IsPercentile(latencies, 95.0, r.p95)
      && IsPercentile(latencies, 99.0, r.p99)
      && r.p50 <= r.p95 <= r.p99
  {
    hide IsPercentile, Sum, SortReals, Rank, Times;
    if |latencies| == 0 {
      return NO_STATS;
    }
    var sorted := SortReals(latencies);
    var sum := 0.0;
    SumNothing();
    for i := 0 to |sorted|
      invariant sum == Sum(sorted[..i], Same)
    {
      SumAppend(sorted[..i], sorted[i], Same);
      assert sorted[..i+1] == sorted[..i] + [sorted[i]];
      sum := sum + sorted[i];
    }
    assert sorted[..|sorted|] == sorted;
    SortSum(latencies);
    var p50 := Percentile(sorted, 50.0);
    var p95 := Percentile(sorted, 95.0);
    var p99 := Percentile(sorted, 99.0);
    PercentileIsNearestRank(latencies, 50.0);
    PercentileIsNearestRank(latencies, 95.0);
    PercentileIsNearestRank(latencies, 99.0);
    PercentilesRise(latencies, 50.0, 95.0);
    PercentilesRise(latencies, 95.0, 99.0);
    RatioTimes(sum, |sorted|);
    r := LatencyStats(sum / (|sorted| as real), p50, p95, p99);
  }

  lemma SumNothing()
    ensures Sum([], Same) == 0.0
  {}

  // ----- Aggregates -----

  // What a result adds to the sum of a metric: a failed query adds nothing.
  function Val(m: Metric): QueryResult -> real
  {
    (r: QueryResult) => if r.error != "" then 0.0 else Raw(r, m)
  }

  predicate Answered(r: QueryResult) { r.error == "" }

  predicate Failed(r: QueryResult) { r.error != "" }

  predicate Retried(r: QueryResult) { r.retries > 0 }

  function Latencies(rs: seq<QueryResult>): seq<real>
  {
    if rs == [] then []
    else Latencies(rs[..|rs|-1]) + if Answered(rs[|rs|-1]) then [rs[|rs|-1].latencyMs] else []
  }

  function Mean(rs: seq<QueryResult>, m: Metric): real { Ratio(Sum(rs, Val(m)), Count(rs, Answered)) }

  function AggregateOf(rs: seq<QueryResult>): Aggregate
  {
    Aggregate(Count(rs, Answered), Count(rs, Failed), Count(rs, Retried),
              Mean(rs, Ndcg10), Mean(rs, Recall10), Mean(rs, Recall20), Mean(rs, Mrr),
              Stats(Latencies(rs)))
  }

  function MeanIn(a: Aggregate, m: Metric): real
  {
    match m
    case Ndcg10 => a.ndcg10
    case Recall10 => a.recall10
    case Recall20 => a.recall20
    case Mrr => a.mrr
    case Latency => a.latency.mean
  }

  lemma {:induction false} LatenciesCount(rs: seq<QueryResult>)
    ensures |Latencies(rs)| == Count(rs, Answered)
    ensures Sum(Latencies(rs), Same) == Sum(rs, Val(Latency))
  {
    if rs != [] {
      var front, r := rs[..|rs|-1], rs[|rs|-1];
      LatenciesCount(front);
      if Answered(r) {
        SumAppend(Latencies(front), r.latencyMs, Same);
      } else {
        assert Latencies(front) + [] == Latencies(front);
      }
    }
  }

  lemma {:induction false} NoneAnswered(rs: seq<QueryResult>, m: Metric)
    requires Count(rs, Answered) == 0
    ensures Sum(rs, Val(m)) == 0.0
  {
    if rs != [] {
      NoneAnswered(rs[..|rs|-1], m);
    }
  }

  method ComputeAggregates(results: seq<QueryResult>) returns (agg: Aggregate)
    ensures agg == AggregateOf(results)
  {
    hide Stats, Sum, Count;
    var ndcg10, recall10, recall20, mrr := 0.0, 0.0, 0.0, 0.0;
    var n, errors, retried := 0, 0, 0;
    var latencies: seq<real> := [];
    NothingYet();
    for i := 0 to |results|
      invariant n == Count(results[..i], Answered) && errors == Count(results[..i], Failed)
      invariant retried == Count(results[..i], Retried) && latencies == Latencies(results[..i])
      invariant ndcg10 == Sum(results[..i], Val(Ndcg10)) && recall10 == Sum(results[..i], Val(Recall10))
      invariant recall20 == Sum(results[..i], Val(Recall20)) && mrr == Sum(results[..i], Val(Mrr))
    {
      var r := results[i];
      OneMore(results[..i], r);
      assert results[..i+1] == results[..i] + [r];
      if r.retries > 0 {
        retried := retried + 1;
      }
      if r.error != "" {
        errors := errors + 1;
        continue;
      }
      ndcg10 := ndcg10 + r.ndcg10;
      recall10 := recall10 + r.recall10;
      recall20 := recall20 + r.recall20;
      mrr := mrr + r.mrr;
      latencies := latencies + [r.latencyMs];
      n := n + 1;
    }
    assert results[..|results|] == results;
    LatenciesCount(results);
    if n == 0 {
      NoStats();
      return Aggregate(0, errors, retried, 0.0, 0.0, 0.0, 0.0, NO_STATS);
    }
    var fn := n as real;
    var stats := ComputeLatencyStats(latencies);
    agg := Aggregate(n, errors, retried, ndcg10 / fn, recall10 / fn, recall20 / fn, mrr / fn, stats);
  }

  lemma NoStats()
    ensures Stats([]) == NO_STATS
  {}

  lemma NothingYet()
    ensures Count([], Answered) == 0 && Count([], Failed) == 0 && Count([], Retried) == 0
    ensures Latencies([]) == [] && forall m :: Sum([], Val(m)) == 0.0
  {}

  lemma OneMore(rs: seq<QueryResult>, r: QueryResult)
    ensures Count(rs + [r], Answered) == Count(rs, Answered) + Bit(Answered(r))
    ensures Count(rs + [r], Failed) == Count(rs, Failed) + Bit(Failed(r))
    ensures Count(rs + [r], Retried) == Count(rs, Retried) + Bit(Retried(r))
    ensures Latencies(rs + [r]) == Latencies(rs) + if Answered(r) then [r.latencyMs] else []
    ensures forall m :: Sum(rs + [r], Val(m)) == Sum(rs, Val(m)) + Val(m)(r)
  {
    hide Sum, Count;
    CountAppend(rs, r, Answered);
    CountAppend(rs, r, Failed);
    CountAppend(rs, r, Retried);
    assert (rs + [r])[..|rs|] == rs;
    forall m
      ensures Sum(rs + [r], Val(m)) == Sum(rs, Val(m)) + Val(m)(r)
    {
      SumAppend(rs, r, Val(m));
    }
  }

  /** Every query either failed or counts, and each mean times the number of queries is the sum
      over the queries that did not fail. */
  lemma MeansRecoverSums(rs: seq<QueryResult>, m: Metric)
    ensures AggregateOf(rs).queries + AggregateOf(rs).errors == |rs|
    ensures Times(MeanIn(AggregateOf(rs), m), AggregateOf(rs).queries) == Sum(rs, Val(m))
  {
    AnsweredOrFailed(rs);
    hide Count, Sum, Ratio, Times, MeanIn, Stats;
    MeanInIsRatio(rs, m);
    var n := Count(rs, Answered);
    if n == 0 {
      NoneAnswered(rs, m);
    }
    RatioTimes(Sum(rs, Val(m)), n);
  }

  lemma MeanInIsRatio(rs: seq<QueryResult>, m: Metric)
    ensures MeanIn(AggregateOf(rs), m) == Ratio(Sum(rs, Val(m)), Count(rs, Answered))
  {
    hide Count, Sum, Latencies;
    LatenciesCount(rs);
  }

  lemma {:induction false} AnsweredOrFailed(rs: seq<QueryResult>)
    ensures Count(rs, Answered) + Count(rs, Failed) == |rs|
  {
    if rs != [] {
      AnsweredOrFailed(rs[..|rs|-1]);
    }
  }

  // ----- Groups -----

  type Grouping = QueryResult -> string

  function RepoOf(r: QueryResult): string { r.repo }

  function LanguageOf(r: QueryResult): string { if r.language == "" then "unspecified" else r.language }

  function Is(key: Grouping, k: string): QueryResult -> bool { (r: QueryResult) => key(r) == k }

  function GroupOf(rs: seq<QueryResult>, key: Grouping, k: string): seq<QueryResult>
  {
    Filter(rs, Is(key, k))
  }

  function Keys(rs: seq<QueryResult>, key: Grouping): set<string> { set r | r in rs :: key(r) }

  datatype Group = Group(name: string, aggregates: Aggregate)

  // The groups with the given names, in their order.
  function GroupsFor(rs: seq<QueryResult>, key: Grouping, names: seq<string>): (gs: seq<Group>)
    ensures |gs| == |names|
  {
    seq(|names|, i requires 0 <= i < |names| => Group(names[i], AggregateOf(GroupOf(rs, key, names[i]))))
  }

  ghost function Groups(rs: seq<QueryResult>, key: Grouping): seq<Group>
  {
    GroupsFor(rs, key, Sorted(Keys(rs, key)))
  }

  /** One group per key in alphabetical order, each with the aggregates of exactly its results. */
  method GroupBy(results: seq<QueryResult>, key: Grouping) returns (out: seq<Group>)
    ensures out == Groups(results, key)
  {
    hide Filter, AggregateOf, Sorted, Less, GroupOf;
    var groups: map<string, seq<QueryResult>> := map[];
    NoGroups(key);
    for i := 0 to |results|
      invariant groups.Keys == Keys(results[..i], key)
      invariant forall k :: k in groups ==> groups[k] == GroupOf(results[..i], key, k)
      invariant forall k :: k !in groups ==> GroupOf(results[..i], key, k) == []
    {
      var r := results[i];
      assert results[..i+1] == results[..i] + [r];
      GroupAppend(results[..i], r, key);
      var before := if key(r) in groups then groups[key(r)] else [];
      groups := groups[key(r) := before + [r]];
    }
    assert results[..|results|] == results;
    var names := SortedKeys(groups);
    out := [];
    for i := 0 to |names|
      invariant out == GroupsFor(results, key, names)[..i]
    {
      assert names[i] in Elements(names);
      var agg := ComputeAggregates(groups[names[i]]);
      out := out + [Group(names[i], agg)];
    }
  }

  lemma NoGroups(key: Grouping)
    ensures forall k :: GroupOf([], key, k) == []
  {}

  lemma GroupAppend(rs: seq<QueryResult>, r: QueryResult, key: Grouping)
    ensures Keys(rs + [r], key) == Keys(rs, key) + {key(r)}
    ensures forall k :: GroupOf(rs + [r], key, k) == GroupOf(rs, key, k) + if key(r) == k then [r] else []
  {
    hide Filter;
    assert forall x :: x in rs + [r] <==> x in rs || x == r;
    forall k
      ensures GroupOf(rs + [r], key, k) == GroupOf(rs, key, k) + if key(r) == k then [r] else []
    {
      FilterAppend(rs, r, Is(key, k));
    }
  }

  method ComputePerRepo(results: seq<QueryResult>) returns (out: seq<Group>)
    ensures out == Groups(results, RepoOf)
  {
    out := GroupBy(results, RepoOf);
  }

  method ComputePerLanguage(results: seq<QueryResult>) returns (out: seq<Group>)
    ensures out == Groups(results, LanguageOf)
  {
    out := GroupBy(results, LanguageOf);
  }

  // ----- The groups partition the results -----

  // The sum of f over the groups named, group by group.
  function GroupSum(rs: seq<QueryResult>, key: Grouping, names: seq<string>, f: QueryResult -> real): real
  {
    if names == [] then 0.0
    else GroupSum(rs, key, names[..|names|-1], f) + Sum(GroupOf(rs, key, names[|names|-1]), f)
  }

  ghost predicate Distinct(names: seq<string>) { forall i, j :: 0 <= i < j < |names| ==> names[i] != names[j] }

  // Adding a result adds its value to the sum once, if its group is named.
  lemma {:induction false} GroupSumAppend(rs: seq<QueryResult>, r: QueryResult, key: Grouping,
                                          names: seq<string>, f: QueryResult -> real)
    requires Distinct(names)
    ensures GroupSum(rs + [r], key, names, f)
         == GroupSum(rs, key, names, f) + if key(r) in names then f(r) else 0.0
  {
    hide Filter, Sum, GroupOf;
    if names != [] {
      var front, last := names[..|names|-1], names[|names|-1];
      GroupSumAppend(rs, r, key, front, f);
      GroupAppend(rs, r, key);
      SumAppend(GroupOf(rs, key, last), r, f);
      assert key(r) in names <==> key(r) in front || key(r) == last;
      assert last !in front;
      assert GroupOf(rs, key, last) + [] == GroupOf(rs, key, last);
    }
  }

  lemma {:induction false} GroupSumNothing(key: Grouping, names: seq<string>, f: QueryResult -> real)
    ensures GroupSum([], key, names, f) == 0.0
  {
    if names != [] {
      GroupSumNothing(key, names[..|names|-1], f);
    }
  }

  lemma {:induction false} GroupSumTotal(rs: seq<QueryResult>, key: Grouping, names: seq<string>,
                                         f: QueryResult -> real)
    requires Distinct(names) && Keys(rs, key) <= Elements(names)
    ensures GroupSum(rs, key, names, f) == Sum(rs, f)
  {
    hide GroupSum;
    if rs == [] {
      GroupSumNothing(key, names, f);
    } else {
      var front, r := rs[..|rs|-1], rs[|rs|-1];
      assert rs == front + [r];
      GroupAppend(front, r, key);
      GroupSumTotal(front, key, names, f);
      GroupSumAppend(front, r, key, names, f);
      assert key(r) in Elements(names);
    }
  }

  function Indicator(p: QueryResult -> bool): QueryResult -> real { (r: QueryResult) => Bit(p(r)) as real }

  lemma {:induction false} CountIsSum(rs: seq<QueryResult>, p: QueryResult -> bool)
    ensures Count(rs, p) as real == Sum(rs, Indicator(p))
  {
    if rs != [] {
      CountIsSum(rs[..|rs|-1], p);
    }
  }

  // Sums of reported figures over the groups of a report.
  datatype Totals = Totals(queries: nat, errors: nat, retried: nat)

  function TotalsOf(gs: seq<Group>): Totals
  {
    if gs == [] then Totals(0, 0, 0)
    else
      var t, a := TotalsOf(gs[..|gs|-1]), gs[|gs|-1].aggregates;
      Totals(t.queries + a.queries, t.errors + a.errors, t.retried + a.queriesRetried)
  }

  function WeightedMeans(gs: seq<Group>, m: Metric): real
  {
    if gs == [] then 0.0
    else
      WeightedMeans(gs[..|gs|-1], m)
      + Times(MeanIn(gs[|gs|-1].aggregates, m), gs[|gs|-1].aggregates.queries)
  }

  lemma {:induction false} TotalsAreSums(rs: seq<QueryResult>, key: Grouping, names: seq<string>)
    ensures var t := TotalsOf(GroupsFor(rs, key, names));
      && t.queries as real == GroupSum(rs, key, names, Indicator(Answered))
      && t.errors as real == GroupSum(rs, key, names, Indicator(Failed))
      && t.retried as real == GroupSum(rs, key, names, Indicator(Retried))
  {
    hide Sum, Count, GroupOf, Mean, Stats;
    if names != [] {
      var front, last := names[..|names|-1], names[|names|-1];
      TotalsAreSums(rs, key, front);
      assert GroupsFor(rs, key, names)[..|names|-1] == GroupsFor(rs, key, front);
      var g := GroupOf(rs, key, last);
      CountIsSum(g, Answered);
      CountIsSum(g, Failed);
      CountIsSum(g, Retried);
    }
  }

  lemma {:induction false} WeightedMeansAreSums(rs: seq<QueryResult>, key: Grouping, names: seq<string>, m: Metric)
    ensures WeightedMeans(GroupsFor(rs, key, names), m) == GroupSum(rs, key, names, Val(m))
  {
    hide Sum, Count, GroupOf, AggregateOf, MeanIn, Times;
    if names != [] {
      var front, last := names[..|names|-1], names[|names|-1];
      WeightedMeansAreSums(rs, key, front, m);
      assert GroupsFor(rs, key, names)[..|names|-1] == GroupsFor(rs, key, front);
      MeansRecoverSums(GroupOf(rs, key, last), m);
    }
  }

  /** The groups of a report account for every result once: the queries, errors and retried
      queries of the groups add up to the overall ones, and their means, weighted by their
      queries, recover every overall mean. */
  lemma GroupsConserve(rs: seq<QueryResult>, key: Grouping, m: Metric)
    ensures var gs, all := Groups(rs, key), AggregateOf(rs);
      && TotalsOf(gs) == Totals(all.queries, all.errors, all.queriesRetried)
      && WeightedMeans(gs, m) == Times(MeanIn(all, m), all.queries)
  {
    hide Sum, Count, MeanIn, Mean, Stats, Times, Sorted, Less, GroupSum, TotalsOf, WeightedMeans, GroupsFor;
    var names := Sorted(Keys(rs, key));
    AscendingDistinct(names);
    TotalsAreSums(rs, key, names);
    GroupSumTotal(rs, key, names, Indicator(Answered));
    GroupSumTotal(rs, key, names, Indicator(Failed));
    GroupSumTotal(rs, key, names, Indicator(Retried));
    CountIsSum(rs, Answered);
    CountIsSum(rs, Failed);
    CountIsSum(rs, Retried);
    WeightedMeansAreSums(rs, key, names, m);
    GroupSumTotal(rs, key, names, Val(m));
    MeansRecoverSums(rs, m);
  }

  lemma AscendingDistinct(names: seq<string>)
    requires Ascending(names)
    ensures Distinct(names)
  {
    forall i, j | 0 <= i < j < |names|
      ensures names[i] != names[j]
    {
      LessTotal(names[i], names[j]);
    }
  }
}
