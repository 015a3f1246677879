/** The A/B gate: pairing of two runs, the paired t-test over the reals, and the verdict.
    ibeta(a, b, x) stands for the regularized incomplete beta function; nothing is assumed of it. */
module Gate {
  import opened Seqs
  import opened Text
  import opened EvalData

  type Ibeta = (real, real, real) -> real

  const NON_INFERIOR_MARGIN := 0.02
  const P_ALPHA := 0.05

  datatype Verdict = Pass | Fail | InsufficientData

  datatype GateResult = GateResult(
    verdict: Verdict, paired: nat,
    ndcgDelta: real, ndcgP: real, recallDelta: real, recallP: real,
    ndcgSignificant: bool, recallNonInferior: bool)

  // ----- The t-test -----

  // Student's two-tailed p-value for t^2 = t2; only the square of t matters.
  function TwoTailed(ibeta: Ibeta, t2: real, df: real): real
    requires df + t2 != 0.0
  {
    ibeta(df / 2.0, 0.5, df / (df + t2))
  }

  function SumDiff(a: seq<real>, b: seq<real>): real
    requires |a| == |b|
  {
    if a == [] then 0.0 else SumDiff(a[..|a|-1], b[..|b|-1]) + (a[|a|-1] - b[|b|-1])
  }

  // The sum of the squared distances of the differences from m.
  function SumSquares(a: seq<real>, b: seq<real>, m: real): (r: real)
    requires |a| == |b|
    ensures r >= 0.0
  {
    if a == [] then 0.0
    else SumSquares(a[..|a|-1], b[..|b|-1], m) + Square(a[|a|-1] - b[|b|-1] - m)
  }

  function Product(x: real, y: real): (r: real)
    ensures (x > 0.0 && y > 0.0) || (x < 0.0 && y < 0.0) ==> r > 0.0
    ensures x == 0.0 ==> r == 0.0
  {
    x * y
  }

  function Square(x: real): (r: real)
    ensures r >= 0.0
    ensures r == 0.0 <==> x == 0.0
  {
    Product(x, x)
  }

  function Over(x: real, n: nat): (q: real)
    requires n > 0
    ensures x >= 0.0 ==> q >= 0.0
  {
    x / (n as real)
  }

  // t^2 for a mean with square meanSq over n differences.
  function TSquared(meanSq: real, n: nat, variance: real): (t2: real)
    requires meanSq >= 0.0 && variance > 0.0
    ensures t2 >= 0.0
  {
    assert meanSq * (n as real) >= 0.0;
    meanSq * (n as real) / variance
  }

  // p from the mean, the sum of squares and the number of differences.
  function PValue(ibeta: Ibeta, mean: real, ss: real, n: nat): real
    requires n >= 2
  {
    var variance := Over(ss, n - 1);
    if variance <= 0.0 then (if mean == 0.0 then 1.0 else 0.0)
    else TwoTailed(ibeta, TSquared(Square(mean), n, variance), (n - 1) as real)
  }

  // None stands for NaN.
  method PairedTTest(ibeta: Ibeta, a: seq<real>, b: seq<real>) returns (mean: Option<real>, p: real)
    ensures mean.None? <==> |a| != |b|
    ensures |a| != |b| || |a| < 2 ==> p == 1.0
    ensures |a| == |b| == 0 ==> mean == Some(0.0)
    ensures |a| == |b| == 1 ==> mean == Some(a[0] - b[0])
    ensures |a| == |b| >= 2 ==>
      && mean == Some(Over(SumDiff(a, b), |a|))
      && p == PValue(ibeta, mean.value, SumSquares(a, b, mean.value), |a|)
  {
    hide Square, Over, TSquared, TwoTailed;
    if |a| != |b| {
      return None, 1.0;
    }
    var n := |a|;
    if n < 2 {
      if n == 1 {
        return Some(a[0] - b[0]), 1.0;
      }
      return Some(0.0), 1.0;
    }
    var sum := 0.0;
    for i := 0 to n
      invariant sum == SumDiff(a[..i], b[..i])
    {
      assert a[..i+1][..i] == a[..i] && b[..i+1][..i] == b[..i];
      sum := sum + (a[i] - b[i]);
    }
    assert a[..n] == a && b[..n] == b;
    var m := Over(sum, n);
    var ss := 0.0;
    for i := 0 to n
      invariant ss == SumSquares(a[..i], b[..i], m)
    {
      assert a[..i+1][..i] == a[..i] && b[..i+1][..i] == b[..i];
      var d := (a[i] - b[i]) - m;
      ss := ss + Square(d);
    }
    assert a[..n] == a && b[..n] == b;
    var variance := Over(ss, n - 1);
    if variance <= 0.0 {
      if m == 0.0 {
        return Some(0.0), 1.0;
      }
      return Some(m), 0.0;
    }
    p := TwoTailed(ibeta, TSquared(Square(m), n, variance), (n - 1) as real);
    mean := Some(m);
  }

  // ----- Pairing -----

  function PairKey(r: QueryResult): string { r.repo + "|" + r.query }

  predicate Usable(r: QueryResult) { r.error == "" }

  datatype Pair = Pair(base: QueryResult, cand: QueryResult)

  // What the index holds for key k: the last usable baseline result with that key.
  function Lookup(base: seq<QueryResult>, k: string): Option<QueryResult>
  {
    if base == [] then None
    else
      var r := base[|base|-1];
      if Usable(r) && PairKey(r) == k then Some(r) else Lookup(base[..|base|-1], k)
  }

  function Pairs(base: seq<QueryResult>, cand: seq<QueryResult>): seq<Pair>
  {
    if cand == [] then []
    else
      var r := cand[|cand|-1];
      Pairs(base, cand[..|cand|-1]) +
        if Usable(r) && Lookup(base, PairKey(r)).Some? then [Pair(Lookup(base, PairKey(r)).value, r)] else []
  }

  method MatchPairs(base: seq<QueryResult>, cand: seq<QueryResult>) returns (pairs: seq<Pair>)
    ensures pairs == Pairs(base, cand)
  {
    var idx: map<string, QueryResult> := map[];
    for i := 0 to |base|
      invariant forall k :: Lookup(base[..i], k) == if k in idx then Some(idx[k]) else None
    {
      assert base[..i+1][..i] == base[..i];
      if base[i].error == "" {
        idx := idx[base[i].repo + "|" + base[i].query := base[i]];
      }
    }
    assert base[..|base|] == base;
    pairs := [];
    for i := 0 to |cand|
      invariant pairs == Pairs(base, cand[..i])
    {
      assert cand[..i+1][..i] == cand[..i];
      var r := cand[i];
      if r.error != "" {
        continue;
      }
      var k := r.repo + "|" + r.query;
      if k !in idx {
        continue;
      }
      pairs := pairs + [Pair(idx[k], r)];
    }
    assert cand[..|cand|] == cand;
  }

  function BaseOf(m: Metric): Pair -> real { (p: Pair) => Raw(p.base, m) }

  function CandOf(m: Metric): Pair -> real { (p: Pair) => Raw(p.cand, m) }

  // ----- The verdict -----

  function MeanOf(pairs: seq<Pair>, c: Pair -> real, b: Pair -> real): real
    requires |pairs| > 0
  {
    Over(SumDiff(Map(pairs, c), Map(pairs, b)), |pairs|)
  }

  function POf(ibeta: Ibeta, pairs: seq<Pair>, c: Pair -> real, b: Pair -> real): real
    requires |pairs| >= 2
  {
    var m := MeanOf(pairs, c, b);
    PValue(ibeta, m, SumSquares(Map(pairs, c), Map(pairs, b), m), |pairs|)
  }

  function ResultOf(ibeta: Ibeta, pairs: seq<Pair>): GateResult
  {
    if |pairs| < 2 then GateResult(InsufficientData, |pairs|, 0.0, 0.0, 0.0, 0.0, false, false)
    else
      var nd := MeanOf(pairs, CandOf(Ndcg10), BaseOf(Ndcg10));
      var np := POf(ibeta, pairs, CandOf(Ndcg10), BaseOf(Ndcg10));
      var rd := MeanOf(pairs, CandOf(Recall20), BaseOf(Recall20));
      var rp := POf(ibeta, pairs, CandOf(Recall20), BaseOf(Recall20));
      var sig := nd > 0.0 && np < P_ALPHA;
      var nonInf := rd >= -NON_INFERIOR_MARGIN || rp >= P_ALPHA;
      GateResult(if sig && nonInf then Pass else Fail, |pairs|, nd, np, rd, rp, sig, nonInf)
  }

  method EvaluateGate(ibeta: Ibeta, base: seq<QueryResult>, cand: seq<QueryResult>) returns (g: GateResult)
    ensures g == ResultOf(ibeta, Pairs(base, cand))
    ensures g.paired == |Pairs(base, cand)| && (g.verdict.InsufficientData? <==> g.paired < 2)
    ensures g.verdict.Pass? <==>
      && g.paired >= 2 && g.ndcgDelta > 0.0 && g.ndcgP < 0.05
      && !(g.recallDelta < -0.02 && g.recallP < 0.05)
  {
    hide Over, SumDiff, SumSquares, PValue;
    var pairs := MatchPairs(base, cand);
    if |pairs| < 2 {
      return GateResult(InsufficientData, |pairs|, 0.0, 0.0, 0.0, 0.0, false, false);
    }
    var cn := Map(pairs, CandOf(Ndcg10));
    var bn := Map(pairs, BaseOf(Ndcg10));
    var cr := Map(pairs, CandOf(Recall20));
    var br := Map(pairs, BaseOf(Recall20));
    var nd, np := PairedTTest(ibeta, cn, bn);
    var rd, rp := PairedTTest(ibeta, cr, br);
    var sig := nd.Some? && nd.value > 0.0 && np < P_ALPHA;
    var nonInf := rd.value >= -NON_INFERIOR_MARGIN || rp >= P_ALPHA;
    g := GateResult(Fail, |pairs|, nd.value, np, rd.value, rp, sig, nonInf);
    if sig && nonInf {
      g := g.(verdict := Pass);
    } else if !sig && nonInf {
      g := g.(verdict := Fail);
    } else {
      g := g.(verdict := Fail);
    }
  }

  // ----- The delta block -----

  datatype Change = Change(mean: real, p: real)

  datatype DeltaBlock = DeltaBlock(ndcg10: Change, recall10: Change, recall20: Change, mrr: Change, latency: Change)

  function ChangeOf(ibeta: Ibeta, pairs: seq<Pair>, m: Metric): Change
    requires |pairs| >= 2
  {
    Change(MeanOf(pairs, CandOf(m), BaseOf(m)), POf(ibeta, pairs, CandOf(m), BaseOf(m)))
  }

  function DeltaOf(ibeta: Ibeta, pairs: seq<Pair>): Option<DeltaBlock>
  {
    if |pairs| < 2 then None
    else Some(DeltaBlock(ChangeOf(ibeta, pairs, Ndcg10), ChangeOf(ibeta, pairs, Recall10),
                         ChangeOf(ibeta, pairs, Recall20), ChangeOf(ibeta, pairs, Mrr),
                         ChangeOf(ibeta, pairs, Latency)))
  }

  method MetricChange(ibeta: Ibeta, pairs: seq<Pair>, m: Metric) returns (c: Change)
    requires |pairs| >= 2
    ensures c == ChangeOf(ibeta, pairs, m)
  {
    var mean, p := PairedTTest(ibeta, Map(pairs, CandOf(m)), Map(pairs, BaseOf(m)));
    c := Change(mean.value, p);
  }

  // None stands for "insufficient paired samples".
  method ComputeDelta(ibeta: Ibeta, base: seq<QueryResult>, cand: seq<QueryResult>) returns (d: Option<DeltaBlock>)
    ensures d == DeltaOf(ibeta, Pairs(base, cand))
  {
    var pairs := MatchPairs(base, cand);
    if |pairs| < 2 {
      return None;
    }
    var ndcg10 := MetricChange(ibeta, pairs, Ndcg10);
    var recall10 := MetricChange(ibeta, pairs, Recall10);
    var recall20 := MetricChange(ibeta, pairs, Recall20);
    var mrr := MetricChange(ibeta, pairs, Mrr);
    var latency := MetricChange(ibeta, pairs, Latency);
    d := Some(DeltaBlock(ndcg10, recall10, recall20, mrr, latency));
  }

  // ----- What the numbers are -----

  predicate Partnered(base: seq<QueryResult>, c: QueryResult)
  {
    c.error == "" && exists b :: b in base && b.error == "" && b.repo + "|" + b.query == c.repo + "|" + c.query
  }

  function Candidate(): Pair -> QueryResult { (p: Pair) => p.cand }

  // r is the last usable result of rs with its key.
  ghost predicate LastOfKey(rs: seq<QueryResult>, r: QueryResult)
  {
    exists x :: 0 <= x < |rs| && rs[x] == r && r.error == ""
      && forall y :: x < y < |rs| ==> !(rs[y].error == "" && PairKey(rs[y]) == PairKey(r))
  }

  /** The candidates that are paired are, in order, the usable ones for which the baseline has a usable
      result of the same key; each is paired with the last such result. */
  lemma PairsAre(base: seq<QueryResult>, cand: seq<QueryResult>)
    ensures Map(Pairs(base, cand), Candidate()) == Filter(cand, c => Partnered(base, c))
    ensures forall p :: p in Pairs(base, cand) ==> PairKey(p.base) == PairKey(p.cand) && LastOfKey(base, p.base)
  {
    PairedInOrder(base, cand);
    PairsMembers(base, cand);
    forall p | p in Pairs(base, cand)
      ensures PairKey(p.base) == PairKey(p.cand) && LastOfKey(base, p.base)
    {
      LookupIsLast(base, PairKey(p.cand));
    }
  }

  lemma PartneredIffFound(base: seq<QueryResult>, c: QueryResult)
    ensures Partnered(base, c) <==> Usable(c) && Lookup(base, PairKey(c)).Some?
  {
    LookupIsLast(base, PairKey(c));
    hide Lookup;
    if Partnered(base, c) {
      var b :| b in base && b.error == "" && b.repo + "|" + b.query == c.repo + "|" + c.query;
      assert Usable(b) && PairKey(b) == PairKey(c);
    }
  }

  lemma {:induction false} PairedInOrder(base: seq<QueryResult>, cand: seq<QueryResult>)
    ensures Map(Pairs(base, cand), Candidate()) == Filter(cand, c => Partnered(base, c))
  {
    hide Partnered, Lookup;
    if cand != [] {
      PairedInOrder(base, cand[..|cand|-1]);
      PartneredIffFound(base, cand[|cand|-1]);
    }
  }

  lemma OverTimes(x: real, n: nat)
    requires n > 0
    ensures Over(x, n) * (n as real) == x
  {}

  // A mean is the sum of the differences over their number.
  lemma MeanIsSum(pairs: seq<Pair>, c: Pair -> real, b: Pair -> real)
    requires |pairs| > 0
    ensures MeanOf(pairs, c, b) * (|pairs| as real) == Sum(pairs, Diff(c, b))
  {
    hide SumDiff, SumSquares, Sum, Over;
    SumsOfColumns(pairs, c, b, 0.0);
    OverTimes(SumDiff(Map(pairs, c), Map(pairs, b)), |pairs|);
  }

  function NdcgGain(): Pair -> real { (p: Pair) => p.cand.ndcg10 - p.base.ndcg10 }

  function RecallGain(): Pair -> real { (p: Pair) => p.cand.recall20 - p.base.recall20 }

  /** The reported deltas are the mean gains of the two metrics. */
  lemma DeltasAreMeans(ibeta: Ibeta, pairs: seq<Pair>)
    requires |pairs| >= 2
    ensures var g := ResultOf(ibeta, pairs);
      && g.ndcgDelta * (|pairs| as real) == Sum(pairs, NdcgGain())
      && g.recallDelta * (|pairs| as real) == Sum(pairs, RecallGain())
  {
    hide MeanOf, POf, Sum;
    MeanIsSum(pairs, CandOf(Ndcg10), BaseOf(Ndcg10));
    MeanIsSum(pairs, CandOf(Recall20), BaseOf(Recall20));
    SumCongruent(pairs, Diff(CandOf(Ndcg10), BaseOf(Ndcg10)), NdcgGain());
    SumCongruent(pairs, Diff(CandOf(Recall20), BaseOf(Recall20)), RecallGain());
  }

  lemma {:induction false} SumCongruent(pairs: seq<Pair>, f: Pair -> real, g: Pair -> real)
    requires forall p :: f(p) == g(p)
    ensures Sum(pairs, f) == Sum(pairs, g)
  {
    if pairs != [] {
      SumCongruent(pairs[..|pairs|-1], f, g);
    }
  }

  /** For a nonzero spread ss around the mean m of n differences, p is the regularized incomplete
      beta function at the share of ss in ss + n * m^2. */
  lemma PValueArguments(ibeta: Ibeta, m: real, ss: real, n: nat) returns (x: real)
    requires n >= 2 && ss > 0.0
    ensures x * (ss + (n as real) * (m * m)) == ss
    ensures PValue(ibeta, m, ss, n) == ibeta((n as real - 1.0) / 2.0, 0.5, x)
  {
    var df, v, nm := (n - 1) as real, Over(ss, n - 1), (n as real) * (m * m);
    assert v * df == ss;
    var t2 := TSquared(Square(m), n, v);
    assert t2 * v == nm;
    x := df / (df + t2);
    Share(x, df, t2, v);
  }

  lemma Share(x: real, df: real, t2: real, v: real)
    requires x * (df + t2) == df
    ensures x * (v * df + t2 * v) == v * df
  {
    assert v * df + t2 * v == (df + t2) * v;
    assert x * ((df + t2) * v) == (x * (df + t2)) * v;
  }

  /** When every pair gains the same in each metric the gate passes if and only if the gain in
      nDCG@10 is positive and Recall@20 loses no more than the margin, whatever ibeta is. */
  lemma EqualGains(ibeta: Ibeta, pairs: seq<Pair>, d: real, e: real)
    requires |pairs| >= 2
    requires forall p :: p in pairs ==>
      p.cand.ndcg10 - p.base.ndcg10 == d && p.cand.recall20 - p.base.recall20 == e
    ensures var g := ResultOf(ibeta, pairs);
      && g.ndcgDelta == d && g.recallDelta == e
      && (g.verdict.Pass? <==> d > 0.0 && e >= -0.02)
  {
    EqualGain(ibeta, pairs, Ndcg10, d);
    EqualGain(ibeta, pairs, Recall20, e);
    hide MeanOf, POf;
  }

  lemma EqualGain(ibeta: Ibeta, pairs: seq<Pair>, m: Metric, d: real)
    requires |pairs| >= 2 && forall p :: p in pairs ==> Raw(p.cand, m) - Raw(p.base, m) == d
    ensures MeanOf(pairs, CandOf(m), BaseOf(m)) == d
    ensures POf(ibeta, pairs, CandOf(m), BaseOf(m)) == if d == 0.0 then 1.0 else 0.0
  {
    hide Raw, Over, SumDiff, SumSquares, PValue;
    var a, b := Map(pairs, CandOf(m)), Map(pairs, BaseOf(m));
    assert forall i :: 0 <= i < |a| ==> a[i] - b[i] == Raw(pairs[i].cand, m) - Raw(pairs[i].base, m);
    DegenerateTest(ibeta, a, b, Over(SumDiff(a, b), |a|));
  }

  // ----- Exchanging the two runs -----

  predicate Matches(b: QueryResult, c: QueryResult) { Usable(b) && Usable(c) && PairKey(b) == PairKey(c) }

  // No result of the other run matches two results of this one.
  ghost predicate MatchedOnce(rs: seq<QueryResult>, others: seq<QueryResult>)
  {
    forall o :: o in others ==> AtMostOne(rs, o)
  }

  ghost predicate AtMostOne(rs: seq<QueryResult>, o: QueryResult)
  {
    forall i, j :: 0 <= i < j < |rs| ==> !(Matches(rs[i], o) && Matches(rs[j], o))
  }

  function Term(b: QueryResult, c: QueryResult, f: Pair -> real): real
  {
    if Matches(b, c) then f(Pair(b, c)) else 0.0
  }

  // The sum over all baseline results matching one candidate.
  function Row(base: seq<QueryResult>, c: QueryResult, f: Pair -> real): real
  {
    if base == [] then 0.0 else Row(base[..|base|-1], c, f) + Term(base[|base|-1], c, f)
  }

  // The sum over all candidates matching one baseline result.
  function Col(b: QueryResult, cand: seq<QueryResult>, f: Pair -> real): real
  {
    if cand == [] then 0.0 else Col(b, cand[..|cand|-1], f) + Term(b, cand[|cand|-1], f)
  }

  function ByCandidate(base: seq<QueryResult>, cand: seq<QueryResult>, f: Pair -> real): real
  {
    if cand == [] then 0.0
    else ByCandidate(base, cand[..|cand|-1], f) + Row(base, cand[|cand|-1], f)
  }

  function ByBaseline(base: seq<QueryResult>, cand: seq<QueryResult>, f: Pair -> real): real
  {
    if base == [] then 0.0
    else ByBaseline(base[..|base|-1], cand, f) + Col(base[|base|-1], cand, f)
  }

  // The sum over a grid by rows is the sum by columns.
  lemma {:induction false} Grid(base: seq<QueryResult>, cand: seq<QueryResult>, f: Pair -> real)
    ensures ByCandidate(base, cand, f) == ByBaseline(base, cand, f)
    decreases |base| + |cand|
  {
    if base == [] {
      GridNoBase(cand, f);
    } else if cand == [] {
      GridNoCand(base, f);
    } else {
      var b, c := base[..|base|-1], cand[..|cand|-1];
      Grid(base, c, f);
      Grid(b, cand, f);
      Grid(b, c, f);
    }
  }

  lemma {:induction false} GridNoBase(cand: seq<QueryResult>, f: Pair -> real)
    ensures ByCandidate([], cand, f) == 0.0
  {
    if cand != [] {
      GridNoBase(cand[..|cand|-1], f);
    }
  }

  lemma {:induction false} GridNoCand(base: seq<QueryResult>, f: Pair -> real)
    ensures ByBaseline(base, [], f) == 0.0
  {
    if base != [] {
      GridNoCand(base[..|base|-1], f);
    }
  }

  // A candidate with at most one match matches the result that the index holds.
  lemma {:induction false} RowIsLookup(base: seq<QueryResult>, c: QueryResult, f: Pair -> real)
    requires AtMostOne(base, c)
    ensures Row(base, c, f) == (
        if Usable(c) && Lookup(base, PairKey(c)).Some? then f(Pair(Lookup(base, PairKey(c)).value, c)) else 0.0)
    ensures Lookup(base, PairKey(c)).None? ==> forall b :: b in base ==> !Matches(b, c)
  {
    if base != [] {
      var init, last := base[..|base|-1], base[|base|-1];
      FrontMatches(base, c);
      hide AtMostOne, Matches;
      RowIsLookup(init, c, f);
      assert base == init + [last];
      assert Matches(last, c) <==> Usable(last) && Usable(c) && PairKey(last) == PairKey(c);
      if Matches(last, c) {
        RowZero(init, c, f);
      }
    }
  }

  lemma FrontMatches(rs: seq<QueryResult>, o: QueryResult)
    requires rs != [] && AtMostOne(rs, o)
    ensures AtMostOne(rs[..|rs|-1], o)
    ensures Matches(rs[|rs|-1], o) ==> forall r :: r in rs[..|rs|-1] ==> !Matches(r, o)
  {
    hide Matches;
  }

  lemma {:induction false} RowZero(base: seq<QueryResult>, c: QueryResult, f: Pair -> real)
    requires forall b :: b in base ==> !Matches(b, c)
    ensures Row(base, c, f) == 0.0
  {
    if base != [] {
      RowZero(base[..|base|-1], c, f);
    }
  }

  // When every candidate matches at most once, the sum over the pairs is the sum over the grid.
  lemma {:induction false} PairsAreGrid(base: seq<QueryResult>, cand: seq<QueryResult>, f: Pair -> real)
    requires MatchedOnce(base, cand)
    ensures Sum(Pairs(base, cand), f) == ByCandidate(base, cand, f)
  {
    if cand != [] {
      var init, last := cand[..|cand|-1], cand[|cand|-1];
      PairsAreGrid(base, init, f);
      RowIsLookup(base, last, f);
      if Usable(last) && Lookup(base, PairKey(last)).Some? {
        SumAppend(Pairs(base, init), Pair(Lookup(base, PairKey(last)).value, last), f);
      } else {
        assert Pairs(base, cand) == Pairs(base, init);
      }
    }
  }

  // Transposing the grid: the rows of one are the columns of the other.
  lemma {:induction false} RowIsCol(base: seq<QueryResult>, c: QueryResult, f: Pair -> real, g: Pair -> real)
    requires forall x, y :: f(Pair(x, y)) == g(Pair(y, x))
    ensures Row(base, c, f) == Col(c, base, g)
  {
    if base != [] {
      RowIsCol(base[..|base|-1], c, f, g);
    }
  }

  lemma {:induction false} Transpose(base: seq<QueryResult>, cand: seq<QueryResult>, f: Pair -> real, g: Pair -> real)
    requires forall x, y :: f(Pair(x, y)) == g(Pair(y, x))
    ensures ByCandidate(base, cand, f) == ByBaseline(cand, base, g)
  {
    if cand != [] {
      Transpose(base, cand[..|cand|-1], f, g);
      RowIsCol(base, cand[|cand|-1], f, g);
    }
  }

  /** Pairing is symmetric: any sum over the pairs of (base, cand) is the sum of the mirrored
      quantity over the pairs of (cand, base), although both lists are in different orders. */
  lemma SwapSum(base: seq<QueryResult>, cand: seq<QueryResult>, f: Pair -> real, g: Pair -> real)
    requires MatchedOnce(base, cand) && MatchedOnce(cand, base)
    requires forall x, y :: f(Pair(x, y)) == g(Pair(y, x))
    ensures Sum(Pairs(base, cand), f) == Sum(Pairs(cand, base), g)
  {
    PairsAreGrid(base, cand, f);
    PairsAreGrid(cand, base, g);
    Transpose(base, cand, f, g);
    Grid(cand, base, g);
  }

  // The two accumulators of the t-test as sums over pairs.
  function Diff(c: Pair -> real, b: Pair -> real): Pair -> real { p => c(p) - b(p) }

  function Deviation(c: Pair -> real, b: Pair -> real, m: real): Pair -> real { p => Square(c(p) - b(p) - m) }

  function One(): Pair -> real { p => 1.0 }

  lemma {:induction false} SumsOfColumns(pairs: seq<Pair>, c: Pair -> real, b: Pair -> real, m: real)
    ensures SumDiff(Map(pairs, c), Map(pairs, b)) == Sum(pairs, Diff(c, b))
    ensures SumSquares(Map(pairs, c), Map(pairs, b), m) == Sum(pairs, Deviation(c, b, m))
    ensures Sum(pairs, One()) == |pairs| as real
  {
    if pairs != [] {
      var init := pairs[..|pairs|-1];
      SumsOfColumns(init, c, b, m);
      assert Map(pairs, c)[..|pairs|-1] == Map(init, c);
      assert Map(pairs, b)[..|pairs|-1] == Map(init, b);
    }
  }

  lemma {:induction false} SumNegated(pairs: seq<Pair>, f: Pair -> real, g: Pair -> real)
    requires forall p :: f(p) == -g(p)
    ensures Sum(pairs, f) == -Sum(pairs, g)
  {
    if pairs != [] {
      SumNegated(pairs[..|pairs|-1], f, g);
    }
  }

  lemma SwapCount(base: seq<QueryResult>, cand: seq<QueryResult>)
    requires MatchedOnce(base, cand) && MatchedOnce(cand, base)
    ensures |Pairs(base, cand)| == |Pairs(cand, base)|
  {
    hide Pairs, MatchedOnce;
    var ps, qs := Pairs(base, cand), Pairs(cand, base);
    SwapSum(base, cand, One(), One());
    SumsOfColumns(ps, One(), One(), 0.0);
    SumsOfColumns(qs, One(), One(), 0.0);
    assert |ps| as real == |qs| as real;
  }

  lemma SwapDifferences(base: seq<QueryResult>, cand: seq<QueryResult>, c: Pair -> real, b: Pair -> real)
    requires MatchedOnce(base, cand) && MatchedOnce(cand, base)
    requires forall x, y :: c(Pair(x, y)) == b(Pair(y, x))
    ensures Sum(Pairs(base, cand), Diff(c, b)) == -Sum(Pairs(cand, base), Diff(c, b))
  {
    hide Pairs, MatchedOnce;
    SwapSum(base, cand, Diff(c, b), Diff(b, c));
    SumNegated(Pairs(cand, base), Diff(b, c), Diff(c, b));
  }

  lemma SwapDeviations(base: seq<QueryResult>, cand: seq<QueryResult>, c: Pair -> real, b: Pair -> real, m: real)
    requires MatchedOnce(base, cand) && MatchedOnce(cand, base)
    requires forall x, y :: c(Pair(x, y)) == b(Pair(y, x))
    ensures Sum(Pairs(base, cand), Deviation(c, b, m)) == Sum(Pairs(cand, base), Deviation(c, b, -m))
  {
    hide Pairs, MatchedOnce, Square;
    forall x, y
      ensures Deviation(c, b, m)(Pair(x, y)) == Deviation(c, b, -m)(Pair(y, x))
    {
      SquareNegated(c(Pair(x, y)) - b(Pair(x, y)) - m);
    }
    SwapSum(base, cand, Deviation(c, b, m), Deviation(c, b, -m));
  }

  lemma SwapMean(base: seq<QueryResult>, cand: seq<QueryResult>, c: Pair -> real, b: Pair -> real)
    requires MatchedOnce(base, cand) && MatchedOnce(cand, base)
    requires forall x, y :: c(Pair(x, y)) == b(Pair(y, x))
    requires |Pairs(base, cand)| == |Pairs(cand, base)| > 0
    ensures MeanOf(Pairs(base, cand), c, b) == -MeanOf(Pairs(cand, base), c, b)
  {
    hide Pairs, MatchedOnce, Over, SumDiff, SumSquares, Sum;
    var ps, qs := Pairs(base, cand), Pairs(cand, base);
    SwapDifferences(base, cand, c, b);
    SumsOfColumns(ps, c, b, 0.0);
    SumsOfColumns(qs, c, b, 0.0);
    QuotientNegated(Sum(qs, Diff(c, b)), |qs|);
  }

  // For one metric: as many pairs, the opposite mean, the same p.
  lemma SwapMetric(ibeta: Ibeta, base: seq<QueryResult>, cand: seq<QueryResult>, c: Pair -> real, b: Pair -> real)
    requires MatchedOnce(base, cand) && MatchedOnce(cand, base)
    requires forall x, y :: c(Pair(x, y)) == b(Pair(y, x))
    ensures |Pairs(base, cand)| == |Pairs(cand, base)|
    ensures |Pairs(base, cand)| >= 2 ==>
      && MeanOf(Pairs(base, cand), c, b) == -MeanOf(Pairs(cand, base), c, b)
      && POf(ibeta, Pairs(base, cand), c, b) == POf(ibeta, Pairs(cand, base), c, b)
  {
    hide Pairs, MatchedOnce, MeanOf, SumSquares, Sum, PValue, SumDiff;
    var ps, qs := Pairs(base, cand), Pairs(cand, base);
    SwapCount(base, cand);
    if |ps| >= 2 {
      SwapMean(base, cand, c, b);
      var m := MeanOf(ps, c, b);
      SwapDeviations(base, cand, c, b, m);
      SumsOfColumns(ps, c, b, m);
      SumsOfColumns(qs, c, b, -m);
      PValueNegated(ibeta, m, SumSquares(Map(ps, c), Map(ps, b), m), |ps|);
    }
  }

  lemma QuotientNegated(x: real, n: nat)
    requires n > 0
    ensures Over(-x, n) == -Over(x, n)
  {
    var d := n as real;
    var q := x / d;
    assert q * d == x;
    TimesNegated(q, d);
    QuotientUnique(-x, d, -q);
  }

  lemma TimesNegated(q: real, d: real)
    ensures (-q) * d == -(q * d)
  {}

  lemma QuotientUnique(x: real, d: real, q: real)
    requires d != 0.0 && q * d == x
    ensures x / d == q
  {}

  // Only the square of the mean enters p.
  lemma PValueNegated(ibeta: Ibeta, m: real, ss: real, n: nat)
    requires n >= 2
    ensures PValue(ibeta, -m, ss, n) == PValue(ibeta, m, ss, n)
  {
    hide Square, Over, TSquared, TwoTailed;
    SquareNegated(m);
  }

  lemma SquareNegated(x: real)
    ensures Square(-x) == Square(x)
  {}

  /** Exchanging baseline and candidate negates both deltas, keeps the number of pairs and
      both p-values; so the gate never passes in both directions. */
  lemma SwapRoles(ibeta: Ibeta, base: seq<QueryResult>, cand: seq<QueryResult>)
    requires MatchedOnce(base, cand) && MatchedOnce(cand, base)
    ensures var g, h := ResultOf(ibeta, Pairs(base, cand)), ResultOf(ibeta, Pairs(cand, base));
      && g.paired == h.paired
      && g.ndcgDelta == -h.ndcgDelta && g.recallDelta == -h.recallDelta
      && g.ndcgP == h.ndcgP && g.recallP == h.recallP
      && !(g.verdict.Pass? && h.verdict.Pass?)
  {
    SwapMetric(ibeta, base, cand, CandOf(Ndcg10), BaseOf(Ndcg10));
    SwapMetric(ibeta, base, cand, CandOf(Recall20), BaseOf(Recall20));
  }

  function Reversed(c: Change): Change { Change(-c.mean, c.p) }

  /** The delta block is reversed too: every metric's mean is negated and its p kept. */
  lemma SwapDelta(ibeta: Ibeta, base: seq<QueryResult>, cand: seq<QueryResult>)
    requires MatchedOnce(base, cand) && MatchedOnce(cand, base)
    ensures match DeltaOf(ibeta, Pairs(base, cand))
      case None => DeltaOf(ibeta, Pairs(cand, base)).None?
      case Some(d) =>
        DeltaOf(ibeta, Pairs(cand, base))
        == Some(DeltaBlock(Reversed(d.ndcg10), Reversed(d.recall10), Reversed(d.recall20), Reversed(d.mrr),
                           Reversed(d.latency)))
  {
    hide MeanOf, POf, Pairs, MatchedOnce;
    forall m: Metric
      ensures |Pairs(base, cand)| == |Pairs(cand, base)|
      ensures |Pairs(base, cand)| >= 2 ==>
        ChangeOf(ibeta, Pairs(cand, base), m) == Reversed(ChangeOf(ibeta, Pairs(base, cand), m))
    {
      SwapMetric(ibeta, base, cand, CandOf(m), BaseOf(m));
    }
    assert |Pairs(base, cand)| == |Pairs(cand, base)| by {
      SwapMetric(ibeta, base, cand, CandOf(Mrr), BaseOf(Mrr));
    }
  }

  // ----- Where the code and its comments part, and what the hypotheses are for -----

  function Multiple(n: nat, d: real): real { (n as real) * d }

  lemma {:induction false} ConstantSums(a: seq<real>, b: seq<real>, d: real)
    requires |a| == |b| && forall i :: 0 <= i < |a| ==> a[i] - b[i] == d
    ensures SumDiff(a, b) == Multiple(|a|, d)
    ensures SumSquares(a, b, d) == 0.0
  {
    if a != [] {
      ConstantSums(a[..|a|-1], b[..|b|-1], d);
    }
  }

  // A sum of squares vanishes only if every difference is m.
  lemma {:induction false} NoSpread(a: seq<real>, b: seq<real>, m: real)
    requires |a| == |b| && SumSquares(a, b, m) <= 0.0
    ensures forall i :: 0 <= i < |a| ==> a[i] - b[i] == m
  {
    if a != [] {
      var d := a[|a|-1] - b[|b|-1] - m;
      NoSpread(a[..|a|-1], b[..|b|-1], m);
    }
  }

  /** The test is degenerate exactly when all differences are equal. Then p is 1 for no
      difference and 0, not 1, for a constant difference: two queries that gain the same
      amount are reported as certain. */
  lemma DegenerateTest(ibeta: Ibeta, a: seq<real>, b: seq<real>, mean: real)
    requires |a| == |b| >= 2 && mean == Over(SumDiff(a, b), |a|)
    ensures Over(SumSquares(a, b, mean), |a| - 1) <= 0.0 <==>
      forall i :: 0 <= i < |a| ==> a[i] - b[i] == a[0] - b[0]
    ensures (forall i :: 0 <= i < |a| ==> a[i] - b[i] == a[0] - b[0]) ==>
      mean == a[0] - b[0]
      && PValue(ibeta, mean, SumSquares(a, b, mean), |a|) == if mean == 0.0 then 1.0 else 0.0
  {
    hide Square, TSquared, TwoTailed, Over, SumDiff, SumSquares;
    if forall i :: 0 <= i < |a| ==> a[i] - b[i] == a[0] - b[0] {
      ConstantDifferences(a, b, mean);
    } else if Over(SumSquares(a, b, mean), |a| - 1) <= 0.0 {
      OverPositive(SumSquares(a, b, mean), |a| - 1);
      NoSpread(a, b, mean);
      assert a[0] - b[0] == mean;
    }
  }

  lemma ConstantDifferences(a: seq<real>, b: seq<real>, mean: real)
    requires |a| == |b| >= 2 && mean == Over(SumDiff(a, b), |a|)
    requires forall i :: 0 <= i < |a| ==> a[i] - b[i] == a[0] - b[0]
    ensures mean == a[0] - b[0] && Over(SumSquares(a, b, mean), |a| - 1) == 0.0
  {
    hide Over, SumDiff, SumSquares, Multiple;
    ConstantSums(a, b, a[0] - b[0]);
    OverMultiple(|a|, a[0] - b[0]);
    OverZero(|a| - 1);
  }

  lemma OverZero(n: nat)
    requires n > 0
    ensures Over(0.0, n) == 0.0
  {}

  lemma OverMultiple(n: nat, d: real)
    requires n > 0
    ensures Over(Multiple(n, d), n) == d
  {}

  lemma OverPositive(x: real, n: nat)
    requires n > 0 && Over(x, n) <= 0.0
    ensures x <= 0.0
  {}

  /** Two repositories have queries with the same key if and only if one name, with the
      separator, begins the other. */
  lemma KeysCollideIff(a: string, b: string)
    requires a != b
    ensures (exists q: string, r: string :: a + "|" + q == b + "|" + r)
            <==> HasPrefix(a + "|", b + "|") || HasPrefix(b + "|", a + "|")
  {
    var s, t := a + "|", b + "|";
    if HasPrefix(t, s) {
      assert a + "|" + t[|s|..] == b + "|" + "";
    } else if HasPrefix(s, t) {
      assert a + "|" + "" == b + "|" + s[|t|..];
    } else {
      forall q: string, r: string
        ensures a + "|" + q != b + "|" + r
      {
        if s + q == t + r {
          CommonStart(s, q, t, r);
        }
      }
    }
  }

  lemma CommonStart(s: string, q: string, t: string, r: string)
    requires s + q == t + r
    ensures HasPrefix(s, t) || HasPrefix(t, s)
  {
    if |s| <= |t| {
      assert s == (s + q)[..|s|] == (t + r)[..|s|] == t[..|s|];
    } else {
      assert t == (t + r)[..|t|] == (s + q)[..|t|] == s[..|t|];
    }
  }

  // So the keys of two repositories whose names hold no separator are never the same.
  lemma KeyInjective(r: QueryResult, s: QueryResult)
    requires '|' !in r.repo && '|' !in s.repo
    ensures PairKey(r) == PairKey(s) <==> r.repo == s.repo && r.query == s.query
  {
    if r.repo != s.repo {
      if HasPrefix(r.repo + "|", s.repo + "|") {
        BegunByItself(r.repo, s.repo);
      }
      if HasPrefix(s.repo + "|", r.repo + "|") {
        BegunByItself(s.repo, r.repo);
      }
      KeysCollideIff(r.repo, s.repo);
    } else if PairKey(r) == PairKey(s) {
      assert r.query == PairKey(r)[|r.repo|+1..] == PairKey(s)[|s.repo|+1..] == s.query;
    }
  }

  // A name without the separator is begun, with the separator, only by itself.
  lemma BegunByItself(a: string, b: string)
    requires HasPrefix(a + "|", b + "|") && '|' !in a
    ensures a == b
  {
    var s, t := a + "|", b + "|";
    assert s[|b|] == s[..|t|][|b|] == '|';
    assert |b| >= |a|;
    assert b == t[..|b|] == s[..|t|][..|b|] == a;
  }

  // Different queries with one key.
  lemma KeysCollide(r: QueryResult)
    ensures PairKey(r.(repo := "a|b", query := "c")) == PairKey(r.(repo := "a", query := "b|c"))
  {}

  // ----- For which keys the exchange theorem holds -----

  // The same queries in the same order, usable or not, with any metric values.
  ghost predicate SameQueries(a: seq<QueryResult>, b: seq<QueryResult>)
  {
    |a| == |b| && forall i :: 0 <= i < |a| ==> PairKey(a[i]) == PairKey(b[i]) && (Usable(a[i]) <==> Usable(b[i]))
  }

  // Exchanging the runs keeps the number of pairs and negates the sum of the differences.
  ghost predicate Mirrors(base: seq<QueryResult>, cand: seq<QueryResult>, m: Metric)
  {
    && |Pairs(base, cand)| == |Pairs(cand, base)|
    && Sum(Pairs(base, cand), Diff(CandOf(m), BaseOf(m))) == -Sum(Pairs(cand, base), Diff(CandOf(m), BaseOf(m)))
  }

  lemma SameQueriesMatch(base: seq<QueryResult>, cand: seq<QueryResult>, b: seq<QueryResult>, c: seq<QueryResult>)
    requires SameQueries(base, b) && SameQueries(cand, c) && MatchedOnce(base, cand)
    ensures MatchedOnce(b, c)
  {
    hide PairKey, Usable;
    forall o | o in c
      ensures AtMostOne(b, o)
    {
      var k :| 0 <= k < |c| && c[k] == o;
      assert AtMostOne(base, cand[k]);
      forall i, j | 0 <= i < j < |b|
        ensures !(Matches(b[i], o) && Matches(b[j], o))
      {
        assert !(Matches(base[i], cand[k]) && Matches(base[j], cand[k]));
      }
    }
  }

  lemma MatchedOnceMirrors(base: seq<QueryResult>, cand: seq<QueryResult>, m: Metric)
    requires MatchedOnce(base, cand) && MatchedOnce(cand, base)
    ensures Mirrors(base, cand, m)
  {
    hide Pairs, MatchedOnce, Diff;
    SwapCount(base, cand);
    SwapDifferences(base, cand, CandOf(m), BaseOf(m));
  }

  function With(r: QueryResult, m: Metric, x: real): (q: QueryResult)
    ensures Raw(q, m) == x && PairKey(q) == PairKey(r) && (Usable(q) <==> Usable(r))
  {
    match m
    case Ndcg10 => r.(ndcg10 := x)
    case Recall10 => r.(recall10 := x)
    case Recall20 => r.(recall20 := x)
    case Mrr => r.(mrr := x)
    case Latency => r.(latencyMs := x)
  }

  // The results with the metric 1 at index i and 0 elsewhere.
  function Marked(rs: seq<QueryResult>, i: nat, m: Metric): (r: seq<QueryResult>)
    ensures SameQueries(rs, r)
    ensures forall x :: 0 <= x < |r| ==> Raw(r[x], m) == if x == i then 1.0 else 0.0
  {
    seq(|rs|, x requires 0 <= x < |rs| => With(rs[x], m, if x == i then 1.0 else 0.0))
  }

  // The index holds the last usable result of a key, and one if there is any.
  lemma {:induction false} LookupIsLast(base: seq<QueryResult>, k: string)
    ensures match Lookup(base, k)
      case None => forall x :: 0 <= x < |base| ==> !(Usable(base[x]) && PairKey(base[x]) == k)
      case Some(r) =>
        exists x :: 0 <= x < |base| && base[x] == r && Usable(r) && PairKey(r) == k
          && forall y :: x < y < |base| ==> !(Usable(base[y]) && PairKey(base[y]) == k)
  {
    hide PairKey, Usable;
    if base != [] {
      var front := base[..|base|-1];
      LookupIsLast(front, k);
      if !(Usable(base[|base|-1]) && PairKey(base[|base|-1]) == k) && Lookup(front, k).Some? {
        var r := Lookup(front, k).value;
        var x :| 0 <= x < |front| && front[x] == r && Usable(r) && PairKey(r) == k
          && forall y :: x < y < |front| ==> !(Usable(front[y]) && PairKey(front[y]) == k);
        assert base[x] == r && forall y :: 0 <= y < |front| ==> base[y] == front[y];
      }
    }
  }

  lemma {:induction false} PairsMembers(base: seq<QueryResult>, cand: seq<QueryResult>)
    ensures forall p :: p in Pairs(base, cand) <==>
      p.cand in cand && Usable(p.cand) && Lookup(base, PairKey(p.cand)) == Some(p.base)
  {
    hide Usable, PairKey, Lookup;
    if cand != [] {
      PairsMembers(base, cand[..|cand|-1]);
      assert cand == cand[..|cand|-1] + [cand[|cand|-1]];
    }
  }

  lemma {:induction false} SumBounds(pairs: seq<Pair>, f: Pair -> real)
    ensures (forall p :: p in pairs ==> f(p) == 0.0) ==> Sum(pairs, f) == 0.0
    ensures (forall p :: p in pairs ==> f(p) >= 0.0) ==>
      Sum(pairs, f) >= 0.0 && forall p :: p in pairs ==> Sum(pairs, f) >= f(p)
  {
    if pairs != [] {
      SumBounds(pairs[..|pairs|-1], f);
      assert pairs == pairs[..|pairs|-1] + [pairs[|pairs|-1]];
    }
  }

  // A result that another one of its key hides from the index counts in one direction only.
  lemma HiddenResult(base: seq<QueryResult>, cand: seq<QueryResult>, i: nat, j: nat, o: QueryResult, m: Metric)
    requires i < j < |base| && o in cand && Matches(base[i], o) && Matches(base[j], o)
    ensures !Mirrors(Marked(base, i, m), Marked(cand, |cand|, m), m)
  {
    var b, c := Marked(base, i, m), Marked(cand, |cand|, m);
    HiddenForward(base, cand, i, j, m);
    HiddenBackward(base, cand, i, o, m);
    hide Marked, Pairs, Sum;
  }

  lemma HiddenForward(base: seq<QueryResult>, cand: seq<QueryResult>, i: nat, j: nat, m: Metric)
    requires i < j < |base| && Usable(base[j]) && PairKey(base[j]) == PairKey(base[i])
    ensures Sum(Pairs(Marked(base, i, m), Marked(cand, |cand|, m)), Diff(CandOf(m), BaseOf(m))) == 0.0
  {
    var b, c := Marked(base, i, m), Marked(cand, |cand|, m);
    hide Marked, PairKey, Usable, Raw, Pairs, Lookup;
    PairsMembers(b, c);
    forall p | p in Pairs(b, c)
      ensures Raw(p.cand, m) == 0.0 && Raw(p.base, m) == 0.0
    {
      LookupIsLast(b, PairKey(p.cand));
      var x :| 0 <= x < |b| && b[x] == p.base && PairKey(p.base) == PairKey(p.cand)
        && forall y :: x < y < |b| ==> !(Usable(b[y]) && PairKey(b[y]) == PairKey(p.cand));
      assert x != i;
    }
    SumBounds(Pairs(b, c), Diff(CandOf(m), BaseOf(m)));
  }

  lemma HiddenBackward(base: seq<QueryResult>, cand: seq<QueryResult>, i: nat, o: QueryResult, m: Metric)
    requires i < |base| && o in cand && Matches(base[i], o)
    ensures Sum(Pairs(Marked(cand, |cand|, m), Marked(base, i, m)), Diff(CandOf(m), BaseOf(m))) >= 1.0
  {
    var b, c := Marked(base, i, m), Marked(cand, |cand|, m);
    var k := PairKey(b[i]);
    assert Usable(b[i]) && k == PairKey(o);
    hide Marked, PairKey, Usable, Raw, Pairs, Lookup;
    PairsMembers(c, b);
    LookupIsLast(c, k);
    var x :| 0 <= x < |cand| && cand[x] == o;
    assert Usable(c[x]) && PairKey(c[x]) == k;
    var p := Pair(Lookup(c, k).value, b[i]);
    assert p in Pairs(c, b);
    forall q | q in Pairs(c, b)
      ensures Raw(q.base, m) == 0.0 && Raw(q.cand, m) >= 0.0
    {
      LookupIsLast(c, PairKey(q.cand));
    }
    SumBounds(Pairs(c, b), Diff(CandOf(m), BaseOf(m)));
  }

  /** Exchanging the runs mirrors every metric for all values it may take if and only if no result
      of either run matches two of the other. */
  lemma ExchangeIffMatchedOnce(base: seq<QueryResult>, cand: seq<QueryResult>, m: Metric)
    ensures MatchedOnce(base, cand) && MatchedOnce(cand, base) <==>
      forall b, c :: SameQueries(base, b) && SameQueries(cand, c) ==> Mirrors(b, c, m)
  {
    hide SameQueries, Mirrors, Marked, Matches;
    if MatchedOnce(base, cand) && MatchedOnce(cand, base) {
      hide MatchedOnce;
      forall b, c | SameQueries(base, b) && SameQueries(cand, c)
        ensures Mirrors(b, c, m)
      {
        SameQueriesMatch(base, cand, b, c);
        SameQueriesMatch(cand, base, c, b);
        MatchedOnceMirrors(b, c, m);
      }
    } else if !MatchedOnce(base, cand) {
      var o, i, j :| o in cand && 0 <= i < j < |base| && Matches(base[i], o) && Matches(base[j], o);
      HiddenResult(base, cand, i, j, o, m);
    } else {
      var o, i, j :| o in base && 0 <= i < j < |cand| && Matches(cand[i], o) && Matches(cand[j], o);
      HiddenResult(cand, base, i, j, o, m);
      MirrorsBothWays(Marked(cand, i, m), Marked(base, |base|, m), m);
    }
  }

  lemma MirrorsBothWays(base: seq<QueryResult>, cand: seq<QueryResult>, m: Metric)
    ensures Mirrors(base, cand, m) <==> Mirrors(cand, base, m)
  {}

  // With a key twice in one run, exchanging the runs changes even the number of pairs.
  lemma DuplicateKeysBreakSymmetry(r: QueryResult)
    requires Usable(r)
    ensures |Pairs([r, r], [r])| == 1 && |Pairs([r], [r, r])| == 2
  {
    assert [r, r][..1] == [r];
    assert Lookup([r, r], PairKey(r)) == Some(r) && Lookup([r], PairKey(r)) == Some(r);
    assert Pairs([r], [r]) == [Pair(r, r)];
  }
}
