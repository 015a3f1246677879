/** nDCG@10, recall and reciprocal rank of one query. The discounts 1 / log2(i + 2) enter as
    any weights that are positive and decrease with the rank. */
module Metrics {
  import opened Seqs
  import opened Text

  datatype SearchHit = SearchHit(file: string, symbol: string)

  const K: nat := 10

  // ----- Matching -----

  // Whether one label names the hit: by symbol, by file:symbol, or by a suffix of the file.
  predicate Matches(hit: SearchHit, raw: string)
  {
    var exp := TrimSpace(raw);
    if exp == "" then false
    else
      match Cut(exp, ':')
      case None => exp == hit.symbol
      case Some((fp, sym)) =>
        || exp == hit.file + ":" + hit.symbol
        || (sym == hit.symbol && (HasSuffix(hit.file, fp) || HasSuffix(hit.file, "/" + fp)))
  }

  method MatchExpected(hit: SearchHit, expected: seq<string>) returns (found: bool)
    ensures found <==> Relevant(hit, expected)
  {
    for i := 0 to |expected|
      invariant forall l :: l in expected[..i] ==> !Matches(hit, l)
    {
      var raw := expected[i];
      assert raw in expected && expected[..i+1] == expected[..i] + [raw];
      var exp := TrimSpace(raw);
      if exp == "" {
        continue;
      }
      if ':' !in exp {
        if exp == hit.symbol {
          return true;
        }
        continue;
      }
      if exp == hit.file + ":" + hit.symbol {
        return true;
      }
      var cut := Cut(exp, ':');
      var fp, sym := cut.value.0, cut.value.1;
      if sym == hit.symbol && (HasSuffix(hit.file, fp) || HasSuffix(hit.file, "/" + fp)) {
        return true;
      }
    }
    assert expected[..|expected|] == expected;
    return false;
  }

  predicate Relevant(hit: SearchHit, expected: seq<string>)
  {
    exists l :: l in expected && Matches(hit, l)
  }

  // ----- What the forms of a label match -----

  /** White space around a label does not matter, and a blank label matches nothing. */
  lemma LabelTrimmed(hit: SearchHit, before: string, form: string, after: string)
    requires Trimmed(form) && (form == "" ==> after == "")
    requires forall c :: c in before || c in after ==> IsSpace(c)
    ensures Matches(hit, before + form + after) <==> Matches(hit, form)
    ensures !Matches(hit, before)
  {
    TrimSpaceOf(before, form, after);
    TrimSpaceOf(before, "", "");
    assert before + "" + "" == before;
  }

  /** A label without a colon matches the hits with that symbol. */
  lemma SymbolLabel(hit: SearchHit, form: string)
    requires Trimmed(form) && form != "" && ':' !in form
    ensures Matches(hit, form) <==> hit.symbol == form
  {}

  /** A label path:sym matches the hits with that symbol whose file ends in path, at a directory
      boundary or not; and, for a hit whose file holds a colon, the hit it spells out. */
  lemma FileLabel(hit: SearchHit, path: string, sym: string)
    requires Trimmed(path + ":" + sym) && ':' !in path
    ensures Matches(hit, path + ":" + sym) <==>
      || (hit.symbol == sym && HasSuffix(hit.file, path))
      || hit.file + ":" + hit.symbol == path + ":" + sym
    ensures ':' !in hit.file ==>
      (Matches(hit, path + ":" + sym) <==> hit.symbol == sym && HasSuffix(hit.file, path))
  {
    hide TrimSpace, Cut;
    var form := path + ":" + sym;
    CutUnique(path, ':', sym);
    assert form == path + [':'] + sym;
    if HasSuffix(hit.file, "/" + path) {
      LongerSuffix(hit.file, path);
    }
    if hit.file + ":" + hit.symbol == form && ':' !in hit.file {
      CutUnique(hit.file, ':', hit.symbol);
      assert hit.file[|hit.file|-|path|..] == path;
    }
  }

  lemma LongerSuffix(s: string, p: string)
    requires HasSuffix(s, "/" + p)
    ensures HasSuffix(s, p)
  {
    assert s[|s|-|p|..] == s[|s|-|p|-1..][1..] == ("/" + p)[1..] == p;
  }

  // ----- nDCG@10 -----

  type Discount = nat -> real

  ghost predicate IsDiscount(w: Discount)
  {
    && (forall i: nat :: w(i) > 0.0)
    && (forall i: nat, j: nat :: i < j ==> w(i) > w(j))
  }

  // The discounted gain of the first n hits.
  function Dcg(hits: seq<SearchHit>, expected: seq<string>, w: Discount, n: nat): real
    requires n <= |hits|
  {
    if n == 0 then 0.0
    else Dcg(hits, expected, w, n - 1) + if Relevant(hits[n-1], expected) then w(n - 1) else 0.0
  }

  // The gain of n hits that are all relevant.
  function Ideal(w: Discount, n: nat): real
  {
    if n == 0 then 0.0 else Ideal(w, n - 1) + w(n - 1)
  }

  function Ndcg(hits: seq<SearchHit>, expected: seq<string>, w: Discount): real
  {
    var ideal := Ideal(w, Min(K, |expected|));
    if expected == [] || ideal == 0.0 then 0.0
    else Dcg(hits, expected, w, Min(K, |hits|)) / ideal
  }

  method NDCG10(hits: seq<SearchHit>, expected: seq<string>, w: Discount) returns (r: real)
    ensures r == Ndcg(hits, expected, w)
  {
    if |expected| == 0 {
      return 0.0;
    }
    var dcg := 0.0;
    var n := Min(K, |hits|);
    for i := 0 to n
      invariant dcg == Dcg(hits, expected, w, i)
    {
      var found := MatchExpected(hits[i], expected);
      if found {
        dcg := dcg + w(i);
      }
    }
    var idealHits := Min(K, |expected|);
    var idcg := 0.0;
    for i := 0 to idealHits
      invariant idcg == Ideal(w, i)
    {
      idcg := idcg + w(i);
    }
    if idcg == 0.0 {
      return 0.0;
    }
    return dcg / idcg;
  }

  // ----- What nDCG@10 says of a ranking -----

  lemma {:induction false} DcgOfOne(hits: seq<SearchHit>, expected: seq<string>, w: Discount, r: nat, n: nat)
    requires n <= |hits| && forall i :: 0 <= i < n ==> (Relevant(hits[i], expected) <==> i == r)
    ensures Dcg(hits, expected, w, n) == if r < n then w(r) else 0.0
  {
    hide Relevant;
    if n > 0 {
      DcgOfOne(hits, expected, w, r, n - 1);
    }
  }

  /** With one label and one relevant hit, at index r, nDCG@10 is the weight of that rank over
      the weight of the first, and nothing beyond the tenth rank. */
  lemma NdcgOfOne(hits: seq<SearchHit>, form: string, w: Discount, r: nat)
    requires IsDiscount(w) && r < |hits|
    requires forall i :: 0 <= i < |hits| ==> (Relevant(hits[i], [form]) <==> i == r)
    ensures Ndcg(hits, [form], w) * w(0) == if r < 10 then w(r) else 0.0
  {
    hide Relevant, Dcg;
    DcgOfOne(hits, [form], w, r, Min(K, |hits|));
    assert Ideal(w, 1) == Ideal(w, 0) + w(0);
  }

  lemma {:induction false} DcgDepends(hits: seq<SearchHit>, more: seq<SearchHit>, expected: seq<string>, w: Discount,
                                      n: nat)
    requires n <= |hits| && n <= |more|
    requires forall i :: 0 <= i < n ==> (Relevant(hits[i], expected) <==> Relevant(more[i], expected))
    ensures Dcg(hits, expected, w, n) == Dcg(more, expected, w, n)
  {
    hide Relevant;
    if n > 0 {
      DcgDepends(hits, more, expected, w, n - 1);
    }
  }

  // What exchanging the hits at i and j adds to the gain.
  lemma {:induction false} DcgExchange(hits: seq<SearchHit>, expected: seq<string>, w: Discount, i: nat, j: nat,
                                       n: nat)
    requires i < j < n <= |hits| && !Relevant(hits[i], expected) && Relevant(hits[j], expected)
    ensures Dcg(hits[i := hits[j]][j := hits[i]], expected, w, n) == Dcg(hits, expected, w, n) + w(i) - w(j)
  {
    hide Relevant;
    var more := hits[i := hits[j]][j := hits[i]];
    if j < n - 1 {
      DcgExchange(hits, expected, w, i, j, n - 1);
    } else {
      DcgRaised(hits, more, expected, w, i, j);
    }
  }

  lemma {:induction false} DcgRaised(hits: seq<SearchHit>, more: seq<SearchHit>, expected: seq<string>, w: Discount,
                                     i: nat, n: nat)
    requires i < n <= |hits| && n <= |more| && !Relevant(hits[i], expected) && Relevant(more[i], expected)
    requires forall k :: 0 <= k < n && k != i ==> hits[k] == more[k]
    ensures Dcg(more, expected, w, n) == Dcg(hits, expected, w, n) + w(i)
  {
    hide Relevant;
    if i < n - 1 {
      DcgRaised(hits, more, expected, w, i, n - 1);
    } else {
      DcgDepends(hits, more, expected, w, i);
    }
  }

  /** Only the first ten hits count, and moving a relevant hit up past one that is not, within the
      ten, strictly raises nDCG@10. */
  lemma BetterRankCounts(hits: seq<SearchHit>, expected: seq<string>, w: Discount, i: nat, j: nat)
    requires IsDiscount(w) && expected != []
    requires i < j < |hits| && !Relevant(hits[i], expected) && Relevant(hits[j], expected)
    ensures var better := hits[i := hits[j]][j := hits[i]];
      && (j < 10 ==> Ndcg(better, expected, w) > Ndcg(hits, expected, w))
      && (i >= 10 ==> Ndcg(better, expected, w) == Ndcg(hits, expected, w))
  {
    hide Relevant, Dcg, Ideal;
    var n, ideal := Min(K, |hits|), Ideal(w, Min(K, |expected|));
    IdealPositive(w, Min(K, |expected|));
    var better := hits[i := hits[j]][j := hits[i]];
    if j < 10 {
      DcgExchange(hits, expected, w, i, j, n);
      QuotientGrowsStrictly(Dcg(hits, expected, w, n), Dcg(better, expected, w, n), ideal);
    } else if i >= 10 {
      DcgDepends(hits, better, expected, w, n);
    }
  }

  lemma QuotientGrowsStrictly(x: real, y: real, d: real)
    requires x < y && d > 0.0
    ensures x / d < y / d
  {}

  // How many of the first n hits are relevant.
  function RelevantIn(hits: seq<SearchHit>, expected: seq<string>, n: nat): (m: nat)
    requires n <= |hits|
    ensures m <= n
  {
    if n == 0 then 0 else RelevantIn(hits, expected, n - 1) + Bit(Relevant(hits[n-1], expected))
  }

  lemma {:induction false} IdealPositive(w: Discount, n: nat)
    requires IsDiscount(w)
    ensures n > 0 ==> Ideal(w, n) > 0.0
    ensures Ideal(w, n) >= 0.0
  {
    if n > 0 {
      IdealPositive(w, n - 1);
    }
  }

  lemma {:induction false} IdealMonotone(w: Discount, m: nat, n: nat)
    requires IsDiscount(w) && m <= n
    ensures Ideal(w, m) <= Ideal(w, n)
    ensures m < n ==> Ideal(w, m) < Ideal(w, n)
  {
    if m < n {
      IdealMonotone(w, m, n - 1);
    }
  }

  // Rearrangement: relevant hits gain the most at the top.
  lemma {:induction false} TopIsBest(hits: seq<SearchHit>, expected: seq<string>, w: Discount, n: nat)
    requires IsDiscount(w) && n <= |hits|
    ensures Dcg(hits, expected, w, n) <= Ideal(w, RelevantIn(hits, expected, n))
    ensures RelevantIn(hits, expected, n) > 0 <==> Dcg(hits, expected, w, n) > 0.0
    ensures Dcg(hits, expected, w, n) >= 0.0
  {
    hide Relevant;
    if n > 0 {
      TopIsBest(hits, expected, w, n - 1);
      var m := RelevantIn(hits, expected, n - 1);
      assert m < n - 1 ==> w(n - 1) < w(m);
    }
  }

  function TopRelevant(hits: seq<SearchHit>, expected: seq<string>): nat
  {
    RelevantIn(hits, expected, Min(K, |hits|))
  }

  /** nDCG@10 is at most 1 when no more hits among the first ten are relevant than the ideal
      ranking counts. */
  lemma NdcgAtMostOne(hits: seq<SearchHit>, expected: seq<string>, w: Discount)
    requires IsDiscount(w) && TopRelevant(hits, expected) <= Min(K, |expected|)
    ensures 0.0 <= Ndcg(hits, expected, w) <= 1.0
  {
    var n, ideal := Min(K, |hits|), Min(K, |expected|);
    TopIsBest(hits, expected, w, n);
    IdealMonotone(w, TopRelevant(hits, expected), ideal);
    IdealPositive(w, ideal);
    if expected != [] {
      AtMostOne(Dcg(hits, expected, w, n), Ideal(w, ideal));
    }
  }

  lemma AtMostOne(x: real, y: real)
    requires y > 0.0 && x >= 0.0
    ensures x / y >= 0.0
    ensures x / y <= 1.0 <==> x <= y
  {}

  // m matching hits at the top, then hits that match nothing.
  function TopHits(m: nat): seq<SearchHit>
  {
    seq(m, _ => SearchHit("f", "s"))
  }

  lemma {:induction false} AllRelevant(hits: seq<SearchHit>, expected: seq<string>, w: Discount, n: nat)
    requires n <= |hits| && forall i :: 0 <= i < n ==> Relevant(hits[i], expected)
    ensures Dcg(hits, expected, w, n) == Ideal(w, n) && RelevantIn(hits, expected, n) == n
  {
    hide Relevant;
    if n > 0 {
      AllRelevant(hits, expected, w, n - 1);
    }
  }

  /** The bound on the number of matches is exact: for a number m of matches and a number e of
      labels, every result list with m matches in the top ten has nDCG@10 at most 1 if and
      only if m does not exceed the ideal ranking's count. */
  lemma NdcgBoundExact(m: nat, e: nat, w: Discount)
    requires IsDiscount(w) && m <= K && e > 0
    ensures m <= Min(K, e) <==>
      forall hits, expected :: |expected| == e && TopRelevant(hits, expected) == m ==> Ndcg(hits, expected, w) <= 1.0
  {
    if m <= Min(K, e) {
      forall hits, expected | |expected| == e && TopRelevant(hits, expected) == m
        ensures Ndcg(hits, expected, w) <= 1.0
      {
        NdcgAtMostOne(hits, expected, w);
      }
    } else {
      var hits, expected := TopHits(m), seq(e, _ => "s");
      assert expected[0] == "s" && Matches(SearchHit("f", "s"), "s");
      assert Relevant(SearchHit("f", "s"), expected);
      AllRelevant(hits, expected, w, m);
      IdealMonotone(w, Min(K, e), m);
      IdealPositive(w, Min(K, e));
      AtMostOne(Ideal(w, m), Ideal(w, Min(K, e)));
      assert TopRelevant(hits, expected) == m;
    }
  }

  // ----- Recall -----

  // The labels that one of the first k hits matches, each once.
  function Found(hits: seq<SearchHit>, expected: seq<string>, k: nat): set<string>
  {
    set l | l in expected && exists i :: 0 <= i < Min(k, |hits|) && Matches(hits[i], l)
  }

  function Recall(hits: seq<SearchHit>, expected: seq<string>, k: nat): real
  {
    if expected == [] then 0.0 else (|Found(hits, expected, k)| as real) / (|expected| as real)
  }

  method RecallAtK(hits: seq<SearchHit>, expected: seq<string>, k: nat) returns (r: real)
    ensures r == Recall(hits, expected, k)
  {
    hide Found, LabelsOf;
    if |expected| == 0 {
      return 0.0;
    }
    var n := Min(k, |hits|);
    var matched: set<string> := {};
    FoundNothing(hits, expected);
    for i := 0 to n
      invariant matched == Found(hits, expected, i)
    {
      matched := MarkLabels(hits[i], expected, matched);
      FoundNext(hits, expected, i);
    }
    FoundCapped(hits, expected, k);
    return (|matched| as real) / (|expected| as real);
  }

  // The inner loop: the labels that this hit matches are marked, each label once.
  method MarkLabels(hit: SearchHit, expected: seq<string>, before: set<string>) returns (matched: set<string>)
    ensures matched == before + LabelsOf(hit, expected)
  {
    hide Matches, Relevant;
    matched := before;
    for j := 0 to |expected|
      invariant matched == before + LabelsOf(hit, expected[..j])
    {
      var exp := expected[j];
      LabelsAppend(hit, expected[..j], exp);
      assert expected[..j+1] == expected[..j] + [exp];
      if exp in matched {
        continue;
      }
      var found := MatchExpected(hit, [exp]);
      OneLabel(hit, exp);
      if found {
        matched := matched + {exp};
      }
    }
    assert expected[..|expected|] == expected;
  }

  lemma FoundNothing(hits: seq<SearchHit>, expected: seq<string>)
    ensures Found(hits, expected, 0) == {}
  {}

  lemma FoundCapped(hits: seq<SearchHit>, expected: seq<string>, k: nat)
    ensures Found(hits, expected, k) == Found(hits, expected, Min(k, |hits|))
  {
    hide Matches;
  }

  // The labels among `labels` that match the hit.
  function LabelsOf(hit: SearchHit, labels: seq<string>): set<string>
  {
    set l | l in labels && Matches(hit, l)
  }

  lemma LabelsAppend(hit: SearchHit, labels: seq<string>, l: string)
    ensures LabelsOf(hit, labels + [l]) == LabelsOf(hit, labels) + if Matches(hit, l) then {l} else {}
  {
    hide Matches;
  }

  lemma OneLabel(hit: SearchHit, l: string)
    ensures Relevant(hit, [l]) <==> Matches(hit, l)
  {
    hide Matches;
    assert l in [l];
  }

  lemma FoundNext(hits: seq<SearchHit>, expected: seq<string>, i: nat)
    requires i < |hits|
    ensures Found(hits, expected, i + 1) == Found(hits, expected, i) + LabelsOf(hits[i], expected)
  {
    hide Matches;
  }

  lemma {:induction false} FewerElements(s: set<string>, l: seq<string>)
    requires forall x :: x in s ==> x in l
    ensures |s| <= |l|
  {
    if l != [] {
      FewerElements(s - {l[0]}, l[1..]);
    }
  }

  lemma Subset(s: set<string>, t: set<string>)
    requires s <= t
    ensures |s| <= |t|
  {
    assert t == s + (t - s);
  }

  /** Recall lies in [0, 1] and grows with k. */
  lemma RecallBounds(hits: seq<SearchHit>, expected: seq<string>, j: nat, k: nat)
    requires j <= k
    ensures 0.0 <= Recall(hits, expected, j) <= Recall(hits, expected, k) <= 1.0
  {
    hide Matches;
    FewerElements(Found(hits, expected, k), expected);
    Subset(Found(hits, expected, j), Found(hits, expected, k));
    if expected != [] {
      Fractions(|Found(hits, expected, j)|, |Found(hits, expected, k)|, |expected|);
    }
  }

  lemma Fractions(a: nat, b: nat, n: nat)
    requires a <= b <= n && n > 0
    ensures 0.0 <= (a as real) / (n as real) <= (b as real) / (n as real) <= 1.0
  {
    QuotientGrows(0.0, a as real, n as real);
    QuotientGrows(a as real, b as real, n as real);
    QuotientGrows(b as real, n as real, n as real);
  }

  lemma QuotientGrows(x: real, y: real, d: real)
    requires x <= y && d > 0.0
    ensures x / d <= y / d
  {}

  // ----- Reciprocal rank -----

  // The index of the first relevant hit, or |hits|.
  function FirstRelevant(hits: seq<SearchHit>, expected: seq<string>, i: nat): (r: nat)
    requires i <= |hits|
    ensures i <= r <= |hits|
    ensures forall j :: i <= j < r ==> !Relevant(hits[j], expected)
    ensures r < |hits| ==> Relevant(hits[r], expected)
    decreases |hits| - i
  {
    if i == |hits| || Relevant(hits[i], expected) then i else FirstRelevant(hits, expected, i + 1)
  }

  function ReciprocalRank(hits: seq<SearchHit>, expected: seq<string>): real
  {
    var i := FirstRelevant(hits, expected, 0);
    if i < |hits| then 1.0 / ((i + 1) as real) else 0.0
  }

  method MRR(hits: seq<SearchHit>, expected: seq<string>) returns (r: real)
    ensures r == ReciprocalRank(hits, expected)
  {
    if |expected| == 0 {
      return 0.0;
    }
    for i := 0 to |hits|
      invariant FirstRelevant(hits, expected, 0) == FirstRelevant(hits, expected, i)
    {
      var found := MatchExpected(hits[i], expected);
      if found {
        return 1.0 / ((i + 1) as real);
      }
    }
    return 0.0;
  }

  lemma {:induction false} SomeRelevant(hits: seq<SearchHit>, expected: seq<string>, n: nat)
    requires n <= |hits|
    ensures RelevantIn(hits, expected, n) > 0 <==> exists i :: 0 <= i < n && Relevant(hits[i], expected)
  {
    hide Relevant;
    if n > 0 {
      SomeRelevant(hits, expected, n - 1);
    }
  }

  lemma RankAtLeastTenth(i: nat)
    ensures 1.0 / ((i + 1) as real) >= 0.1 <==> i < 10
  {
    if i < 10 {
      assert ((i + 1) as real) <= 10.0;
    }
  }

  /** The three metrics agree on whether the top ten hold anything: nDCG@10 > 0 if and only if
      recall@10 > 0 if and only if the reciprocal rank is at least 1/10. */
  lemma MetricsAgree(hits: seq<SearchHit>, expected: seq<string>, w: Discount)
    requires IsDiscount(w)
    ensures Ndcg(hits, expected, w) > 0.0 <==> Recall(hits, expected, K) > 0.0
    ensures Recall(hits, expected, K) > 0.0 <==> ReciprocalRank(hits, expected) >= 0.1
  {
    var n := Min(K, |hits|);
    var some := exists i :: 0 <= i < n && Relevant(hits[i], expected);
    SomeRelevant(hits, expected, n);
    TopIsBest(hits, expected, w, n);
    IdealPositive(w, Min(K, |expected|));
    assert Ndcg(hits, expected, w) > 0.0 <==> some by {
      if expected != [] {
        Positive(Dcg(hits, expected, w, n), Ideal(w, Min(K, |expected|)));
      }
    }
    assert Recall(hits, expected, K) > 0.0 <==> some by {
      RecallPositive(hits, expected);
    }
    RankAtLeastTenth(FirstRelevant(hits, expected, 0));
  }

  lemma Positive(x: real, y: real)
    requires y > 0.0
    ensures x / y > 0.0 <==> x > 0.0
  {}

  lemma RecallPositive(hits: seq<SearchHit>, expected: seq<string>)
    ensures Recall(hits, expected, K) > 0.0 <==>
      exists i :: 0 <= i < Min(K, |hits|) && Relevant(hits[i], expected)
  {
    hide Matches;
    var found := Found(hits, expected, K);
    if i :| 0 <= i < Min(K, |hits|) && Relevant(hits[i], expected) {
      var l :| l in expected && Matches(hits[i], l);
      assert l in found;
      assert |found| > 0;
    } else {
      assert found == {};
    }
    if expected != [] {
      Positive(|found| as real, |expected| as real);
    }
  }
}
