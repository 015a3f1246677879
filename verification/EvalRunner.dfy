/** The evaluation runner: N workers on one queue, the final stable sort, and the retry loop. */
module EvalRunner {
  import opened Seqs
  import opened Text
  import opened Sorting
  import opened EvalData

  // ----- The stable sort by repository, then query -----

  datatype Key = Key(repo: string, query: string)

  function SortKey(r: QueryResult): Key { Key(r.repo, r.query) }

  predicate KeyLess(a: Key, b: Key)
  {
    if a.repo != b.repo then Less(a.repo, b.repo) else Less(a.query, b.query)
  }

  lemma KeyLessTotal(a: Key, b: Key)
    ensures a == b || KeyLess(a, b) || KeyLess(b, a)
    ensures !(KeyLess(a, b) && KeyLess(b, a)) && !KeyLess(a, a)
  {
    LessTotal(a.repo, b.repo);
    LessTotal(a.query, b.query);
  }

  lemma KeyLessTransitive(a: Key, b: Key, c: Key)
    requires KeyLess(a, b) && KeyLess(b, c)
    ensures KeyLess(a, c)
  {
    LessTotal(a.repo, b.repo);
    if a.repo == b.repo == c.repo {
      LessTransitive(a.query, b.query, c.query);
    } else if a.repo != b.repo && b.repo != c.repo {
      LessTransitive(a.repo, b.repo, c.repo);
      LessTotal(a.repo, c.repo);
    }
  }

  // The elements with key k, in order.
  function Class(s: seq<QueryResult>, k: Key): seq<QueryResult>
  {
    if s == [] then [] else (if SortKey(s[0]) == k then [s[0]] else []) + Class(s[1..], k)
  }

  ghost predicate InOrder(s: seq<QueryResult>)
  {
    forall i, j :: 0 <= i < j < |s| ==> !KeyLess(SortKey(s[j]), SortKey(s[i]))
  }

  // t is s sorted by key, with elements of equal key left in their order.
  ghost predicate StablySorted(t: seq<QueryResult>, s: seq<QueryResult>)
  {
    InOrder(t) && forall k :: Class(t, k) == Class(s, k)
  }

  lemma {:induction false} ClassEmpty(s: seq<QueryResult>, k: Key)
    ensures Class(s, k) == [] <==> forall i :: 0 <= i < |s| ==> SortKey(s[i]) != k
  {
    if s != [] {
      ClassEmpty(s[1..], k);
      assert (forall i :: 0 <= i < |s[1..]| ==> SortKey(s[1..][i]) != k)
        <==> forall i :: 1 <= i < |s| ==> SortKey(s[i]) != k by {
        assert forall i :: 1 <= i < |s| ==> s[i] == s[1..][i-1];
      }
    }
  }

  // The head of an ordered sequence has the least key.
  lemma HeadIsLeast(a: seq<QueryResult>, b: seq<QueryResult>)
    requires a != [] && b != [] && InOrder(b)
    requires Class(a, SortKey(a[0])) == Class(b, SortKey(a[0]))
    ensures !KeyLess(SortKey(a[0]), SortKey(b[0]))
  {
    ClassEmpty(a, SortKey(a[0]));
    ClassEmpty(b, SortKey(a[0]));
    var i :| 0 <= i < |b| && SortKey(b[i]) == SortKey(a[0]);
    KeyLessTotal(SortKey(a[0]), SortKey(a[0]));
  }

  /** A stably sorted arrangement is unique: the outcome of sort.SliceStable does not
      depend on how it sorts. */
  lemma {:induction false} StableSortUnique(a: seq<QueryResult>, b: seq<QueryResult>)
    requires InOrder(a) && InOrder(b)
    requires forall k :: Class(a, k) == Class(b, k)
    ensures a == b
  {
    if a == [] || b == [] {
      if a != [] { ClassEmpty(a, SortKey(a[0])); ClassEmpty(b, SortKey(a[0])); }
      if b != [] { ClassEmpty(b, SortKey(b[0])); ClassEmpty(a, SortKey(b[0])); }
    } else {
      HeadIsLeast(a, b);
      HeadIsLeast(b, a);
      KeyLessTotal(SortKey(a[0]), SortKey(b[0]));
      var k0 := SortKey(a[0]);
      assert Class(a, k0) == [a[0]] + Class(a[1..], k0);
      assert Class(b, k0) == [b[0]] + Class(b[1..], k0);
      assert a[0] == Class(a, k0)[0] == b[0];
      forall k
        ensures Class(a[1..], k) == Class(b[1..], k)
      {
        assert Class(a, k) == Class(b, k);
        if k == k0 {
          assert Class(a[1..], k) == Class(a, k)[1..];
          assert Class(b[1..], k) == Class(b, k)[1..];
        } else {
          assert Class(a, k) == Class(a[1..], k);
          assert Class(b, k) == Class(b[1..], k);
        }
      }
      StableSortUnique(a[1..], b[1..]);
      assert a == [a[0]] + a[1..];
      assert b == [b[0]] + b[1..];
    }
  }

  function InsertStable(x: QueryResult, s: seq<QueryResult>): (r: seq<QueryResult>)
    ensures forall y :: y in r ==> y == x || y in s
  {
    if s == [] then [x]
    else if KeyLess(SortKey(s[0]), SortKey(x)) then [s[0]] + InsertStable(x, s[1..])
    else [x] + s
  }

  function SortStable(s: seq<QueryResult>): seq<QueryResult>
  {
    if s == [] then [] else InsertStable(s[0], SortStable(s[1..]))
  }

  lemma {:induction false} InsertInOrder(x: QueryResult, s: seq<QueryResult>)
    requires InOrder(s)
    ensures InOrder(InsertStable(x, s))
  {
    if s != [] {
      if KeyLess(SortKey(s[0]), SortKey(x)) {
        InsertInOrder(x, s[1..]);
        var r := InsertStable(x, s[1..]);
        KeyLessTotal(SortKey(s[0]), SortKey(x));
        forall j | 0 <= j < |r|
          ensures !KeyLess(SortKey(r[j]), SortKey(s[0]))
        {
          assert r[j] in r;
        }
      } else {
        forall j | 0 <= j < |s|
          ensures !KeyLess(SortKey(s[j]), SortKey(x))
        {
          KeyLessTotal(SortKey(s[0]), SortKey(s[j]));
          if KeyLess(SortKey(s[j]), SortKey(x)) && SortKey(s[0]) != SortKey(s[j]) {
            KeyLessTransitive(SortKey(s[0]), SortKey(s[j]), SortKey(x));
          }
        }
      }
    }
  }

  lemma {:induction false} InsertClass(x: QueryResult, s: seq<QueryResult>, k: Key)
    requires InOrder(s)
    ensures Class(InsertStable(x, s), k) == (if SortKey(x) == k then [x] else []) + Class(s, k)
  {
    if s != [] && KeyLess(SortKey(s[0]), SortKey(x)) {
      InsertClass(x, s[1..], k);
      KeyLessTotal(SortKey(s[0]), SortKey(x));
    } else {
      assert ([x] + s)[1..] == s;
    }
  }

  lemma {:induction false} SortStableCorrect(s: seq<QueryResult>)
    ensures StablySorted(SortStable(s), s)
  {
    if s != [] {
      SortStableCorrect(s[1..]);
      InsertInOrder(s[0], SortStable(s[1..]));
      forall k
        ensures Class(SortStable(s), k) == Class(s, k)
      {
        InsertClass(s[0], SortStable(s[1..]), k);
      }
    }
  }

  // ----- What the order is -----

  predicate OfQuery(r: QueryResult, repo: string, query: string) { r.repo == repo && r.query == query }

  // The results of one query of one repository, in order.
  function OfQueryIn(s: seq<QueryResult>, repo: string, query: string): seq<QueryResult>
  {
    Filter(s, r => OfQuery(r, repo, query))
  }

  lemma {:induction false} ClassIsFilter(s: seq<QueryResult>, repo: string, query: string)
    ensures Class(s, Key(repo, query)) == OfQueryIn(s, repo, query)
  {
    if s != [] {
      ClassIsFilter(s[1..], repo, query);
      FilterCons(s[0], s[1..], r => OfQuery(r, repo, query));
      assert s == [s[0]] + s[1..];
    }
  }

  /** The sorted results are ascending by repository, so those of a repository are together; within
      a repository by query; and those of one query keep their order. */
  lemma SortedResults(s: seq<QueryResult>)
    ensures var t := SortStable(s);
      && (forall i, j :: 0 <= i < j < |t| ==>
            && (t[i].repo == t[j].repo || Less(t[i].repo, t[j].repo))
            && (t[i].repo == t[j].repo ==> t[i].query == t[j].query || Less(t[i].query, t[j].query)))
      && (forall i, j, k :: 0 <= i < j < k < |t| && t[i].repo == t[k].repo ==> t[j].repo == t[i].repo)
      && forall repo, query :: OfQueryIn(t, repo, query) == OfQueryIn(s, repo, query)
  {
    var t := SortStable(s);
    SortStableCorrect(s);
    hide Less, SortStable, Class, OfQueryIn;
    forall i, j | 0 <= i < j < |t|
      ensures t[i].repo == t[j].repo || Less(t[i].repo, t[j].repo)
      ensures t[i].repo == t[j].repo ==> t[i].query == t[j].query || Less(t[i].query, t[j].query)
    {
      KeyLessTotal(SortKey(t[i]), SortKey(t[j]));
    }
    forall i, j, k | 0 <= i < j < k < |t| && t[i].repo == t[k].repo
      ensures t[j].repo == t[i].repo
    {
      LessTotal(t[i].repo, t[j].repo);
    }
    forall repo, query
      ensures OfQueryIn(t, repo, query) == OfQueryIn(s, repo, query)
    {
      ClassIsFilter(t, repo, query);
      ClassIsFilter(s, repo, query);
    }
  }

  // ----- FlatQueries -----

  // The records of the files in `names`, in that order.
  function FlatOf(perRepo: map<string, seq<GoldenRecord>>, names: seq<string>): seq<GoldenRecord>
    requires forall n :: n in names ==> n in perRepo
  {
    if names == [] then []
    else FlatOf(perRepo, names[..|names|-1]) + perRepo[names[|names|-1]]
  }

  method FlatQueries(perRepo: map<string, seq<GoldenRecord>>) returns (out: seq<GoldenRecord>)
    ensures out == FlatOf(perRepo, Sorted(perRepo.Keys))
  {
    hide Sorted, Less;
    var names := SortedKeys(perRepo);
    assert forall n :: n in names <==> n in Elements(names);
    out := [];
    for i := 0 to |names|
      invariant out == FlatOf(perRepo, names[..i])
    {
      assert names[..i+1][..i] == names[..i];
      out := out + perRepo[names[i]];
    }
    assert names[..|names|] == names;
  }

  // ----- The worker pool -----

  datatype Worker = Waiting | Busy(idx: nat) | Exited

  function Rank(w: Worker): nat { if w.Busy? then 2 else if w.Waiting? then 1 else 0 }

  function Ranks(ws: seq<Worker>): nat
  {
    if ws == [] then 0 else Ranks(ws[..|ws|-1]) + Rank(ws[|ws|-1])
  }

  lemma {:induction false} RanksUpdate(ws: seq<Worker>, i: nat, w: Worker)
    requires i < |ws|
    ensures Ranks(ws[i := w]) + Rank(ws[i]) == Ranks(ws) + Rank(w)
  {
    var us := ws[i := w];
    if i == |ws| - 1 {
      assert us[..|ws|-1] == ws[..|ws|-1];
    } else {
      RanksUpdate(ws[..|ws|-1], i, w);
      assert us[..|ws|-1] == ws[..|ws|-1][i := w];
    }
  }

  const ZERO_RESULT := QueryResult("", "", "", 0.0, 0.0, 0.0, 0.0, 0.0, 0, "")

  predicate Working(ws: seq<Worker>, i: nat) { Busy(i) in ws }

  ghost predicate NoRepeats(order: seq<nat>)
  {
    forall i, j :: 0 <= i < j < |order| ==> order[i] != order[j]
  }

  // Every index taken from the queue is finished or with exactly one worker, never both.
  ghost predicate PoolOk(n: nat, next: nat, ws: seq<Worker>, order: seq<nat>)
  {
    && next <= n && NoRepeats(order)
    && (forall v, w :: 0 <= v < w < |ws| && ws[v].Busy? ==> ws[v] != ws[w])
    && (forall i :: i in order ==> i < next && !Working(ws, i))
    && (forall i: nat :: Working(ws, i) ==> i < next)
    && (forall i :: 0 <= i < next ==> i in order || Working(ws, i))
    && (next < n ==> exists w :: 0 <= w < |ws| && !ws[w].Exited?)
  }

  // Updating worker w only takes away what w was working on and adds what it works on now.
  lemma WorkingUpdate(ws: seq<Worker>, w: nat, now: Worker)
    requires w < |ws|
    requires forall v :: 0 <= v < |ws| && v != w && ws[w].Busy? ==> ws[v] != ws[w]
    ensures forall i: nat :: Working(ws[w := now], i) <==> (Working(ws, i) && ws[w] != Busy(i)) || now == Busy(i)
  {
    var us := ws[w := now];
    forall i: nat
      ensures Working(us, i) <==> (Working(ws, i) && ws[w] != Busy(i)) || now == Busy(i)
    {
      if Working(ws, i) && ws[w] != Busy(i) {
        var v :| 0 <= v < |ws| && ws[v] == Busy(i);
        assert us[v] == Busy(i);
      }
      assert us[w] == now;
    }
  }

  lemma TakeOk(n: nat, next: nat, ws: seq<Worker>, order: seq<nat>, w: nat)
    requires PoolOk(n, next, ws, order) && w < |ws| && ws[w].Waiting? && next < n
    ensures PoolOk(n, next + 1, ws[w := Busy(next)], order)
  {
    WorkingUpdate(ws, w, Busy(next));
    assert ws[w := Busy(next)][w] == Busy(next);
    assert !Working(ws, next);
  }

  lemma FinishOk(n: nat, next: nat, ws: seq<Worker>, order: seq<nat>, w: nat)
    requires PoolOk(n, next, ws, order) && w < |ws| && ws[w].Busy?
    ensures ws[w].idx < next && ws[w].idx !in order
    ensures PoolOk(n, next, ws[w := Waiting], order + [ws[w].idx])
  {
    assert Working(ws, ws[w].idx);
    WorkingUpdate(ws, w, Waiting);
    assert ws[w := Waiting][w] == Waiting;
  }

  lemma ExitOk(n: nat, next: nat, ws: seq<Worker>, order: seq<nat>, w: nat)
    requires PoolOk(n, next, ws, order) && w < |ws| && ws[w].Waiting? && next == n
    ensures PoolOk(n, next, ws[w := Exited], order)
  {
    WorkingUpdate(ws, w, Exited);
  }

  /** The pool under every schedule: `:|` picks any worker that has not exited. order is the
      order in which slots were written. The pool ends, no slot is written twice, and the
      results are those of running the records one after another, stably sorted. */
  method RunEval(flat: seq<GoldenRecord>, workers: int, run: GoldenRecord -> QueryResult)
    returns (results: seq<QueryResult>, order: seq<nat>)
    ensures results == SortStable(Map(flat, run))
    ensures forall i, j :: 0 <= i < j < |results| ==>
                             results[i].repo == results[j].repo || Less(results[i].repo, results[j].repo)
    ensures forall i, j :: 0 <= i < j < |results| && results[i].repo == results[j].repo ==>
                             results[i].query == results[j].query || Less(results[i].query, results[j].query)
    ensures forall i, j, k :: 0 <= i < j < k < |results| && results[i].repo == results[k].repo ==>
                                results[j].repo == results[i].repo
    ensures forall repo, query :: OfQueryIn(results, repo, query) == OfQueryIn(Map(flat, run), repo, query)
    ensures NoRepeats(order) && forall i: nat :: i in order <==> i < |flat|
  {
    hide SortStable, OfQueryIn, Less;
    var n := if workers <= 0 then 1 else workers;
    var slots := new QueryResult[|flat|](_ => ZERO_RESULT);
    var next: nat := 0;
    var ws := seq(n, _ => Waiting);
    assert ws[0] == Waiting;
    order := [];
    while exists w :: 0 <= w < |ws| && !ws[w].Exited?
      invariant PoolOk(|flat|, next, ws, order)
      invariant forall i :: i in order ==> slots[i] == run(flat[i])
      decreases 3 * (|flat| - next) + Ranks(ws)
    {
      var w :| 0 <= w < |ws| && !ws[w].Exited?;
      if ws[w].Busy? {
        var idx := ws[w].idx;
        FinishOk(|flat|, next, ws, order, w);
        RanksUpdate(ws, w, Waiting);
        slots[idx] := run(flat[idx]);
        order := order + [idx];
        ws := ws[w := Waiting];
      } else if next < |flat| {
        TakeOk(|flat|, next, ws, order, w);
        RanksUpdate(ws, w, Busy(next));
        ws := ws[w := Busy(next)];
        next := next + 1;
      } else {
        ExitOk(|flat|, next, ws, order, w);
        RanksUpdate(ws, w, Exited);
        ws := ws[w := Exited];
      }
    }
    assert forall i: nat :: i < |flat| ==> i in order;
    assert slots[..] == Map(flat, run);
    results := SortStable(slots[..]);
    SortedResults(slots[..]);
  }

  // ----- The retry loop -----

  datatype Attempt = Succeeded | Transient | Permanent

  datatype Outcome = Done | Failed(last: Attempt) | Cancelled

  function Pow2(i: nat): (p: nat)
    ensures p > 0
  {
    if i == 0 then 1 else 2 * Pow2(i - 1)
  }

  // The pause after attempt i: the base at first, then doubled each time up to the cap.
  function Pause(base: int, cap: int, i: nat): int
  {
    if i == 0 then base else Min(cap, base * Pow2(i))
  }

  const DEFAULT_BASE := 2
  const DEFAULT_CAP := 15

  function OrDefault(x: int, default_: int): int { if x <= 0 then default_ else x }

  /** attempt(i) is what the i-th attempt gives; cancelled(i) says that the context ends
      during the pause after it. Only transient failures are retried, at most maxAttempts - 1
      times; the first other outcome, the last attempt or a cancellation decides. */
  method RunWithRetry(retryBase: int, retryCap: int, retryAttempts: int,
                      attempt: nat -> Attempt, cancelled: nat -> bool)
    returns (retries: nat, outcome: Outcome, pauses: seq<int>)
    ensures retries < OrDefault(retryAttempts, 1)
    ensures forall i :: 0 <= i < retries ==> attempt(i).Transient? && !cancelled(i)
    ensures outcome.Done? <==> attempt(retries).Succeeded?
    ensures outcome.Cancelled? <==>
      attempt(retries).Transient? && retries < OrDefault(retryAttempts, 1) - 1 && cancelled(retries)
    ensures outcome.Failed? ==> (
        && outcome.last == attempt(retries)
        && (outcome.last.Permanent? || (outcome.last.Transient? && retries == OrDefault(retryAttempts, 1) - 1)))
    ensures |pauses| == retries + (if outcome.Cancelled? then 1 else 0)
    ensures forall i :: 0 <= i < |pauses| ==>
      pauses[i] == Pause(OrDefault(retryBase, DEFAULT_BASE), OrDefault(retryCap, DEFAULT_CAP), i)
  {
    var base, cap := OrDefault(retryBase, DEFAULT_BASE), OrDefault(retryCap, DEFAULT_CAP);
    var backoff := base;
    var maxAttempts := OrDefault(retryAttempts, 1);
    pauses := [];
    var i: nat := 0;
    while i < maxAttempts
      invariant i < maxAttempts && |pauses| == i
      invariant backoff == Pause(base, cap, i)
      invariant forall j :: 0 <= j < i ==> attempt(j).Transient? && !cancelled(j)
      invariant forall j :: 0 <= j < i ==> pauses[j] == Pause(base, cap, j)
    {
      var result := attempt(i);
      if result.Succeeded? {
        return i, Done, pauses;
      }
      if !result.Transient? {
        return i, Failed(result), pauses;
      }
      if i >= maxAttempts - 1 {
        return i, Failed(result), pauses;
      }
      pauses := pauses + [backoff];
      if cancelled(i) {
        return i, Cancelled, pauses;
      }
      backoff := backoff * 2;
      if backoff > cap {
        backoff := cap;
      }
      i := i + 1;
    }
    assert false;
  }
}
