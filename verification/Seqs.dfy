/** Finite sequences: counting, filtering, summing, flattening.
    The functions take named predicates, so that two calls with the same
    arguments are the same term for the verifier. */
module Seqs {

  datatype Option<+T> = None | Some(value: T)

  function Min(a: int, b: int): int { if a < b then a else b }

  function Bit(b: bool): nat { if b then 1 else 0 }

  function Map<T, U>(s: seq<T>, f: T -> U): (r: seq<U>)
    ensures |r| == |s| && forall i :: 0 <= i < |r| ==> r[i] == f(s[i])
  {
    seq(|s|, i requires 0 <= i < |s| => f(s[i]))
  }

  // How many elements of s satisfy p.
  function Count<T>(s: seq<T>, p: T -> bool): nat
  {
    if s == [] then 0 else Count(s[..|s|-1], p) + Bit(p(s[|s|-1]))
  }

  lemma CountAppend<T>(s: seq<T>, x: T, p: T -> bool)
    ensures Count(s + [x], p) == Count(s, p) + Bit(p(x))
  {
    assert (s + [x])[..|s|] == s;
  }

  lemma CountUpdate<T>(s: seq<T>, i: nat, x: T, p: T -> bool)
    requires i < |s|
    ensures Count(s[i := x], p) + Bit(p(s[i])) == Count(s, p) + Bit(p(x))
  {
    var t := s[i := x];
    if i == |s| - 1 {
      assert t[..|s|-1] == s[..|s|-1];
    } else {
      CountUpdate(s[..|s|-1], i, x, p);
      assert t[..|s|-1] == s[..|s|-1][i := x];
    }
  }

  lemma CountBound<T>(s: seq<T>, p: T -> bool)
    ensures Count(s, p) <= |s|
  {}

  lemma CountTwo<T>(s: seq<T>, i: nat, j: nat, p: T -> bool)
    requires i < j < |s| && p(s[i]) && p(s[j])
    ensures Count(s, p) >= 2
  {
    if j == |s| - 1 {
      CountOne(s[..j], i, p);
    } else {
      CountTwo(s[..|s|-1], i, j, p);
    }
  }

  lemma CountOne<T>(s: seq<T>, i: nat, p: T -> bool)
    requires i < |s| && p(s[i])
    ensures Count(s, p) >= 1
  {
    if i < |s| - 1 {
      CountOne(s[..|s|-1], i, p);
    }
  }

  // The elements of s that satisfy p, in order.
  function Filter<T>(s: seq<T>, p: T -> bool): seq<T>
  {
    if s == [] then []
    else Filter(s[..|s|-1], p) + if p(s[|s|-1]) then [s[|s|-1]] else []
  }

  lemma FilterAppend<T>(s: seq<T>, x: T, p: T -> bool)
    ensures Filter(s + [x], p) == Filter(s, p) + if p(x) then [x] else []
  {
    assert (s + [x])[..|s|] == s;
  }

  lemma {:induction false} FilterCons<T>(x: T, s: seq<T>, p: T -> bool)
    ensures Filter([x] + s, p) == (if p(x) then [x] else []) + Filter(s, p)
  {
    if s != [] {
      FilterCons(x, s[..|s|-1], p);
      assert ([x] + s)[..|s|] == [x] + s[..|s|-1];
    } else {
      assert Filter([x] + s, p) == Filter([x], p);
    }
  }

  // The sum of f over s.
  function Sum<T>(s: seq<T>, f: T -> real): real
  {
    if s == [] then 0.0 else Sum(s[..|s|-1], f) + f(s[|s|-1])
  }

  lemma SumAppend<T>(s: seq<T>, x: T, f: T -> real)
    ensures Sum(s + [x], f) == Sum(s, f) + f(x)
  {
    assert (s + [x])[..|s|] == s;
  }

  function Flatten<T>(ss: seq<seq<T>>): seq<T>
  {
    if ss == [] then [] else ss[0] + Flatten(ss[1..])
  }
}
