/** sort.Strings over the keys of a map, whatever the iteration order. */
module Sorting {
  import opened Text

  ghost predicate Ascending(s: seq<string>)
  {
    forall i, j :: 0 <= i < j < |s| ==> Less(s[i], s[j])
  }

  function Elements(s: seq<string>): (r: set<string>)
    ensures forall x :: x in r <==> x in s
  {
    set x | x in s
  }

  function Insert(x: string, s: seq<string>): (r: seq<string>)
    ensures |r| == |s| + 1
    ensures forall y :: y in r <==> y == x || y in s
  {
    if s == [] then [x]
    else if Less(x, s[0]) then [x] + s
    else [s[0]] + Insert(x, s[1..])
  }

  lemma {:induction false} InsertAscending(x: string, s: seq<string>)
    requires Ascending(s) && x !in s
    ensures Ascending(Insert(x, s))
  {
    if s != [] {
      LessTotal(x, s[0]);
      if Less(x, s[0]) {
        forall j | 0 <= j < |s|
          ensures Less(x, s[j])
        {
          if j > 0 {
            LessTransitive(x, s[0], s[j]);
          }
        }
      } else {
        InsertAscending(x, s[1..]);
        var r := Insert(x, s[1..]);
        forall j | 0 <= j < |r|
          ensures Less(s[0], r[j])
        {
          assert r[j] in r;
          assert r[j] != x ==> exists i :: 0 < i < |s| && s[i] == r[j];
        }
      }
    }
  }

  // An ascending sequence is determined by its elements.
  lemma {:induction false} AscendingUnique(a: seq<string>, b: seq<string>)
    requires Ascending(a) && Ascending(b) && Elements(a) == Elements(b)
    ensures a == b
  {
    assert a != [] ==> a[0] in Elements(a);
    assert b != [] ==> b[0] in Elements(b);
    if a != [] && b != [] {
      assert a[0] in Elements(a) && b[0] in Elements(b);
      LessTotal(a[0], b[0]);
      var i :| 0 <= i < |b| && b[i] == a[0];
      var j :| 0 <= j < |a| && a[j] == b[0];
      assert i == 0;
      forall x
        ensures x in Elements(a[1..]) <==> x in Elements(b[1..])
      {
        LessTotal(x, x);
        assert x in a[1..] <==> x in Elements(a) && x != a[0];
        assert x in b[1..] <==> x in Elements(b) && x != b[0];
      }
      AscendingUnique(a[1..], b[1..]);
    }
  }

  // The ascending sequence of the elements of ks.
  ghost function Sorted(ks: set<string>): (r: seq<string>)
    ensures Ascending(r) && Elements(r) == ks && |r| == |ks|
  {
    if ks == {} then []
    else
      var x :| x in ks;
      InsertAscending(x, Sorted(ks - {x}));
      Insert(x, Sorted(ks - {x}))
  }

  // Ranging over the keys in any order and sorting them gives the one ascending sequence.
  method SortedKeys<V>(m: map<string, V>) returns (keys: seq<string>)
    ensures keys == Sorted(m.Keys)
  {
    keys := [];
    var rest := m.Keys;
    while rest != {}
      invariant rest <= m.Keys && Elements(keys) == m.Keys - rest && Ascending(keys)
      decreases |rest|
    {
      var k :| k in rest;
      InsertAscending(k, keys);
      keys := Insert(k, keys);
      rest := rest - {k};
    }
    AscendingUnique(keys, Sorted(m.Keys));
  }
}
