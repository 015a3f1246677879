/** The condensed renderings of a call trace: pruning to depth 1, what it elides, and the
    counts that are left when even that is too long. */
module CallTree {
  import opened Seqs

  datatype Symbol = Symbol(name: string, file: string, startLine: nat)

  datatype Node = Node(symbol: Option<Symbol>, children: seq<Node>, callLine: nat, cycle: bool,
                       kind: string, depth: nat, callerKind: string)

  // A node of a tree without its children, and its distance from the roots.
  datatype Entry = Entry(level: nat, node: Node)

  // All nodes of a tree, parents before children.
  function Preorder(nodes: seq<Node>, level: nat): seq<Entry>
    decreases nodes
  {
    if nodes == [] then []
    else
      [Entry(level, nodes[0].(children := []))]
      + Preorder(nodes[0].children, level + 1)
      + Preorder(nodes[1..], level)
  }

  function Size(nodes: seq<Node>): (n: nat)
    ensures n >= |nodes|
    decreases nodes
  {
    if nodes == [] then 0 else 1 + Size(nodes[0].children) + Size(nodes[1..])
  }

  lemma {:induction false} SizeIsEntries(nodes: seq<Node>, level: nat)
    ensures |Preorder(nodes, level)| == Size(nodes)
    decreases nodes
  {
    if nodes != [] {
      SizeIsEntries(nodes[0].children, level + 1);
      SizeIsEntries(nodes[1..], level);
    }
  }

  lemma {:induction false} SizeAppend(nodes: seq<Node>, n: Node)
    ensures Size(nodes + [n]) == Size(nodes) + 1 + Size(n.children)
  {
    if nodes != [] {
      SizeAppend(nodes[1..], n);
      assert (nodes + [n])[1..] == nodes[1..] + [n];
    } else {
      assert ([n])[1..] == [] && nodes + [n] == [n];
    }
  }

  method CountTraceNodes(nodes: seq<Node>) returns (c: nat)
    ensures c == |Preorder(nodes, 0)| == Size(nodes)
    decreases nodes
  {
    c := 0;
    for i := 0 to |nodes|
      invariant c == Size(nodes[..i])
    {
      assert nodes[..i+1] == nodes[..i] + [nodes[i]];
      SizeAppend(nodes[..i], nodes[i]);
      var below := CountTraceNodes(nodes[i].children);
      c := c + 1 + below;
    }
    assert nodes[..|nodes|] == nodes;
    SizeIsEntries(nodes, 0);
  }

  // ----- Files -----

  function FileOf(n: Node): string { if n.symbol.Some? then n.symbol.value.file else "" }

  function Files(es: seq<Entry>): set<string>
  {
    set e | e in es && FileOf(e.node) != "" :: FileOf(e.node)
  }

  lemma FilesConcat(a: seq<Entry>, b: seq<Entry>)
    ensures Files(a + b) == Files(a) + Files(b)
  {
    hide FileOf;
    forall f | f in Files(a) + Files(b)
      ensures f in Files(a + b)
    {
      var e :| (e in a || e in b) && FileOf(e.node) != "" && FileOf(e.node) == f;
      assert e in a + b;
    }
  }

  lemma {:induction false} PreorderAppend(nodes: seq<Node>, n: Node, level: nat)
    ensures Preorder(nodes + [n], level)
         == Preorder(nodes, level) + ([Entry(level, n.(children := []))] + Preorder(n.children, level + 1))
  {
    if nodes != [] {
      PreorderAppend(nodes[1..], n, level);
      assert (nodes + [n])[1..] == nodes[1..] + [n];
    } else {
      assert ([n])[1..] == [] && nodes + [n] == [n];
      assert Preorder([], level) == [];
    }
  }

  method CountTraceFiles(nodes: seq<Node>, level: nat, seen: set<string>) returns (out: set<string>)
    ensures out == seen + Files(Preorder(nodes, level))
    decreases nodes
  {
    out := seen;
    for i := 0 to |nodes|
      invariant out == seen + Files(Preorder(nodes[..i], level))
    {
      var n := nodes[i];
      assert nodes[..i+1] == nodes[..i] + [n];
      var e := Entry(level, n.(children := []));
      PreorderAppend(nodes[..i], n, level);
      FilesConcat(Preorder(nodes[..i], level), [e] + Preorder(n.children, level + 1));
      FilesConcat([e], Preorder(n.children, level + 1));
      FilesOne(e);
      hide Files, Preorder;
      if n.symbol.Some? && n.symbol.value.file != "" {
        out := out + {n.symbol.value.file};
      }
      out := CountTraceFiles(n.children, level + 1, out);
    }
    assert nodes[..|nodes|] == nodes;
  }

  lemma FilesOne(e: Entry)
    ensures Files([e]) == if FileOf(e.node) == "" then {} else {FileOf(e.node)}
  {
    assert e in [e];
  }

  // ----- Pruning -----

  function Leaves(nodes: seq<Node>): (r: seq<Node>)
    ensures |r| == |nodes|
  {
    seq(|nodes|, i requires 0 <= i < |nodes| => nodes[i].(children := []))
  }

  function Shallow(nodes: seq<Node>): (r: seq<Node>)
    ensures |r| == |nodes|
  {
    seq(|nodes|, i requires 0 <= i < |nodes| => nodes[i].(children := Leaves(nodes[i].children)))
  }

  predicate Deep(e: Entry) { e.level >= 2 }

  predicate Kept(e: Entry) { e.level < 2 }

  function Elided(nodes: seq<Node>): nat
  {
    if nodes == [] then 0
    else Elided(nodes[..|nodes|-1]) + (Size(nodes[|nodes|-1].children) - |nodes[|nodes|-1].children|)
  }

  method PruneTraceToDepth1(nodes: seq<Node>) returns (pruned: seq<Node>, elided: nat)
    ensures pruned == Shallow(nodes) && elided == Elided(nodes)
  {
    elided, pruned := 0, [];
    for i := 0 to |nodes|
      invariant pruned == Shallow(nodes)[..i] && elided == Elided(nodes[..i])
    {
      var n := nodes[i];
      assert nodes[..i+1][..i] == nodes[..i];
      var deeper: nat := 0;
      for j := 0 to |n.children|
        invariant deeper == Size(n.children[..j]) - j
      {
        SizeAppend(n.children[..j], n.children[j]);
        assert n.children[..j+1] == n.children[..j] + [n.children[j]];
        var below := CountTraceNodes(n.children[j].children);
        deeper := deeper + below;
      }
      assert n.children[..|n.children|] == n.children;
      elided := elided + deeper;
      var kept := ShallowChildren(n.children);
      pruned := pruned + [n.(children := kept)];
    }
    assert nodes[..|nodes|] == nodes && Shallow(nodes)[..|nodes|] == Shallow(nodes);
  }

  method ShallowChildren(children: seq<Node>) returns (kept: seq<Node>)
    ensures kept == Leaves(children)
  {
    kept := [];
    for j := 0 to |children|
      invariant kept == Leaves(children)[..j]
    {
      kept := kept + [children[j].(children := [])];
    }
  }

  method PruneChildrenShallow(nodes: seq<Node>) returns (result: seq<Node>)
    ensures result == Shallow(nodes)
  {
    result := [];
    for i := 0 to |nodes|
      invariant result == Shallow(nodes)[..i]
    {
      var kept := ShallowChildren(nodes[i].children);
      result := result + [nodes[i].(children := kept)];
    }
  }

  // ----- What pruning keeps -----

  lemma {:induction false} FilterConcat<T>(a: seq<T>, b: seq<T>, p: T -> bool)
    ensures Filter(a + b, p) == Filter(a, p) + Filter(b, p)
  {
    if b == [] {
      assert a + b == a;
    } else {
      FilterConcat(a, b[..|b|-1], p);
      FilterAppend(a + b[..|b|-1], b[|b|-1], p);
      assert a + b == a + b[..|b|-1] + [b[|b|-1]];
    }
  }

  lemma FilterOne<T>(x: T, p: T -> bool)
    ensures Filter([x], p) == if p(x) then [x] else []
  {
    FilterAppend([], x, p);
    assert [] + [x] == [x];
  }

  // Filtering the entries of a tree, part by part.
  lemma FilterSplit(nodes: seq<Node>, level: nat, p: Entry -> bool)
    requires nodes != []
    ensures var e := Entry(level, nodes[0].(children := []));
      Filter(Preorder(nodes, level), p)
      == (if p(e) then [e] else [])
         + Filter(Preorder(nodes[0].children, level + 1), p) + Filter(Preorder(nodes[1..], level), p)
  {
    var e := Entry(level, nodes[0].(children := []));
    var below, rest := Preorder(nodes[0].children, level + 1), Preorder(nodes[1..], level);
    hide Filter;
    FilterConcat([e] + below, rest, p);
    FilterConcat([e], below, p);
    FilterOne(e, p);
  }

  lemma {:induction false} NothingKeptDeep(nodes: seq<Node>, level: nat)
    requires level >= 2
    ensures Filter(Preorder(nodes, level), Kept) == []
    decreases nodes
  {
    hide Filter;
    if nodes != [] {
      FilterSplit(nodes, level, Kept);
      NothingKeptDeep(nodes[0].children, level + 1);
      NothingKeptDeep(nodes[1..], level);
    } else {
      FilterNothing(Kept);
    }
  }

  lemma FilterNothing<T>(p: T -> bool)
    ensures Filter([], p) == []
  {}

  lemma {:induction false} LeavesKept(nodes: seq<Node>)
    ensures Filter(Preorder(nodes, 1), Kept) == Preorder(Leaves(nodes), 1)
    decreases nodes
  {
    hide Filter;
    if nodes != [] {
      FilterSplit(nodes, 1, Kept);
      NothingKeptDeep(nodes[0].children, 2);
      LeavesKept(nodes[1..]);
      assert Leaves(nodes)[1..] == Leaves(nodes[1..]);
      assert Preorder([], 2) == [];
    } else {
      FilterNothing(Kept);
    }
  }

  /** The pruned tree is exactly the part of the full tree down to depth 1: the same nodes in
      the same order, with nothing below and nothing lost. */
  lemma {:induction false} PruningKeepsTopLevels(nodes: seq<Node>)
    ensures Preorder(Shallow(nodes), 0) == Filter(Preorder(nodes, 0), Kept)
    decreases nodes
  {
    hide Filter;
    if nodes != [] {
      FilterSplit(nodes, 0, Kept);
      LeavesKept(nodes[0].children);
      PruningKeepsTopLevels(nodes[1..]);
      assert Shallow(nodes)[1..] == Shallow(nodes[1..]);
    } else {
      FilterNothing(Kept);
    }
  }

  lemma {:induction false} KeptAndDeep(es: seq<Entry>)
    ensures |Filter(es, Kept)| + Count(es, Deep) == |es|
  {
    if es != [] {
      KeptAndDeep(es[..|es|-1]);
    }
  }

  lemma {:induction false} LeavesSize(nodes: seq<Node>)
    ensures Size(Leaves(nodes)) == |nodes|
  {
    if nodes != [] {
      LeavesSize(nodes[1..]);
      assert Leaves(nodes)[1..] == Leaves(nodes[1..]);
      assert Size([]) == 0;
    }
  }

  lemma {:induction false} ShallowSize(nodes: seq<Node>)
    ensures Size(Shallow(nodes)) + Elided(nodes) == Size(nodes)
  {
    if nodes != [] {
      var front, n := nodes[..|nodes|-1], nodes[|nodes|-1];
      ShallowSize(front);
      SizeAppend(front, n);
      var kept := n.(children := Leaves(n.children));
      SizeAppend(Shallow(front), kept);
      LeavesSize(n.children);
      assert nodes == front + [n] && Shallow(nodes) == Shallow(front) + [kept];
    }
  }

  /** No node disappears unreported: the nodes of the pruned tree and the elided ones are the
      nodes of the full tree, and the elided ones are those at depth 2 or more. */
  lemma ElidedIsWhatIsMissing(nodes: seq<Node>)
    ensures |Preorder(nodes, 0)| == |Preorder(Shallow(nodes), 0)| + Elided(nodes)
    ensures Elided(nodes) == Count(Preorder(nodes, 0), Deep)
  {
    hide Preorder, Size, Elided, Count, Filter;
    ShallowSize(nodes);
    SizeIsEntries(nodes, 0);
    SizeIsEntries(Shallow(nodes), 0);
    PruningKeepsTopLevels(nodes);
    KeptAndDeep(Preorder(nodes, 0));
  }

  /** Pruning a pruned tree changes nothing and elides nothing. */
  lemma PruningIsIdempotent(nodes: seq<Node>)
    ensures Shallow(Shallow(nodes)) == Shallow(nodes) && Elided(Shallow(nodes)) == 0
  {
    forall i | 0 <= i < |nodes|
      ensures Shallow(Shallow(nodes))[i] == Shallow(nodes)[i]
    {
      assert Leaves(Leaves(nodes[i].children)) == Leaves(nodes[i].children);
    }
    assert Shallow(Shallow(nodes)) == Shallow(nodes);
    hide Shallow;
    ShallowSize(Shallow(nodes));
  }

  // ----- The counts rung -----

  predicate BelowRoot(e: Entry) { e.level >= 1 }

  function DescendantFiles(nodes: seq<Node>): set<string>
  {
    if nodes == [] then {}
    else DescendantFiles(nodes[..|nodes|-1]) + Files(Preorder(nodes[|nodes|-1].children, 1))
  }

  /** The counts rung reports every node but the roots, and the files of those nodes. */
  method BuildTraceCounts(nodes: seq<Node>) returns (total: nat, files: nat, immediate: seq<Node>)
    ensures total + |nodes| == |Preorder(nodes, 0)|
    ensures files == |Files(Filter(Preorder(nodes, 0), BelowRoot))|
    ensures immediate == Shallow(nodes)
  {
    hide Preorder, Files, Filter, Shallow;
    total := 0;
    var filesSet: set<string> := {};
    for i := 0 to |nodes|
      invariant total == Size(nodes[..i]) - i
      invariant filesSet == DescendantFiles(nodes[..i])
    {
      var root := nodes[i];
      SizeAppend(nodes[..i], root);
      assert nodes[..i+1] == nodes[..i] + [root];
      assert nodes[..i+1][..i] == nodes[..i];
      var below := 0;
      for j := 0 to |root.children|
        invariant below == Size(root.children[..j])
      {
        assert root.children[..j+1] == root.children[..j] + [root.children[j]];
        var child := root.children[j];
        SizeAppend(root.children[..j], child);
        SizeAppend([], child);
        assert [] + [child] == [child];
        var c := CountTraceNodes([child]);
        below := below + c;
      }
      assert root.children[..|root.children|] == root.children;
      total := total + below;
      filesSet := CountTraceFiles(root.children, 1, filesSet);
    }
    assert nodes[..|nodes|] == nodes;
    SizeIsEntries(nodes, 0);
    DescendantFilesBelowRoot(nodes);
    immediate := PruneChildrenShallow(nodes);
    files := |filesSet|;
  }

  lemma {:induction false} AllBelowRoot(nodes: seq<Node>, level: nat)
    requires level >= 1
    ensures Filter(Preorder(nodes, level), BelowRoot) == Preorder(nodes, level)
    decreases nodes
  {
    hide Filter;
    if nodes != [] {
      FilterSplit(nodes, level, BelowRoot);
      AllBelowRoot(nodes[0].children, level + 1);
      AllBelowRoot(nodes[1..], level);
    } else {
      FilterNothing(BelowRoot);
    }
  }

  lemma {:induction false} DescendantFilesBelowRoot(nodes: seq<Node>)
    ensures DescendantFiles(nodes) == Files(Filter(Preorder(nodes, 0), BelowRoot))
  {
    hide Filter, Files;
    if nodes == [] {
      FilterNothing(BelowRoot);
      assert Files([]) == {} by { NoFiles(); }
    } else {
      var front, n := nodes[..|nodes|-1], nodes[|nodes|-1];
      DescendantFilesBelowRoot(front);
      assert nodes == front + [n];
      PreorderAppend(front, n, 0);
      var root := Entry(0, n.(children := []));
      var below := Preorder(n.children, 1);
      FilterConcat(Preorder(front, 0), [root] + below, BelowRoot);
      FilterConcat([root], below, BelowRoot);
      FilterOne(root, BelowRoot);
      AllBelowRoot(n.children, 1);
      assert [] + below == below;
      FilesConcat(Filter(Preorder(front, 0), BelowRoot), below);
    }
  }

  lemma NoFiles()
    ensures Files([]) == {}
  {}
}
