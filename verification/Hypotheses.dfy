/** The upstream and downstream phases of the investigation: callers and callees of the top
    hypotheses are appended once each, recognised by a key parsed back from their subject. */
module Hypotheses {
  import opened Seqs
  import opened Text

  const MAX_ADDITIONS := 9

  datatype Symbol = Symbol(name: string, file: string, startLine: nat, endLine: nat)

  datatype Node = Node(symbol: Option<Symbol>, cycle: bool, children: seq<Node>)

  datatype FlatNode = FlatNode(symbol: Symbol, depth: nat)

  datatype Source = Plain | Span | HintMatch | Alert | UpstreamCaller | DownstreamCallee

  datatype Hypothesis = Hypothesis(subject: string, file: string, line: nat, endLine: nat,
                                   score: real, evidence: string, source: Source)

  // ----- Flattening a trace -----

  function FlattenTraceTree(tree: seq<Node>, baseDepth: nat): seq<FlatNode>
    decreases tree
  {
    if tree == [] then []
    else FlattenNode(tree[0], baseDepth) + FlattenTraceTree(tree[1..], baseDepth)
  }

  function FlattenNode(n: Node, baseDepth: nat): seq<FlatNode>
    decreases n
  {
    if n.symbol.None? || n.cycle then []
    else
      (if baseDepth > 0 then [FlatNode(n.symbol.value, baseDepth)] else [])
      + FlattenTraceTree(n.children, baseDepth + 1)
  }

  // A path of positions from the roots down to a node, through nodes that are not skipped.
  predicate NodeAt(tree: seq<Node>, path: seq<nat>, n: Node)
    decreases |path|
  {
    && |path| > 0 && path[0] < |tree|
    && var here := tree[path[0]];
      && here.symbol.Some? && !here.cycle
      && if |path| == 1 then here == n else NodeAt(here.children, path[1..], n)
  }

  /** The flat list holds exactly the nodes below the roots that no skipped node cuts off, each
      with its true depth: its depth is the length of its path, counted from baseDepth. */
  lemma {:induction false} FlattenComplete(tree: seq<Node>, baseDepth: nat, path: seq<nat>, n: Node)
    requires NodeAt(tree, path, n) && baseDepth + |path| > 1
    ensures n.symbol.Some?
      && FlatNode(n.symbol.value, baseDepth + |path| - 1) in FlattenTraceTree(tree, baseDepth)
    decreases |path|, |tree|
  {
    if path[0] > 0 {
      FlattenComplete(tree[1..], baseDepth, [path[0] - 1] + path[1..], n);
    } else if |path| > 1 {
      FlattenComplete(tree[0].children, baseDepth + 1, path[1..], n);
    }
  }

  lemma {:induction false} FlattenSound(tree: seq<Node>, baseDepth: nat, f: FlatNode) returns (path: seq<nat>, n: Node)
    requires f in FlattenTraceTree(tree, baseDepth)
    ensures NodeAt(tree, path, n) && n.symbol == Some(f.symbol)
    ensures f.depth == baseDepth + |path| - 1 && f.depth >= 1
    decreases tree
  {
    var head := tree[0];
    if f in FlattenNode(head, baseDepth) {
      if f in FlattenTraceTree(head.children, baseDepth + 1) {
        var p;
        p, n := FlattenSound(head.children, baseDepth + 1, f);
        path := [0] + p;
        assert path[1..] == p;
      } else {
        path, n := [0], head;
      }
    } else {
      var p;
      p, n := FlattenSound(tree[1..], baseDepth, f);
      path := [p[0] + 1] + p[1..];
      assert path[1..] == p[1..];
    }
  }

  lemma FlattenDepths(tree: seq<Node>, baseDepth: nat)
    ensures forall f :: f in FlattenTraceTree(tree, baseDepth) ==> f.depth >= 1
  {
    forall f | f in FlattenTraceTree(tree, baseDepth)
      ensures f.depth >= 1
    {
      var path, n := FlattenSound(tree, baseDepth, f);
    }
  }

  // A path comes before those that pass through it and those that turn off later.
  predicate PathLess(p: seq<nat>, q: seq<nat>)
  {
    q != [] && (p == [] || p[0] < q[0] || (p[0] == q[0] && PathLess(p[1..], q[1..])))
  }

  // The paths of the entries of the flat list.
  function PathsOf(tree: seq<Node>, baseDepth: nat): (r: seq<seq<nat>>)
    ensures forall p :: p in r ==> p != []
    decreases tree
  {
    if tree == [] then [] else HeadPaths(tree[0], baseDepth) + Later(PathsOf(tree[1..], baseDepth))
  }

  function HeadPaths(n: Node, baseDepth: nat): (r: seq<seq<nat>>)
    ensures forall p :: p in r ==> p != [] && p[0] == 0
    decreases n
  {
    if n.symbol.None? || n.cycle then []
    else (if baseDepth > 0 then [[0]] else []) + Below(PathsOf(n.children, baseDepth + 1))
  }

  function Below(paths: seq<seq<nat>>): (r: seq<seq<nat>>)
    ensures |r| == |paths| && forall k :: 0 <= k < |r| ==> r[k] == [0] + paths[k]
  {
    seq(|paths|, k requires 0 <= k < |paths| => [0] + paths[k])
  }

  function Shift(path: seq<nat>): (r: seq<nat>)
    ensures r != [] && r[0] > 0 && |path| <= |r|
  {
    if path == [] then [1] else [path[0] + 1] + path[1..]
  }

  function Later(paths: seq<seq<nat>>): (r: seq<seq<nat>>)
    ensures |r| == |paths| && forall k :: 0 <= k < |r| ==> r[k] == Shift(paths[k])
  {
    seq(|paths|, k requires 0 <= k < |paths| => Shift(paths[k]))
  }

  ghost predicate EntryAt(tree: seq<Node>, baseDepth: nat, path: seq<nat>, f: FlatNode)
  {
    f.depth == baseDepth + |path| - 1 && exists n :: NodeAt(tree, path, n) && n.symbol == Some(f.symbol)
  }

  ghost predicate Entries(tree: seq<Node>, baseDepth: nat, paths: seq<seq<nat>>, fs: seq<FlatNode>)
  {
    |paths| == |fs| && forall i :: 0 <= i < |fs| ==> EntryAt(tree, baseDepth, paths[i], fs[i])
  }

  lemma EntriesJoin(tree: seq<Node>, baseDepth: nat, ps: seq<seq<nat>>, qs: seq<seq<nat>>, fs: seq<FlatNode>,
                    gs: seq<FlatNode>)
    requires Entries(tree, baseDepth, ps, fs) && Entries(tree, baseDepth, qs, gs)
    ensures Entries(tree, baseDepth, ps + qs, fs + gs)
  {
    hide EntryAt;
  }

  lemma {:induction false} PathsEntries(tree: seq<Node>, baseDepth: nat)
    ensures Entries(tree, baseDepth, PathsOf(tree, baseDepth), FlattenTraceTree(tree, baseDepth))
    decreases tree
  {
    hide EntryAt, PathsOf, FlattenTraceTree, HeadPaths, FlattenNode;
    if tree == [] {
      NoEntries(baseDepth);
    } else {
      PathsEntries(tree[1..], baseDepth);
      LaterEntries(tree, baseDepth, PathsOf(tree[1..], baseDepth), FlattenTraceTree(tree[1..], baseDepth));
      if tree[0].symbol.Some? && !tree[0].cycle {
        PathsEntries(tree[0].children, baseDepth + 1);
      }
      HeadEntries(tree, baseDepth);
      EntriesJoin(tree, baseDepth, HeadPaths(tree[0], baseDepth), Later(PathsOf(tree[1..], baseDepth)),
                  FlattenNode(tree[0], baseDepth), FlattenTraceTree(tree[1..], baseDepth));
      Unfold(tree, baseDepth);
    }
  }

  lemma NoEntries(baseDepth: nat)
    ensures PathsOf([], baseDepth) == [] && FlattenTraceTree([], baseDepth) == []
  {}

  lemma Unfold(tree: seq<Node>, baseDepth: nat)
    requires tree != []
    ensures PathsOf(tree, baseDepth) == HeadPaths(tree[0], baseDepth) + Later(PathsOf(tree[1..], baseDepth))
    ensures FlattenTraceTree(tree, baseDepth)
         == FlattenNode(tree[0], baseDepth) + FlattenTraceTree(tree[1..], baseDepth)
  {
    hide HeadPaths, FlattenNode;
  }

  lemma LaterEntries(tree: seq<Node>, baseDepth: nat, paths: seq<seq<nat>>, fs: seq<FlatNode>)
    requires tree != [] && Entries(tree[1..], baseDepth, paths, fs)
    ensures Entries(tree, baseDepth, Later(paths), fs)
  {
    forall i | 0 <= i < |fs|
      ensures EntryAt(tree, baseDepth, Shift(paths[i]), fs[i])
    {
      assert EntryAt(tree[1..], baseDepth, paths[i], fs[i]);
      var n :| NodeAt(tree[1..], paths[i], n) && n.symbol == Some(fs[i].symbol);
      assert Shift(paths[i])[1..] == paths[i][1..];
      assert NodeAt(tree, Shift(paths[i]), n);
    }
  }

  lemma HeadEntries(tree: seq<Node>, baseDepth: nat)
    requires tree != []
    requires tree[0].symbol.Some? && !tree[0].cycle ==>
      Entries(tree[0].children, baseDepth + 1, PathsOf(tree[0].children, baseDepth + 1),
              FlattenTraceTree(tree[0].children, baseDepth + 1))
    ensures Entries(tree, baseDepth, HeadPaths(tree[0], baseDepth), FlattenNode(tree[0], baseDepth))
  {
    hide PathsOf, FlattenTraceTree;
    var n := tree[0];
    if n.symbol.Some? && !n.cycle {
      var inner, fs := PathsOf(n.children, baseDepth + 1), FlattenTraceTree(n.children, baseDepth + 1);
      BelowEntries(tree, baseDepth, inner, fs);
      assert NodeAt(tree, [0], n);
      var own := FlatNode(n.symbol.value, baseDepth);
      assert EntryAt(tree, baseDepth, [0], own);
      hide EntryAt;
      if baseDepth > 0 {
        EntriesJoin(tree, baseDepth, [[0]], Below(inner), [own], fs);
      } else {
        assert [] + Below(inner) == Below(inner) && [] + fs == fs;
      }
    }
  }

  lemma BelowEntries(tree: seq<Node>, baseDepth: nat, paths: seq<seq<nat>>, fs: seq<FlatNode>)
    requires tree != [] && tree[0].symbol.Some? && !tree[0].cycle
    requires Entries(tree[0].children, baseDepth + 1, paths, fs)
    ensures Entries(tree, baseDepth, Below(paths), fs)
  {
    forall i | 0 <= i < |fs|
      ensures EntryAt(tree, baseDepth, [0] + paths[i], fs[i])
    {
      assert EntryAt(tree[0].children, baseDepth + 1, paths[i], fs[i]);
      var n :| NodeAt(tree[0].children, paths[i], n) && n.symbol == Some(fs[i].symbol);
      assert ([0] + paths[i])[1..] == paths[i];
      assert NodeAt(tree, [0] + paths[i], n);
    }
  }

  ghost predicate Ordered(paths: seq<seq<nat>>)
  {
    forall i, j :: 0 <= i < j < |paths| ==> PathLess(paths[i], paths[j])
  }

  lemma {:induction false} PathsOrdered(tree: seq<Node>, baseDepth: nat)
    ensures Ordered(PathsOf(tree, baseDepth))
    decreases tree
  {
    if tree != [] {
      var rest := PathsOf(tree[1..], baseDepth);
      PathsOrdered(tree[1..], baseDepth);
      var head := HeadPaths(tree[0], baseDepth);
      if tree[0].symbol.Some? && !tree[0].cycle {
        var inner := PathsOf(tree[0].children, baseDepth + 1);
        PathsOrdered(tree[0].children, baseDepth + 1);
        BelowOrdered(inner, baseDepth);
      }
      LaterOrdered(head, rest);
    }
  }

  lemma BelowOrdered(paths: seq<seq<nat>>, baseDepth: nat)
    requires Ordered(paths) && forall p :: p in paths ==> p != []
    ensures Ordered((if baseDepth > 0 then [[0]] else []) + Below(paths))
  {
    forall i, j | 0 <= i < j < |paths|
      ensures PathLess([0] + paths[i], [0] + paths[j])
    {
      assert ([0] + paths[i])[1..] == paths[i] && ([0] + paths[j])[1..] == paths[j];
    }
    forall i | 0 <= i < |paths|
      ensures PathLess([0], [0] + paths[i])
    {
      assert paths[i] in paths && ([0] + paths[i])[1..] == paths[i];
    }
  }

  lemma LaterOrdered(head: seq<seq<nat>>, rest: seq<seq<nat>>)
    requires Ordered(head) && Ordered(rest)
    requires (forall p :: p in head ==> p != [] && p[0] == 0) && forall p :: p in rest ==> p != []
    ensures Ordered(head + Later(rest))
  {
    forall i, j | 0 <= i < j < |rest|
      ensures PathLess(Shift(rest[i]), Shift(rest[j]))
    {
      assert rest[i] in rest && rest[j] in rest && PathLess(rest[i], rest[j]);
      assert Shift(rest[i])[1..] == rest[i][1..] && Shift(rest[j])[1..] == rest[j][1..];
    }
    forall i, j | 0 <= i < |head| && 0 <= j < |rest|
      ensures PathLess(head[i], Shift(rest[j]))
    {
      assert head[i] in head;
    }
  }

  lemma {:induction false} PathsComplete(tree: seq<Node>, baseDepth: nat, path: seq<nat>, n: Node)
    requires NodeAt(tree, path, n) && baseDepth + |path| > 1
    ensures path in PathsOf(tree, baseDepth)
    decreases |path|, |tree|
  {
    hide PathsOf;
    if path[0] > 0 {
      var back := [path[0] - 1] + path[1..];
      PathsComplete(tree[1..], baseDepth, back, n);
      InLater(tree, baseDepth, back, path);
    } else if |path| > 1 {
      PathsComplete(tree[0].children, baseDepth + 1, path[1..], n);
      InBelow(tree, baseDepth, path);
    } else {
      assert path == [0];
      InHead(tree, baseDepth);
    }
  }

  lemma InLater(tree: seq<Node>, baseDepth: nat, back: seq<nat>, path: seq<nat>)
    requires tree != [] && back in PathsOf(tree[1..], baseDepth) && path == Shift(back)
    ensures path in PathsOf(tree, baseDepth)
  {
    hide Shift, PathsOf;
    var paths := PathsOf(tree[1..], baseDepth);
    var i :| 0 <= i < |paths| && paths[i] == back;
    assert Later(paths)[i] == path;
    Unfold(tree, baseDepth);
  }

  lemma InBelow(tree: seq<Node>, baseDepth: nat, path: seq<nat>)
    requires tree != [] && tree[0].symbol.Some? && !tree[0].cycle
    requires path != [] && path[0] == 0 && path[1..] in PathsOf(tree[0].children, baseDepth + 1)
    ensures path in PathsOf(tree, baseDepth)
  {
    hide PathsOf;
    var paths := PathsOf(tree[0].children, baseDepth + 1);
    var i :| 0 <= i < |paths| && paths[i] == path[1..];
    assert Below(paths)[i] == path;
    Unfold(tree, baseDepth);
  }

  lemma InHead(tree: seq<Node>, baseDepth: nat)
    requires tree != [] && tree[0].symbol.Some? && !tree[0].cycle && baseDepth > 0
    ensures [0] in PathsOf(tree, baseDepth)
  {
    hide PathsOf;
    Unfold(tree, baseDepth);
  }

  /** The flat list is the depth-first list of the nodes below the roots: its entries stand at
      ascending paths, and at the path of every node that no skipped node cuts off. */
  lemma FlattenInOrder(tree: seq<Node>, baseDepth: nat) returns (paths: seq<seq<nat>>)
    ensures Entries(tree, baseDepth, paths, FlattenTraceTree(tree, baseDepth)) && Ordered(paths)
    ensures forall path, n :: NodeAt(tree, path, n) && baseDepth + |path| > 1 ==> path in paths
  {
    paths := PathsOf(tree, baseDepth);
    PathsEntries(tree, baseDepth);
    PathsOrdered(tree, baseDepth);
    forall path, n | NodeAt(tree, path, n) && baseDepth + |path| > 1
      ensures path in paths
    {
      PathsComplete(tree, baseDepth, path, n);
    }
  }

  // ----- Subjects and keys -----

  const IN := " in "

  function Subject(s: Symbol): string { s.name + IN + s.file + ":" + Decimal(s.startLine) }

  function ExtractSymbolName(subject: string): string
  {
    var idx := Index(subject, IN);
    if idx <= 0 then "" else if ' ' in subject[..idx] then "" else subject[..idx]
  }

  // A name that can be told from the rest of a subject.
  predicate Printable(s: Symbol) { s.name != "" && ' ' !in s.name && s.file != "" }

  /** The printed subject parses back to the symbol's name if and only if the name is not
      empty and has no space. */
  lemma SubjectParsesBack(s: Symbol)
    ensures ExtractSymbolName(Subject(s)) == s.name && s.name != "" <==> s.name != "" && ' ' !in s.name
  {
    hide Index;
    var rest := s.file + ":" + Decimal(s.startLine);
    var t := s.name + IN + rest;
    assert Subject(s) == t;
    var i := Index(t, IN);
    FirstIn(s.name, rest);
    if ' ' !in s.name {
      assert t[..|s.name|] == s.name;
    } else if i == |s.name| {
      assert t[..i] == s.name;
    }
  }

  // A space-free name ends where the first " in " begins.
  lemma FirstIn(name: string, rest: string)
    ensures 0 <= Index(name + IN + rest, IN) <= |name|
    ensures ' ' !in name ==> Index(name + IN + rest, IN) == |name|
  {
    var t := name + IN + rest;
    var i := Index(t, IN);
    assert t[|name|..] == IN + rest;
    assert HasPrefix(t[|name|..], IN);
    assert 0 <= i <= |name|;
    if i < |name| {
      assert t[i..][..4] == IN && t[i..][0] == t[i];
      assert name[i] == ' ';
    }
  }

  function NodeKey(s: Symbol): string { s.name + "@" + s.file }

  function HypothesisKey(h: Hypothesis): Option<string>
  {
    if h.file == "" then None
    else
      var name := ExtractSymbolName(h.subject);
      Some((if name == "" then h.subject else name) + "@" + h.file)
  }

  function KeySet(hyps: seq<Hypothesis>): set<string>
  {
    set h | h in hyps && HypothesisKey(h).Some? :: HypothesisKey(h).value
  }

  method BuildHypothesisKeySet(hyps: seq<Hypothesis>) returns (seen: set<string>)
    ensures seen == KeySet(hyps)
  {
    seen := {};
    for i := 0 to |hyps|
      invariant seen == KeySet(hyps[..i])
    {
      var h := hyps[i];
      assert hyps[..i+1] == hyps[..i] + [h];
      KeySetAppend(hyps[..i], h);
      if h.file == "" {
        continue;
      }
      var name := ExtractSymbolName(h.subject);
      if name == "" {
        seen := seen + {h.subject + "@" + h.file};
      } else {
        seen := seen + {name + "@" + h.file};
      }
    }
    assert hyps[..|hyps|] == hyps;
  }

  lemma KeySetAppend(hyps: seq<Hypothesis>, h: Hypothesis)
    ensures KeySet(hyps + [h]) == KeySet(hyps) + match HypothesisKey(h) case None => {} case Some(k) => {k}
  {
    hide HypothesisKey;
    forall k | k in KeySet(hyps)
      ensures k in KeySet(hyps + [h])
    {
      var g :| g in hyps && HypothesisKey(g) == Some(k);
      assert g in hyps + [h];
    }
    assert h in hyps + [h];
  }

  // ----- Appending the nodes of one trace -----

  // How a phase scores and marks what it adds.
  datatype Rule = Rule(numerator: real, verb: string, source: Source)

  const UPSTREAM := Rule(0.4, "upstream caller of ", UpstreamCaller)
  const DOWNSTREAM := Rule(0.3, "downstream callee of ", DownstreamCallee)

  function Make(f: FlatNode, seed: string, rule: Rule): Hypothesis
    requires f.depth >= 1
  {
    Hypothesis(Subject(f.symbol), f.symbol.file, f.symbol.startLine, f.symbol.endLine,
               rule.numerator / (f.depth as real),
               rule.verb + seed + " (depth=" + Decimal(f.depth) + ")", rule.source)
  }

  /** For a node with a file, the hypothesis made of it is recognised by the node's key exactly
      when its name is printable. */
  lemma KeyRecognisedIffPrintable(f: FlatNode, seed: string, rule: Rule)
    requires f.depth >= 1
    ensures HypothesisKey(Make(f, seed, rule)) == Some(NodeKey(f.symbol)) <==> Printable(f.symbol)
  {
    var s := f.symbol;
    SubjectParsesBack(s);
    var name := ExtractSymbolName(Subject(s));
    if s.file != "" {
      var shown := if name == "" then Subject(s) else name;
      if shown + "@" + s.file == NodeKey(s) {
        assert |shown| == |s.name|;
        assert shown == (shown + "@" + s.file)[..|shown|] == NodeKey(s)[..|shown|] == s.name;
      }
    }
  }

  // picked: the symbols appended so far by this phase, in order.
  datatype Phase = Phase(hyps: seq<Hypothesis>, picked: seq<Symbol>, seen: set<string>)

  function Consider(p: Phase, f: FlatNode, seed: string, rule: Rule): Phase
    requires f.depth >= 1
  {
    if |p.picked| >= MAX_ADDITIONS || NodeKey(f.symbol) in p.seen then p
    else Phase(p.hyps + [Make(f, seed, rule)], p.picked + [f.symbol], p.seen + {NodeKey(f.symbol)})
  }

  function ConsiderAll(p: Phase, fs: seq<FlatNode>, seed: string, rule: Rule): Phase
    requires forall f :: f in fs ==> f.depth >= 1
  {
    if fs == [] then p
    else Consider(ConsiderAll(p, fs[..|fs|-1], seed, rule), fs[|fs|-1], seed, rule)
  }

  // ----- The two phases -----

  // The trace of a symbol name in one direction.
  type Tracer = string -> seq<Node>

  predicate Eligible(h: Hypothesis)
  {
    (h.source == Plain || h.source == Span) && ExtractSymbolName(h.subject) != ""
  }

  // The phase after walking from seed h, if h is eligible.
  function Walk(p: Phase, h: Hypothesis, trace: Tracer, rule: Rule): Phase
  {
    if Eligible(h) then
      var fs := FlattenTraceTree(trace(ExtractSymbolName(h.subject)), 0);
      FlattenDepths(trace(ExtractSymbolName(h.subject)), 0);
      ConsiderAll(p, fs, h.subject, rule)
    else p
  }

  function WalkAll(p: Phase, seeds: seq<Hypothesis>, trace: Tracer, rule: Rule): Phase
  {
    if seeds == [] then p
    else Walk(WalkAll(p, seeds[..|seeds|-1], trace, rule), seeds[|seeds|-1], trace, rule)
  }

  function StartPhase(hyps: seq<Hypothesis>): Phase { Phase(hyps, [], KeySet(hyps)) }

  function Limit(topN: int, n: nat): nat { if topN < 0 then 0 else if topN > n then n else topN }

  function Upstream(hyps: seq<Hypothesis>, callers: Tracer, topN: int): Phase
  {
    WalkAll(StartPhase(hyps), hyps[..Limit(topN, |hyps|)], callers, UPSTREAM)
  }

  function Downstream(hyps: seq<Hypothesis>, callees: Tracer): Phase
  {
    WalkAll(StartPhase(hyps), hyps[..Limit(1, |hyps|)], callees, DOWNSTREAM)
  }

  // A phase that is full considers nothing more.
  lemma {:induction false} FullPhase(p: Phase, fs: seq<FlatNode>, seed: string, rule: Rule)
    requires forall f :: f in fs ==> f.depth >= 1
    requires |p.picked| >= MAX_ADDITIONS
    ensures ConsiderAll(p, fs, seed, rule) == p
  {
    if fs != [] {
      FullPhase(p, fs[..|fs|-1], seed, rule);
    }
  }

  lemma {:induction false} ConsiderFront(p: Phase, fs: seq<FlatNode>, i: nat, seed: string, rule: Rule)
    requires forall f :: f in fs ==> f.depth >= 1
    requires i <= |fs| && |ConsiderAll(p, fs[..i], seed, rule).picked| >= MAX_ADDITIONS
    ensures ConsiderAll(p, fs, seed, rule) == ConsiderAll(p, fs[..i], seed, rule)
    decreases |fs|
  {
    if i < |fs| {
      assert fs[..|fs|-1][..i] == fs[..i];
      ConsiderFront(p, fs[..|fs|-1], i, seed, rule);
    } else {
      assert fs[..i] == fs;
    }
  }

  // The inner loop, shared by both phases.
  method AppendNodes(p: Phase, tree: seq<Node>, seed: string, rule: Rule) returns (q: Phase)
    ensures (forall f :: f in FlattenTraceTree(tree, 0) ==> f.depth >= 1)
      && q == ConsiderAll(p, FlattenTraceTree(tree, 0), seed, rule)
  {
    var fs := FlattenTraceTree(tree, 0);
    FlattenDepths(tree, 0);
    var hyps, seen := p.hyps, p.seen;
    var picked := p.picked;
    assert forall i, f :: 0 <= i <= |fs| && f in fs[..i] ==> f in fs;
    for i := 0 to |fs|
      invariant Phase(hyps, picked, seen) == ConsiderAll(p, fs[..i], seed, rule)
    {
      if |picked| >= MAX_ADDITIONS {
        ConsiderFront(p, fs, i, seed, rule);
        return Phase(hyps, picked, seen);
      }
      var node := fs[i];
      assert node in fs;
      assert fs[..i+1][..i] == fs[..i];
      var key := node.symbol.name + "@" + node.symbol.file;
      if key in seen {
        continue;
      }
      seen := seen + {key};
      hyps := hyps + [Make(node, seed, rule)];
      picked := picked + [node.symbol];
    }
    assert fs[..|fs|] == fs;
    q := Phase(hyps, picked, seen);
  }

  method RunUpstreamPhase(hyps: seq<Hypothesis>, callers: Option<Tracer>, topN: int)
    returns (out: seq<Hypothesis>)
    ensures callers.None? ==> out == hyps
    ensures callers.Some? ==> out == Upstream(hyps, callers.value, topN).hyps
  {
    if callers.None? || |hyps| == 0 {
      return hyps;
    }
    var seen := BuildHypothesisKeySet(hyps);
    var p := Phase(hyps, [], seen);
    var limit := Limit(topN, |hyps|);
    var i := 0;
    while i < limit
      invariant 0 <= i <= limit
      invariant p == WalkAll(StartPhase(hyps), hyps[..i], callers.value, UPSTREAM)
    {
      if |p.picked| >= MAX_ADDITIONS {
        assert hyps[..limit][..i] == hyps[..i];
        WalkFull(StartPhase(hyps), hyps[..limit], i, callers.value, UPSTREAM);
        break;
      }
      var h := hyps[i];
      assert hyps[..i+1][..i] == hyps[..i];
      i := i + 1;
      if h.source != Plain && h.source != Span {
        continue;
      }
      var symbolName := ExtractSymbolName(h.subject);
      if symbolName == "" {
        continue;
      }
      p := AppendNodes(p, callers.value(symbolName), h.subject, UPSTREAM);
    }
    out := p.hyps;
  }

  lemma {:induction false} WalkFull(p: Phase, seeds: seq<Hypothesis>, i: nat, trace: Tracer, rule: Rule)
    requires i <= |seeds| && |WalkAll(p, seeds[..i], trace, rule).picked| >= MAX_ADDITIONS
    ensures WalkAll(p, seeds, trace, rule) == WalkAll(p, seeds[..i], trace, rule)
    decreases |seeds|
  {
    if i < |seeds| {
      assert seeds[..|seeds|-1][..i] == seeds[..i];
      WalkFull(p, seeds[..|seeds|-1], i, trace, rule);
      var h := seeds[|seeds|-1];
      if Eligible(h) {
        var tree := trace(ExtractSymbolName(h.subject));
        FlattenDepths(tree, 0);
        FullPhase(WalkAll(p, seeds[..i], trace, rule), FlattenTraceTree(tree, 0), h.subject, rule);
      }
    } else {
      assert seeds[..i] == seeds;
    }
  }

  lemma WalkOne(p: Phase, h: Hypothesis, trace: Tracer, rule: Rule)
    ensures WalkAll(p, [h], trace, rule) == Walk(p, h, trace, rule)
  {
    assert [h][..0] == [];
    assert WalkAll(p, [], trace, rule) == p;
  }

  method RunDownstreamPhase(hyps: seq<Hypothesis>, callees: Option<Tracer>) returns (out: seq<Hypothesis>)
    ensures callees.None? ==> out == hyps
    ensures callees.Some? ==> out == Downstream(hyps, callees.value).hyps
  {
    if callees.None? || |hyps| == 0 {
      return hyps;
    }
    var seen := BuildHypothesisKeySet(hyps);
    var h := hyps[0];
    assert hyps[..1] == [h];
    WalkOne(StartPhase(hyps), h, callees.value, DOWNSTREAM);
    if h.source != Plain && h.source != Span {
      return hyps;
    }
    var symbolName := ExtractSymbolName(h.subject);
    if symbolName == "" {
      return hyps;
    }
    var p := AppendNodes(Phase(hyps, [], seen), callees.value(symbolName), h.subject, DOWNSTREAM);
    out := p.hyps;
  }

  // ----- What the phases keep -----

  ghost predicate DistinctKeys(picked: seq<Symbol>)
  {
    forall i, j :: 0 <= i < j < |picked| ==> NodeKey(picked[i]) != NodeKey(picked[j])
  }

  function Keys(picked: seq<Symbol>): set<string> { set s | s in picked :: NodeKey(s) }

  // Hypothesis h is what a phase with this rule makes of symbol s at some depth >= 1.
  ghost predicate MadeOf(h: Hypothesis, s: Symbol, rule: Rule)
  {
    exists depth: nat, seed: string :: depth >= 1 && h == Make(FlatNode(s, depth), seed, rule)
  }

  ghost predicate PhaseOk(start: seq<Hypothesis>, p: Phase, rule: Rule)
  {
    && |p.picked| <= MAX_ADDITIONS
    && |p.hyps| == |start| + |p.picked| && p.hyps[..|start|] == start
    && (forall i :: 0 <= i < |p.picked| ==> MadeOf(p.hyps[|start| + i], p.picked[i], rule))
    && DistinctKeys(p.picked)
    && (forall s :: s in p.picked ==> NodeKey(s) !in KeySet(start) && NodeKey(s) in p.seen)
    && KeySet(start) <= p.seen
  }

  lemma ConsiderOk(start: seq<Hypothesis>, p: Phase, f: FlatNode, seed: string, rule: Rule)
    requires PhaseOk(start, p, rule) && f.depth >= 1
    ensures PhaseOk(start, Consider(p, f, seed, rule), rule)
  {
    hide KeySet, Make, NodeKey;
    var q := Consider(p, f, seed, rule);
    if q != p {
      assert MadeOf(Make(f, seed, rule), f.symbol, rule) by {
        assert f == FlatNode(f.symbol, f.depth);
      }
    }
  }

  lemma {:induction false} ConsiderAllOk(start: seq<Hypothesis>, p: Phase, fs: seq<FlatNode>, seed: string, rule: Rule)
    requires PhaseOk(start, p, rule) && forall f :: f in fs ==> f.depth >= 1
    ensures PhaseOk(start, ConsiderAll(p, fs, seed, rule), rule)
  {
    hide PhaseOk;
    if fs != [] {
      ConsiderAllOk(start, p, fs[..|fs|-1], seed, rule);
      ConsiderOk(start, ConsiderAll(p, fs[..|fs|-1], seed, rule), fs[|fs|-1], seed, rule);
    }
  }

  lemma {:induction false} WalkAllOk(start: seq<Hypothesis>, p: Phase, seeds: seq<Hypothesis>, trace: Tracer,
                                     rule: Rule)
    requires PhaseOk(start, p, rule)
    ensures PhaseOk(start, WalkAll(p, seeds, trace, rule), rule)
  {
    hide PhaseOk;
    if seeds != [] {
      WalkAllOk(start, p, seeds[..|seeds|-1], trace, rule);
      var h := seeds[|seeds|-1];
      if Eligible(h) {
        FlattenDepths(trace(ExtractSymbolName(h.subject)), 0);
        ConsiderAllOk(start, WalkAll(p, seeds[..|seeds|-1], trace, rule),
                      FlattenTraceTree(trace(ExtractSymbolName(h.subject)), 0), h.subject, rule);
      }
    }
  }

  lemma StartOk(hyps: seq<Hypothesis>, rule: Rule)
    ensures PhaseOk(hyps, StartPhase(hyps), rule)
  {}

  // What a phase made of a printable symbol is in the key set of its result.
  lemma MadeIsKnown(hyps: seq<Hypothesis>, h: Hypothesis, s: Symbol, rule: Rule)
    requires h in hyps && MadeOf(h, s, rule) && Printable(s)
    ensures NodeKey(s) in KeySet(hyps)
  {
    var depth: nat, seed :| depth >= 1 && h == Make(FlatNode(s, depth), seed, rule);
    KeyRecognisedIffPrintable(FlatNode(s, depth), seed, rule);
  }

  lemma KeySetGrows(hyps: seq<Hypothesis>, more: seq<Hypothesis>)
    requires |hyps| <= |more| && more[..|hyps|] == hyps
    ensures KeySet(hyps) <= KeySet(more)
  {
    hide HypothesisKey;
    forall h | h in hyps
      ensures h in more
    {
      var i :| 0 <= i < |hyps| && hyps[i] == h;
      assert more[i] == more[..|hyps|][i];
    }
  }

  /** Running the upstream and then the downstream phase keeps the given hypotheses as a prefix
      and adds at most nine each, every one made of a trace node at depth 1 or more. The keys
      that each phase adds are pairwise distinct and new; and if every symbol the first phase
      added is printable, the keys of both phases together are. */
  lemma BothPhases(hyps: seq<Hypothesis>, callers: Tracer, callees: Tracer, topN: int)
    ensures var up := Upstream(hyps, callers, topN);
      var down := Downstream(up.hyps, callees);
      && PhaseOk(hyps, up, UPSTREAM) && PhaseOk(up.hyps, down, DOWNSTREAM)
      && |down.hyps| <= |hyps| + 2 * MAX_ADDITIONS && down.hyps[..|hyps|] == hyps
      && (forall s :: s in up.picked + down.picked ==> NodeKey(s) !in KeySet(hyps))
      && ((forall s :: s in up.picked ==> Printable(s)) ==> DistinctKeys(up.picked + down.picked))
  {
    hide KeySet, MadeOf, NodeKey;
    var up := Upstream(hyps, callers, topN);
    var down := Downstream(up.hyps, callees);
    StartOk(hyps, UPSTREAM);
    WalkAllOk(hyps, StartPhase(hyps), hyps[..Limit(topN, |hyps|)], callers, UPSTREAM);
    StartOk(up.hyps, DOWNSTREAM);
    WalkAllOk(up.hyps, StartPhase(up.hyps), up.hyps[..Limit(1, |up.hyps|)], callees, DOWNSTREAM);
    assert down.hyps[..|hyps|] == down.hyps[..|up.hyps|][..|hyps|];
    KeySetGrows(hyps, up.hyps);
    if forall s :: s in up.picked ==> Printable(s) {
      forall i | 0 <= i < |up.picked|
        ensures NodeKey(up.picked[i]) in KeySet(up.hyps)
      {
        MadeIsKnown(up.hyps, up.hyps[|hyps| + i], up.picked[i], UPSTREAM);
      }
    }
  }

  // ----- Which nodes a phase adds -----

  // A node that a phase looks at, and the subject of the seed it was traced from.
  datatype Candidate = Candidate(node: FlatNode, seed: string)

  function Tagged(fs: seq<FlatNode>, seed: string): (r: seq<Candidate>)
    ensures |r| == |fs| && forall k :: 0 <= k < |r| ==> r[k] == Candidate(fs[k], seed)
  {
    seq(|fs|, k requires 0 <= k < |fs| => Candidate(fs[k], seed))
  }

  // The nodes below the seeds that have a callgraph anchor, seed by seed.
  function Candidates(seeds: seq<Hypothesis>, trace: Tracer): (r: seq<Candidate>)
    ensures forall c :: c in r ==> c.node.depth >= 1
  {
    if seeds == [] then []
    else
      var h := seeds[|seeds|-1];
      var name := ExtractSymbolName(h.subject);
      var before := Candidates(seeds[..|seeds|-1], trace);
      if h.source in {Plain, Span} && name != "" then
        FlattenDepths(trace(name), 0);
        before + Tagged(FlattenTraceTree(trace(name), 0), h.subject)
      else before
  }

  function RunOver(p: Phase, cands: seq<Candidate>, rule: Rule): Phase
    requires forall c :: c in cands ==> c.node.depth >= 1
  {
    if cands == [] then p
    else
      var c := cands[|cands|-1];
      Consider(RunOver(p, cands[..|cands|-1], rule), c.node, c.seed, rule)
  }

  lemma {:induction false} RunOverTagged(p: Phase, cands: seq<Candidate>, fs: seq<FlatNode>, seed: string, rule: Rule)
    requires (forall c :: c in cands ==> c.node.depth >= 1) && forall f :: f in fs ==> f.depth >= 1
    ensures RunOver(p, cands + Tagged(fs, seed), rule) == ConsiderAll(RunOver(p, cands, rule), fs, seed, rule)
  {
    hide Consider;
    if fs == [] {
      assert cands + Tagged(fs, seed) == cands;
    } else {
      var init := fs[..|fs|-1];
      RunOverTagged(p, cands, init, seed, rule);
      var all := cands + Tagged(fs, seed);
      assert all[..|all|-1] == cands + Tagged(init, seed);
    }
  }

  lemma {:induction false} WalkIsRun(p: Phase, seeds: seq<Hypothesis>, trace: Tracer, rule: Rule)
    ensures WalkAll(p, seeds, trace, rule) == RunOver(p, Candidates(seeds, trace), rule)
  {
    hide RunOver, ConsiderAll, FlattenTraceTree, ExtractSymbolName;
    if seeds == [] {
      RunOverNothing(p, rule);
    } else {
      var init, h := seeds[..|seeds|-1], seeds[|seeds|-1];
      WalkIsRun(p, init, trace, rule);
      if Eligible(h) {
        var tree := trace(ExtractSymbolName(h.subject));
        FlattenDepths(tree, 0);
        RunOverTagged(p, Candidates(init, trace), FlattenTraceTree(tree, 0), h.subject, rule);
      }
    }
  }

  lemma RunOverNothing(p: Phase, rule: Rule)
    ensures RunOver(p, [], rule) == p
  {}

  function KeyAt(cands: seq<Candidate>, k: nat): string
    requires k < |cands|
  {
    NodeKey(cands[k].node.symbol)
  }

  // The candidate's key is not known and no earlier candidate has it.
  ghost predicate New(cands: seq<Candidate>, k: nat, known: set<string>)
    requires k < |cands|
  {
    KeyAt(cands, k) !in known && forall j :: 0 <= j < k ==> KeyAt(cands, j) != KeyAt(cands, k)
  }

  // ks are the indices of the new candidates in order, the first nine if there are more.
  ghost predicate FirstNine(cands: seq<Candidate>, ks: seq<nat>, known: set<string>)
  {
    && |ks| <= 9
    && (forall i, j :: 0 <= i < j < |ks| ==> ks[i] < ks[j])
    && (forall i :: 0 <= i < |ks| ==> ks[i] < |cands| && New(cands, ks[i], known))
    && (forall k :: 0 <= k < |cands| && New(cands, k, known) ==> k in ks || (|ks| == 9 && ks[8] < k))
  }

  // What the phase has recorded after the candidates.
  ghost predicate Recorded(start: seq<Hypothesis>, cands: seq<Candidate>, ks: seq<nat>, p: Phase, rule: Rule)
    requires (forall c :: c in cands ==> c.node.depth >= 1) && forall i :: 0 <= i < |ks| ==> ks[i] < |cands|
  {
    && |p.picked| == |ks| && |p.hyps| == |start| + |ks| && p.hyps[..|start|] == start
    && (forall i :: 0 <= i < |ks| ==> p.hyps[|start| + i] == MadeFor(cands, ks[i], rule))
    && (|ks| < 9 ==> forall x :: x in p.seen <==> x in KeySet(start) || HasKey(cands, x))
  }

  ghost predicate HasKey(cands: seq<Candidate>, x: string)
  {
    exists j :: 0 <= j < |cands| && KeyAt(cands, j) == x
  }

  function MadeFor(cands: seq<Candidate>, k: nat, rule: Rule): Hypothesis
    requires k < |cands| && forall c :: c in cands ==> c.node.depth >= 1
  {
    Make(cands[k].node, cands[k].seed, rule)
  }

  lemma {:induction false} RunPicks(start: seq<Hypothesis>, cands: seq<Candidate>, rule: Rule) returns (ks: seq<nat>)
    requires forall c :: c in cands ==> c.node.depth >= 1
    ensures FirstNine(cands, ks, KeySet(start))
    ensures Recorded(start, cands, ks, RunOver(StartPhase(start), cands, rule), rule)
  {
    hide Consider, KeySet, New, HasKey, MadeFor, KeyAt, Recorded;
    if cands == [] {
      ks := [];
      NothingRecorded(start, rule);
    } else {
      var init, m := cands[..|cands|-1], |cands| - 1;
      var before := RunPicks(start, init, rule);
      ks := if |before| < 9 && New(cands, m, KeySet(start)) then before + [m] else before;
      FirstNineStep(cands, before, KeySet(start));
      RecordedStep(start, cands, before, RunOver(StartPhase(start), init, rule), rule);
    }
  }

  lemma NothingRecorded(start: seq<Hypothesis>, rule: Rule)
    ensures FirstNine([], [], KeySet(start)) && Recorded(start, [], [], RunOver(StartPhase(start), [], rule), rule)
  {
    hide KeySet;
  }

  lemma FirstNineStep(cands: seq<Candidate>, ks: seq<nat>, known: set<string>)
    requires cands != [] && FirstNine(cands[..|cands|-1], ks, known)
    ensures var m := |cands| - 1;
      FirstNine(cands, if |ks| < 9 && New(cands, m, known) then ks + [m] else ks, known)
  {
    hide New;
    forall k | 0 <= k < |cands| - 1
      ensures New(cands, k, known) <==> New(cands[..|cands|-1], k, known)
    {
      EarlierCandidate(cands, k, known);
    }
  }

  lemma RecordedStep(start: seq<Hypothesis>, cands: seq<Candidate>, ks: seq<nat>, p: Phase, rule: Rule)
    requires cands != [] && forall c :: c in cands ==> c.node.depth >= 1
    requires |ks| <= 9 && forall i :: 0 <= i < |ks| ==> ks[i] < |cands| - 1
    requires Recorded(start, cands[..|cands|-1], ks, p, rule)
    ensures var c, m := cands[|cands|-1], |cands| - 1;
      Recorded(start, cands, if |ks| < 9 && New(cands, m, KeySet(start)) then ks + [m] else ks,
               Consider(p, c.node, c.seed, rule), rule)
  {
    hide Consider, KeySet, New, HasKey, MadeFor, KeyAt;
    LastCandidate(cands, KeySet(start));
    ConsiderLast(p, cands, rule);
    forall k | 0 <= k < |cands| - 1
      ensures MadeFor(cands, k, rule) == MadeFor(cands[..|cands|-1], k, rule)
    {
      MadeEarlier(cands, k, rule);
    }
  }

  lemma MadeEarlier(cands: seq<Candidate>, k: nat, rule: Rule)
    requires k < |cands| - 1 && forall c :: c in cands ==> c.node.depth >= 1
    ensures MadeFor(cands, k, rule) == MadeFor(cands[..|cands|-1], k, rule)
  {
    hide Make;
  }

  lemma LastCandidate(cands: seq<Candidate>, known: set<string>)
    requires cands != []
    ensures var init, m := cands[..|cands|-1], |cands| - 1;
      && (New(cands, m, known) <==> KeyAt(cands, m) !in known && !HasKey(init, KeyAt(cands, m)))
      && forall x :: HasKey(cands, x) <==> HasKey(init, x) || x == KeyAt(cands, m)
  {
    hide NodeKey;
    var init := cands[..|cands|-1];
    assert forall j :: 0 <= j < |init| ==> KeyAt(init, j) == KeyAt(cands, j);
  }

  lemma EarlierCandidate(cands: seq<Candidate>, k: nat, known: set<string>)
    requires k < |cands| - 1
    ensures New(cands, k, known) <==> New(cands[..|cands|-1], k, known)
  {
    hide NodeKey;
    var init := cands[..|cands|-1];
    assert forall j :: 0 <= j < |init| ==> KeyAt(init, j) == KeyAt(cands, j);
  }

  lemma ConsiderLast(p: Phase, cands: seq<Candidate>, rule: Rule)
    requires cands != [] && forall c :: c in cands ==> c.node.depth >= 1
    ensures var c, m := cands[|cands|-1], |cands| - 1;
      Consider(p, c.node, c.seed, rule)
      == if |p.picked| >= 9 || KeyAt(cands, m) in p.seen then p
         else Phase(p.hyps + [MadeFor(cands, m, rule)], p.picked + [c.node.symbol], p.seen + {KeyAt(cands, m)})
  {
    hide Make, NodeKey;
  }

  // The hypothesis h reports the candidate.
  predicate Reports(h: Hypothesis, c: Candidate, numerator: real, verb: string, source: Source)
  {
    var s := c.node.symbol;
    && h.subject == s.name + " in " + s.file + ":" + Decimal(s.startLine)
    && h.file == s.file && h.line == s.startLine && h.endLine == s.endLine
    && h.score * (c.node.depth as real) == numerator
    && h.evidence == verb + " of " + c.seed + " (depth=" + Decimal(c.node.depth) + ")"
    && h.source == source
  }

  lemma MadeReports(c: Candidate, rule: Rule, verb: string)
    requires c.node.depth >= 1 && rule.verb == verb + " of "
    ensures Reports(Make(c.node, c.seed, rule), c, rule.numerator, verb, rule.source)
  {
    var d := c.node.depth as real;
    assert rule.numerator / d * d == rule.numerator;
  }

  /** The upstream phase adds the first nine callers with new keys, in the order of the seeds and
      of their traces, scored 0.4 over the depth. */
  lemma UpstreamPicks(hyps: seq<Hypothesis>, callers: Tracer, topN: int) returns (ks: seq<nat>)
    ensures var walked := if topN <= 0 then 0 else if topN < |hyps| then topN else |hyps|;
      var cands := Candidates(hyps[..walked], callers);
      var out := Upstream(hyps, callers, topN).hyps;
      && FirstNine(cands, ks, KeySet(hyps))
      && |out| == |hyps| + |ks| && out[..|hyps|] == hyps
      && forall i :: 0 <= i < |ks| ==>
           ks[i] < |cands| && Reports(out[|hyps| + i], cands[ks[i]], 0.4, "upstream caller", UpstreamCaller)
  {
    ks := PhasePicks(hyps, hyps[..Limit(topN, |hyps|)], callers, UPSTREAM, "upstream caller");
  }

  /** The downstream phase does the same for the callees of the top hypothesis, scored 0.3 over
      the depth. */
  lemma DownstreamPicks(hyps: seq<Hypothesis>, callees: Tracer) returns (ks: seq<nat>)
    ensures var cands := Candidates(if hyps == [] then [] else [hyps[0]], callees);
      var out := Downstream(hyps, callees).hyps;
      && FirstNine(cands, ks, KeySet(hyps))
      && |out| == |hyps| + |ks| && out[..|hyps|] == hyps
      && forall i :: 0 <= i < |ks| ==>
           ks[i] < |cands| && Reports(out[|hyps| + i], cands[ks[i]], 0.3, "downstream callee", DownstreamCallee)
  {
    assert hyps[..Limit(1, |hyps|)] == if hyps == [] then [] else [hyps[0]];
    ks := PhasePicks(hyps, hyps[..Limit(1, |hyps|)], callees, DOWNSTREAM, "downstream callee");
  }

  lemma PhasePicks(hyps: seq<Hypothesis>, seeds: seq<Hypothesis>, trace: Tracer, rule: Rule, verb: string)
    returns (ks: seq<nat>)
    requires rule.verb == verb + " of "
    ensures var cands := Candidates(seeds, trace);
      var out := WalkAll(StartPhase(hyps), seeds, trace, rule).hyps;
      && FirstNine(cands, ks, KeySet(hyps))
      && |out| == |hyps| + |ks| && out[..|hyps|] == hyps
      && forall i :: 0 <= i < |ks| ==>
           ks[i] < |cands| && Reports(out[|hyps| + i], cands[ks[i]], rule.numerator, verb, rule.source)
  {
    hide KeySet, Make, Reports, RunOver, WalkAll, New, Candidates;
    var cands := Candidates(seeds, trace);
    WalkIsRun(StartPhase(hyps), seeds, trace, rule);
    ks := RunPicks(hyps, cands, rule);
    forall i | 0 <= i < |ks|
      ensures Reports(MadeFor(cands, ks[i], rule), cands[ks[i]], rule.numerator, verb, rule.source)
    {
      MadeReports(cands[ks[i]], rule, verb);
    }
  }

  // The trace of a root with one child.
  function OneChild(root: Symbol, child: Symbol): seq<Node>
  {
    [Node(Some(root), false, [Node(Some(child), false, [])])]
  }

  lemma FlattenOneChild(root: Symbol, child: Symbol)
    ensures FlattenTraceTree(OneChild(root, child), 0) == [FlatNode(child, 1)]
  {
    var leaf := Node(Some(child), false, []);
    assert FlattenTraceTree([], 2) == [];
    assert FlattenTraceTree([leaf], 1) == FlattenNode(leaf, 1) == [FlatNode(child, 1)];
    assert FlattenTraceTree([], 0) == [];
  }

  lemma KeySetOne(h: Hypothesis)
    ensures KeySet([h]) == match HypothesisKey(h) case None => {} case Some(k) => {k}
  {
    hide HypothesisKey;
    assert KeySet([]) == {} && [] + [h] == [h];
    KeySetAppend([], h);
  }

  lemma OneSeed(p: Phase, h: Hypothesis, trace: Tracer, rule: Rule, root: Symbol, child: Symbol)
    requires Eligible(h) && trace(ExtractSymbolName(h.subject)) == OneChild(root, child)
    ensures WalkAll(p, [h], trace, rule) == Consider(p, FlatNode(child, 1), h.subject, rule)
  {
    hide Eligible, ExtractSymbolName, FlattenTraceTree, Consider;
    var f := FlatNode(child, 1);
    FlattenOneChild(root, child);
    WalkOne(p, h, trace, rule);
    assert [f][..0] == [];
    assert ConsiderAll(p, [f], h.subject, rule) == Consider(ConsiderAll(p, [], h.subject, rule), f, h.subject, rule);
  }

  /** The condition is needed: a symbol without a file, which is how a trace shows an external
      one, is never recognised in the result of the first phase, and the second adds it again. */
  lemma ExternalAddedTwice(h: Hypothesis, root: Symbol, ext: Symbol, trace: Tracer)
    requires Eligible(h) && trace(ExtractSymbolName(h.subject)) == OneChild(root, ext)
    requires ext.file == "" && HypothesisKey(h) != Some(NodeKey(ext))
    ensures var up := Upstream([h], trace, 1);
      up.picked == [ext] && Downstream(up.hyps, trace).picked == [ext]
  {
    hide Eligible, ExtractSymbolName, KeySet, NodeKey;
    var f := FlatNode(ext, 1);
    var added := Make(f, h.subject, UPSTREAM);
    assert HypothesisKey(added).None?;
    hide HypothesisKey, Make, WalkAll;
    var up := Upstream([h], trace, 1);
    KeySetOne(h);
    assert [h][..1] == [h];
    OneSeed(StartPhase([h]), h, trace, UPSTREAM, root, ext);
    assert up.hyps == [h] + [added];
    KeySetAppend([h], added);
    assert up.hyps[..1] == [h];
    OneSeed(StartPhase(up.hyps), h, trace, DOWNSTREAM, root, ext);
  }

  /** The keys that both phases add are pairwise distinct, whatever the callees are, if and only
      if there is no seed to walk down from or the first phase's result is recognised by the
      keys of all the symbols it added. */
  lemma DistinctIffAllRecognised(hyps: seq<Hypothesis>, callers: Tracer, topN: int)
    ensures var up := Upstream(hyps, callers, topN);
      (forall callees: Tracer :: DistinctKeys(up.picked + Downstream(up.hyps, callees).picked))
      <==> hyps == [] || !Eligible(hyps[0]) || forall s :: s in up.picked ==> NodeKey(s) in KeySet(up.hyps)
  {
    hide Upstream, Downstream, Eligible, KeySet, NodeKey, DistinctKeys, PhaseOk;
    var up := Upstream(hyps, callers, topN);
    PhaseKeeps(hyps, callers, topN);
    if hyps == [] || !Eligible(hyps[0]) || forall s :: s in up.picked ==> NodeKey(s) in KeySet(up.hyps) {
      forall callees: Tracer
        ensures DistinctKeys(up.picked + Downstream(up.hyps, callees).picked)
      {
        DownstreamNew(hyps, callers, callees, topN);
      }
    } else {
      var s :| s in up.picked && NodeKey(s) !in KeySet(up.hyps);
      var callees := PickedAgain(up, s);
    }
  }

  // If a symbol that the first phase added is not recognised, some callees make the second add it again.
  lemma PickedAgain(up: Phase, s: Symbol) returns (callees: Tracer)
    requires up.hyps != [] && Eligible(up.hyps[0]) && s in up.picked && NodeKey(s) !in KeySet(up.hyps)
    ensures !DistinctKeys(up.picked + Downstream(up.hyps, callees).picked)
  {
    hide Downstream, Eligible, KeySet, NodeKey;
    callees := _ => OneChild(s, s);
    DownstreamPicksChild(up.hyps, callees, s);
    var i :| 0 <= i < |up.picked| && up.picked[i] == s;
    var both := up.picked + Downstream(up.hyps, callees).picked;
    assert both[i] == both[|up.picked|] == s;
  }

  // The first phase keeps what it is given in front.
  lemma PhaseKeeps(hyps: seq<Hypothesis>, callers: Tracer, topN: int)
    ensures var up := Upstream(hyps, callers, topN);
      && PhaseOk(hyps, up, UPSTREAM) && (hyps == [] ==> up.hyps == [] && up.picked == [])
      && (hyps != [] ==> up.hyps != [] && up.hyps[0] == hyps[0])
  {
    hide KeySet, MadeOf, NodeKey, Walk;
    StartOk(hyps, UPSTREAM);
    WalkAllOk(hyps, StartPhase(hyps), hyps[..Limit(topN, |hyps|)], callers, UPSTREAM);
    var up := Upstream(hyps, callers, topN);
    assert hyps != [] ==> up.hyps[0] == up.hyps[..|hyps|][0];
  }

  // A second phase without a seed picks nothing; otherwise it picks nothing known.
  lemma DownstreamNew(hyps: seq<Hypothesis>, callers: Tracer, callees: Tracer, topN: int)
    requires var up := Upstream(hyps, callers, topN);
      hyps == [] || !Eligible(hyps[0]) || forall s :: s in up.picked ==> NodeKey(s) in KeySet(up.hyps)
    ensures var up := Upstream(hyps, callers, topN);
      DistinctKeys(up.picked + Downstream(up.hyps, callees).picked)
  {
    hide Upstream, Eligible, KeySet, NodeKey, MadeOf;
    var up := Upstream(hyps, callers, topN);
    PhaseKeeps(hyps, callers, topN);
    if hyps == [] || !Eligible(hyps[0]) {
      NoSeed(up.hyps, callees);
      assert up.picked + [] == up.picked;
    } else {
      StartOk(up.hyps, DOWNSTREAM);
      WalkAllOk(up.hyps, StartPhase(up.hyps), up.hyps[..Limit(1, |up.hyps|)], callees, DOWNSTREAM);
    }
  }

  lemma NoSeed(hyps: seq<Hypothesis>, callees: Tracer)
    requires hyps == [] || !Eligible(hyps[0])
    ensures Downstream(hyps, callees).picked == []
  {
    hide Eligible;
    if hyps != [] {
      assert hyps[..1] == [hyps[0]];
      WalkOne(StartPhase(hyps), hyps[0], callees, DOWNSTREAM);
    }
  }

  // Walking down to one child of an unknown key picks it.
  lemma DownstreamPicksChild(hyps: seq<Hypothesis>, callees: Tracer, s: Symbol)
    requires hyps != [] && Eligible(hyps[0]) && NodeKey(s) !in KeySet(hyps)
    requires callees(ExtractSymbolName(hyps[0].subject)) == OneChild(s, s)
    ensures Downstream(hyps, callees).picked == [s]
  {
    hide Eligible, ExtractSymbolName, KeySet, NodeKey, WalkAll;
    assert hyps[..1] == [hyps[0]];
    OneSeed(StartPhase(hyps), hyps[0], callees, DOWNSTREAM, s, s);
  }

  /** A symbol that is printable and has a file is recognised; so a seed's phases never add a key
      twice unless the first adds a symbol without a file or with a name that does not parse back. */
  lemma PrintableRecognised(hyps: seq<Hypothesis>, callers: Tracer, topN: int)
    ensures var up := Upstream(hyps, callers, topN);
      forall s :: s in up.picked && Printable(s) ==> NodeKey(s) in KeySet(up.hyps)
  {
    hide Upstream, KeySet, NodeKey, Printable, MadeOf;
    PhaseKeeps(hyps, callers, topN);
    var up := Upstream(hyps, callers, topN);
    forall i | 0 <= i < |up.picked| && Printable(up.picked[i])
      ensures NodeKey(up.picked[i]) in KeySet(up.hyps)
    {
      MadeIsKnown(up.hyps, up.hyps[|hyps| + i], up.picked[i], UPSTREAM);
    }
  }

  /** A concrete case: f is called from outside any function and calls an unresolved f. Both
      traces show that as a child named f without a file. */
  lemma ExternalAddedTwiceExample()
    ensures var h := Hypothesis("f in a.go:1", "a.go", 1, 2, 1.0, "", Plain);
      var ext := Symbol("f", "", 0, 0);
      var trace: Tracer := _ => OneChild(Symbol("f", "a.go", 1, 2), ext);
      var up := Upstream([h], trace, 1);
      up.picked == [ext] && Downstream(up.hyps, trace).picked == [ext]
  {
    hide Upstream, Downstream, Index;
    var h := Hypothesis("f in a.go:1", "a.go", 1, 2, 1.0, "", Plain);
    var ext := Symbol("f", "", 0, 0);
    var root := Symbol("f", "a.go", 1, 2);
    var trace: Tracer := _ => OneChild(root, ext);
    SubjectParsesBack(root);
    assert Decimal(1) == "1" && Subject(root) == h.subject;
    assert root.name == "f" && ' ' !in "f";
    assert ExtractSymbolName(h.subject) == "f";
    hide ExtractSymbolName;
    assert h.file != "" && HypothesisKey(h) == Some("f" + "@" + h.file);
    assert |HypothesisKey(h).value| == 6 && |NodeKey(ext)| == 2;
    ExternalAddedTwice(h, root, ext, trace);
  }
}
