/** The file watcher's pipeline: one forwarder, a bounded buffer that drops when full, one
    worker that finds the repository of each event and triggers its refresh. */
module Watcher {
  import opened Seqs
  import opened Text

  const BUFFER_SIZE := 100

  datatype Event = Event(path: string, op: string)

  // ----- Which repository a path belongs to -----

  datatype RepoEntry = RepoEntry(key: string, root: string)

  predicate Under(root: string, path: string)
  {
    path == root || HasPrefix(path, root + "/")
  }

  /** A path is under a root if and only if the root's components begin the path's. */
  lemma UnderIffComponents(root: string, path: string)
    ensures Under(root, path) <==> Split(root, '/') <= Split(path, '/')
  {
    BeginsIffParts(root, '/', path);
  }

  // Different directories of one parent are not under each other.
  lemma SiblingsApart(dir: string, a: string, b: string)
    requires '/' !in a && '/' !in b && a != b
    ensures !Under(dir + "/" + a, dir + "/" + b)
  {
    hide Split, Under;
    SplitAppend(dir, '/', a);
    SplitAppend(dir, '/', b);
    SplitNone(a, '/');
    SplitNone(b, '/');
    var r, s := Split(dir + "/" + a, '/'), Split(dir + "/" + b, '/');
    UnderIffComponents(dir + "/" + a, dir + "/" + b);
    assert r[|r|-1] == a && s[|s|-1] == b;
  }

  // repoMap as startFileWatcher builds it; graphName is codegraph.GraphNameFor.
  function RepoMap(roots: set<string>, graphName: string -> string): map<string, RepoEntry>
  {
    map r | r in roots :: RepoEntry(graphName(r), r)
  }

  ghost predicate NonNested(roots: set<string>)
  {
    forall r, s :: r in roots && s in roots && r != s ==> !Under(r, s)
  }

  /** A path is under at most one root exactly when no root is under another; so the lookup
      does not depend on the iteration order of the map if and only if the roots do not nest. */
  lemma UniqueOwnerIffNonNested(roots: set<string>)
    ensures NonNested(roots) <==>
      forall path, r, s :: r in roots && s in roots && Under(r, path) && Under(s, path) ==> r == s
  {
    if NonNested(roots) {
      forall path, r, s | r in roots && s in roots && Under(r, path) && Under(s, path)
        ensures r == s
      {
        if |r| <= |s| { SharedPath(r, s, path); } else { SharedPath(s, r, path); }
      }
    } else {
      var r, s :| r in roots && s in roots && r != s && Under(r, s);
      assert Under(s, s);
    }
  }

  lemma SharedPath(r: string, s: string, path: string)
    requires Under(r, path) && Under(s, path) && |r| <= |s|
    ensures Under(r, s)
  {
    if path != r && path != s {
      assert path[..|r|] == (r + "/")[..|r|] == r;
      assert path[..|s|] == (s + "/")[..|s|] == s;
      if |r| < |s| {
        assert s[..|r|+1] == path[..|r|+1] == r + "/";
      } else {
        assert r == s;
      }
    }
  }

  datatype Dispatch = Dispatch(repoKey: string, root: string, relPath: string)

  function RelPath(root: string, path: string): string
  {
    if HasPrefix(path, root + "/") then path[|root|+1..] else path
  }

  // What the lookup may answer, depending on the order of the map: any root the path is under,
  // or nothing when there is none; the empty root, if the path is under it, stops the loop
  // without an answer.
  ghost predicate MayDispatch(ev: Event, repoMap: map<string, RepoEntry>, d: Option<Dispatch>)
  {
    match d
    case Some(x) =>
      && x.root in repoMap && x.root != "" && Under(x.root, ev.path)
      && x.repoKey == repoMap[x.root].key && x.relPath == RelPath(x.root, ev.path)
    case None =>
      ("" in repoMap && Under("", ev.path)) || forall r :: r in repoMap ==> !Under(r, ev.path)
  }

  /** The lookup and what follows from it: the index call and the refresh are for the returned
      repository, or skipped. The loop takes the roots in any order. */
  method ProcessWatchEvent(ev: Event, repoMap: map<string, RepoEntry>) returns (d: Option<Dispatch>)
    requires forall r :: r in repoMap ==> repoMap[r].root == r
    ensures MayDispatch(ev, repoMap, d)
  {
    var root, repoKey, relPath := "", "", "";
    var rest := repoMap.Keys;
    while rest != {}
      invariant rest <= repoMap.Keys && root == ""
      invariant forall r :: r in repoMap && r !in rest ==> !Under(r, ev.path)
      decreases |rest|
    {
      var r :| r in rest;
      rest := rest - {r};
      if ev.path == r || HasPrefix(ev.path, r + "/") {
        root, repoKey := repoMap[r].root, repoMap[r].key;
        relPath := RelPath(root, ev.path);
        break;
      }
    }
    if root == "" {
      return None;
    }
    d := Some(Dispatch(repoKey, root, relPath));
  }

  // The dispatch of an event when no root is under another.
  ghost function DispatchOf(ev: Event, repoMap: map<string, RepoEntry>): Option<Dispatch>
  {
    if exists r :: r in repoMap && r != "" && Under(r, ev.path) then
      var r :| r in repoMap && r != "" && Under(r, ev.path);
      Some(Dispatch(repoMap[r].key, r, RelPath(r, ev.path)))
    else None
  }

  // With roots that do not nest the dispatch is this one.
  lemma DispatchDetermined(ev: Event, roots: set<string>, graphName: string -> string, d: Option<Dispatch>)
    requires NonNested(roots)
    ensures MayDispatch(ev, RepoMap(roots, graphName), d) <==> d == DispatchOf(ev, RepoMap(roots, graphName))
  {
    UniqueOwnerIffNonNested(roots);
  }

  /** What the lookup dispatches is the same for every iteration order and every event if and only
      if the roots do not nest. */
  lemma DispatchUniqueIffNonNested(roots: set<string>, graphName: string -> string)
    ensures NonNested(roots) <==>
      forall ev, d, e ::
        MayDispatch(ev, RepoMap(roots, graphName), d) && MayDispatch(ev, RepoMap(roots, graphName), e) ==> d == e
  {
    var repoMap := RepoMap(roots, graphName);
    if NonNested(roots) {
      forall ev, d, e | MayDispatch(ev, repoMap, d) && MayDispatch(ev, repoMap, e)
        ensures d == e
      {
        DispatchDetermined(ev, roots, graphName, d);
        DispatchDetermined(ev, roots, graphName, e);
      }
    } else {
      var r, s :| r in roots && s in roots && r != s && Under(r, s);
      var ev := Event(s, "write");
      assert s != "" && Under(s, s);
      var d := Some(Dispatch(graphName(s), s, RelPath(s, s)));
      var e := if r == "" then None else Some(Dispatch(graphName(r), r, RelPath(r, s)));
      assert MayDispatch(ev, repoMap, d);
      assert MayDispatch(ev, repoMap, e);
    }
  }

  ghost function Siblings(dir: string, names: set<string>): set<string>
  {
    set n | n in names :: dir + "/" + n
  }

  lemma SiblingsNeverNest(dir: string, names: set<string>)
    requires forall n :: n in names ==> '/' !in n
    ensures NonNested(Siblings(dir, names))
  {
    hide Under;
    forall r, s | r in Siblings(dir, names) && s in Siblings(dir, names) && r != s
      ensures !Under(r, s)
    {
      var a :| a in names && r == dir + "/" + a;
      var b :| b in names && s == dir + "/" + b;
      SiblingsApart(dir, a, b);
    }
  }

  /** When all watched roots are directories of one parent, an event below one of them goes to
      that one, with the rest of its path, also when the name of one root begins another's; an
      event on a root keeps its whole path. */
  lemma SiblingEvent(dir: string, names: set<string>, name: string, rest: string, op: string,
                     graphName: string -> string, d: Option<Dispatch>)
    requires name in names && forall n :: n in names ==> '/' !in n
    ensures var root := dir + "/" + name;
      MayDispatch(Event(root + "/" + rest, op), RepoMap(Siblings(dir, names), graphName), d)
      <==> d == Some(Dispatch(graphName(root), root, rest))
    ensures var root := dir + "/" + name;
      MayDispatch(Event(root, op), RepoMap(Siblings(dir, names), graphName), d)
      <==> d == Some(Dispatch(graphName(root), root, root))
  {
    var root := dir + "/" + name;
    var roots := Siblings(dir, names);
    SiblingsNeverNest(dir, names);
    var path := root + "/" + rest;
    assert path[..|root|+1] == root + "/" && path[|root|+1..] == rest;
    assert root in roots && Under(root, path) && RelPath(root, path) == rest;
    assert Under(root, root) && RelPath(root, root) == root;
    UniqueOwnerIffNonNested(roots);
    hide Under, RelPath, NonNested, Siblings;
    assert forall r :: r in roots && (Under(r, path) || Under(r, root)) ==> r == root;
  }

  // With nested roots the loop may give either of two dispatches for one event.
  lemma NestedRootsAmbiguous(graphName: string -> string)
    ensures var repoMap, ev := RepoMap({"/a", "/a/b"}, graphName), Event("/a/b/f.go", "write");
      && MayDispatch(ev, repoMap, Some(Dispatch(graphName("/a"), "/a", "b/f.go")))
      && MayDispatch(ev, repoMap, Some(Dispatch(graphName("/a/b"), "/a/b", "f.go")))
  {
    assert "/a/b/f.go"[..3] == "/a" + "/";
    assert "/a/b/f.go"[..5] == "/a/b" + "/";
    assert "/a/b/f.go"[3..] == "b/f.go" && "/a/b/f.go"[5..] == "f.go";
  }

  // ----- The pipeline -----

  // A received event and whether the buffer had room for it.
  datatype Verdict = Verdict(event: Event, kept: bool)

  datatype State = State(
    received: nat, dropped: nat,    // the two counters
    hand: Option<Event>,            // received, not yet offered to the buffer
    buffer: seq<Event>,
    open: bool,                     // the forwarder has not closed the buffer
    current: Option<Event>,         // with the worker
    processed: seq<Event>,
    triggers: seq<Option<Dispatch>>,
    offered: seq<Verdict>)          // every event offered to the buffer, in order

  datatype Step = Receive(ev: Event) | Offer | Close | Take | Finish(d: Option<Dispatch>)

  ghost predicate Enabled(s: State, e: Step, repoMap: map<string, RepoEntry>)
  {
    match e
    case Receive(_) => s.open && s.hand.None?
    case Offer => s.hand.Some?
    case Close => s.open && s.hand.None?
    case Take => s.current.None? && s.buffer != []
    case Finish(d) => s.current.Some? && MayDispatch(s.current.value, repoMap, d)
  }

  ghost function Apply(s: State, e: Step, repoMap: map<string, RepoEntry>): State
    requires Enabled(s, e, repoMap)
  {
    match e
    case Receive(ev) => s.(received := s.received + 1, hand := Some(ev))
    case Offer =>
      var ev := s.hand.value;
      if |s.buffer| < BUFFER_SIZE
      then s.(hand := None, buffer := s.buffer + [ev], offered := s.offered + [Verdict(ev, true)])
      else s.(hand := None, dropped := s.dropped + 1, offered := s.offered + [Verdict(ev, false)])
    case Close => s.(open := false)
    case Take => s.(current := Some(s.buffer[0]), buffer := s.buffer[1..])
    case Finish(d) =>
      s.(current := None, processed := s.processed + [s.current.value], triggers := s.triggers + [d])
  }

  ghost predicate Runs(s: State, es: seq<Step>, repoMap: map<string, RepoEntry>)
    decreases |es|
  {
    es == [] || (Enabled(s, es[0], repoMap) && Runs(Apply(s, es[0], repoMap), es[1..], repoMap))
  }

  ghost function Final(s: State, es: seq<Step>, repoMap: map<string, RepoEntry>): State
    requires Runs(s, es, repoMap)
    decreases |es|
  {
    if es == [] then s else Final(Apply(s, es[0], repoMap), es[1..], repoMap)
  }

  // The two goroutines' objects: the counters and the channel between them.
  class Pipeline {
    var received: nat
    var dropped: nat
    var buffer: seq<Event>
    var processed: seq<Event>
    var triggers: seq<Option<Dispatch>>
    ghost var offered: seq<Verdict>

    ghost function View(): State
      reads this
    {
      State(received, dropped, None, buffer, true, None, processed, triggers, offered)
    }

    // One turn of the forwarder: count the event, then send it without blocking.
    method Forward(ev: Event)
      modifies this
      ensures View() == Apply(Apply(old(View()), Receive(ev), map[]), Offer, map[])
    {
      received := received + 1;
      if |buffer| < BUFFER_SIZE {
        buffer := buffer + [ev];
        offered := offered + [Verdict(ev, true)];
      } else {
        dropped := dropped + 1;
        offered := offered + [Verdict(ev, false)];
      }
    }

    // One turn of the worker.
    method Work(repoMap: map<string, RepoEntry>) returns (d: Option<Dispatch>)
      requires buffer != [] && forall r :: r in repoMap ==> repoMap[r].root == r
      modifies this
      ensures MayDispatch(old(buffer)[0], repoMap, d)
      ensures View() == Apply(Apply(old(View()), Take, repoMap), Finish(d), repoMap)
    {
      var ev := buffer[0];
      buffer := buffer[1..];
      d := ProcessWatchEvent(ev, repoMap);
      processed := processed + [ev];
      triggers := triggers + [d];
    }
  }

  const START := State(0, 0, None, [], true, None, [], [], [])

  function ToSeq<T>(o: Option<T>): seq<T> { match o case None => [] case Some(x) => [x] }

  predicate IsKept(v: Verdict) { v.kept }
  predicate IsDropped(v: Verdict) { !v.kept }

  function Events(vs: seq<Verdict>): (r: seq<Event>)
    ensures |r| == |vs| && forall i :: 0 <= i < |r| ==> r[i] == vs[i].event
  {
    seq(|vs|, i requires 0 <= i < |vs| => vs[i].event)
  }

  // The events received by the steps es, in order.
  ghost function ReceivedBy(es: seq<Step>): seq<Event>
  {
    if es == [] then []
    else ReceivedBy(es[..|es|-1]) + match es[|es|-1] case Receive(ev) => [ev] case _ => []
  }

  ghost predicate CountsOk(s: State)
  {
    && |s.buffer| <= BUFFER_SIZE
    && s.received == |s.offered| + |ToSeq(s.hand)|
    && s.dropped == Count(s.offered, IsDropped)
  }

  ghost predicate KeptOk(s: State)
  {
    Events(Filter(s.offered, IsKept)) == s.processed + ToSeq(s.current) + s.buffer
  }

  ghost predicate TriggersOk(s: State, repoMap: map<string, RepoEntry>)
  {
    && |s.triggers| == |s.processed|
    && (forall i :: 0 <= i < |s.triggers| ==> MayDispatch(s.processed[i], repoMap, s.triggers[i]))
  }

  ghost predicate Inv(s: State, repoMap: map<string, RepoEntry>)
  {
    CountsOk(s) && KeptOk(s) && TriggersOk(s, repoMap)
  }

  lemma CountsStep(s: State, e: Step, repoMap: map<string, RepoEntry>)
    requires CountsOk(s) && Enabled(s, e, repoMap)
    ensures CountsOk(Apply(s, e, repoMap))
  {
    hide MayDispatch, Count;
    if e.Offer? {
      var v := Verdict(s.hand.value, |s.buffer| < BUFFER_SIZE);
      assert Apply(s, e, repoMap).offered == s.offered + [v];
      CountAppend(s.offered, v, IsDropped);
    }
  }

  // The kept events are where they were, moved along.
  lemma KeptStep(s: State, e: Step, repoMap: map<string, RepoEntry>)
    requires KeptOk(s) && Enabled(s, e, repoMap)
    ensures KeptOk(Apply(s, e, repoMap))
  {
    hide MayDispatch, Filter, Events;
    var s' := Apply(s, e, repoMap);
    match e
    case Receive(_) =>
    case Close =>
    case Offer =>
      var v := s'.offered[|s.offered|];
      FilterAppend(s.offered, v, IsKept);
      if v.kept {
        EventsAppend(Filter(s.offered, IsKept), v);
        Regroup(s.processed, ToSeq(s.current), s.buffer, [v.event]);
      }
    case Take => TakeHead(s.processed, s.buffer);
    case Finish(_) => Regroup(s.processed, [s.current.value], [], s.buffer);
  }

  lemma Regroup<T>(a: seq<T>, b: seq<T>, c: seq<T>, d: seq<T>)
    ensures a + b + c + d == a + b + (c + d)
    ensures c == [] ==> a + b + d == a + b + c + d
  {}

  lemma TakeHead<T>(a: seq<T>, b: seq<T>)
    requires b != []
    ensures a + [] + b == a + [b[0]] + b[1..]
  {}

  lemma EventsAppend(vs: seq<Verdict>, v: Verdict)
    ensures Events(vs + [v]) == Events(vs) + [v.event]
  {}

  lemma TriggersStep(s: State, e: Step, repoMap: map<string, RepoEntry>)
    requires TriggersOk(s, repoMap) && Enabled(s, e, repoMap)
    ensures TriggersOk(Apply(s, e, repoMap), repoMap)
  {
    hide MayDispatch;
  }

  lemma InvStep(s: State, e: Step, repoMap: map<string, RepoEntry>)
    requires Inv(s, repoMap) && Enabled(s, e, repoMap)
    ensures Inv(Apply(s, e, repoMap), repoMap)
  {
    hide CountsOk, KeptOk, TriggersOk, Apply;
    CountsStep(s, e, repoMap);
    KeptStep(s, e, repoMap);
    TriggersStep(s, e, repoMap);
  }

  lemma OfferedStep(s: State, e: Step, repoMap: map<string, RepoEntry>)
    requires Enabled(s, e, repoMap)
    ensures Events(Apply(s, e, repoMap).offered) + ToSeq(Apply(s, e, repoMap).hand)
         == Events(s.offered) + ToSeq(s.hand) + match e case Receive(ev) => [ev] case _ => []
  {
    hide MayDispatch, Events;
    if e.Offer? {
      EventsAppend(s.offered, Verdict(s.hand.value, |s.buffer| < BUFFER_SIZE));
    }
  }

  lemma {:induction false} InvRun(s: State, es: seq<Step>, repoMap: map<string, RepoEntry>)
    requires Inv(s, repoMap) && Runs(s, es, repoMap)
    ensures Inv(Final(s, es, repoMap), repoMap)
    ensures var f := Final(s, es, repoMap);
      Events(f.offered) + ToSeq(f.hand) == Events(s.offered) + ToSeq(s.hand) + ReceivedBy(es)
    decreases |es|
  {
    hide Inv, Apply, Enabled, Events, ToSeq;
    if es != [] {
      InvStep(s, es[0], repoMap);
      OfferedStep(s, es[0], repoMap);
      InvRun(Apply(s, es[0], repoMap), es[1..], repoMap);
      ReceivedByFront(es);
    }
  }

  lemma {:induction false} ReceivedByFront(es: seq<Step>)
    requires es != []
    ensures ReceivedBy(es) == (match es[0] case Receive(ev) => [ev] case _ => []) + ReceivedBy(es[1..])
  {
    if |es| == 1 {
      assert es[..0] == [] && es[1..] == [];
    } else {
      ReceivedByFront(es[..|es|-1]);
      assert es[1..][..|es|-2] == es[..|es|-1][1..];
    }
  }

  lemma {:induction false} KeptAndDropped(vs: seq<Verdict>)
    ensures |vs| == |Filter(vs, IsKept)| + Count(vs, IsDropped)
  {
    if vs != [] {
      KeptAndDropped(vs[..|vs|-1]);
    }
  }

  lemma StartInv(repoMap: map<string, RepoEntry>)
    ensures Inv(START, repoMap)
  {}

  /** In every run: received = dropped + in the forwarder's hand + buffered + in progress +
      processed, the buffer never exceeds its capacity, and the events kept, in the order in
      which they were received, are the processed ones, then the one in progress, then the buffer. */
  lemma PipelineConservation(es: seq<Step>, repoMap: map<string, RepoEntry>)
    requires Runs(START, es, repoMap)
    ensures var f := Final(START, es, repoMap);
      && f.received == f.dropped + |ToSeq(f.hand)| + |f.buffer| + |ToSeq(f.current)| + |f.processed|
      && |f.buffer| <= BUFFER_SIZE
      && Events(f.offered) + ToSeq(f.hand) == ReceivedBy(es)
      && Events(Filter(f.offered, IsKept)) == f.processed + ToSeq(f.current) + f.buffer
  {
    hide Count, Filter, Runs, Final;
    StartInv(repoMap);
    InvRun(START, es, repoMap);
    KeptAndDropped(Final(START, es, repoMap).offered);
  }

  /** Every processed event has exactly one dispatch, in order, and it is one that some order of
      the map gives; with roots that do not nest it is to the unique root the event is under, or to
      none when it is under no root but an empty one. */
  lemma OneRefreshPerEvent(es: seq<Step>, roots: set<string>, graphName: string -> string, i: nat)
    requires Runs(START, es, RepoMap(roots, graphName))
    requires i < |Final(START, es, RepoMap(roots, graphName)).processed|
    ensures var repoMap := RepoMap(roots, graphName);
      var f := Final(START, es, repoMap);
      && |f.triggers| == |f.processed| && MayDispatch(f.processed[i], repoMap, f.triggers[i])
      && (NonNested(roots) ==>
            && (f.triggers[i].Some? ==> f.triggers[i].value.repoKey == graphName(f.triggers[i].value.root))
            && forall r :: r in roots && r != "" ==>
              (Under(r, f.processed[i].path) <==> f.triggers[i].Some? && f.triggers[i].value.root == r))
  {
    StartInv(RepoMap(roots, graphName));
    InvRun(START, es, RepoMap(roots, graphName));
    hide Runs, Final;
    UniqueOwnerIffNonNested(roots);
  }
}
