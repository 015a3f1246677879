/** The code_health tool: which goroutine owns a resolved clone, the one background build per
    repository, and the reference counts that let requests share a clone directory. Requests
    run as atomic steps in any interleaving; a tool that reads a clone synchronously is a
    request that takes the inline path. */
module CodeHealth {
  import opened Seqs

  // ----- Reference counts of clone directories -----

  function RefCount(counts: map<string, nat>, dir: string): nat
  {
    if dir in counts then counts[dir] else 0
  }

  function Acquired(counts: map<string, nat>, dir: string): map<string, nat>
  {
    if dir == "" then counts else counts[dir := RefCount(counts, dir) + 1]
  }

  function Released(counts: map<string, nat>, dir: string): map<string, nat>
  {
    if dir == "" || RefCount(counts, dir) == 0 then counts
    else if RefCount(counts, dir) == 1 then counts - {dir}
    else counts[dir := RefCount(counts, dir) - 1]
  }

  class CloneRefs {
    var counts: map<string, nat>

    constructor ()
      ensures counts == map[]
    {
      counts := map[];
    }

    method AcquireCloneRef(dir: string)
      modifies this
      ensures counts == Acquired(old(counts), dir)
    {
      if dir == "" {
        return;
      }
      if dir in counts {
        counts := counts[dir := counts[dir] + 1];
      } else {
        counts := counts[dir := 1];
      }
    }

    // remove: the caller goes on to delete the directory, after the lock is released.
    method ReleaseCloneRef(dir: string) returns (remove: bool)
      modifies this
      ensures counts == Released(old(counts), dir)
      ensures remove <==> dir != "" && RefCount(old(counts), dir) == 1
    {
      if dir == "" {
        return false;
      }
      var n := if dir in counts then counts[dir] else 0;
      if n == 0 {
        return false;
      } else if n == 1 {
        counts := counts - {dir};
        return true;
      } else {
        counts := counts[dir := n - 1];
        return false;
      }
    }
  }

  // ----- Requests -----

  // Where the handler of a request is.
  datatype Handler =
    | Arrived | Failed
    | Resolved              // the clone is held, the deferred cleanup is armed
    | Inline                // computing on the handler's goroutine
    | Missed(key: string)   // not cached, about to claim the build
    | Won(key: string)      // claimed the build, about to start the goroutine
    | Spawned               // the goroutine runs, cleanupTransferred is not yet set
    | Leaving               // about to run the deferred cleanup
    | Returned

  // Where the background build of a request is.
  datatype Build = NoBuild | Computing(key: string) | Computed(key: string) | KeyDeleted | Finished

  datatype Clone =
    | NoClone
    | Held(since: nat)
    | Removing(at: nat)   // the last reference is dropped, the directory not yet deleted
    | LetGo

  // cleanups: how often the cleanup of this request's clone was called.
  datatype Request = Request(handler: Handler, build: Build, dir: string, transferred: bool,
                             clone: Clone, cleanups: nat)

  datatype State = State(requests: seq<Request>, building: set<string>, counts: map<string, nat>, clock: nat)

  datatype Step =
    | Arrive
    | ResolveFails(r: nat) | Resolve(r: nat, dir: string)
    | CacheHit(r: nat) | CacheMiss(r: nat, key: string) | LoadOrStore(r: nat)
    | Spawn(r: nat) | SetTransferred(r: nat)
    | StartInline(r: nat) | InlineReturns(r: nat)
    | RunDeferred(r: nat)
    | ComputeReturns(r: nat) | DeleteKey(r: nat) | BuildCleansUp(r: nat)
    | RemoveDir(r: nat)

  const NEW_REQUEST := Request(Arrived, NoBuild, "", false, NoClone, 0)

  // May request q take step e?
  predicate Ready(q: Request, e: Step)
  {
    match e
    case Arrive => false
    case ResolveFails(_) => q.handler.Arrived?
    case Resolve(_, _) => q.handler.Arrived?
    case CacheHit(_) => q.handler.Resolved?
    case CacheMiss(_, _) => q.handler.Resolved?
    case LoadOrStore(_) => q.handler.Missed?
    case Spawn(_) => q.handler.Won?
    case SetTransferred(_) => q.handler.Spawned?
    case StartInline(_) => q.handler.Resolved?
    case InlineReturns(_) => q.handler.Inline?
    case RunDeferred(_) => q.handler.Leaving?
    case ComputeReturns(_) => q.build.Computing?
    case DeleteKey(_) => q.build.Computed?
    case BuildCleansUp(_) => q.build.KeyDeleted?
    case RemoveDir(_) => q.clone.Removing?
  }

  predicate Enabled(s: State, e: Step)
  {
    e.Arrive? || (e.r < |s.requests| && Ready(s.requests[e.r], e))
  }

  // The request after its cleanup was called.
  function Cleaned(q: Request, counts: map<string, nat>, clock: nat): Request
  {
    var last := q.dir != "" && RefCount(counts, q.dir) == 1;
    q.(clone := if last then Removing(clock) else LetGo, cleanups := q.cleanups + 1)
  }

  // The request that took the step.
  function Moved(q: Request, s: State, e: Step): Request
    requires Ready(q, e)
  {
    match e
    case ResolveFails(_) => q.(handler := Failed)
    case Resolve(_, dir) => q.(handler := Resolved, dir := dir, clone := Held(s.clock))
    case CacheHit(_) => q.(handler := Leaving)
    case CacheMiss(_, key) => q.(handler := Missed(key))
    case LoadOrStore(_) => q.(handler := if q.handler.key in s.building then Leaving else Won(q.handler.key))
    case Spawn(_) => q.(handler := Spawned, build := Computing(q.handler.key))
    case SetTransferred(_) => q.(handler := Leaving, transferred := true)
    case StartInline(_) => q.(handler := Inline)
    case InlineReturns(_) => q.(handler := Leaving)
    case RunDeferred(_) =>
      var done := q.(handler := Returned);
      if q.transferred then done else Cleaned(done, s.counts, s.clock)
    case ComputeReturns(_) => q.(build := Computed(q.build.key))
    case DeleteKey(_) => q.(build := KeyDeleted)
    case BuildCleansUp(_) => Cleaned(q.(build := Finished), s.counts, s.clock)
    case RemoveDir(_) => q.(clone := LetGo)
  }

  function BuildingAfter(q: Request, s: State, e: Step): set<string>
    requires Ready(q, e)
  {
    match e
    case LoadOrStore(_) => s.building + {q.handler.key}
    case DeleteKey(_) => s.building - {q.build.key}
    case _ => s.building
  }

  function CountsAfter(q: Request, s: State, e: Step): map<string, nat>
    requires Ready(q, e)
  {
    match e
    case Resolve(_, dir) => Acquired(s.counts, dir)
    case RunDeferred(_) => if q.transferred then s.counts else Released(s.counts, q.dir)
    case BuildCleansUp(_) => Released(s.counts, q.dir)
    case _ => s.counts
  }

  function Apply(s: State, e: Step): State
    requires Enabled(s, e)
  {
    if e.Arrive? then State(s.requests + [NEW_REQUEST], s.building, s.counts, s.clock + 1)
    else
      var q := s.requests[e.r];
      State(s.requests[e.r := Moved(q, s, e)], BuildingAfter(q, s, e), CountsAfter(q, s, e), s.clock + 1)
  }

  ghost predicate Runs(s: State, es: seq<Step>)
    decreases |es|
  {
    es == [] || (Enabled(s, es[0]) && Runs(Apply(s, es[0]), es[1..]))
  }

  ghost function Final(s: State, es: seq<Step>): State
    requires Runs(s, es)
    decreases |es|
  {
    if es == [] then s else Final(Apply(s, es[0]), es[1..])
  }

  const START := State([], {}, map[], 0)

  // ----- The invariant -----

  // The key whose build this request has claimed and not yet given back.
  function Key(q: Request): Option<string>
  {
    if q.handler.Won? then Some(q.handler.key)
    else if q.build.Computing? || q.build.Computed? then Some(q.build.key)
    else None
  }

  function HoldsKey(key: string): Request -> bool { (q: Request) => Key(q) == Some(key) }

  function HoldsDir(dir: string): Request -> bool { (q: Request) => q.clone.Held? && q.dir == dir }

  // Does anything read the clone of q now?
  predicate Reading(q: Request) { q.handler.Inline? || q.build.Computing? }

  // Nothing of this request is left to run, except perhaps the deletion of the directory.
  predicate Over(q: Request)
  {
    (q.handler.Returned? || q.handler.Failed?) && (q.build.NoBuild? || q.build.Finished?)
  }

  // One request on its own: the clone is let go exactly when its owner's cleanup has run.
  predicate Coherent(q: Request)
  {
    && (q.handler.Arrived? || q.handler.Failed? ==> q.clone.NoClone? && q.build.NoBuild? && q.cleanups == 0)
    && (q.handler.Resolved? || q.handler.Inline? || q.handler.Missed? || q.handler.Won? ==>
          q.build.NoBuild?)
    && (q.handler.Spawned? ==> !q.build.NoBuild?)
    && (q.transferred ==> q.handler.Leaving? || q.handler.Returned?)
    && (q.handler.Leaving? || q.handler.Returned? ==> (q.transferred <==> !q.build.NoBuild?))
    && (q.handler.Arrived? || q.handler.Failed? ||
        var owed := if q.build.NoBuild? then q.handler.Returned? else q.build.Finished?;
        q.cleanups == Bit(owed) && (q.clone.Held? <==> !owed) && !q.clone.NoClone?)
  }

  ghost predicate AllCoherent(qs: seq<Request>)
  {
    forall i :: 0 <= i < |qs| ==> Coherent(qs[i])
  }

  // Exactly the claimed keys are in the map, each claimed by one request.
  ghost predicate KeysClaimedOnce(qs: seq<Request>, building: set<string>)
  {
    forall k: string :: Count(qs, HoldsKey(k)) == Bit(k in building)
  }

  // The count of a directory is the number of requests that hold it.
  ghost predicate CountsExact(qs: seq<Request>, counts: map<string, nat>)
  {
    && "" !in counts
    && (forall d :: d in counts ==> counts[d] > 0)
    && forall d: string :: d != "" ==> Count(qs, HoldsDir(d)) == RefCount(counts, d)
  }

  // Whoever holds a directory whose deletion is pending took it after the last release.
  ghost predicate HoldersAreLater(qs: seq<Request>, clock: nat)
  {
    && (forall i :: 0 <= i < |qs| ==>
          (qs[i].clone.Held? ==> qs[i].clone.since < clock)
          && (qs[i].clone.Removing? ==> qs[i].clone.at < clock && qs[i].dir != ""))
    && (forall i, j :: 0 <= i < |qs| && 0 <= j < |qs|
          && qs[i].clone.Removing? && qs[j].clone.Held? && qs[i].dir == qs[j].dir
          ==> qs[i].clone.at < qs[j].clone.since)
  }

  ghost predicate Inv(s: State)
  {
    && AllCoherent(s.requests)
    && KeysClaimedOnce(s.requests, s.building)
    && CountsExact(s.requests, s.counts)
    && HoldersAreLater(s.requests, s.clock)
  }

  lemma MovedCoherent(q: Request, s: State, e: Step)
    requires Coherent(q) && Ready(q, e)
    ensures Coherent(Moved(q, s, e))
  {}

  lemma MovedKeys(s: State, e: Step)
    requires Enabled(s, e) && !e.Arrive? && Coherent(s.requests[e.r]) && KeysClaimedOnce(s.requests, s.building)
    ensures KeysClaimedOnce(Apply(s, e).requests, Apply(s, e).building)
  {
    var q := s.requests[e.r];
    var moved := Moved(q, s, e);
    MovedKey(q, s, e);
    hide Count, Moved, Key, Coherent, Ready;
    forall k: string
      ensures Count(s.requests[e.r := moved], HoldsKey(k)) == Bit(k in BuildingAfter(q, s, e))
    {
      CountUpdate(s.requests, e.r, moved, HoldsKey(k));
      if HoldsKey(k)(q) {
        CountOne(s.requests, e.r, HoldsKey(k));
      }
      assert Count(s.requests, HoldsKey(k)) == Bit(k in s.building);
    }
  }

  // Only claiming and deleting change the key a request holds.
  lemma MovedKey(q: Request, s: State, e: Step)
    requires Coherent(q) && Ready(q, e)
    ensures e.LoadOrStore? && q.handler.key !in s.building ==>
              Key(q) == None && Key(Moved(q, s, e)) == Some(q.handler.key)
              && BuildingAfter(q, s, e) == s.building + {q.handler.key}
    ensures e.DeleteKey? ==> Key(q) == Some(q.build.key) && Key(Moved(q, s, e)) == None
                             && BuildingAfter(q, s, e) == s.building - {q.build.key}
    ensures !(e.LoadOrStore? && q.handler.key !in s.building) && !e.DeleteKey? ==>
              Key(q) == Key(Moved(q, s, e)) && BuildingAfter(q, s, e) == s.building
  {}

  // A request takes a clone, drops one, or keeps what it has, and the counts follow.
  predicate HoldMoves(q: Request, moved: Request, counts: map<string, nat>, next: map<string, nat>, clock: nat)
  {
    || (!q.clone.Held? && !q.clone.Removing? && moved.clone == Held(clock) && next == Acquired(counts, moved.dir))
    || (&& q.clone.Held? && moved.dir == q.dir && next == Released(counts, q.dir)
        && moved.clone == if q.dir != "" && RefCount(counts, q.dir) == 1 then Removing(clock) else LetGo)
    || (moved.dir == q.dir && next == counts && (moved.clone == q.clone || (q.clone.Removing? && moved.clone == LetGo)))
  }

  lemma MovedClone(q: Request, s: State, e: Step)
    requires Coherent(q) && Ready(q, e)
    ensures HoldMoves(q, Moved(q, s, e), s.counts, CountsAfter(q, s, e), s.clock)
  {}

  // The count of each directory changes as the hold on it does.
  lemma HoldChange(q: Request, moved: Request, counts: map<string, nat>, next: map<string, nat>, clock: nat, d: string)
    requires HoldMoves(q, moved, counts, next, clock) && d != ""
    requires HoldsDir(q.dir)(q) && q.dir != "" ==> RefCount(counts, q.dir) > 0
    ensures RefCount(next, d) + Bit(HoldsDir(d)(q)) == RefCount(counts, d) + Bit(HoldsDir(d)(moved))
  {}

  lemma HoldKeepsCounts(q: Request, moved: Request, counts: map<string, nat>, next: map<string, nat>, clock: nat)
    requires HoldMoves(q, moved, counts, next, clock)
    requires "" !in counts && forall d :: d in counts ==> counts[d] > 0
    ensures "" !in next && forall d :: d in next ==> next[d] > 0
  {}

  // Replacing request r keeps the counts exact if they change as its hold does.
  lemma CountsUpdate(qs: seq<Request>, r: nat, moved: Request, counts: map<string, nat>, next: map<string, nat>)
    requires r < |qs| && CountsExact(qs, counts) && "" !in next && forall d :: d in next ==> next[d] > 0
    requires forall d: string :: d != "" ==>
      RefCount(next, d) + Bit(HoldsDir(d)(qs[r])) == RefCount(counts, d) + Bit(HoldsDir(d)(moved))
    ensures CountsExact(qs[r := moved], next)
  {
    hide Count, RefCount, HoldsDir;
    forall d: string | d != ""
      ensures Count(qs[r := moved], HoldsDir(d)) == RefCount(next, d)
    {
      CountUpdate(qs, r, moved, HoldsDir(d));
    }
  }

  lemma MovedCounts(s: State, e: Step)
    requires Enabled(s, e) && !e.Arrive? && Coherent(s.requests[e.r]) && CountsExact(s.requests, s.counts)
    ensures CountsExact(Apply(s, e).requests, Apply(s, e).counts)
  {
    var q := s.requests[e.r];
    var moved, next := Moved(q, s, e), CountsAfter(q, s, e);
    MovedClone(q, s, e);
    HoldKeepsCounts(q, moved, s.counts, next, s.clock);
    hide Count, Moved, CountsAfter, Coherent, Ready, RefCount, HoldMoves;
    if HoldsDir(q.dir)(q) && q.dir != "" {
      CountOne(s.requests, e.r, HoldsDir(q.dir));
    }
    hide HoldsDir;
    forall d: string | d != ""
      ensures RefCount(next, d) + Bit(HoldsDir(d)(q)) == RefCount(s.counts, d) + Bit(HoldsDir(d)(moved))
    {
      HoldChange(q, moved, s.counts, next, s.clock, d);
    }
    CountsUpdate(s.requests, e.r, moved, s.counts, next);
  }

  // Replacing request r keeps the order of holders and deletions if r keeps its clone, or
  // takes one now, or starts a deletion that no other holder waits for.
  lemma ClocksUpdate(qs: seq<Request>, r: nat, moved: Request, clock: nat)
    requires r < |qs| && HoldersAreLater(qs, clock)
    requires
      || (moved.clone == qs[r].clone && moved.dir == qs[r].dir)
      || moved.clone.LetGo?
      || moved.clone == Held(clock)
      || (&& moved.clone == Removing(clock) && moved.dir != ""
          && forall j :: 0 <= j < |qs| && j != r && qs[j].clone.Held? ==> qs[j].dir != moved.dir)
    ensures HoldersAreLater(qs[r := moved], clock + 1)
  {}

  lemma MovedClocks(s: State, e: Step)
    requires Enabled(s, e) && !e.Arrive? && Coherent(s.requests[e.r])
    requires CountsExact(s.requests, s.counts) && HoldersAreLater(s.requests, s.clock)
    ensures HoldersAreLater(Apply(s, e).requests, s.clock + 1)
  {
    var q := s.requests[e.r];
    var moved := Moved(q, s, e);
    MovedClone(q, s, e);
    hide Count, Moved, CountsAfter, Coherent, Ready, HoldersAreLater;
    if q.clone.Held? && moved.clone.Removing? {
      OnlyHolder(s.requests, e.r, q.dir);
    }
    ClocksUpdate(s.requests, e.r, moved, s.clock);
  }

  lemma OnlyHolder(qs: seq<Request>, r: nat, dir: string)
    requires r < |qs| && HoldsDir(dir)(qs[r]) && Count(qs, HoldsDir(dir)) == 1
    ensures forall j :: 0 <= j < |qs| && j != r && qs[j].clone.Held? ==> qs[j].dir != dir
  {
    hide Count;
    forall j | 0 <= j < |qs| && j != r && qs[j].clone.Held?
      ensures qs[j].dir != dir
    {
      if qs[j].dir == dir {
        assert HoldsDir(dir)(qs[j]);
        if j < r {
          CountTwo(qs, j, r, HoldsDir(dir));
        } else {
          CountTwo(qs, r, j, HoldsDir(dir));
        }
      }
    }
  }

  lemma ArriveInv(s: State)
    requires Inv(s)
    ensures Inv(Apply(s, Arrive))
  {
    var qs := s.requests + [NEW_REQUEST];
    hide Count;
    forall k: string
      ensures Count(qs, HoldsKey(k)) == Bit(k in s.building)
    {
      CountAppend(s.requests, NEW_REQUEST, HoldsKey(k));
    }
    forall d: string | d != ""
      ensures Count(qs, HoldsDir(d)) == RefCount(s.counts, d)
    {
      CountAppend(s.requests, NEW_REQUEST, HoldsDir(d));
    }
  }

  lemma InvStep(s: State, e: Step)
    requires Inv(s) && Enabled(s, e)
    ensures Inv(Apply(s, e))
  {
    hide Coherent, KeysClaimedOnce, CountsExact, HoldersAreLater, Moved, BuildingAfter, CountsAfter;
    if e.Arrive? {
      ArriveInv(s);
    } else {
      MovedCoherent(s.requests[e.r], s, e);
      MovedKeys(s, e);
      MovedCounts(s, e);
      MovedClocks(s, e);
    }
  }

  lemma {:induction false} InvRun(s: State, es: seq<Step>)
    requires Inv(s) && Runs(s, es)
    ensures Inv(Final(s, es))
    decreases |es|
  {
    hide Inv, Apply, Enabled;
    if es != [] {
      InvStep(s, es[0]);
      InvRun(Apply(s, es[0]), es[1..]);
    }
  }

  lemma StartInv()
    ensures Inv(START)
  {}

  ghost predicate Reachable(s: State)
  {
    exists es :: Runs(START, es) && Final(START, es) == s
  }

  lemma ReachableInv(s: State)
    requires Reachable(s)
    ensures Inv(s)
  {
    hide Inv, Runs, Final;
    StartInv();
    var es :| Runs(START, es) && Final(START, es) == s;
    InvRun(START, es);
  }

  // ----- What holds in every reachable state -----

  /** In every interleaving the clone of a request is cleaned up at most once, never while
      something reads it or its key is claimed, and exactly once when the request and its build
      are over and the clone was resolved. */
  lemma CleanedExactlyOnce(s: State, i: nat)
    requires Reachable(s) && i < |s.requests|
    ensures var q := s.requests[i];
      && q.cleanups <= 1
      && (Reading(q) || Key(q).Some? ==> q.cleanups == 0 && q.clone.Held?)
      && (Over(q) ==> q.cleanups == Bit(!q.handler.Failed?))
  {
    hide KeysClaimedOnce, CountsExact, HoldersAreLater;
    ReachableInv(s);
  }

  /** At most one background build of a repository computes at a time. */
  lemma OneBuildPerKey(s: State, i: nat, j: nat)
    requires Reachable(s) && i < j < |s.requests|
    requires s.requests[i].build.Computing? && s.requests[j].build.Computing?
    ensures s.requests[i].build.key != s.requests[j].build.key
  {
    hide Count, Coherent, CountsExact, HoldersAreLater;
    ReachableInv(s);
    var k := s.requests[i].build.key;
    if s.requests[j].build.key == k {
      hide KeysClaimedOnce;
      CoherentKey(s, i, k);
      CoherentKey(s, j, k);
      CountTwo(s.requests, i, j, HoldsKey(k));
      KeyBit(s, k);
    }
  }

  lemma CoherentKey(s: State, i: nat, k: string)
    requires AllCoherent(s.requests) && i < |s.requests| && s.requests[i].build == Computing(k)
    ensures HoldsKey(k)(s.requests[i])
  {
    assert Coherent(s.requests[i]);
  }

  lemma KeyBit(s: State, k: string)
    requires Inv(s)
    ensures Count(s.requests, HoldsKey(k)) == Bit(k in s.building)
  {
    hide Count;
  }

  /** The number kept for a directory is the number of requests that hold it. */
  lemma RefCountIsHolders(s: State, dir: string)
    requires Reachable(s) && dir != ""
    ensures RefCount(s.counts, dir) == Count(s.requests, HoldsDir(dir))
  {
    hide Count;
    ReachableInv(s);
  }

  /** A step lets go of a directory's last holder if and only if it brings about its deletion. */
  lemma LastReleaseRemoves(s: State, e: Step, dir: string)
    requires Reachable(s) && Enabled(s, e) && dir != ""
    ensures var s' := Apply(s, e);
      Count(s.requests, HoldsDir(dir)) > 0 && Count(s'.requests, HoldsDir(dir)) == 0
      <==> exists r :: 0 <= r < |s.requests| && s.requests[r].dir == dir
                       && !s.requests[r].clone.Removing? && s'.requests[r].clone.Removing?
  {
    var s' := Apply(s, e);
    ReachableInv(s);
    InvStep(s, e);
    HoldersCounted(s, dir);
    HoldersCounted(s', dir);
    if e.Arrive? {
      assert forall r :: 0 <= r < |s.requests| ==> s'.requests[r] == s.requests[r];
      hide Count, Inv, Reachable;
    } else {
      MovedRelease(s, e, dir);
      hide Apply, Enabled, Inv, Reachable, Count, HoldsDir, RefCount;
      var moved := s'.requests[e.r];
      assert forall r :: 0 <= r < |s.requests| && r != e.r ==> s'.requests[r] == s.requests[r];
    }
  }

  lemma MovedRelease(s: State, e: Step, dir: string)
    requires Inv(s) && Enabled(s, e) && !e.Arrive? && dir != ""
    ensures var s' := Apply(s, e);
      && |s'.requests| == |s.requests| && s'.requests == s.requests[e.r := s'.requests[e.r]]
      && (RefCount(s.counts, dir) > 0 && RefCount(s'.counts, dir) == 0
          <==> s'.requests[e.r].clone.Removing? && !s.requests[e.r].clone.Removing? && s.requests[e.r].dir == dir)
  {
    var q := s.requests[e.r];
    assert AllCoherent(s.requests) && Coherent(q);
    if q.clone.Held? && q.dir != "" {
      HolderCounted(s, e.r);
    }
    hide Inv, AllCoherent, RefCount;
    MovedClone(q, s, e);
    ReleaseMoves(q, Moved(q, s, e), s.counts, CountsAfter(q, s, e), s.clock, dir);
    hide Moved, CountsAfter, Coherent, Ready, HoldMoves;
  }

  lemma ReleaseMoves(q: Request, moved: Request, counts: map<string, nat>, next: map<string, nat>, clock: nat,
                     dir: string)
    requires HoldMoves(q, moved, counts, next, clock) && dir != ""
    requires q.clone.Held? && q.dir != "" ==> RefCount(counts, q.dir) > 0
    ensures RefCount(counts, dir) > 0 && RefCount(next, dir) == 0
            <==> moved.clone.Removing? && !q.clone.Removing? && q.dir == dir
  {}

  lemma HoldersCounted(s: State, dir: string)
    requires Inv(s) && dir != ""
    ensures Count(s.requests, HoldsDir(dir)) == RefCount(s.counts, dir)
  {
    hide Count;
  }

  lemma HolderCounted(s: State, r: nat)
    requires Inv(s) && r < |s.requests| && s.requests[r].clone.Held? && s.requests[r].dir != ""
    ensures RefCount(s.counts, s.requests[r].dir) > 0
  {
    hide Count;
    HoldersCounted(s, s.requests[r].dir);
    CountOne(s.requests, r, HoldsDir(s.requests[r].dir));
  }

  /** A directory about to be deleted is read only by requests that took it after the last
      reference was dropped; whoever read it before that is done. */
  lemma RemovalMeetsOnlyLatecomers(s: State, i: nat, j: nat)
    requires Reachable(s) && i < |s.requests| && j < |s.requests|
    requires s.requests[i].clone.Removing? && Reading(s.requests[j]) && s.requests[j].dir == s.requests[i].dir
    ensures s.requests[j].clone.Held? && s.requests[j].clone.since > s.requests[i].clone.at
  {
    hide Count;
    CleanedExactlyOnce(s, j);
    ReachableInv(s);
  }

  // ----- A claimed key can always be given back -----

  lemma {:induction false} SomeHolder(qs: seq<Request>, p: Request -> bool) returns (i: nat)
    requires Count(qs, p) > 0
    ensures i < |qs| && p(qs[i])
  {
    if p(qs[|qs|-1]) {
      i := |qs| - 1;
    } else {
      i := SomeHolder(qs[..|qs|-1], p);
    }
  }

  lemma {:induction false} RunsAppend(s: State, es: seq<Step>, e: Step)
    requires Runs(s, es) && Enabled(Final(s, es), e)
    ensures Runs(s, es + [e]) && Final(s, es + [e]) == Apply(Final(s, es), e)
    decreases |es|
  {
    hide Apply, Enabled;
    if es == [] {
      assert [e][1..] == [] && Runs(Apply(s, e), []);
    } else {
      RunsAppend(Apply(s, es[0]), es[1..], e);
      assert (es + [e])[1..] == es[1..] + [e];
    }
  }

  lemma ReachableStep(s: State, e: Step)
    requires Reachable(s) && Enabled(s, e)
    ensures Reachable(Apply(s, e))
  {
    hide Runs, Final, Enabled, Apply;
    var es :| Runs(START, es) && Final(START, es) == s;
    RunsAppend(START, es, e);
  }

  /** From every reachable state in which a build is claimed, the claiming request alone can
      run on to give the key back: no key stays in the map for want of another request. */
  lemma {:induction false} KeyCanBeReleased(s: State, key: string) returns (es: seq<Step>, i: nat)
    requires Reachable(s) && key in s.building
    ensures Runs(s, es) && key !in Final(s, es).building && |es| <= 3
    ensures i < |s.requests| && Key(s.requests[i]) == Some(key)
    ensures forall e :: e in es ==> e == Spawn(i) || e == ComputeReturns(i) || e == DeleteKey(i)
  {
    ReachableInv(s);
    KeyBit(s, key);
    i := SomeHolder(s.requests, HoldsKey(key));
    es := Finish(s, i, key);
  }

  function Rank(q: Request): nat { if q.handler.Won? then 3 else if q.build.Computing? then 2 else 1 }

  lemma {:induction false} Finish(s: State, i: nat, key: string) returns (es: seq<Step>)
    requires i < |s.requests| && Key(s.requests[i]) == Some(key)
    ensures Runs(s, es) && key !in Final(s, es).building && |es| <= Rank(s.requests[i])
    ensures forall e :: e in es ==> e == Spawn(i) || e == ComputeReturns(i) || e == DeleteKey(i)
    decreases Rank(s.requests[i])
  {
    var q := s.requests[i];
    if q.handler.Won? {
      var rest := Finish(Apply(s, Spawn(i)), i, key);
      es := RunsCons(s, Spawn(i), rest);
    } else if q.build.Computing? {
      var rest := Finish(Apply(s, ComputeReturns(i)), i, key);
      es := RunsCons(s, ComputeReturns(i), rest);
    } else {
      assert Runs(Apply(s, DeleteKey(i)), []);
      es := RunsCons(s, DeleteKey(i), []);
    }
  }

  lemma RunsCons(s: State, e: Step, rest: seq<Step>) returns (es: seq<Step>)
    requires Enabled(s, e) && Runs(Apply(s, e), rest)
    ensures es == [e] + rest && Runs(s, es) && Final(s, es) == Final(Apply(s, e), rest)
  {
    hide Enabled, Apply;
    es := [e] + rest;
    assert es[0] == e && es[1..] == rest;
  }

  // ----- Every run without arrivals ends, and ends clean -----

  function HandlerWork(h: Handler): nat
  {
    match h
    case Arrived => 9
    case Resolved => 8
    case Missed(_) => 7
    case Won(_) => 6
    case Spawned => 2
    case Inline => 2
    case Leaving => 1
    case Failed => 0
    case Returned => 0
  }

  function BuildWork(b: Build): nat
  {
    match b
    case Computing(_) => 3
    case Computed(_) => 2
    case KeyDeleted => 1
    case NoBuild => 0
    case Finished => 0
  }

  // How many steps a request may still take.
  function Work(q: Request): nat
  {
    3 * (HandlerWork(q.handler) + BuildWork(q.build)) + Bit(q.clone.Removing?)
  }

  function TotalWork(qs: seq<Request>): nat
  {
    if qs == [] then 0 else TotalWork(qs[..|qs|-1]) + Work(qs[|qs|-1])
  }

  lemma {:induction false} TotalWorkUpdate(qs: seq<Request>, i: nat, q: Request)
    requires i < |qs|
    ensures TotalWork(qs[i := q]) + Work(qs[i]) == TotalWork(qs) + Work(q)
  {
    if i == |qs| - 1 {
      assert qs[i := q][..|qs|-1] == qs[..|qs|-1];
    } else {
      TotalWorkUpdate(qs[..|qs|-1], i, q);
      assert qs[i := q][..|qs|-1] == qs[..|qs|-1][i := q];
    }
  }

  lemma WorkFalls(q: Request, s: State, e: Step)
    requires Ready(q, e)
    ensures Work(Moved(q, s, e)) < Work(q)
  {}

  /** Without new arrivals every run comes to an end: no request or build can go on for ever. */
  lemma {:induction false} RunsEnd(s: State, es: seq<Step>)
    requires Runs(s, es) && Arrive !in es
    ensures |es| + TotalWork(Final(s, es).requests) <= TotalWork(s.requests)
    decreases |es|
  {
    hide Work, Moved, TotalWork, BuildingAfter, CountsAfter;
    if es != [] {
      var e := es[0];
      assert e in es && e != Arrive;
      WorkFalls(s.requests[e.r], s, e);
      TotalWorkUpdate(s.requests, e.r, Moved(s.requests[e.r], s, e));
      RunsEnd(Apply(s, e), es[1..]);
    }
  }

  // No request or build can take a step.
  ghost predicate Quiet(s: State)
  {
    forall e: Step :: Enabled(s, e) ==> e.Arrive?
  }

  // A request that can take no step is over, and its directory is gone or left to others.
  lemma QuietRequest(s: State, i: nat)
    requires Quiet(s) && i < |s.requests| && Coherent(s.requests[i])
    ensures var q := s.requests[i];
      Over(q) && Key(q) == None && !q.clone.Held? && !q.clone.Removing?
  {
    forall e: Step | !e.Arrive? && e.r == i
      ensures !Ready(s.requests[i], e)
    {
      assert !Enabled(s, e);
    }
    var q := s.requests[i];
    assert !Ready(q, ResolveFails(i)) && !Ready(q, CacheHit(i)) && !Ready(q, LoadOrStore(i)) && !Ready(q, Spawn(i));
    assert !Ready(q, SetTransferred(i)) && !Ready(q, InlineReturns(i)) && !Ready(q, RunDeferred(i));
    assert !Ready(q, ComputeReturns(i)) && !Ready(q, DeleteKey(i));
    assert !Ready(q, BuildCleansUp(i)) && !Ready(q, RemoveDir(i));
  }

  /** Where a run ends, every key is released, every reference dropped, every deletion done, and
      every resolved clone was cleaned up exactly once. */
  lemma QuietMeansClean(s: State)
    requires Reachable(s) && Quiet(s)
    ensures s.building == {} && s.counts == map[]
    ensures forall i :: 0 <= i < |s.requests| ==>
      Over(s.requests[i]) && !s.requests[i].clone.Removing?
      && s.requests[i].cleanups == Bit(!s.requests[i].handler.Failed?)
  {
    ReachableInv(s);
    hide Quiet, Reachable, Count, Coherent, Key;
    forall i | 0 <= i < |s.requests|
      ensures Over(s.requests[i]) && Key(s.requests[i]) == None
      ensures !s.requests[i].clone.Held? && !s.requests[i].clone.Removing?
      ensures s.requests[i].cleanups == Bit(!s.requests[i].handler.Failed?)
    {
      QuietRequest(s, i);
      CleanedExactlyOnce(s, i);
    }
    forall k | k in s.building
      ensures false
    {
      var i := SomeHolder(s.requests, HoldsKey(k));
    }
    forall d | d in s.counts
      ensures false
    {
      var i := SomeHolder(s.requests, HoldsDir(d));
    }
  }

  // ----- A request that arrives during a deletion -----

  /** The directory is deleted after the lock is released: a request that takes the clone in
      between reads a tree that is being removed, although its own reference is counted. */
  lemma LatecomerReadsRemovedTree() returns (s: State)
    ensures Reachable(s) && |s.requests| == 2
    ensures s.requests[0].clone.Removing? && Reading(s.requests[1]) && s.requests[0].dir == s.requests[1].dir
    ensures RefCount(s.counts, s.requests[1].dir) == 1
  {
    hide Runs, Final, Reachable;
    assert Reachable(START) by { StartReachable(); }
    s := Take(START, Arrive, State([NEW_REQUEST], {}, map[], 1));
    var a := Request(Resolved, NoBuild, "d", false, Held(1), 0);
    s := Take(s, Resolve(0, "d"), State([a], {}, map["d" := 1], 2));
    s := Take(s, CacheHit(0), State([a.(handler := Leaving)], {}, map["d" := 1], 3));
    var gone := Request(Returned, NoBuild, "d", false, Removing(3), 1);
    s := Take(s, RunDeferred(0), State([gone], {}, map[], 4));
    s := Take(s, Arrive, State([gone, NEW_REQUEST], {}, map[], 5));
    var b := Request(Resolved, NoBuild, "d", false, Held(5), 0);
    s := Take(s, Resolve(1, "d"), State([gone, b], {}, map["d" := 1], 6));
    s := Take(s, StartInline(1), State([gone, b.(handler := Inline)], {}, map["d" := 1], 7));
  }

  predicate Harms(s: State, i: nat, j: nat)
    requires i < |s.requests| && j < |s.requests|
  {
    s.requests[i].clone.Removing? && Reading(s.requests[j]) && s.requests[i].dir == s.requests[j].dir
  }

  // ----- When a request reads a deleted tree -----

  // late: the requests that took a directory whose deletion was pending.
  // gone: the requests whose directory was deleted while they held it.
  datatype Track = Track(late: set<nat>, gone: set<nat>)

  predicate Pending(s: State, dir: string)
  {
    exists i :: 0 <= i < |s.requests| && s.requests[i].clone.Removing? && s.requests[i].dir == dir
  }

  function Holders(s: State, dir: string): set<nat>
  {
    set j: nat | j < |s.requests| && HoldsDir(dir)(s.requests[j])
  }

  function Follow(t: Track, s: State, e: Step): Track
    requires Enabled(s, e)
  {
    match e
    case Resolve(r, dir) => if Pending(s, dir) then t.(late := t.late + {r}) else t
    case RemoveDir(r) => t.(gone := t.gone + Holders(s, s.requests[r].dir))
    case _ => t
  }

  // Something reads a directory that is being deleted, or was deleted while it held it.
  ghost predicate ReadsDeleted(s: State, t: Track)
  {
    exists j :: 0 <= j < |s.requests| && Reading(s.requests[j]) && (j in t.gone || Pending(s, s.requests[j].dir))
  }

  ghost predicate EverReadsDeleted(s: State, t: Track, es: seq<Step>)
    requires Runs(s, es)
    decreases |es|
  {
    ReadsDeleted(s, t) || (es != [] && EverReadsDeleted(Apply(s, es[0]), Follow(t, s, es[0]), es[1..]))
  }

  // At some step a late request starts to read, whether or not the deletion is done by then.
  ghost predicate EverStartsLate(s: State, t: Track, es: seq<Step>)
    requires Runs(s, es)
    decreases |es|
  {
    es != [] && (StartsLate(t, es[0]) || EverStartsLate(Apply(s, es[0]), Follow(t, s, es[0]), es[1..]))
  }

  predicate StartsLate(t: Track, e: Step) { (e.StartInline? || e.Spawn?) && e.r in t.late }

  // Only requests that have resolved are tracked.
  ghost predicate Tracked(qs: seq<Request>, t: Track)
  {
    forall j :: j in t.late || j in t.gone ==> j < |qs| && !qs[j].handler.Arrived?
  }

  // A holder is late exactly when its directory is gone or about to be.
  ghost predicate LateIffDoomed(s: State, t: Track)
  {
    forall j :: 0 <= j < |s.requests| && s.requests[j].clone.Held? ==>
      (j in t.late <==> j in t.gone || Pending(s, s.requests[j].dir))
  }

  ghost predicate TrackOk(s: State, t: Track)
  {
    Tracked(s.requests, t) && LateIffDoomed(s, t)
  }

  // One request before and after a step: who starts to read and who starts to delete.
  lemma MovedReading(q: Request, s: State, e: Step)
    requires Coherent(q) && Ready(q, e)
    ensures var moved := Moved(q, s, e);
      && (Reading(moved) <==> (Reading(q) && moved.clone.Held? && !e.InlineReturns? && !e.ComputeReturns?)
                              || e.StartInline? || e.Spawn?)
      && (Reading(moved) ==> q.clone.Held? && moved.clone == q.clone && moved.dir == q.dir)
      && (moved.handler.Arrived? ==> q.handler.Arrived?)
      && (q.handler.Arrived? ==> q.clone.NoClone?)
      && (e.Resolve? <==> !q.clone.Held? && moved.clone.Held?)
      && (e.Resolve? ==> q.handler.Arrived? && !moved.handler.Arrived? && moved.dir == e.dir && moved.clone.Held?)
      && (e.RemoveDir? <==> q.clone.Removing? && !moved.clone.Removing?)
      && (moved.clone.Removing? ==> q.clone.Removing? || q.clone.Held?)
      && (!e.Resolve? ==> moved.dir == q.dir)
  {}

  // How pending deletions change when request r moves.
  lemma PendingMoves(s: State, e: Step, dir: string)
    requires Enabled(s, e) && !e.Arrive? && Coherent(s.requests[e.r])
    ensures var q, moved := s.requests[e.r], Moved(s.requests[e.r], s, e);
      && (Pending(s, dir) && !(e.RemoveDir? && dir == q.dir) ==> Pending(Apply(s, e), dir))
      && (Pending(Apply(s, e), dir) ==>
            Pending(s, dir) || (moved.clone.Removing? && !q.clone.Removing? && dir == q.dir))
  {
    var q, moved, s' := s.requests[e.r], Moved(s.requests[e.r], s, e), Apply(s, e);
    MovedReading(q, s, e);
    assert s'.requests == s.requests[e.r := moved];
    hide Moved, Coherent, Ready, Apply, Reading;
    if Pending(s, dir) {
      var i :| 0 <= i < |s.requests| && s.requests[i].clone.Removing? && s.requests[i].dir == dir;
      assert i != e.r ==> s'.requests[i] == s.requests[i];
      assert s'.requests[e.r] == moved;
    }
  }

  lemma TrackedStep(s: State, t: Track, e: Step)
    requires Inv(s) && Enabled(s, e) && Tracked(s.requests, t)
    ensures Tracked(Apply(s, e).requests, Follow(t, s, e))
  {
    hide KeysClaimedOnce, CountsExact, HoldersAreLater, Pending;
    if !e.Arrive? {
      assert Coherent(s.requests[e.r]);
      MovedReading(s.requests[e.r], s, e);
    }
    forall j | j in Holders(s, if e.RemoveDir? then s.requests[e.r].dir else "")
      ensures !s.requests[j].handler.Arrived?
    {
      assert Coherent(s.requests[j]);
    }
    hide Moved, Coherent, Ready, Reading;
  }

  lemma LateIffDoomedStep(s: State, t: Track, e: Step)
    requires Inv(s) && Enabled(s, e) && TrackOk(s, t)
    ensures LateIffDoomed(Apply(s, e), Follow(t, s, e))
  {
    var s', t' := Apply(s, e), Follow(t, s, e);
    forall j | 0 <= j < |s'.requests| && s'.requests[j].clone.Held?
      ensures j in t'.late <==> j in t'.gone || Pending(s', s'.requests[j].dir)
    {
      if e.Arrive? {
        PendingArrive(s, s'.requests[j].dir);
      } else {
        HolderStep(s, t, e, j);
      }
    }
  }

  lemma PendingArrive(s: State, dir: string)
    ensures Pending(Apply(s, Arrive), dir) <==> Pending(s, dir)
  {
    var s' := Apply(s, Arrive);
    assert forall i :: 0 <= i < |s.requests| ==> s'.requests[i] == s.requests[i];
  }

  lemma HolderStep(s: State, t: Track, e: Step, j: nat)
    requires Inv(s) && Enabled(s, e) && !e.Arrive? && TrackOk(s, t)
    requires j < |s.requests| && Apply(s, e).requests[j].clone.Held?
    ensures var s', t' := Apply(s, e), Follow(t, s, e);
      j in t'.late <==> j in t'.gone || Pending(s', s'.requests[j].dir)
  {
    var q, moved, s' := s.requests[e.r], Moved(s.requests[e.r], s, e), Apply(s, e);
    var dir := s'.requests[j].dir;
    assert Coherent(q);
    MovedReading(q, s, e);
    MovedClone(q, s, e);
    PendingMoves(s, e, dir);
    assert s'.requests == s.requests[e.r := moved];
    assert CountsExact(s.requests, s.counts);
    hide Moved, Coherent, Ready, Apply, Reading, Inv, Pending, Count;
    if moved.clone.Removing? && !q.clone.Removing? && j != e.r {
      OnlyHolder(s.requests, e.r, q.dir);
    }
  }

  lemma TrackStep(s: State, t: Track, e: Step)
    requires Inv(s) && Enabled(s, e) && TrackOk(s, t)
    ensures TrackOk(Apply(s, e), Follow(t, s, e))
  {
    hide Inv, Apply, Follow, Tracked, LateIffDoomed;
    TrackedStep(s, t, e);
    LateIffDoomedStep(s, t, e);
  }

  // What reads a deleted tree is late.
  lemma LateReader(s: State, t: Track)
    requires Inv(s) && TrackOk(s, t)
    ensures ReadsDeleted(s, t) <==> exists j :: 0 <= j < |s.requests| && Reading(s.requests[j]) && j in t.late
  {
    hide KeysClaimedOnce, CountsExact, HoldersAreLater, Pending;
    forall j | 0 <= j < |s.requests| && Reading(s.requests[j])
      ensures j in t.late <==> j in t.gone || Pending(s, s.requests[j].dir)
    {
      assert Coherent(s.requests[j]);
    }
  }

  /** A step brings about a read of a deleted tree exactly when a late request starts to read. */
  lemma HarmStep(s: State, t: Track, e: Step)
    requires Inv(s) && Enabled(s, e) && TrackOk(s, t) && !ReadsDeleted(s, t)
    ensures ReadsDeleted(Apply(s, e), Follow(t, s, e)) <==> StartsLate(t, e)
  {
    var s', t' := Apply(s, e), Follow(t, s, e);
    InvStep(s, e);
    TrackStep(s, t, e);
    LateReader(s, t);
    LateReader(s', t');
    if e.Arrive? {
      assert !Reading(NEW_REQUEST);
      hide Inv, TrackOk, ReadsDeleted;
    } else {
      var q, moved := s.requests[e.r], Moved(s.requests[e.r], s, e);
      assert Coherent(q);
      MovedReading(q, s, e);
      assert s'.requests == s.requests[e.r := moved];
      hide Inv, TrackOk, ReadsDeleted, Moved, Coherent, Ready, Reading, Apply, Pending;
      if StartsLate(t, e) {
        assert Reading(s'.requests[e.r]) && e.r in t'.late;
      }
    }
  }

  lemma {:induction false} HarmRun(s: State, t: Track, es: seq<Step>)
    requires Inv(s) && TrackOk(s, t) && Runs(s, es) && !ReadsDeleted(s, t)
    ensures EverReadsDeleted(s, t, es) <==> EverStartsLate(s, t, es)
    decreases |es|
  {
    hide Inv, TrackOk, ReadsDeleted, StartsLate, Enabled, Apply, Follow;
    if es != [] {
      HarmStep(s, t, es[0]);
      InvStep(s, es[0]);
      TrackStep(s, t, es[0]);
      if !ReadsDeleted(Apply(s, es[0]), Follow(t, s, es[0])) {
        HarmRun(Apply(s, es[0]), Follow(t, s, es[0]), es[1..]);
      }
    }
  }

  /** In a run some request reads a tree that is being deleted, or was deleted while the request
      held it, if and only if some request that took a directory while its deletion was pending
      starts to read it at all. */
  lemma HarmlessIffNoLateStart(es: seq<Step>)
    requires Runs(START, es)
    ensures EverReadsDeleted(START, Track({}, {}), es) <==> EverStartsLate(START, Track({}, {}), es)
  {
    StartInv();
    HarmRun(START, Track({}, {}), es);
  }

  /** Every pending deletion can be met: in every reachable state in which one is pending, a
      request that arrives can take the directory and read it before it is deleted. */
  lemma EveryRemovalCanBeMet(s: State, i: nat, j: nat)
    requires Reachable(s) && i < |s.requests| && j < |s.requests|
    requires s.requests[i].clone.Removing? && s.requests[j].handler.Arrived?
    ensures var es := [Resolve(j, s.requests[i].dir), StartInline(j)];
      Runs(s, es) && i < |Final(s, es).requests| && j < |Final(s, es).requests| && Harms(Final(s, es), i, j)
  {
    ReachableInv(s);
    hide Reachable, KeysClaimedOnce, CountsExact;
    assert Coherent(s.requests[i]) && Coherent(s.requests[j]);
    var d := s.requests[i].dir;
    var s1 := Apply(s, Resolve(j, d));
    var s2 := Apply(s1, StartInline(j));
    assert Runs(s2, []) && Final(s2, []) == s2;
    var run := RunsCons(s1, StartInline(j), []);
    run := RunsCons(s, Resolve(j, d), run);
    assert run == [Resolve(j, d), StartInline(j)];
  }

  /** Waiting for the deletion does not help: the request that took the directory in between then
      reads a tree that is gone, although its reference is counted. */
  lemma RemovalOutlived(s: State, t: Track, i: nat, j: nat)
    requires Reachable(s) && i < |s.requests| && j < |s.requests|
    requires s.requests[i].clone.Removing? && s.requests[j].handler.Arrived?
    ensures var es := [Resolve(j, s.requests[i].dir), RemoveDir(i), StartInline(j)];
      && Runs(s, es) && EverReadsDeleted(s, t, es)
      && RefCount(Final(s, es).counts, s.requests[i].dir) >= 1
  {
    ReachableInv(s);
    assert Coherent(s.requests[i]) && Coherent(s.requests[j]);
    var d := s.requests[i].dir;
    OutlivedSteps(s, t, i, j);
    hide Reachable, Inv, Coherent, Enabled, Apply, Follow, ReadsDeleted;
    var s1, t1 := Apply(s, Resolve(j, d)), Follow(t, s, Resolve(j, d));
    var s2, t2 := Apply(s1, RemoveDir(i)), Follow(t1, s1, RemoveDir(i));
    var s3, t3 := Apply(s2, StartInline(j)), Follow(t2, s2, StartInline(j));
    assert Runs(s3, []) && EverReadsDeleted(s3, t3, []) && Final(s3, []) == s3;
    var run := EverCons(s2, t2, StartInline(j), []);
    run := EverCons(s1, t1, RemoveDir(i), run);
    run := EverCons(s, t, Resolve(j, d), run);
    assert run == [Resolve(j, d), RemoveDir(i), StartInline(j)];
  }

  lemma OutlivedSteps(s: State, t: Track, i: nat, j: nat)
    requires i < |s.requests| && j < |s.requests| && Coherent(s.requests[i]) && Coherent(s.requests[j])
    requires s.requests[i].clone.Removing? && s.requests[j].handler.Arrived? && s.requests[i].dir != ""
    ensures var d := s.requests[i].dir;
      && Enabled(s, Resolve(j, d))
      && var s1, t1 := Apply(s, Resolve(j, d)), Follow(t, s, Resolve(j, d));
      && Enabled(s1, RemoveDir(i))
      && var s2, t2 := Apply(s1, RemoveDir(i)), Follow(t1, s1, RemoveDir(i));
      && Enabled(s2, StartInline(j))
      && var s3, t3 := Apply(s2, StartInline(j)), Follow(t2, s2, StartInline(j));
      && ReadsDeleted(s3, t3) && RefCount(s3.counts, d) >= 1
  {
    hide Pending, ReadsDeleted;
    var d := s.requests[i].dir;
    var s1, t1 := Apply(s, Resolve(j, d)), Follow(t, s, Resolve(j, d));
    assert s1.requests[i] == s.requests[i] && s1.requests[j].clone == Held(s.clock) && s1.requests[j].dir == d;
    var s2, t2 := Apply(s1, RemoveDir(i)), Follow(t1, s1, RemoveDir(i));
    assert s2.requests[j] == s1.requests[j] && j in t2.gone && s2.counts == s1.counts;
    var s3, t3 := Apply(s2, StartInline(j)), Follow(t2, s2, StartInline(j));
    GoneReader(s3, t3, j);
  }

  lemma GoneReader(s: State, t: Track, j: nat)
    requires j < |s.requests| && Reading(s.requests[j]) && j in t.gone
    ensures ReadsDeleted(s, t)
  {}

  lemma EverCons(s: State, t: Track, e: Step, rest: seq<Step>) returns (es: seq<Step>)
    requires Enabled(s, e) && Runs(Apply(s, e), rest) && EverReadsDeleted(Apply(s, e), Follow(t, s, e), rest)
    ensures es == [e] + rest && Runs(s, es) && EverReadsDeleted(s, t, es)
    ensures Final(s, es) == Final(Apply(s, e), rest)
  {
    hide Enabled, Apply, Follow, ReadsDeleted;
    es := [e] + rest;
    assert es[0] == e && es[1..] == rest;
  }

  lemma StartReachable()
    ensures Reachable(START)
  {
    assert Runs(START, []) && Final(START, []) == START;
  }

  lemma Take(s: State, e: Step, next: State) returns (t: State)
    requires Reachable(s) && Enabled(s, e)
    requires var a := Apply(s, e);
      a.requests == next.requests && a.building == next.building && a.counts == next.counts && a.clock == next.clock
    ensures t == next && Reachable(t)
  {
    hide Reachable, Enabled, Apply;
    ReachableStep(s, e);
    t := next;
  }
}
