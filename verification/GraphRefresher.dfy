/** The debounced, single-flighted graph refresher, as the state machine its mutexes make
    of it: triggers, timer expiries, Stop calls that come too late, and index runs, in any order. */
module GraphRefresher {
  import opened Seqs

  type Key = string

  // What a fire has done; call is the single-flight call it waits for.
  datatype FirePc = Begun | Deleted | Waiting(call: nat) | Returned(call: nat)

  datatype TimerState = Live | Stopped | Fired(pc: FirePc)

  datatype Timer = Timer(key: Key, root: string, state: TimerState)

  datatype CallState = Spawned | Running | Ended(ok: bool) | Released(ok: bool)

  // seen: how many triggers had been accepted when the run started.
  datatype Call = Call(key: Key, root: string, leader: nat, state: CallState, seen: nat)

  datatype State = State(
    active: bool,              // enabled, and there is a store
    pending: map<Key, nat>,    // the timers map: key to timer
    timers: seq<Timer>,        // every timer ever made, oldest first: one per accepted trigger
    newest: map<Key, nat>,     // the timer of the newest accepted trigger of each key
    group: map<Key, nat>,      // single-flight: key to call in flight
    calls: seq<Call>,          // every call ever made
    skipped: nat, coalesced: nat, started: nat, success: nat, failed: nat)

  datatype Step =
    | Trigger(key: Key, root: string)
    | Expire(t: nat)           // the runtime starts the timer's fire
    | Delete(t: nat)           // fire: remove the pending entry
    | DoChan(t: nat)           // fire: lead a new call or join the one in flight
    | Start(c: nat)
    | End(c: nat, ok: bool)
    | Release(c: nat)          // single-flight forgets the call and answers its waiters
    | Return(t: nat)

  function SetTimer(s: State, t: nat, st: TimerState): State
    requires t < |s.timers|
  {
    s.(timers := s.timers[t := s.timers[t].(state := st)])
  }

  function SetCall(s: State, c: nat, st: CallState): State
    requires c < |s.calls|
  {
    s.(calls := s.calls[c := s.calls[c].(state := st)])
  }

  predicate PcIs(s: State, t: nat, pc: FirePc) { t < |s.timers| && s.timers[t].state == Fired(pc) }

  predicate CallIs(s: State, c: nat, st: CallState) { c < |s.calls| && s.calls[c].state == st }

  predicate Enabled(s: State, e: Step)
  {
    match e
    case Trigger(_, _) => true
    case Expire(t) => t < |s.timers| && s.timers[t].state.Live?
    case Delete(t) => PcIs(s, t, Begun)
    case DoChan(t) => PcIs(s, t, Deleted)
    case Start(c) => CallIs(s, c, Spawned)
    case End(c, _) => CallIs(s, c, Running)
    case Release(c) => c < |s.calls| && s.calls[c].state.Ended?
    case Return(t) =>
      t < |s.timers| && s.timers[t].state.Fired? && s.timers[t].state.pc.Waiting?
      && s.timers[t].state.pc.call < |s.calls| && s.calls[s.timers[t].state.pc.call].state.Released?
  }

  // t.Stop: it stops a live timer and does nothing to one that has fired.
  function Stop(s: State, t: nat): State
    requires t < |s.timers|
  {
    if s.timers[t].state.Live? then SetTimer(s, t, Stopped) else s
  }

  function ApplyTrigger(s: State, key: Key, root: string): State
    requires key in s.pending ==> s.pending[key] < |s.timers|
  {
    if !s.active then s.(skipped := s.skipped + 1)
    else
      var s1 := if key in s.pending then Stop(s, s.pending[key]).(coalesced := s.coalesced + 1) else s;
      var t := |s1.timers|;
      s1.(timers := s1.timers + [Timer(key, root, Live)],
          pending := s1.pending[key := t], newest := s1.newest[key := t])
  }

  function ApplyDelete(s: State, t: nat): State
    requires PcIs(s, t, Begun)
    requires forall k :: k in s.pending ==> s.pending[k] < |s.timers|
  {
    SetTimer(s, t, Fired(Deleted)).(pending := s.pending - {s.timers[t].key})
  }

  function ApplyDoChan(s: State, t: nat): State
    requires PcIs(s, t, Deleted)
    requires forall k :: k in s.group ==> s.group[k] < |s.calls|
  {
    var key := s.timers[t].key;
    if key in s.group then SetTimer(s, t, Fired(Waiting(s.group[key])))
    else
      var c := |s.calls|;
      SetTimer(s, t, Fired(Waiting(c))).(
        calls := s.calls + [Call(key, s.timers[t].root, t, Spawned, 0)],
        group := s.group[key := c])
  }

  function Apply(s: State, e: Step): State
    requires InRange(s) && Enabled(s, e)
  {
    match e
    case Trigger(key, root) => ApplyTrigger(s, key, root)
    case Expire(t) => SetTimer(s, t, Fired(Begun))
    case Delete(t) => ApplyDelete(s, t)
    case DoChan(t) => ApplyDoChan(s, t)
    case Start(c) =>
      s.(calls := s.calls[c := s.calls[c].(state := Running, seen := |s.timers|)], started := s.started + 1)
    case End(c, ok) =>
      var s1 := SetCall(s, c, Ended(ok));
      if ok then s1.(success := s.success + 1) else s1.(failed := s.failed + 1)
    case Release(c) =>
      var s1 := SetCall(s, c, Released(s.calls[c].state.ok));
      var key := s.calls[c].key;
      if key in s.group && s.group[key] == c then s1.(group := s.group - {key}) else s1
    case Return(t) =>
      SetTimer(s, t, Fired(Returned(s.timers[t].state.pc.call)))
  }

  predicate InRange(s: State)
  {
    && (forall k :: k in s.pending ==> s.pending[k] < |s.timers|)
    && (forall k :: k in s.group ==> s.group[k] < |s.calls|)
  }

  // ----- The object: Trigger and the two critical sections of fire -----

  class Refresher {
    const active: bool
    var pending: map<Key, nat>
    var timers: seq<Timer>
    var newest: map<Key, nat>
    var group: map<Key, nat>
    var calls: seq<Call>
    var skipped: nat
    var coalesced: nat
    var started: nat
    var success: nat
    var failed: nat

    ghost function View(): State
      reads this
    {
      State(active, pending, timers, newest, group, calls, skipped, coalesced, started, success, failed)
    }

    constructor (enabled: bool, hasStore: bool)
      ensures Init(View()) && active == (enabled && hasStore)
    {
      active := enabled && hasStore;
      pending, newest, group := map[], map[], map[];
      timers, calls := [], [];
      skipped, coalesced, started, success, failed := 0, 0, 0, 0, 0;
    }

    method Trigger(key: Key, root: string)
      requires InRange(View())
      modifies this
      ensures View() == Apply(old(View()), Step.Trigger(key, root))
    {
      if !active {
        skipped := skipped + 1;
        return;
      }
      if key in pending {
        var t := pending[key];
        if timers[t].state.Live? {
          timers := timers[t := timers[t].(state := Stopped)];
        }
        coalesced := coalesced + 1;
      }
      var t := |timers|;
      timers := timers + [Timer(key, root, Live)];
      pending := pending[key := t];
      newest := newest[key := t];
    }

    method FireDelete(t: nat)
      requires InRange(View()) && PcIs(View(), t, Begun)
      modifies this
      ensures View() == Apply(old(View()), Delete(t))
    {
      var key := timers[t].key;
      timers := timers[t := timers[t].(state := Fired(Deleted))];
      pending := pending - {key};
    }

    method FireDoChan(t: nat)
      requires InRange(View()) && PcIs(View(), t, Deleted)
      modifies this
      ensures View() == Apply(old(View()), DoChan(t))
    {
      var key := timers[t].key;
      if key in group {
        timers := timers[t := timers[t].(state := Fired(Waiting(group[key])))];
      } else {
        var c := |calls|;
        calls := calls + [Call(key, timers[t].root, t, Spawned, 0)];
        group := group[key := c];
        timers := timers[t := timers[t].(state := Fired(Waiting(c)))];
      }
    }

    // The body of the single-flight call, before and after the index function.
    method RunBegins(c: nat)
      requires InRange(View()) && CallIs(View(), c, Spawned)
      modifies this
      ensures View() == Apply(old(View()), Start(c))
    {
      started := started + 1;
      calls := calls[c := calls[c].(state := Running, seen := |timers|)];
    }

    method RunEnds(c: nat, ok: bool)
      requires InRange(View()) && CallIs(View(), c, Running)
      modifies this
      ensures View() == Apply(old(View()), End(c, ok))
    {
      if !ok {
        failed := failed + 1;
      } else {
        success := success + 1;
      }
      calls := calls[c := calls[c].(state := Ended(ok))];
    }
  }

  // ----- The invariant of every run -----

  predicate Init(s: State)
  {
    && s.pending == map[] && s.newest == map[] && s.group == map[] && s.timers == [] && s.calls == []
    && s.skipped == s.coalesced == s.started == s.success == s.failed == 0
  }

  ghost predicate Runs(s: State, es: seq<Step>)
    decreases |es|
  {
    es == [] || (InRange(s) && Enabled(s, es[0]) && Runs(Apply(s, es[0]), es[1..]))
  }

  ghost function Final(s: State, es: seq<Step>): State
    requires Runs(s, es)
    decreases |es|
  {
    if es == [] then s else Final(Apply(s, es[0]), es[1..])
  }

  predicate IsLive(t: Timer) { t.state.Live? }
  predicate IsStopped(t: Timer) { t.state.Stopped? }
  predicate IsFired(t: Timer) { t.state.Fired? }
  predicate HasJoined(t: Timer) { t.state.Fired? && (t.state.pc.Waiting? || t.state.pc.Returned?) }
  predicate HasStarted(c: Call) { !c.state.Spawned? }
  predicate IsRunning(c: Call) { c.state.Running? }
  predicate HasEnded(c: Call, ok: bool) { c.state == Ended(ok) || c.state == Released(ok) }
  predicate HasSucceeded(c: Call) { HasEnded(c, true) }
  predicate HasFailed(c: Call) { HasEnded(c, false) }

  // The newest timer of each key was not stopped, and a map entry is the newest timer.
  ghost predicate TimersOk(ts: seq<Timer>, pending: map<Key, nat>, newest: map<Key, nat>)
  {
    NewestOk(ts, newest) && PendingOk(pending, newest)
  }

  ghost predicate NewestOk(ts: seq<Timer>, newest: map<Key, nat>)
  {
    && (forall k :: k in newest ==>
          newest[k] < |ts| && ts[newest[k]].key == k && !ts[newest[k]].state.Stopped?)
    && (forall t :: 0 <= t < |ts| ==> ts[t].key in newest && t <= newest[ts[t].key])
  }

  ghost predicate PendingOk(pending: map<Key, nat>, newest: map<Key, nat>)
  {
    forall k :: k in pending ==> k in newest && pending[k] == newest[k]
  }

  // The group holds exactly the calls that are not released, under their keys.
  ghost predicate CallsOk(cs: seq<Call>, group: map<Key, nat>, accepted: nat)
  {
    && (forall k :: k in group ==>
          group[k] < |cs| && cs[group[k]].key == k && !cs[group[k]].state.Released?)
    && (forall c :: 0 <= c < |cs| && !cs[c].state.Released? ==>
          cs[c].key in group && group[cs[c].key] == c)
    && (forall c :: 0 <= c < |cs| ==> CallOk(cs[c], accepted))
  }

  predicate CallOk(c: Call, accepted: nat)
  {
    c.leader < accepted && c.seen <= accepted && (HasStarted(c) ==> c.leader < c.seen)
  }

  // A fire that reached the group waits for a call of its key.
  predicate FireOk(timer: Timer, cs: seq<Call>)
  {
    HasJoined(timer) ==>
      var pc := timer.state.pc;
      && pc.call < |cs| && cs[pc.call].key == timer.key
      && (pc.Returned? ==> cs[pc.call].state.Released?)
  }

  ghost predicate FiresOk(ts: seq<Timer>, cs: seq<Call>)
  {
    forall t :: 0 <= t < |ts| ==> FireOk(ts[t], cs)
  }

  // A call is led by a fire of its key, which waits for it.
  predicate LeaderOk(c: nat, call: Call, ts: seq<Timer>)
  {
    && call.leader < |ts| && ts[call.leader].key == call.key && ts[call.leader].root == call.root
    && HasJoined(ts[call.leader]) && ts[call.leader].state.pc.call == c
  }

  ghost predicate LeadersOk(ts: seq<Timer>, cs: seq<Call>)
  {
    forall c :: 0 <= c < |cs| ==> LeaderOk(c, cs[c], ts)
  }

  ghost predicate CountsOk(s: State)
  {
    && Count(s.timers, IsStopped) <= s.coalesced
    && |s.calls| <= Count(s.timers, HasJoined)
    && s.started == Count(s.calls, HasStarted)
    && s.success == Count(s.calls, HasSucceeded)
    && s.failed == Count(s.calls, HasFailed)
  }

  ghost predicate Inv(s: State)
  {
    && TimersOk(s.timers, s.pending, s.newest)
    && CallsOk(s.calls, s.group, |s.timers|)
    && FiresOk(s.timers, s.calls)
    && LeadersOk(s.timers, s.calls)
    && CountsOk(s)
  }

  lemma TimersOkSet(s: State, t: nat, st: TimerState)
    requires TimersOk(s.timers, s.pending, s.newest) && t < |s.timers| && st.Fired?
    ensures TimersOk(SetTimer(s, t, st).timers, s.pending, s.newest)
  {}

  lemma NewestOkTrigger(s: State, key: Key, root: string)
    requires NewestOk(s.timers, s.newest) && InRange(s)
    requires key in s.pending ==> key in s.newest && s.pending[key] == s.newest[key]
    ensures NewestOk(ApplyTrigger(s, key, root).timers, ApplyTrigger(s, key, root).newest)
  {
    var s' := ApplyTrigger(s, key, root);
    if s.active {
      if key in s.pending {
        assert s.timers[s.newest[key]].key == key;
      }
      hide NewestOk;
      NewestOkAppend(s.timers, s.newest, s'.timers, key);
    }
  }

  // Appending a live timer of key, and changing only the states of timers of that key.
  lemma NewestOkAppend(ts: seq<Timer>, newest: map<Key, nat>, us: seq<Timer>, key: Key)
    requires NewestOk(ts, newest) && |us| == |ts| + 1 && us[|ts|].key == key && us[|ts|].state.Live?
    requires forall t :: 0 <= t < |ts| ==> us[t].key == ts[t].key && (ts[t].key != key ==> us[t] == ts[t])
    ensures NewestOk(us, newest[key := |ts|])
  {}

  lemma PendingOkTrigger(s: State, key: Key, root: string)
    requires PendingOk(s.pending, s.newest) && InRange(s)
    requires key in s.pending ==> s.timers[s.pending[key]].key == key
    ensures var s' := ApplyTrigger(s, key, root); PendingOk(s'.pending, s'.newest)
  {}

  lemma TimersOkTrigger(s: State, key: Key, root: string)
    requires TimersOk(s.timers, s.pending, s.newest) && InRange(s)
    ensures var s' := ApplyTrigger(s, key, root); TimersOk(s'.timers, s'.pending, s'.newest)
  {
    hide ApplyTrigger;
    NewestOkTrigger(s, key, root);
    PendingOkTrigger(s, key, root);
  }

  lemma TimersOkDelete(s: State, t: nat)
    requires TimersOk(s.timers, s.pending, s.newest) && InRange(s) && PcIs(s, t, Begun)
    ensures var s' := ApplyDelete(s, t); TimersOk(s'.timers, s'.pending, s'.newest)
  {
    TimersOkSet(s, t, Fired(Deleted));
  }

  lemma TimersOkStep(s: State, e: Step)
    requires TimersOk(s.timers, s.pending, s.newest) && InRange(s) && Enabled(s, e)
    ensures var s' := Apply(s, e); TimersOk(s'.timers, s'.pending, s'.newest)
  {
    hide TimersOk;
    match e
    case Trigger(key, root) => TimersOkTrigger(s, key, root);
    case Delete(t) => TimersOkDelete(s, t);
    case Expire(t) => TimersOkSet(s, t, Fired(Begun));
    case DoChan(t) => TimersOkSet(s, t, Apply(s, e).timers[t].state);
    case Return(t) => TimersOkSet(s, t, Apply(s, e).timers[t].state);
    case _ =>
  }

  lemma CallsOkNew(cs: seq<Call>, group: map<Key, nat>, accepted: nat, c: Call)
    requires CallsOk(cs, group, accepted) && CallOk(c, accepted) && !c.state.Released? && c.key !in group
    ensures CallsOk(cs + [c], group[c.key := |cs|], accepted)
  {}

  lemma CallsOkSet(cs: seq<Call>, group: map<Key, nat>, accepted: nat, i: nat, c: Call)
    requires CallsOk(cs, group, accepted) && i < |cs| && CallOk(c, accepted) && c.key == cs[i].key
    requires !cs[i].state.Released?
    ensures CallsOk(cs[i := c], if c.state.Released? then group - {c.key} else group, accepted)
  {}

  lemma CallsOkStep(s: State, e: Step)
    requires CallsOk(s.calls, s.group, |s.timers|) && InRange(s) && Enabled(s, e)
    ensures var s' := Apply(s, e); CallsOk(s'.calls, s'.group, |s'.timers|)
  {
    var s' := Apply(s, e);
    if e.DoChan? && s.timers[e.t].key !in s.group {
      CallsOkNew(s.calls, s.group, |s.timers|, s'.calls[|s.calls|]);
    } else if e.Start? || e.End? || e.Release? {
      CallsOkCall(s, e);
    } else {
      CallsOkMore(s.calls, s.group, |s.timers|, |s'.timers|);
      hide CallsOk;
    }
  }

  lemma CallsOkCall(s: State, e: Step)
    requires CallsOk(s.calls, s.group, |s.timers|) && InRange(s) && Enabled(s, e)
    requires e.Start? || e.End? || e.Release?
    ensures var s' := Apply(s, e); CallsOk(s'.calls, s'.group, |s'.timers|)
  {
    var s' := Apply(s, e);
    var c := s'.calls[e.c];
    CallsOkSet(s.calls, s.group, |s.timers|, e.c, c);
    assert e.Release? ==> c.key in s.group && s.group[c.key] == e.c;
    hide CallsOk, InRange;
  }

  lemma CallsOkMore(cs: seq<Call>, group: map<Key, nat>, accepted: nat, more: nat)
    requires CallsOk(cs, group, accepted) && more >= accepted
    ensures CallsOk(cs, group, more)
  {}

  lemma FiresOkSet(ts: seq<Timer>, cs: seq<Call>, t: nat, timer: Timer)
    requires FiresOk(ts, cs) && t < |ts| && FireOk(timer, cs)
    ensures FiresOk(ts[t := timer], cs)
  {
    hide FireOk;
  }

  // The calls may grow; their keys stay, and so do the released ones.
  lemma FiresOkCalls(ts: seq<Timer>, cs: seq<Call>, ds: seq<Call>)
    requires FiresOk(ts, cs) && |cs| <= |ds|
    requires forall c :: 0 <= c < |cs| ==>
      ds[c].key == cs[c].key && (cs[c].state.Released? ==> ds[c].state.Released?)
    ensures FiresOk(ts, ds)
  {
    forall t | 0 <= t < |ts|
      ensures FireOk(ts[t], ds)
    {
      assert FireOk(ts[t], cs);
    }
  }

  lemma FiresOkTrigger(s: State, key: Key, root: string)
    requires FiresOk(s.timers, s.calls) && InRange(s)
    ensures FiresOk(ApplyTrigger(s, key, root).timers, s.calls)
  {
    if key in s.pending {
      var t := s.pending[key];
      FiresOkSet(s.timers, s.calls, t, Stop(s, t).timers[t]);
    }
  }

  lemma FiresOkDelete(s: State, t: nat)
    requires FiresOk(s.timers, s.calls) && InRange(s) && PcIs(s, t, Begun)
    ensures FiresOk(ApplyDelete(s, t).timers, s.calls)
  {
    FiresOkSet(s.timers, s.calls, t, ApplyDelete(s, t).timers[t]);
  }

  lemma FiresOkDoChan(s: State, t: nat)
    requires FiresOk(s.timers, s.calls) && CallsOk(s.calls, s.group, |s.timers|)
    requires InRange(s) && PcIs(s, t, Deleted)
    ensures FiresOk(ApplyDoChan(s, t).timers, ApplyDoChan(s, t).calls)
  {
    var s' := ApplyDoChan(s, t);
    FiresOkCalls(s.timers, s.calls, s'.calls);
    FiresOkSet(s.timers, s'.calls, t, s'.timers[t]);
  }

  lemma FiresOkStep(s: State, e: Step)
    requires FiresOk(s.timers, s.calls) && CallsOk(s.calls, s.group, |s.timers|)
    requires InRange(s) && Enabled(s, e)
    ensures FiresOk(Apply(s, e).timers, Apply(s, e).calls)
  {
    hide ApplyTrigger, ApplyDelete, ApplyDoChan, CallsOk;
    var s' := Apply(s, e);
    match e
    case Trigger(key, root) => FiresOkTrigger(s, key, root); SameCalls(s, e);
    case Delete(t) => FiresOkDelete(s, t); SameCalls(s, e);
    case DoChan(t) => FiresOkDoChan(s, t);
    case Expire(t) => FiresOkSet(s.timers, s.calls, t, s'.timers[t]);
    case Return(t) =>
      assert FireOk(s.timers[t], s.calls);
      FiresOkSet(s.timers, s.calls, t, s'.timers[t]);
    case _ => FiresOkCalls(s.timers, s.calls, s'.calls);
  }

  lemma SameCalls(s: State, e: Step)
    requires InRange(s) && Enabled(s, e) && (e.Trigger? || e.Delete?)
    ensures Apply(s, e).calls == s.calls && Apply(s, e).group == s.group
  {}

  // At step e a fire finds the group without its key and leads a new call.
  predicate Leads(s: State, e: Step)
    requires Enabled(s, e)
  {
    e.DoChan? && s.timers[e.t].key !in s.group
  }

  // What a step does to the calls and the group.
  lemma CallsMove(s: State, e: Step)
    requires InRange(s) && Enabled(s, e)
    ensures var cs, ds := s.calls, Apply(s, e).calls;
      && |ds| == |cs| + Bit(Leads(s, e))
      && (Leads(s, e) ==> ds[|cs|] == Call(s.timers[e.t].key, s.timers[e.t].root, e.t, Spawned, 0))
      && forall c :: 0 <= c < |cs| ==>
        && ds[c].key == cs[c].key && ds[c].root == cs[c].root && ds[c].leader == cs[c].leader
        && (HasStarted(ds[c]) <==> HasStarted(cs[c]) || e == Start(c))
        && (HasStarted(cs[c]) ==> ds[c].seen == cs[c].seen)
        && (e == Start(c) ==> ds[c].seen == |s.timers|)
        && (e != Start(c) ==> ds[c].seen == cs[c].seen)
    ensures forall k :: k in Apply(s, e).group ==>
      if Leads(s, e) && k == s.timers[e.t].key then Apply(s, e).group[k] == |s.calls|
      else k in s.group && Apply(s, e).group[k] == s.group[k]
  {
    hide ApplyTrigger, ApplyDelete;
    if e.Trigger? || e.Delete? {
      SameCalls(s, e);
    }
  }

  // Timer t as a step leaves it: the key stays, and only its own fire reaches the group.
  predicate Moves(s: State, e: Step, t: nat, now: Timer)
    requires Enabled(s, e) && InRange(s) && t < |s.timers|
  {
    && now.key == s.timers[t].key && now.root == s.timers[t].root
    && (HasJoined(now) <==> HasJoined(s.timers[t]) || e == DoChan(t))
    && (HasJoined(s.timers[t]) ==> now.state.pc.call == s.timers[t].state.pc.call)
    && (e == DoChan(t) ==>
          now.state.pc.call == if Leads(s, e) then |s.calls| else s.group[s.timers[t].key])
  }

  lemma TimersMoveTrigger(s: State, e: Step)
    requires InRange(s) && Enabled(s, e) && e.Trigger?
    ensures |s.timers| <= |Apply(s, e).timers| <= |s.timers| + 1
    ensures forall t :: 0 <= t < |s.timers| ==> Moves(s, e, t, Apply(s, e).timers[t])
  {}

  lemma TimersMoveDelete(s: State, e: Step)
    requires InRange(s) && Enabled(s, e) && e.Delete?
    ensures |Apply(s, e).timers| == |s.timers|
    ensures forall t :: 0 <= t < |s.timers| ==> Moves(s, e, t, Apply(s, e).timers[t])
  {}

  lemma TimersMove(s: State, e: Step)
    requires InRange(s) && Enabled(s, e)
    ensures |s.timers| <= |Apply(s, e).timers| <= |s.timers| + Bit(e.Trigger?)
    ensures forall t :: 0 <= t < |s.timers| ==> Moves(s, e, t, Apply(s, e).timers[t])
  {
    if e.Trigger? {
      TimersMoveTrigger(s, e);
    } else if e.Delete? {
      TimersMoveDelete(s, e);
    } else {
      hide ApplyTrigger, ApplyDelete;
    }
  }

  lemma LeadersOkStep(s: State, e: Step)
    requires LeadersOk(s.timers, s.calls) && InRange(s) && Enabled(s, e)
    ensures LeadersOk(Apply(s, e).timers, Apply(s, e).calls)
  {
    CallsMove(s, e);
    TimersMove(s, e);
    hide Apply, HasJoined, Enabled, InRange;
    var s' := Apply(s, e);
    forall c | 0 <= c < |s.calls|
      ensures c < |s'.calls| && LeaderOk(c, s'.calls[c], s'.timers)
    {
      assert LeaderOk(c, s.calls[c], s.timers);
    }
  }

  lemma CountsOkTrigger(s: State, key: Key, root: string)
    requires CountsOk(s) && InRange(s)
    ensures CountsOk(ApplyTrigger(s, key, root))
  {
    hide Count;
    if s.active {
      var s1 := s;
      if key in s.pending {
        s1 := Stop(s, s.pending[key]);
        TimerUpdate(s.timers, s.pending[key], s.timers[s.pending[key]].(state := Stopped));
      }
      var added := Timer(key, root, Live);
      CountAppend(s1.timers, added, IsStopped);
      CountAppend(s1.timers, added, HasJoined);
    }
  }

  lemma CountsOkDelete(s: State, t: nat)
    requires CountsOk(s) && InRange(s) && PcIs(s, t, Begun)
    ensures CountsOk(ApplyDelete(s, t))
  {
    hide Count;
    TimerUpdate(s.timers, t, ApplyDelete(s, t).timers[t]);
  }

  lemma CountsOkDoChan(s: State, t: nat)
    requires CountsOk(s) && InRange(s) && PcIs(s, t, Deleted)
    ensures CountsOk(ApplyDoChan(s, t))
  {
    hide Count;
    var s' := ApplyDoChan(s, t);
    TimerUpdate(s.timers, t, s'.timers[t]);
    if s.timers[t].key !in s.group {
      var c := s'.calls[|s.calls|];
      CountAppend(s.calls, c, HasStarted);
      CountAppend(s.calls, c, HasSucceeded);
      CountAppend(s.calls, c, HasFailed);
    }
  }

  lemma CountsOkSetTimer(s: State, t: nat, st: TimerState)
    requires CountsOk(s) && t < |s.timers| && !s.timers[t].state.Stopped? && st.Fired?
    requires HasJoined(s.timers[t]) ==> HasJoined(s.timers[t].(state := st))
    ensures CountsOk(SetTimer(s, t, st))
  {
    hide Count;
    TimerUpdate(s.timers, t, s.timers[t].(state := st));
  }

  lemma CountsOkStart(s: State, e: Step)
    requires CountsOk(s) && InRange(s) && Enabled(s, e) && e.Start?
    ensures CountsOk(Apply(s, e))
  {
    hide Count, InRange;
    CallUpdate(s.calls, e.c, Apply(s, e).calls[e.c]);
  }

  lemma CountsOkEnd(s: State, e: Step)
    requires CountsOk(s) && InRange(s) && Enabled(s, e) && e.End?
    ensures CountsOk(Apply(s, e))
  {
    hide Count, InRange;
    CallUpdate(s.calls, e.c, Apply(s, e).calls[e.c]);
  }

  lemma CountsOkRelease(s: State, e: Step)
    requires CountsOk(s) && InRange(s) && Enabled(s, e) && e.Release?
    ensures CountsOk(Apply(s, e))
  {
    hide Count, InRange;
    CallUpdate(s.calls, e.c, Apply(s, e).calls[e.c]);
  }

  lemma CountsOkStep(s: State, e: Step)
    requires CountsOk(s) && InRange(s) && Enabled(s, e)
    ensures CountsOk(Apply(s, e))
  {
    hide ApplyTrigger, ApplyDelete, ApplyDoChan, CountsOk;
    match e
    case Trigger(key, root) => CountsOkTrigger(s, key, root);
    case Delete(t) => CountsOkDelete(s, t);
    case DoChan(t) => CountsOkDoChan(s, t);
    case Expire(t) => CountsOkSetTimer(s, t, Fired(Begun));
    case Return(t) => CountsOkSetTimer(s, t, Apply(s, e).timers[t].state);
    case Start(_) => CountsOkStart(s, e);
    case End(_, _) => CountsOkEnd(s, e);
    case Release(_) => CountsOkRelease(s, e);
  }

  lemma TimerUpdate(ts: seq<Timer>, i: nat, x: Timer)
    requires i < |ts|
    ensures var us := ts[i := x];
      && Count(us, IsStopped) + Bit(IsStopped(ts[i])) == Count(ts, IsStopped) + Bit(IsStopped(x))
      && Count(us, HasJoined) + Bit(HasJoined(ts[i])) == Count(ts, HasJoined) + Bit(HasJoined(x))
  {
    hide Count;
    CountUpdate(ts, i, x, IsStopped);
    CountUpdate(ts, i, x, HasJoined);
  }

  lemma CallUpdate(cs: seq<Call>, i: nat, x: Call)
    requires i < |cs|
    ensures var ds := cs[i := x];
      && Count(ds, HasStarted) + Bit(HasStarted(cs[i])) == Count(cs, HasStarted) + Bit(HasStarted(x))
      && Count(ds, HasSucceeded) + Bit(HasSucceeded(cs[i])) == Count(cs, HasSucceeded) + Bit(HasSucceeded(x))
      && Count(ds, HasFailed) + Bit(HasFailed(cs[i])) == Count(cs, HasFailed) + Bit(HasFailed(x))
  {
    hide Count;
    CountUpdate(cs, i, x, HasStarted);
    CountUpdate(cs, i, x, HasSucceeded);
    CountUpdate(cs, i, x, HasFailed);
  }

  lemma InvRange(s: State)
    requires Inv(s)
    ensures InRange(s)
  {}

  lemma InvStep(s: State, e: Step)
    requires Inv(s) && InRange(s) && Enabled(s, e)
    ensures Inv(Apply(s, e))
  {
    hide Apply, Enabled, InRange, TimersOk, CallsOk, FiresOk, LeadersOk, CountsOk;
    TimersOkStep(s, e);
    CallsOkStep(s, e);
    FiresOkStep(s, e);
    LeadersOkStep(s, e);
    CountsOkStep(s, e);
  }

  lemma {:induction false} InvRun(s: State, es: seq<Step>)
    requires Inv(s) && Runs(s, es)
    ensures Inv(Final(s, es))
    decreases |es|
  {
    hide Apply, Enabled, InRange, Inv;
    if es != [] {
      InvStep(s, es[0]);
      InvRun(Apply(s, es[0]), es[1..]);
    }
  }

  // ----- What holds in every run -----

  /** No edit is forgotten by the debounce: the newest accepted trigger of a key has a
      live timer or a fire already begun. */
  lemma NewestTriggerNotLost(s: State, es: seq<Step>, k: Key)
    requires Init(s) && Runs(s, es) && k in Final(s, es).newest
    ensures var f := Final(s, es);
      && f.newest[k] < |f.timers| && f.timers[f.newest[k]].key == k
      && (f.timers[f.newest[k]].state.Live? || f.timers[f.newest[k]].state.Fired?)
      && (forall t :: f.newest[k] < t < |f.timers| ==> f.timers[t].key != k)
  {
    InvRun(s, es);
  }

  /** Accepted triggers are live, stopped or fired timers; runs started do not outnumber
      fires; and started runs succeeded, failed or are running. */
  lemma Conservation(s: State, es: seq<Step>)
    requires Init(s) && Runs(s, es)
    ensures var f := Final(s, es);
      && |f.timers| == Count(f.timers, IsLive) + Count(f.timers, IsStopped) + Count(f.timers, IsFired)
      && Count(f.timers, IsStopped) <= f.coalesced
      && f.started <= |f.calls| <= Count(f.timers, IsFired)
      && f.started == f.success + f.failed + Count(f.calls, IsRunning)
  {
    InvRun(s, es);
    var f := Final(s, es);
    TimerKinds(f.timers);
    CallKinds(f.calls);
  }

  lemma {:induction false} TimerKinds(ts: seq<Timer>)
    ensures |ts| == Count(ts, IsLive) + Count(ts, IsStopped) + Count(ts, IsFired)
    ensures Count(ts, HasJoined) <= Count(ts, IsFired)
  {
    if ts != [] {
      TimerKinds(ts[..|ts|-1]);
    }
  }

  lemma {:induction false} CallKinds(cs: seq<Call>)
    ensures Count(cs, HasStarted) == Count(cs, HasSucceeded) + Count(cs, HasFailed) + Count(cs, IsRunning)
    ensures Count(cs, HasStarted) <= |cs|
  {
    if cs != [] {
      CallKinds(cs[..|cs|-1]);
    }
  }

  // ----- The state as the history made it -----

  datatype Ask = Ask(key: Key, root: string)

  // What the triggers of the history asked for, in order.
  function Asked(h: seq<Step>): seq<Ask>
  {
    if h == [] then []
    else
      match h[|h|-1]
      case Trigger(key, root) => Asked(h[..|h|-1]) + [Ask(key, root)]
      case _ => Asked(h[..|h|-1])
  }

  // The last trigger of k came after the last removal by a fire of k.
  predicate Awaits(h: seq<Step>, k: Key)
  {
    h != [] &&
    match h[|h|-1]
    case Trigger(key, _) => key == k || Awaits(h[..|h|-1], k)
    case Delete(t) => !(t < |Asked(h)| && Asked(h)[t].key == k) && Awaits(h[..|h|-1], k)
    case _ => Awaits(h[..|h|-1], k)
  }

  // How many triggers came while their key was awaiting its fire.
  function Absorbed(h: seq<Step>): nat
  {
    if h == [] then 0
    else
      match h[|h|-1]
      case Trigger(key, _) => Absorbed(h[..|h|-1]) + Bit(Awaits(h[..|h|-1], key))
      case _ => Absorbed(h[..|h|-1])
  }

  function AsksOf(ts: seq<Timer>): (r: seq<Ask>)
    ensures |r| == |ts| && forall t :: 0 <= t < |ts| ==> r[t] == Ask(ts[t].key, ts[t].root)
  {
    seq(|ts|, t requires 0 <= t < |ts| => Ask(ts[t].key, ts[t].root))
  }

  ghost predicate HistoryOk(h: seq<Step>, s: State)
  {
    if s.active then
      && AsksOf(s.timers) == Asked(h) && s.skipped == 0 && s.coalesced == Absorbed(h)
      && forall k :: k in s.pending <==> Awaits(h, k)
    else
      s.timers == [] && s.skipped == |Asked(h)| && s.coalesced == 0
  }

  lemma HistoryGrows(h: seq<Step>, e: Step)
    ensures Asked(h + [e]) == if e.Trigger? then Asked(h) + [Ask(e.key, e.root)] else Asked(h)
    ensures Absorbed(h + [e]) == Absorbed(h) + Bit(e.Trigger? && Awaits(h, e.key))
    ensures forall k :: Awaits(h + [e], k) <==>
      || (e.Trigger? && e.key == k)
      || (Awaits(h, k) && !(e.Delete? && e.t < |Asked(h)| && Asked(h)[e.t].key == k))
  {
    assert (h + [e])[..|h|] == h;
  }

  // The other steps leave the map and the trigger counters alone and make no timer live.
  lemma OthersKeep(s: State, e: Step)
    requires InRange(s) && Enabled(s, e) && !e.Trigger? && !e.Delete?
    ensures var s' := Apply(s, e);
      && s'.pending == s.pending && |s'.timers| == |s.timers| && s'.active == s.active
      && s'.skipped == s.skipped && s'.coalesced == s.coalesced
      && forall t :: 0 <= t < |s.timers| ==> OtherKeeps(s.timers[t], s'.timers[t])
  {
    hide ApplyTrigger, ApplyDelete, OtherKeeps;
    if e.DoChan? {
      DoChanKeeps(s, e.t);
    } else if e.Expire? {
      SetKeeps(s, e.t, Fired(Begun));
    } else if e.Return? {
      SetKeeps(s, e.t, Apply(s, e).timers[e.t].state);
    } else {
      hide ApplyDoChan;
      assert forall t :: 0 <= t < |s.timers| ==> OtherKeeps(s.timers[t], s.timers[t]) by {
        NothingKeeps(s.timers);
      }
    }
  }

  lemma NothingKeeps(ts: seq<Timer>)
    ensures forall t :: 0 <= t < |ts| ==> OtherKeeps(ts[t], ts[t])
  {}

  lemma SetKeeps(s: State, t: nat, st: TimerState)
    requires t < |s.timers| && st.Fired?
    ensures forall u :: 0 <= u < |s.timers| ==> OtherKeeps(s.timers[u], SetTimer(s, t, st).timers[u])
  {}

  lemma DoChanKeeps(s: State, t: nat)
    requires InRange(s) && PcIs(s, t, Deleted)
    ensures var s' := ApplyDoChan(s, t);
      && s'.pending == s.pending && |s'.timers| == |s.timers| && s'.active == s.active
      && s'.skipped == s.skipped && s'.coalesced == s.coalesced
      && forall u :: 0 <= u < |s.timers| ==> OtherKeeps(s.timers[u], s'.timers[u])
  {}

  predicate OtherKeeps(before: Timer, after: Timer)
  {
    after.key == before.key && after.root == before.root && (after.state.Live? ==> before.state.Live?)
  }

  lemma HistoryStep(h: seq<Step>, s: State, e: Step)
    requires HistoryOk(h, s) && InRange(s) && Enabled(s, e)
    ensures HistoryOk(h + [e], Apply(s, e))
  {
    if e.Trigger? {
      HistoryTrigger(h, s, e);
    } else if e.Delete? {
      HistoryDelete(h, s, e);
    } else {
      HistoryGrows(h, e);
      OthersKeep(s, e);
      hide Apply, Enabled, InRange, Asked, Awaits, Absorbed;
      assert s.active ==> AsksOf(Apply(s, e).timers) == AsksOf(s.timers);
    }
  }

  lemma HistoryTrigger(h: seq<Step>, s: State, e: Step)
    requires HistoryOk(h, s) && InRange(s) && e.Trigger?
    ensures HistoryOk(h + [e], Apply(s, e))
  {
    HistoryGrows(h, e);
    hide Asked, Awaits, Absorbed;
    var more := Apply(s, e).timers;
    if s.active {
      assert |more| == |s.timers| + 1 && more[|s.timers|] == Timer(e.key, e.root, Live);
      assert forall t :: 0 <= t < |s.timers| ==> more[t].key == s.timers[t].key && more[t].root == s.timers[t].root;
    }
  }

  lemma HistoryDelete(h: seq<Step>, s: State, e: Step)
    requires HistoryOk(h, s) && InRange(s) && Enabled(s, e) && e.Delete?
    ensures HistoryOk(h + [e], Apply(s, e))
  {
    HistoryGrows(h, e);
    hide Asked, Awaits, Absorbed;
    assert s.active && Asked(h)[e.t].key == s.timers[e.t].key;
    assert AsksOf(Apply(s, e).timers) == AsksOf(s.timers);
  }

  lemma {:induction false} HistoryRun(h: seq<Step>, s: State, es: seq<Step>)
    requires HistoryOk(h, s) && Runs(s, es)
    ensures HistoryOk(h + es, Final(s, es))
    decreases |es|
  {
    hide Apply, Enabled, InRange, HistoryOk;
    if es == [] {
      assert h + es == h;
    } else {
      HistoryStep(h, s, es[0]);
      HistoryRun(h + [es[0]], Apply(s, es[0]), es[1..]);
      assert h + es == h + [es[0]] + es[1..];
    }
  }

  /** Every trigger is counted as skipped, by a refresher that is off, or makes a timer for what it
      asks; it is counted as coalesced exactly when no fire has removed its key since the key's
      last trigger; and a run indexes what the trigger of its leader asked for. */
  lemma TriggersConserved(s: State, es: seq<Step>)
    requires Init(s) && Runs(s, es)
    ensures var f := Final(s, es);
      && f.skipped + |f.timers| == |Asked(es)|
      && (s.active ==>
            && AsksOf(f.timers) == Asked(es) && f.skipped == 0 && f.coalesced == Absorbed(es)
            && (forall k :: k in f.pending <==> Awaits(es, k))
            && forall c :: 0 <= c < |f.calls| ==>
                 && f.calls[c].leader < |Asked(es)|
                 && Asked(es)[f.calls[c].leader] == Ask(f.calls[c].key, f.calls[c].root))
      && (!s.active ==> f.skipped == |Asked(es)| && f.coalesced == 0 && f.calls == [])
  {
    hide Runs, Final, TimersOk, CallsOk, FiresOk, CountsOk, Asked, Awaits, Absorbed;
    NoHistory(s);
    HistoryRun([], s, es);
    assert [] + es == es;
    InvRun(s, es);
    var f := Final(s, es);
    ActiveStays(s, es);
    assert f.calls != [] ==> LeaderOk(0, f.calls[0], f.timers);
    forall c | 0 <= c < |f.calls|
      ensures f.calls[c].leader < |f.timers|
        && AsksOf(f.timers)[f.calls[c].leader] == Ask(f.calls[c].key, f.calls[c].root)
    {
      assert LeaderOk(c, f.calls[c], f.timers);
    }
  }

  lemma NoHistory(s: State)
    requires Init(s)
    ensures HistoryOk([], s) && Inv(s)
  {}

  lemma {:induction false} ActiveStays(s: State, es: seq<Step>)
    requires Runs(s, es)
    ensures Final(s, es).active == s.active
    decreases |es|
  {
    hide InRange;
    if es != [] {
      ActiveStays(Apply(s, es[0]), es[1..]);
    }
  }

  /** At most one index run per key at a time. */
  lemma OneRunPerKey(s: State, es: seq<Step>, c: nat, d: nat)
    requires Init(s) && Runs(s, es)
    requires c < d < |Final(s, es).calls|
    requires Final(s, es).calls[c].key == Final(s, es).calls[d].key
    ensures !(Final(s, es).calls[c].state.Running? && Final(s, es).calls[d].state.Running?)
  {
    InvRun(s, es);
  }

  // ----- When two timers of a key are live -----

  // Timer t is live and not the entry of its key, so that no trigger can stop it.
  predicate Stray(s: State, t: nat)
  {
    && t < |s.timers| && s.timers[t].state.Live?
    && !(s.timers[t].key in s.pending && s.pending[s.timers[t].key] == t)
  }

  predicate HasStray(s: State, k: Key)
  {
    exists t :: 0 <= t < |s.timers| && s.timers[t].key == k && Stray(s, t)
  }

  ghost predicate TwoLive(s: State, k: Key)
  {
    exists t, u :: 0 <= t < u < |s.timers| && s.timers[t].key == s.timers[u].key == k
      && s.timers[t].state.Live? && s.timers[u].state.Live?
  }

  /** A trigger leaves two timers of its key live if and only if some live timer of the key was
      not its map entry already. */
  lemma TriggerLeavesTwoIff(s: State, es: seq<Step>, k: Key, root: string)
    requires Init(s) && Runs(s, es) && Final(s, es).active
    ensures var f := Final(s, es);
      InRange(f) && (TwoLive(Apply(f, Trigger(k, root)), k) <==> HasStray(f, k))
  {
    InvRun(s, es);
    var f := Final(s, es);
    InvRange(f);
    hide Runs, Final, CallsOk, FiresOk, LeadersOk, CountsOk;
    AfterTrigger(f, k, root);
  }

  lemma AfterTrigger(s: State, k: Key, root: string)
    requires TimersOk(s.timers, s.pending, s.newest) && InRange(s) && s.active
    ensures TwoLive(ApplyTrigger(s, k, root), k) <==> HasStray(s, k)
  {
    var s' := ApplyTrigger(s, k, root);
    var n := |s.timers|;
    assert |s'.timers| == n + 1 && s'.timers[n] == Timer(k, root, Live);
    assert forall t :: 0 <= t < n ==> s'.timers[t].key == s.timers[t].key;
    assert forall t :: 0 <= t < n && s.timers[t].key == k ==> (s'.timers[t].state.Live? <==> Stray(s, t));
    if HasStray(s, k) {
      var t :| 0 <= t < |s.timers| && s.timers[t].key == k && Stray(s, t);
      assert s'.timers[t].state.Live? && s'.timers[t].key == k;
    }
  }

  /** A key gets its first stray timer exactly when a fire of the key removes the entry of
      another timer that is live: the fire was too late to be stopped. */
  lemma FirstStrayIff(s: State, es: seq<Step>, e: Step, k: Key)
    requires Init(s) && Runs(s, es)
    requires InRange(Final(s, es)) && Enabled(Final(s, es), e) && !HasStray(Final(s, es), k)
    ensures var f := Final(s, es);
      HasStray(Apply(f, e), k) <==> RemovesLive(f, e, k)
  {
    InvRun(s, es);
    var f := Final(s, es);
    hide Runs, Final, CallsOk, FiresOk, LeadersOk, CountsOk;
    StrayStep(f, e, k);
  }

  // At step e a fire of k removes the entry of another timer that is live.
  predicate RemovesLive(s: State, e: Step, k: Key)
    requires InRange(s) && Enabled(s, e)
  {
    && e.Delete? && s.timers[e.t].key == k && k in s.pending && s.pending[k] != e.t
    && s.timers[s.pending[k]].state.Live?
  }

  ghost predicate EverRemovesLive(s: State, es: seq<Step>, k: Key)
    requires Runs(s, es)
    decreases |es|
  {
    es != [] && (RemovesLive(s, es[0], k) || EverRemovesLive(Apply(s, es[0]), es[1..], k))
  }

  /** Two timers of a key are live only if, earlier in the run, a fire of the key removed the entry
      of another timer that was live. */
  lemma TwoLiveTimersNeedALateFire(s: State, es: seq<Step>, k: Key)
    requires Init(s) && Runs(s, es) && TwoLive(Final(s, es), k)
    ensures EverRemovesLive(s, es, k)
  {
    hide Runs, Final, EverRemovesLive;
    var f := Final(s, es);
    var t, u :| 0 <= t < u < |f.timers| && f.timers[t].key == f.timers[u].key == k
      && f.timers[t].state.Live? && f.timers[u].state.Live?;
    assert Stray(f, t) || Stray(f, u);
    StrayNeedsRemoval(s, es, k);
  }

  lemma {:induction false} StrayNeedsRemoval(s: State, es: seq<Step>, k: Key)
    requires Inv(s) && Runs(s, es) && !HasStray(s, k) && HasStray(Final(s, es), k)
    ensures EverRemovesLive(s, es, k)
    decreases |es|
  {
    hide TimersOk, CallsOk, FiresOk, LeadersOk, CountsOk, HasStray, Apply, Enabled, InRange, RemovesLive;
    if es != [] {
      StrayStep(s, es[0], k);
      InvStep(s, es[0]);
      if !HasStray(Apply(s, es[0]), k) {
        StrayNeedsRemoval(Apply(s, es[0]), es[1..], k);
      }
    }
  }

  lemma StrayStep(s: State, e: Step, k: Key)
    requires TimersOk(s.timers, s.pending, s.newest) && InRange(s) && Enabled(s, e) && !HasStray(s, k)
    ensures HasStray(Apply(s, e), k) <==> RemovesLive(s, e, k)
  {
    StrayMoves(s, e);
    if k in s.pending {
      EntryKey(s, k);
    }
    hide Apply, TimersOk, InRange, Enabled;
    var s' := Apply(s, e);
    if HasStray(s', k) {
      var t :| 0 <= t < |s'.timers| && s'.timers[t].key == k && Stray(s', t);
      assert Strays(s, e, s', t) && !Stray(s, t);
    } else if k in s.pending {
      assert Strays(s, e, s', s.pending[k]) && !Stray(s', s.pending[k]);
    }
  }

  // The entry of a key is a timer of that key.
  lemma EntryKey(s: State, k: Key)
    requires TimersOk(s.timers, s.pending, s.newest) && k in s.pending
    ensures s.pending[k] < |s.timers| && s.timers[s.pending[k]].key == k
  {}

  // Whether timer t is stray after a step, and is still of its key.
  predicate Strays(s: State, e: Step, next: State, t: nat)
    requires Enabled(s, e) && InRange(s) && t < |s.timers|
  {
    && t < |next.timers| && next.timers[t].key == s.timers[t].key
    && (!Stray(s, t) ==>
          (Stray(next, t) <==>
           e.Delete? && t != e.t && s.timers[t].state.Live? && s.timers[t].key == s.timers[e.t].key))
  }

  lemma StrayMoves(s: State, e: Step)
    requires TimersOk(s.timers, s.pending, s.newest) && InRange(s) && Enabled(s, e)
    ensures forall t :: 0 <= t < |s.timers| ==> Strays(s, e, Apply(s, e), t)
    ensures forall t :: |s.timers| <= t < |Apply(s, e).timers| ==> !Stray(Apply(s, e), t)
  {
    hide Apply, TimersOk, InRange, Enabled;
    if e.Trigger? {
      StrayTrigger(s, e);
    } else if e.Delete? {
      StrayDelete(s, e);
    } else {
      OthersKeep(s, e);
    }
  }

  lemma StrayTrigger(s: State, e: Step)
    requires TimersOk(s.timers, s.pending, s.newest) && InRange(s) && Enabled(s, e) && e.Trigger?
    ensures forall t :: 0 <= t < |s.timers| ==> Strays(s, e, Apply(s, e), t)
    ensures forall t :: |s.timers| <= t < |Apply(s, e).timers| ==> !Stray(Apply(s, e), t)
  {
    if e.key in s.pending {
      EntryKey(s, e.key);
    }
    hide TimersOk;
  }

  lemma StrayDelete(s: State, e: Step)
    requires TimersOk(s.timers, s.pending, s.newest) && InRange(s) && Enabled(s, e) && e.Delete?
    ensures |Apply(s, e).timers| == |s.timers|
    ensures forall t :: 0 <= t < |s.timers| ==> Strays(s, e, Apply(s, e), t)
  {
    var key := s.timers[e.t].key;
    if key in s.pending {
      EntryKey(s, key);
    }
    hide TimersOk;
    var s' := Apply(s, e);
    assert key !in s'.pending && forall k :: k != key ==> (k in s'.pending <==> k in s.pending);
    forall t | 0 <= t < |s.timers|
      ensures Strays(s, e, s', t)
    {
      assert s'.timers[t].state.Live? <==> s.timers[t].state.Live?;
    }
  }

  // ----- When a run sees the newest trigger -----

  /** A returned fire's call has its key and is over, and a fire that led its call was seen by
      the run of that call. */
  lemma ReturnedFire(s: State, es: seq<Step>, t: nat)
    requires Init(s) && Runs(s, es) && t < |Final(s, es).timers|
    requires Final(s, es).timers[t].state.Fired? && Final(s, es).timers[t].state.pc.Returned?
    ensures var f := Final(s, es);
      var pc := f.timers[t].state.pc;
      && pc.call < |f.calls| && f.calls[pc.call].key == f.timers[t].key
      && f.calls[pc.call].state.Released?
      && (f.calls[pc.call].leader == t ==> f.calls[pc.call].seen > t)
  {
    InvRun(s, es);
    var f := Final(s, es);
    assert FireOk(f.timers[t], f.calls);
    assert CallOk(f.calls[f.timers[t].state.pc.call], |f.timers|);
  }

  // Some run of key k starts, in the steps es from s, after trigger n was accepted.
  ghost predicate Sees(s: State, es: seq<Step>, k: Key, n: nat)
    requires Runs(s, es)
    decreases |es|
  {
    es != [] && (
      || (es[0].Start? && s.calls[es[0].c].key == k && n < |s.timers|)
      || Sees(Apply(s, es[0]), es[1..], k, n))
  }

  // At step e, taken after trigger n was accepted, a fire of k finds the group without its key
  // and leads a new call, or the fire of n itself joins a call whose run has not started or
  // has started after n was accepted.
  predicate Serves(s: State, e: Step, k: Key, n: nat)
    requires InRange(s) && Enabled(s, e)
  {
    && e.DoChan? && n < |s.timers| && s.timers[e.t].key == k
    && (k !in s.group || (e.t == n && !Missed(s.calls[s.group[k]], n)))
  }

  // The run of this call started before trigger n was accepted.
  predicate Missed(c: Call, n: nat) { HasStarted(c) && c.seen <= n }

  ghost predicate Served(s: State, es: seq<Step>, k: Key, n: nat)
    requires Runs(s, es)
    decreases |es|
  {
    es != [] && (Serves(s, es[0], k, n) || Served(Apply(s, es[0]), es[1..], k, n))
  }

  // Every timer of the key is stopped or its fire has returned.
  ghost predicate Done(s: State, k: Key)
  {
    forall t :: 0 <= t < |s.timers| && s.timers[t].key == k ==>
      s.timers[t].state.Stopped? || (s.timers[t].state.Fired? && s.timers[t].state.pc.Returned?)
  }

  // A call of k that has seen trigger n, or will.
  ghost predicate Covered(s: State, k: Key, n: nat)
  {
    exists c :: 0 <= c < |s.calls| && s.calls[c].key == k && !Missed(s.calls[c], n)
  }

  // Trigger n is accepted, its fire has not reached the group, and the call in flight, if there
  // is one, is not a missed one.
  ghost predicate Open(s: State, k: Key, n: nat)
  {
    && n < |s.timers| && s.timers[n].key == k && !HasJoined(s.timers[n])
    && (k in s.group ==> s.group[k] < |s.calls| && !Missed(s.calls[s.group[k]], n))
  }

  // A call of k whose run started after trigger n was accepted.
  ghost predicate SeenBy(s: State, k: Key, n: nat)
  {
    exists c :: 0 <= c < |s.calls| && s.calls[c].key == k && HasStarted(s.calls[c]) && s.calls[c].seen > n
  }

  lemma CoveredStep(s: State, e: Step, k: Key, n: nat)
    requires Inv(s) && InRange(s) && Enabled(s, e) && n < |s.timers|
    ensures n < |Apply(s, e).timers|
    ensures Covered(Apply(s, e), k, n) <==> Covered(s, k, n) || Serves(s, e, k, n)
  {
    hide TimersOk, FiresOk, LeadersOk, CountsOk;
    CallsMove(s, e);
    TimersMove(s, e);
    hide Apply, HasStarted;
    var s' := Apply(s, e);
    if k in s.group {
      assert s.calls[s.group[k]].key == k;
    }
    if Covered(s, k, n) {
      var c :| 0 <= c < |s.calls| && s.calls[c].key == k && !Missed(s.calls[c], n);
      assert s'.calls[c].key == k && !Missed(s'.calls[c], n);
    } else if Serves(s, e, k, n) && k !in s.group {
      assert s'.calls[|s.calls|].key == k && !Missed(s'.calls[|s.calls|], n);
    } else {
      forall c | 0 <= c < |s'.calls| && s'.calls[c].key == k
        ensures Missed(s'.calls[c], n)
      {
        assert c < |s.calls| ==> Missed(s.calls[c], n);
      }
    }
  }

  // A call of the key comes to cover the trigger exactly when a fire is served.
  lemma {:induction false} CoveredRun(s: State, es: seq<Step>, k: Key, n: nat)
    requires Inv(s) && Runs(s, es) && n < |s.timers|
    ensures Covered(Final(s, es), k, n) <==> Covered(s, k, n) || Served(s, es, k, n)
    decreases |es|
  {
    hide Inv, Apply, Enabled, InRange, Covered, Serves;
    if es != [] {
      InvStep(s, es[0]);
      CoveredStep(s, es[0], k, n);
      CoveredRun(Apply(s, es[0]), es[1..], k, n);
    }
  }

  lemma OpenStep(s: State, e: Step, k: Key, n: nat)
    requires Inv(s) && InRange(s) && Enabled(s, e) && Open(s, k, n) && !Serves(s, e, k, n)
    ensures Open(Apply(s, e), k, n)
  {
    hide Inv, HasJoined, HasStarted;
    CallsMove(s, e);
    TimersMove(s, e);
    hide Apply;
  }

  lemma {:induction false} OpenRun(s: State, es: seq<Step>, k: Key, n: nat)
    requires Inv(s) && Runs(s, es) && Open(s, k, n) && !Served(s, es, k, n)
    ensures Open(Final(s, es), k, n)
    decreases |es|
  {
    hide Inv, Apply, Enabled, InRange, Open, Serves;
    if es != [] {
      InvStep(s, es[0]);
      OpenStep(s, es[0], k, n);
      OpenRun(Apply(s, es[0]), es[1..], k, n);
    }
  }

  lemma SeenByStep(s: State, e: Step, k: Key, n: nat)
    requires Inv(s) && InRange(s) && Enabled(s, e)
    ensures SeenBy(Apply(s, e), k, n) <==>
      SeenBy(s, k, n) || (e.Start? && s.calls[e.c].key == k && n < |s.timers|)
  {
    hide Inv, HasStarted;
    CallsMove(s, e);
    hide Apply;
    var s' := Apply(s, e);
    if SeenBy(s, k, n) {
      var c :| 0 <= c < |s.calls| && s.calls[c].key == k && HasStarted(s.calls[c]) && s.calls[c].seen > n;
      assert s'.calls[c].key == k && HasStarted(s'.calls[c]) && s'.calls[c].seen > n;
    } else if e.Start? && s.calls[e.c].key == k && n < |s.timers| {
      assert s'.calls[e.c].key == k && HasStarted(s'.calls[e.c]) && s'.calls[e.c].seen > n;
    } else {
      forall c | 0 <= c < |s'.calls| && s'.calls[c].key == k && HasStarted(s'.calls[c])
        ensures s'.calls[c].seen <= n
      {
        assert c < |s.calls| && HasStarted(s.calls[c]) ==> s.calls[c].seen <= n;
      }
    }
  }

  // What the calls record is what happened.
  lemma {:induction false} SeenByRun(s: State, es: seq<Step>, k: Key, n: nat)
    requires Inv(s) && Runs(s, es)
    ensures SeenBy(Final(s, es), k, n) <==> SeenBy(s, k, n) || Sees(s, es, k, n)
    decreases |es|
  {
    hide Inv, Apply, Enabled, InRange, SeenBy;
    if es != [] {
      InvStep(s, es[0]);
      SeenByStep(s, es[0], k, n);
      SeenByRun(Apply(s, es[0]), es[1..], k, n);
    }
  }

  // When the timers of a key are done, so are its calls.
  lemma CoveredWhenDone(s: State, k: Key, n: nat)
    requires Inv(s) && Done(s, k)
    ensures Covered(s, k, n) <==> SeenBy(s, k, n)
  {
    hide TimersOk, CallsOk, CountsOk;
    forall c | 0 <= c < |s.calls| && s.calls[c].key == k
      ensures HasStarted(s.calls[c])
    {
      assert LeaderOk(c, s.calls[c], s.timers);
      assert FireOk(s.timers[s.calls[c].leader], s.calls);
    }
  }

  lemma KeyStays(s: State, e: Step, t: nat)
    requires InRange(s) && Enabled(s, e) && t < |s.timers|
    ensures t < |Apply(s, e).timers| && Apply(s, e).timers[t].key == s.timers[t].key
  {
    TimersMove(s, e);
    hide Apply, InRange, Enabled;
    assert Moves(s, e, t, Apply(s, e).timers[t]);
  }

  lemma {:induction false} KeysStay(s: State, es: seq<Step>, t: nat)
    requires Runs(s, es) && t < |s.timers|
    ensures t < |Final(s, es).timers| && Final(s, es).timers[t].key == s.timers[t].key
    decreases |es|
  {
    hide Apply, Enabled, InRange;
    if es != [] {
      KeyStays(s, es[0], t);
      KeysStay(Apply(s, es[0]), es[1..], t);
    }
  }

  // Accepting trigger n: no run has seen it, and only a call in flight that has not started covers it.
  lemma Accepts(s: State, e: Step, n: nat)
    requires Inv(s) && InRange(s) && Enabled(s, e) && |s.timers| <= n < |Apply(s, e).timers|
    ensures n == |s.timers| && !e.Start? && !e.DoChan?
    ensures var s' := Apply(s, e);
      var k := s'.timers[n].key;
      && !SeenBy(s', k, n) && (Covered(s', k, n) ==> Open(s', k, n))
  {
    hide TimersOk, FiresOk, LeadersOk, CountsOk;
    TimersMove(s, e);
    var s' := Apply(s, e);
    assert s'.timers[n].state.Live?;
    assert !HasJoined(s'.timers[n]);
    hide HasJoined;
    assert e.Trigger? && s'.calls == s.calls && s'.group == s.group;
    assert forall c :: 0 <= c < |s.calls| ==> CallOk(s.calls[c], |s.timers|);
  }

  // The newest trigger of a key is not stopped, so that once the key is done its fire has returned.
  lemma NewestHasJoined(s: State, k: Key)
    requires Inv(s) && Done(s, k) && k in s.newest
    ensures s.newest[k] < |s.timers| && s.timers[s.newest[k]].key == k && HasJoined(s.timers[s.newest[k]])
  {
    hide CallsOk, FiresOk, LeadersOk, CountsOk, PendingOk;
  }

  lemma SeenIffServedFrom(s: State, es: seq<Step>, k: Key, n: nat)
    requires Inv(s) && Runs(s, es) && n < |s.timers|
    requires !SeenBy(s, k, n) && (Covered(s, k, n) ==> Open(s, k, n))
    requires var f := Final(s, es); Done(f, k) && k in f.newest && f.newest[k] == n
    ensures Sees(s, es, k, n) <==> Served(s, es, k, n)
  {
    hide Inv, Runs, Final, Sees, Served, SeenBy, Covered, Done;
    InvRun(s, es);
    SeenByRun(s, es, k, n);
    CoveredRun(s, es, k, n);
    CoveredWhenDone(Final(s, es), k, n);
    NewestHasJoined(Final(s, es), k);
    if Covered(s, k, n) && !Served(s, es, k, n) {
      OpenRun(s, es, k, n);
    }
  }

  lemma {:induction false} SeenIffServed(s: State, es: seq<Step>, k: Key, n: nat)
    requires Inv(s) && Runs(s, es) && |s.timers| <= n
    requires var f := Final(s, es); Done(f, k) && k in f.newest && f.newest[k] == n
    ensures Sees(s, es, k, n) <==> Served(s, es, k, n)
    decreases |es|
  {
    hide Inv, Apply, Enabled, InRange, SeenBy, Covered, Open, Done;
    InvRun(s, es);
    NewestHasJoined(Final(s, es), k);
    assert es != [];
    var s' := Apply(s, es[0]);
    InvStep(s, es[0]);
    if |s'.timers| <= n {
      SeenIffServed(s', es[1..], k, n);
    } else {
      Accepts(s, es[0], n);
      KeysStay(s', es[1..], n);
      SeenIffServedFrom(s', es[1..], k, n);
    }
  }

  /** Once every timer of a key is stopped or its fire has returned, a run of the key started
      after its newest trigger if and only if, after that trigger, some fire of the key found
      the group free and led a call, or the trigger's own fire joined a call whose run had not
      started before it. */
  lemma NewestTriggerSeenIff(s: State, es: seq<Step>, k: Key)
    requires Init(s) && Runs(s, es) && k in Final(s, es).newest && Done(Final(s, es), k)
    ensures var n := Final(s, es).newest[k];
      Sees(s, es, k, n) <==> Served(s, es, k, n)
  {
    hide Runs, Final, Sees, Served, Done;
    SeenIffServed(s, es, k, Final(s, es).newest[k]);
  }

  // ----- Two schedules that show what the code does not promise -----

  const EMPTY := State(true, map[], [], map[], map[], [], 0, 0, 0, 0, 0)

  /** A trigger that finds the timer expired cannot stop it; the fire then removes the
      entry of the newer timer, and the next trigger leaves two timers live. */
  lemma TwoLiveTimersHappen(k: Key, root: string)
    ensures var es := [Trigger(k, root), Expire(0), Trigger(k, root), Delete(0), Trigger(k, root)];
      && Init(EMPTY) && Runs(EMPTY, es)
      && Final(EMPTY, es).timers ==
         [Timer(k, root, Fired(Deleted)), Timer(k, root, Live), Timer(k, root, Live)]
  {
    hide Runs, Final;
    var s1 := Apply(EMPTY, Trigger(k, root));
    var s2 := Apply(s1, Expire(0));
    var s3 := Apply(s2, Trigger(k, root));
    var s4 := Apply(s3, Delete(0));
    var s5 := Apply(s4, Trigger(k, root));
    RunsNothing(s5);
    var run := RunsCons(s4, Trigger(k, root), s5, [], s5);
    run := RunsCons(s3, Delete(0), s4, run, s5);
    run := RunsCons(s2, Trigger(k, root), s3, run, s5);
    run := RunsCons(s1, Expire(0), s2, run, s5);
    run := RunsCons(EMPTY, Trigger(k, root), s1, run, s5);
    assert run == [Trigger(k, root), Expire(0), Trigger(k, root), Delete(0), Trigger(k, root)];
  }

  /** A fire that joins a run already started for an older trigger starts no run of its own:
      everything has returned, nothing is pending, and no run has seen the newest trigger. */
  lemma NewestTriggerCanBeUnseen(k: Key, root: string)
    ensures var es := [Trigger(k, root), Expire(0), Delete(0), DoChan(0), Start(0)]
                      + [Trigger(k, root), Expire(1), Delete(1), DoChan(1), End(0, true),
                         Release(0), Return(0), Return(1)];
      && Init(EMPTY) && Runs(EMPTY, es)
      && Final(EMPTY, es).timers == [Timer(k, root, Fired(Returned(0))),
                                     Timer(k, root, Fired(Returned(0)))]
      && Final(EMPTY, es).calls == [Call(k, root, 0, Released(true), 1)]
      && Final(EMPTY, es).pending == map[] && Final(EMPTY, es).newest == map[k := 1]
  {
    hide Runs, Final;
    var s1 := Apply(EMPTY, Trigger(k, root));
    var s2 := Apply(s1, Expire(0));
    var s3 := Apply(s2, Delete(0));
    var s4 := Apply(s3, DoChan(0));
    var s5 := Apply(s4, Start(0));
    assert s5.timers == [Timer(k, root, Fired(Waiting(0)))];
    assert s5.calls == [Call(k, root, 0, Running, 1)] && s5.group == map[k := 0] && s5.pending == map[];
    var run, f := LateJoin(s5, k, root);
    run := RunsCons(s4, Start(0), s5, run, f);
    run := RunsCons(s3, DoChan(0), s4, run, f);
    run := RunsCons(s2, Delete(0), s3, run, f);
    run := RunsCons(s1, Expire(0), s2, run, f);
    run := RunsCons(EMPTY, Trigger(k, root), s1, run, f);
    assert run == [Trigger(k, root), Expire(0), Delete(0), DoChan(0), Start(0)]
      + [Trigger(k, root), Expire(1), Delete(1), DoChan(1), End(0, true), Release(0), Return(0), Return(1)];
  }

  lemma LateJoin(s5: State, k: Key, root: string) returns (run: seq<Step>, f: State)
    requires s5.timers == [Timer(k, root, Fired(Waiting(0)))] && s5.active
    requires s5.calls == [Call(k, root, 0, Running, 1)] && s5.group == map[k := 0] && s5.pending == map[]
    ensures run == [Trigger(k, root), Expire(1), Delete(1), DoChan(1), End(0, true), Release(0), Return(0), Return(1)]
    ensures Runs(s5, run) && Final(s5, run) == f
    ensures f.timers == [Timer(k, root, Fired(Returned(0))),
                         Timer(k, root, Fired(Returned(0)))]
    ensures f.calls == [Call(k, root, 0, Released(true), 1)] && f.pending == map[]
    ensures f.newest == s5.newest[k := 1]
  {
    hide Runs, Final;
    var s6 := Apply(s5, Trigger(k, root));
    var s7 := Apply(s6, Expire(1));
    var s8 := Apply(s7, Delete(1));
    assert s8.timers == [s5.timers[0], Timer(k, root, Fired(Deleted))] && s8.pending == map[];
    var s9 := Apply(s8, DoChan(1));
    assert s9.timers == [s5.timers[0], Timer(k, root, Fired(Waiting(0)))];
    run, f := JoinedRunEnds(s9, k, root);
    run := RunsCons(s8, DoChan(1), s9, run, f);
    run := RunsCons(s7, Delete(1), s8, run, f);
    run := RunsCons(s6, Expire(1), s7, run, f);
    run := RunsCons(s5, Trigger(k, root), s6, run, f);
  }

  lemma JoinedRunEnds(s9: State, k: Key, root: string) returns (run: seq<Step>, f: State)
    requires s9.timers == [Timer(k, root, Fired(Waiting(0))),
                           Timer(k, root, Fired(Waiting(0)))]
    requires s9.calls == [Call(k, root, 0, Running, 1)] && s9.group == map[k := 0] && s9.pending == map[]
    ensures run == [End(0, true), Release(0), Return(0), Return(1)]
    ensures Runs(s9, run) && Final(s9, run) == f
    ensures f.timers == [Timer(k, root, Fired(Returned(0))),
                         Timer(k, root, Fired(Returned(0)))]
    ensures f.calls == [Call(k, root, 0, Released(true), 1)] && f.pending == map[] && f.newest == s9.newest
  {
    hide Runs, Final, ApplyTrigger, ApplyDelete, ApplyDoChan;
    var s10 := Apply(s9, End(0, true));
    var s11 := Apply(s10, Release(0));
    assert s11.calls == [Call(k, root, 0, Released(true), 1)] && s11.group == map[];
    var s12 := Apply(s11, Return(0));
    f := Apply(s12, Return(1));
    RunsNothing(f);
    run := RunsCons(s12, Return(1), f, [], f);
    run := RunsCons(s11, Return(0), s12, run, f);
    run := RunsCons(s10, Release(0), s11, run, f);
    run := RunsCons(s9, End(0, true), s10, run, f);
  }

  lemma RunsNothing(s: State)
    ensures Runs(s, []) && Final(s, []) == s
  {}

  // A run extended at its front.
  lemma RunsCons(s: State, e: Step, next: State, es: seq<Step>, f: State) returns (run: seq<Step>)
    requires InRange(s) && Enabled(s, e) && Apply(s, e) == next
    requires Runs(next, es) && Final(next, es) == f
    ensures run == [e] + es && Runs(s, run) && Final(s, run) == f
  {
    hide Apply, Enabled, InRange;
    run := [e] + es;
    assert run[1..] == es;
  }
}
