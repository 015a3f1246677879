/** The request-scoped provenance slot: a write-once root pair and an envelope that any number
    of goroutines merge into under one lock. A run is the sequence of locked sections in the
    order in which the lock was taken. */
module Provenance {
  import opened Seqs

  datatype Envelope = Envelope(
    durationMs: int, hint: string, staleWarning: string, indexedSha: string, liveSha: string,
    sourcePath: string, checkoutLag: string, checkoutSha: string, originSha: string, graphStaleAgeS: real)

  const ZERO := Envelope(0, "", "", "", "", "", "", "", "", 0.0)

  // ----- One view of all merged fields -----

  datatype Field =
    | Hint | StaleWarning | IndexedSha | LiveSha | SourcePath | CheckoutLag | CheckoutSha | OriginSha | GraphStaleAge

  datatype Value = Words(text: string) | Age(seconds: real)

  predicate Blank(v: Value) { v == Words("") || v == Age(0.0) }

  function Get(e: Envelope, f: Field): Value
  {
    match f
    case Hint => Words(e.hint)
    case StaleWarning => Words(e.staleWarning)
    case IndexedSha => Words(e.indexedSha)
    case LiveSha => Words(e.liveSha)
    case SourcePath => Words(e.sourcePath)
    case CheckoutLag => Words(e.checkoutLag)
    case CheckoutSha => Words(e.checkoutSha)
    case OriginSha => Words(e.originSha)
    case GraphStaleAge => Age(e.graphStaleAgeS)
  }

  // An envelope is its duration and its fields.
  lemma SameFields(a: Envelope, b: Envelope)
    requires a.durationMs == b.durationMs && forall f :: Get(a, f) == Get(b, f)
    ensures a == b
  {
    assert Get(a, Hint) == Get(b, Hint) && Get(a, StaleWarning) == Get(b, StaleWarning);
    assert Get(a, IndexedSha) == Get(b, IndexedSha) && Get(a, LiveSha) == Get(b, LiveSha);
    assert Get(a, SourcePath) == Get(b, SourcePath) && Get(a, CheckoutLag) == Get(b, CheckoutLag);
    assert Get(a, CheckoutSha) == Get(b, CheckoutSha) && Get(a, OriginSha) == Get(b, OriginSha);
    assert Get(a, GraphStaleAge) == Get(b, GraphStaleAge);
  }

  predicate Empty(s: string) { s == "" }

  function Pick(a: string, b: string): string { if Empty(a) && !Empty(b) then b else a }

  function Merge(dst: Envelope, src: Envelope): Envelope
  {
    Envelope(dst.durationMs, Pick(dst.hint, src.hint), Pick(dst.staleWarning, src.staleWarning),
             Pick(dst.indexedSha, src.indexedSha), Pick(dst.liveSha, src.liveSha),
             Pick(dst.sourcePath, src.sourcePath), Pick(dst.checkoutLag, src.checkoutLag),
             Pick(dst.checkoutSha, src.checkoutSha), Pick(dst.originSha, src.originSha),
             if dst.graphStaleAgeS == 0.0 then src.graphStaleAgeS else dst.graphStaleAgeS)
  }

  /** Merging keeps every field that dst has, fills the others, and never takes the duration. */
  lemma MergeFills(dst: Envelope, src: Envelope, f: Field)
    ensures Get(Merge(dst, src), f) == if Blank(Get(dst, f)) then Get(src, f) else Get(dst, f)
    ensures Merge(dst, src).durationMs == dst.durationMs
  {}

  // An envelope that is merged into in place.
  class EnvelopeRef {
    var durationMs: int
    var hint: string
    var staleWarning: string
    var indexedSha: string
    var liveSha: string
    var sourcePath: string
    var checkoutLag: string
    var checkoutSha: string
    var originSha: string
    var graphStaleAgeS: real

    function Value(): Envelope
      reads this
    {
      Envelope(durationMs, hint, staleWarning, indexedSha, liveSha,
               sourcePath, checkoutLag, checkoutSha, originSha, graphStaleAgeS)
    }

    constructor ()
      ensures Value() == ZERO
    {
      durationMs, hint, staleWarning, indexedSha, liveSha := 0, "", "", "", "";
      sourcePath, checkoutLag, checkoutSha, originSha, graphStaleAgeS := "", "", "", "", 0.0;
    }

    method FillFreshness(src: Envelope)
      modifies `hint, `staleWarning, `indexedSha, `liveSha
      ensures hint == Pick(old(hint), src.hint)
      ensures staleWarning == Pick(old(staleWarning), src.staleWarning)
      ensures indexedSha == Pick(old(indexedSha), src.indexedSha)
      ensures liveSha == Pick(old(liveSha), src.liveSha)
    {
      hide Empty;
      if Empty(hint) && !Empty(src.hint) {
        hint := src.hint;
      }
      if Empty(staleWarning) && !Empty(src.staleWarning) {
        staleWarning := src.staleWarning;
      }
      if Empty(indexedSha) && !Empty(src.indexedSha) {
        indexedSha := src.indexedSha;
      }
      if Empty(liveSha) && !Empty(src.liveSha) {
        liveSha := src.liveSha;
      }
    }

    method FillPaths(src: Envelope)
      modifies `sourcePath, `checkoutLag, `checkoutSha, `originSha, `graphStaleAgeS
      ensures sourcePath == Pick(old(sourcePath), src.sourcePath)
      ensures checkoutLag == Pick(old(checkoutLag), src.checkoutLag)
      ensures checkoutSha == Pick(old(checkoutSha), src.checkoutSha)
      ensures originSha == Pick(old(originSha), src.originSha)
      ensures graphStaleAgeS == if old(graphStaleAgeS) == 0.0 then src.graphStaleAgeS else old(graphStaleAgeS)
    {
      hide Empty;
      if Empty(sourcePath) && !Empty(src.sourcePath) {
        sourcePath := src.sourcePath;
      }
      if Empty(checkoutLag) && !Empty(src.checkoutLag) {
        checkoutLag := src.checkoutLag;
      }
      if Empty(checkoutSha) && !Empty(src.checkoutSha) {
        checkoutSha := src.checkoutSha;
      }
      if Empty(originSha) && !Empty(src.originSha) {
        originSha := src.originSha;
      }
      if graphStaleAgeS == 0.0 && src.graphStaleAgeS != 0.0 {
        graphStaleAgeS := src.graphStaleAgeS;
      }
    }

    method MergeEnvelope(src: Envelope)
      modifies this
      ensures Value() == Merge(old(Value()), src)
    {
      FillFreshness(src);
      FillPaths(src);
    }
  }

  // ----- The slot -----

  class Slot {
    var requested: string
    var resolved: string
    var isSet: bool
    const env: EnvelopeRef

    ghost predicate Shows(s: State)
      reads this, env
    {
      && env.Value() == s.env
      && (if s.roots.None? then !isSet else isSet && s.roots.value == (requested, resolved))
    }

    constructor ()
      ensures Shows(START) && fresh(env)
    {
      requested, resolved, isSet := "", "", false;
      env := new EnvelopeRef();
    }

    method RecordProvenance(req: string, res: string)
      modifies this
      ensures forall s: State :: old(Shows(s)) ==> Shows(Apply(s, Roots(req, res)))
    {
      if isSet {
        return;
      }
      requested := req;
      resolved := res;
      isSet := true;
    }

    method RecordEnvelope(src: Envelope)
      modifies env
      ensures forall s: State :: old(Shows(s)) ==> Shows(Apply(s, Record(src)))
    {
      env.MergeEnvelope(src);
    }

    method ProvenanceSnapshot() returns (roots: Option<(string, string)>)
      ensures forall s: State :: Shows(s) ==> roots == s.roots
    {
      if !isSet {
        return None;
      }
      return Some((requested, resolved));
    }

    method EnvelopeSnapshot() returns (e: Envelope)
      ensures forall s: State :: Shows(s) ==> e == s.env
    {
      return env.Value();
    }
  }

  // ----- Runs -----

  datatype Section =
    | Roots(requested: string, resolved: string)
    | Record(env: Envelope)

  datatype State = State(roots: Option<(string, string)>, env: Envelope)

  const START := State(None, ZERO)

  function Apply(s: State, w: Section): State
  {
    match w
    case Roots(req, res) => if s.roots.Some? then s else s.(roots := Some((req, res)))
    case Record(env) => s.(env := Merge(s.env, env))
  }

  function Snapshot(ws: seq<Section>): State
  {
    if ws == [] then START else Apply(Snapshot(ws[..|ws|-1]), ws[|ws|-1])
  }

  function Given(w: Section, f: Field): Value { if w.Record? then Get(w.env, f) else Words("") }

  // The first value for f among ws that is not blank is v.
  ghost predicate FirstGiven(ws: seq<Section>, f: Field, v: Value)
  {
    exists i :: 0 <= i < |ws| && ws[i].Record? && Given(ws[i], f) == v && !Blank(v)
      && forall j :: 0 <= j < i ==> Blank(Given(ws[j], f))
  }

  ghost predicate NoneGiven(ws: seq<Section>, f: Field)
  {
    forall i :: 0 <= i < |ws| ==> Blank(Given(ws[i], f))
  }

  /** In every interleaving the snapshot's value of each field is the first non-empty one
      recorded for it in lock order, and blank only when none was; no recorded duration is
      ever merged. */
  lemma {:induction false} SnapshotIsFirstWriter(ws: seq<Section>, f: Field)
    ensures Blank(Get(Snapshot(ws).env, f)) <==> NoneGiven(ws, f)
    ensures !Blank(Get(Snapshot(ws).env, f)) ==> FirstGiven(ws, f, Get(Snapshot(ws).env, f))
    ensures Snapshot(ws).env.durationMs == 0
  {
    if ws != [] {
      var before := ws[..|ws|-1];
      SnapshotIsFirstWriter(before, f);
      var w := ws[|ws|-1];
      LastSection(Snapshot(before), w, f);
      hide Apply, Get;
      FirstGivenGrows(before, w, f);
      assert ws == before + [w];
    }
  }

  // The first value given stays the first; a first value may be added to a run without one.
  lemma FirstGivenGrows(ws: seq<Section>, w: Section, f: Field)
    ensures NoneGiven(ws + [w], f) <==> NoneGiven(ws, f) && Blank(Given(w, f))
    ensures forall v :: FirstGiven(ws, f, v) ==> FirstGiven(ws + [w], f, v)
    ensures NoneGiven(ws, f) && w.Record? && !Blank(Given(w, f)) ==> FirstGiven(ws + [w], f, Given(w, f))
  {
    hide Given;
    var us := ws + [w];
    assert us[|ws|] == w && forall i :: 0 <= i < |ws| ==> us[i] == ws[i];
    forall v | FirstGiven(ws, f, v)
      ensures FirstGiven(us, f, v)
    {
      var i :| 0 <= i < |ws| && ws[i].Record? && Given(ws[i], f) == v && !Blank(v)
        && forall j :: 0 <= j < i ==> Blank(Given(ws[j], f));
      assert us[i] == ws[i];
    }
  }

  lemma LastSection(s: State, w: Section, f: Field)
    ensures var v := Get(Apply(s, w).env, f);
      && (!Blank(Get(s.env, f)) ==> v == Get(s.env, f))
      && (Blank(Get(s.env, f)) && w.Record? ==> v == Given(w, f))
      && (w.Roots? ==> v == Get(s.env, f) && Blank(Given(w, f)))
      && Apply(s, w).env.durationMs == s.env.durationMs
  {
    if w.Record? {
      MergeFills(s.env, w.env, f);
    }
    hide Merge;
  }

  /** The root pair is the first one recorded. */
  lemma {:induction false} RootsAreFirst(ws: seq<Section>)
    ensures match Snapshot(ws).roots
      case None => forall i :: 0 <= i < |ws| ==> ws[i].Record?
      case Some((req, res)) =>
        exists i :: 0 <= i < |ws| && ws[i] == Roots(req, res) && forall j :: 0 <= j < i ==> ws[j].Record?
  {
    if ws != [] {
      var before := ws[..|ws|-1];
      RootsAreFirst(before);
      var was := Snapshot(before).roots;
      if was.Some? {
        var i :| 0 <= i < |before| && before[i] == Roots(was.value.0, was.value.1)
          && forall j :: 0 <= j < i ==> before[j].Record?;
        assert ws[i] == before[i] && forall j :: 0 <= j < i ==> ws[j] == before[j];
      } else {
        assert forall j :: 0 <= j < |before| ==> ws[j] == before[j];
      }
    }
  }

  // ----- When the order of the writers does not matter -----

  // No two writers give different values for one field.
  ghost predicate WritersAgree(ws: seq<Section>)
  {
    forall i, j, f :: 0 <= i < |ws| && 0 <= j < |ws| ==>
      Blank(Given(ws[i], f)) || Blank(Given(ws[j], f)) || Given(ws[i], f) == Given(ws[j], f)
  }

  lemma AgreedSnapshot(ws: seq<Section>, us: seq<Section>, f: Field)
    requires WritersAgree(ws) && multiset(ws) == multiset(us)
    ensures Get(Snapshot(ws).env, f) == Get(Snapshot(us).env, f)
  {
    SnapshotIsFirstWriter(ws, f);
    SnapshotIsFirstWriter(us, f);
    hide Get, Snapshot, Given;
    forall u | u in us
      ensures u in ws
    {
      assert u in multiset(us);
    }
    forall w | w in ws
      ensures w in us
    {
      assert w in multiset(ws);
    }
    var a, b := Get(Snapshot(ws).env, f), Get(Snapshot(us).env, f);
    if NoneGiven(ws, f) {
      forall k | 0 <= k < |us|
        ensures Blank(Given(us[k], f))
      {
        assert us[k] in ws;
      }
      BlankKind(Snapshot(ws).env, Snapshot(us).env, f);
    } else {
      var i :| 0 <= i < |ws| && !Blank(Given(ws[i], f));
      assert ws[i] in us;
      assert !NoneGiven(us, f);
      var k :| 0 <= k < |us| && Given(us[k], f) == b;
      assert us[k] in ws;
    }
  }

  lemma BlankKind(a: Envelope, b: Envelope, f: Field)
    requires Blank(Get(a, f)) && Blank(Get(b, f))
    ensures Get(a, f) == Get(b, f)
  {}

  lemma MovedToFront(ws: seq<Section>, i: nat) returns (us: seq<Section>)
    requires i < |ws|
    ensures multiset(us) == multiset(ws) && |us| == |ws| && us[0] == ws[i]
  {
    us := [ws[i]] + ws[..i] + ws[i+1..];
    assert ws == ws[..i] + [ws[i]] + ws[i+1..];
  }

  /** The envelope is the same for every order of the writers if and only if no two of them
      give different values for one field. */
  lemma OrderIrrelevantIffWritersAgree(ws: seq<Section>)
    ensures WritersAgree(ws) <==>
      forall us :: multiset(us) == multiset(ws) ==> Snapshot(us).env == Snapshot(ws).env
  {
    hide Get, Given, Snapshot;
    if WritersAgree(ws) {
      forall us: seq<Section> | multiset(us) == multiset(ws)
        ensures Snapshot(us).env == Snapshot(ws).env
      {
        forall f: Field
          ensures Get(Snapshot(us).env, f) == Get(Snapshot(ws).env, f)
        {
          AgreedSnapshot(ws, us, f);
        }
        SnapshotIsFirstWriter(ws, Hint);
        SnapshotIsFirstWriter(us, Hint);
        SameFields(Snapshot(us).env, Snapshot(ws).env);
      }
    } else {
      var i, j, f :| 0 <= i < |ws| && 0 <= j < |ws| && !Blank(Given(ws[i], f)) && !Blank(Given(ws[j], f))
        && Given(ws[i], f) != Given(ws[j], f);
      var us := MovedToFront(ws, i);
      var vs := MovedToFront(ws, j);
      FrontWins(us, f);
      FrontWins(vs, f);
    }
  }

  lemma FrontWins(ws: seq<Section>, f: Field)
    requires |ws| > 0 && !Blank(Given(ws[0], f))
    ensures Get(Snapshot(ws).env, f) == Given(ws[0], f)
  {
    hide Get, Given, Snapshot;
    SnapshotIsFirstWriter(ws, f);
    assert !NoneGiven(ws, f);
  }
}
