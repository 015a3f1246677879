/** The limiter of rejected-request log lines: one line per key per interval, with a table
    that is emptied when it is full. Times are in seconds. */
module LogLimiter {
  import opened Seqs
  import Text

  const LOG_EVERY := 60
  const LOG_MAX_KEYS := 256

  datatype Call = Call(key: string, now: int)

  predicate Allows(last: map<string, int>, c: Call)
  {
    !(c.key in last && c.now - last[c.key] < LOG_EVERY)
  }

  predicate Clears(last: map<string, int>, c: Call)
  {
    Allows(last, c) && |last| >= LOG_MAX_KEYS
  }

  function After(last: map<string, int>, c: Call): map<string, int>
  {
    if !Allows(last, c) then last
    else if Clears(last, c) then map[c.key := c.now]
    else last[c.key := c.now]
  }

  class Limiter {
    var last: map<string, int>

    constructor ()
      ensures last == map[]
    {
      last := map[];
    }

    method Allow(c: Call) returns (ok: bool)
      modifies this
      ensures ok == Allows(old(last), c) && last == After(old(last), c)
      ensures |old(last)| <= LOG_MAX_KEYS ==> |last| <= LOG_MAX_KEYS
    {
      if c.key in last && c.now - last[c.key] < LOG_EVERY {
        return false;
      }
      if |last| >= LOG_MAX_KEYS {
        last := map[];
      }
      last := last[c.key := c.now];
      return true;
    }
  }

  // ----- Runs of calls -----

  function AfterAll(last: map<string, int>, cs: seq<Call>): map<string, int>
  {
    if cs == [] then last else After(AfterAll(last, cs[..|cs|-1]), cs[|cs|-1])
  }

  // How many calls are answered with true.
  function Lines(last: map<string, int>, cs: seq<Call>): nat
  {
    if cs == [] then 0
    else Lines(last, cs[..|cs|-1]) + Bit(Allows(AfterAll(last, cs[..|cs|-1]), cs[|cs|-1]))
  }

  function LinesFor(last: map<string, int>, cs: seq<Call>, key: string): nat
  {
    if cs == [] then 0
    else LinesFor(last, cs[..|cs|-1], key)
         + Bit(cs[|cs|-1].key == key && Allows(AfterAll(last, cs[..|cs|-1]), cs[|cs|-1]))
  }

  // How often the table is emptied.
  function Empties(last: map<string, int>, cs: seq<Call>): nat
  {
    if cs == [] then 0
    else Empties(last, cs[..|cs|-1]) + Bit(Clears(AfterAll(last, cs[..|cs|-1]), cs[|cs|-1]))
  }

  /** Emptying is rare: each one is paid for by as many lines as the table has room for, and
      the table never holds more. */
  lemma {:induction false} EmptiesArePaidFor(last: map<string, int>, cs: seq<Call>)
    requires |last| <= LOG_MAX_KEYS
    ensures |AfterAll(last, cs)| <= LOG_MAX_KEYS
    ensures LOG_MAX_KEYS * Empties(last, cs) + |AfterAll(last, cs)| <= Lines(last, cs) + |last|
  {
    if cs != [] {
      EmptiesArePaidFor(last, cs[..|cs|-1]);
      var before := AfterAll(last, cs[..|cs|-1]);
      var c := cs[|cs|-1];
      assert |before[c.key := c.now]| <= |before| + 1;
    }
  }

  // Within one interval a key gets at most one line more than the table is emptied.
  lemma {:induction false} OneLinePerInterval(last: map<string, int>, cs: seq<Call>, key: string, from: int)
    requires forall i :: 0 <= i < |cs| ==> from <= cs[i].now < from + LOG_EVERY
    ensures LinesFor(last, cs, key)
            <= Empties(last, cs) + Bit(key in AfterAll(last, cs) && AfterAll(last, cs)[key] >= from)
  {
    if cs != [] {
      var c := cs[|cs|-1];
      OneLinePerInterval(last, cs[..|cs|-1], key, from);
      assert from <= c.now < from + LOG_EVERY;
    }
  }

  /** However many keys compete, within one interval a key gets at most one line and one more
      for every 256 lines written in all. */
  lemma FloodBound(last: map<string, int>, cs: seq<Call>, key: string, from: int)
    requires |last| <= LOG_MAX_KEYS
    requires forall i :: 0 <= i < |cs| ==> from <= cs[i].now < from + LOG_EVERY
    ensures LinesFor(last, cs, key) <= 1 + (Lines(last, cs) + |last|) / LOG_MAX_KEYS
  {
    EmptiesArePaidFor(last, cs);
    OneLinePerInterval(last, cs, key, from);
  }

  // No line for the key of call i between calls i and j.
  ghost predicate NoLineBetween(cs: seq<Call>, i: nat, j: nat)
    requires i < j <= |cs|
  {
    forall m :: i < m < j && cs[m].key == cs[i].key ==> !Allows(AfterAll(map[], cs[..m]), cs[m])
  }

  /** After a line, the next call for its key within the interval is allowed if and only if the
      table was emptied at some call in between. */
  lemma SecondLineIffEmptied(cs: seq<Call>, i: nat, j: nat)
    requires i < j < |cs| && cs[i].key == cs[j].key && cs[j].now - cs[i].now < LOG_EVERY
    requires Allows(AfterAll(map[], cs[..i]), cs[i]) && NoLineBetween(cs, i, j)
    ensures Allows(AfterAll(map[], cs[..j]), cs[j]) <==> Empties(map[], cs[..j]) > Empties(map[], cs[..i+1])
  {
    KeptUntilEmptied(cs, i, j);
  }

  // Until the table is emptied it holds the time of the line, and from then on nothing for the key.
  lemma {:induction false} KeptUntilEmptied(cs: seq<Call>, i: nat, j: nat)
    requires i < j < |cs| && Allows(AfterAll(map[], cs[..i]), cs[i]) && NoLineBetween(cs, i, j)
    ensures Empties(map[], cs[..j]) >= Empties(map[], cs[..i+1])
    ensures var last := AfterAll(map[], cs[..j]);
      if Empties(map[], cs[..j]) == Empties(map[], cs[..i+1])
      then cs[i].key in last && last[cs[i].key] == cs[i].now
      else cs[i].key !in last
    decreases j
  {
    OneMoreCall(cs, j - 1);
    hide AfterAll, Empties;
    if j > i + 1 {
      KeptUntilEmptied(cs, i, j - 1);
    }
  }

  lemma OneMoreCall(cs: seq<Call>, m: nat)
    requires m < |cs|
    ensures var last := AfterAll(map[], cs[..m]);
      && AfterAll(map[], cs[..m+1]) == After(last, cs[m])
      && Empties(map[], cs[..m+1]) == Empties(map[], cs[..m]) + Bit(Clears(last, cs[m]))
  {
    assert cs[..m+1][..m] == cs[..m];
  }

  // ----- Two lines for one key in one second -----

  // The key of a request without a token from the i-th port of one peer.
  function PeerKey(i: nat): string
  {
    "10.0.0.1:" + Text.Decimal(1024 + i) + "|curl/8.5.0|mcp|missing"
  }

  lemma PeerKeyInjective(i: nat, j: nat)
    requires PeerKey(i) == PeerKey(j)
    ensures i == j
  {
    hide Text.Decimal;
    var a, b := Text.Decimal(1024 + i), Text.Decimal(1024 + j);
    assert |a| == |b|;
    assert a == PeerKey(i)[9..9+|a|] == PeerKey(j)[9..9+|b|] == b;
    Text.DecimalValue(1024 + i);
    Text.DecimalValue(1024 + j);
  }

  // The first n peers, one call each.
  function Peers(n: nat): (cs: seq<Call>)
    ensures |cs| == n
  {
    if n == 0 then [] else Peers(n - 1) + [Call(PeerKey(n - 1), 0)]
  }

  // The table has room for 256 of them.
  lemma {:induction false} PeersFill(n: nat)
    requires n <= LOG_MAX_KEYS
    ensures |AfterAll(map[], Peers(n))| == n
    ensures forall k :: k in AfterAll(map[], Peers(n)) <==> exists i: nat :: i < n && k == PeerKey(i)
  {
    hide PeerKey;
    if n > 0 {
      PeersFill(n - 1);
      assert Peers(n)[..n-1] == Peers(n - 1);
      forall i: nat | i < n - 1
        ensures PeerKey(i) != PeerKey(n - 1)
      {
        if PeerKey(i) == PeerKey(n - 1) {
          PeerKeyInjective(i, n - 1);
        }
      }
    }
  }

  /** A concrete case: 257 ports of one peer, and the first of them again, a second later at the
      latest. The 257th key empties the table, and the first key is written twice. */
  lemma TwoLinesInOneSecond()
    ensures var cs := Peers(LOG_MAX_KEYS + 1) + [Call(PeerKey(0), 1)];
      && Allows(map[], cs[0]) && Allows(AfterAll(map[], cs[..|cs|-1]), cs[|cs|-1])
      && cs[0].key == cs[|cs|-1].key && cs[|cs|-1].now - cs[0].now < LOG_EVERY
  {
    hide PeerKey;
    var full := Peers(LOG_MAX_KEYS + 1);
    PeersFill(LOG_MAX_KEYS);
    assert full[..LOG_MAX_KEYS] == Peers(LOG_MAX_KEYS);
    var c := full[LOG_MAX_KEYS];
    assert c == Call(PeerKey(LOG_MAX_KEYS), 0);
    forall i: nat | i < LOG_MAX_KEYS
      ensures PeerKey(i) != c.key
    {
      if PeerKey(i) == c.key {
        PeerKeyInjective(i, LOG_MAX_KEYS);
      }
    }
    assert AfterAll(map[], full) == map[c.key := 0];
    FirstPeer(LOG_MAX_KEYS + 1);
    var cs := full + [Call(PeerKey(0), 1)];
    assert cs[..|cs|-1] == full && cs[0] == full[0];
  }

  lemma {:induction false} FirstPeer(n: nat)
    requires n > 0
    ensures Peers(n)[0] == Call(PeerKey(0), 0)
  {
    if n > 1 {
      FirstPeer(n - 1);
    }
  }

  /** A suppressed call has a line of its own key less than an interval older. */
  lemma SuppressedOnlyWhenFresh(cs: seq<Call>, j: nat)
    requires j < |cs| && !Allows(AfterAll(map[], cs[..j]), cs[j])
    ensures exists i :: 0 <= i < j && cs[i].key == cs[j].key && cs[j].now - cs[i].now < LOG_EVERY
              && Allows(AfterAll(map[], cs[..i]), cs[i])
  {
    var i := LineOfEntry(cs, j, cs[j].key);
  }

  lemma {:induction false} LineOfEntry(cs: seq<Call>, j: nat, key: string) returns (i: nat)
    requires j <= |cs| && key in AfterAll(map[], cs[..j])
    ensures i < j && cs[i].key == key && cs[i].now == AfterAll(map[], cs[..j])[key]
    ensures Allows(AfterAll(map[], cs[..i]), cs[i])
    decreases j
  {
    assert j > 0;
    assert cs[..j][..j-1] == cs[..j-1];
    var before := AfterAll(map[], cs[..j-1]);
    if Allows(before, cs[j-1]) && cs[j-1].key == key {
      i := j - 1;
    } else {
      i := LineOfEntry(cs, j - 1, key);
    }
  }
}
