/** The bearer-token file: parsing, the cached token set, and the reload protocol
    in which stat comes before read, run by any number of threads while the file is edited. */
module TokenReload {
  import opened Seqs
  import opened Text

  const MIN_TOKEN_LEN := 32
  const RELOAD_EVERY := 10  // seconds
  const BOM := '\U{FEFF}'

  datatype FileInfo = FileInfo(inode: int, mtime: int, size: int)

  // A SHA-256 digest, identified with the token it is the digest of.
  datatype Digest = Sha256(token: string)

  // What the line scanner makes of the file; it gives up at a line over its buffer.
  datatype Content = Content(lines: seq<string>, lineTooLong: bool)

  // ----- Parsing -----

  function StripBom(lines: seq<string>): (r: seq<string>)
    ensures |r| == |lines|
  {
    if lines != [] && HasPrefix(lines[0], [BOM]) then [lines[0][1..]] + lines[1..] else lines
  }

  predicate IsToken(line: string) { line != "" && !HasPrefix(line, "#") }

  function Trim(lines: seq<string>): (r: seq<string>)
    ensures |r| == |lines| && forall i :: 0 <= i < |r| ==> r[i] == TrimSpace(lines[i])
  {
    seq(|lines|, i requires 0 <= i < |lines| => TrimSpace(lines[i]))
  }

  // The tokens of the file in order, whatever their length.
  function Tokens(c: Content): seq<string> { Filter(Trim(StripBom(c.lines)), IsToken) }

  function Digests(tokens: seq<string>): (r: seq<Digest>)
    ensures |r| == |tokens| && forall i :: 0 <= i < |r| ==> r[i] == Sha256(tokens[i])
  {
    seq(|tokens|, i requires 0 <= i < |tokens| => Sha256(tokens[i]))
  }

  // Some digests exactly when every line scans, every token is long enough and there is one.
  function Parse(c: Content): (r: Option<seq<Digest>>)
    ensures r.Some? ==> |r.value| > 0
  {
    if !c.lineTooLong && Tokens(c) != [] && (forall t :: t in Tokens(c) ==> ByteLen(t) >= MIN_TOKEN_LEN)
    then Some(Digests(Tokens(c))) else None
  }

  // Line i without the byte order mark the file may begin with.
  function LineAt(lines: seq<string>, i: nat): string
    requires i < |lines|
  {
    if i == 0 && lines[0] != "" && lines[0][0] == BOM then lines[0][1..] else lines[i]
  }

  // t is a line of the file but for white space, neither blank nor a comment.
  ghost predicate Holds(c: Content, t: string)
  {
    t != "" && t[0] != '#' && exists i :: 0 <= i < |c.lines| && t == TrimSpace(LineAt(c.lines, i))
  }

  lemma {:induction false} FilterMembers<T>(s: seq<T>, x: T, p: T -> bool)
    ensures x in Filter(s, p) <==> x in s && p(x)
  {
    if s != [] {
      FilterMembers(s[..|s|-1], x, p);
      assert s == s[..|s|-1] + [s[|s|-1]];
    }
  }

  lemma StripBomAt(lines: seq<string>)
    ensures forall i :: 0 <= i < |lines| ==> StripBom(lines)[i] == LineAt(lines, i)
  {}

  // The tokens are what the file holds.
  lemma TokensHeld(c: Content, t: string)
    ensures t in Tokens(c) <==> Holds(c, t)
  {
    StripBomAt(c.lines);
    hide TrimSpace, Filter, StripBom, LineAt;
    var lines := StripBom(c.lines);
    FilterMembers(Trim(lines), t, IsToken);
    if Holds(c, t) {
      var i :| 0 <= i < |c.lines| && t == TrimSpace(LineAt(c.lines, i));
      assert Trim(lines)[i] == t;
    }
  }

  lemma ParsedTokens(c: Content)
    ensures Parse(c).Some? <==>
      && !c.lineTooLong && (exists t :: Holds(c, t))
      && forall t :: Holds(c, t) ==> ByteLen(t) >= MIN_TOKEN_LEN
    ensures Parse(c).Some? ==> forall t :: Sha256(t) in Parse(c).value <==> Holds(c, t)
  {
    forall t
      ensures t in Tokens(c) <==> Holds(c, t)
    {
      TokensHeld(c, t);
    }
    hide Tokens, Holds, ByteLen;
    if Tokens(c) != [] {
      assert Tokens(c)[0] in Tokens(c);
    }
    if Parse(c).Some? {
      forall t
        ensures Sha256(t) in Parse(c).value <==> t in Tokens(c)
      {
        if t in Tokens(c) {
          var i :| 0 <= i < |Tokens(c)| && Tokens(c)[i] == t;
          assert Parse(c).value[i] == Sha256(t);
        }
      }
    }
  }

  function Inserted(s: seq<string>, i: nat, x: string): seq<string>
    requires i <= |s|
  {
    s[..i] + [x] + s[i..]
  }

  /** Blank lines and comments may be added anywhere after the first line. */
  lemma CommentsIgnored(c: Content, i: nat, line: string)
    requires 0 < i <= |c.lines|
    requires TrimSpace(line) == "" || TrimSpace(line)[0] == '#'
    ensures Parse(c.(lines := Inserted(c.lines, i, line))) == Parse(c)
  {
    hide TrimSpace, Filter, Parse, StripBom, Trim, IsToken;
    var lines := StripBom(c.lines);
    var a, b := Trim(lines)[..i], Trim(lines)[i..];
    var more := c.(lines := Inserted(c.lines, i, line));
    StripInserted(c.lines, i, line);
    TrimInserted(lines, i, line);
    CommentIsNoToken(line);
    FilterSkips(a, TrimSpace(line), b, IsToken);
    assert a + b == Trim(lines);
    SameTokens(more, c);
  }

  lemma StripInserted(lines: seq<string>, i: nat, x: string)
    requires 0 < i <= |lines|
    ensures StripBom(Inserted(lines, i, x)) == Inserted(StripBom(lines), i, x)
  {
    hide HasPrefix;
  }

  lemma TrimInserted(lines: seq<string>, i: nat, x: string)
    requires i <= |lines|
    ensures Trim(Inserted(lines, i, x)) == Inserted(Trim(lines), i, TrimSpace(x))
  {
    hide TrimSpace;
  }

  lemma CommentIsNoToken(line: string)
    requires TrimSpace(line) == "" || TrimSpace(line)[0] == '#'
    ensures !IsToken(TrimSpace(line))
  {}

  lemma SameTokens(c: Content, d: Content)
    requires c.lineTooLong == d.lineTooLong
    requires Filter(Trim(StripBom(c.lines)), IsToken) == Filter(Trim(StripBom(d.lines)), IsToken)
    ensures Parse(c) == Parse(d)
  {
    hide Filter, Trim, StripBom;
  }

  lemma {:induction false} FilterSkips<T>(a: seq<T>, x: T, b: seq<T>, p: T -> bool)
    requires !p(x)
    ensures Filter(a + [x] + b, p) == Filter(a + b, p)
  {
    if b == [] {
      assert a + [x] + b == a + [x] && a + b == a;
      FilterAppend(a, x, p);
    } else {
      var init, last := b[..|b|-1], b[|b|-1];
      FilterSkips(a, x, init, p);
      assert a + [x] + b == (a + [x] + init) + [last] && a + b == (a + init) + [last];
      FilterAppend(a + [x] + init, last, p);
      FilterAppend(a + init, last, p);
    }
  }

  method ParseTokens(c: Content) returns (out: Option<seq<Digest>>)
    ensures out == Parse(c)
    ensures out.Some? <==>
      && !c.lineTooLong && (exists t :: Holds(c, t))
      && forall t :: Holds(c, t) ==> ByteLen(t) >= MIN_TOKEN_LEN
    ensures out.Some? ==> forall t :: Sha256(t) in out.value <==> Holds(c, t)
  {
    ParsedTokens(c);
    hide Holds;
    var lines := StripBom(c.lines);
    var digests: seq<Digest> := [];
    var n := 0;
    assert TokensUpTo(lines, 0) == [];
    hide TokensUpTo, StripBom, TrimSpace, ByteLen;
    while n < |lines|
      invariant 0 <= n <= |lines|
      invariant digests == Digests(TokensUpTo(lines, n))
      invariant forall t :: t in TokensUpTo(lines, n) ==> ByteLen(t) >= MIN_TOKEN_LEN
    {
      var line := TrimSpace(lines[n]);
      TokensAppend(lines, n);
      n := n + 1;
      if line == "" || HasPrefix(line, "#") {
        continue;
      }
      if ByteLen(line) < MIN_TOKEN_LEN {
        FilterKeeps(Trim(lines), n - 1, IsToken);
        return None;
      }
      digests := digests + [Sha256(line)];
    }
    TokensAll(lines);
    if c.lineTooLong || |digests| == 0 {
      return None;
    }
    return Some(digests);
  }

  // The tokens among the first n lines.
  function TokensUpTo(lines: seq<string>, n: nat): seq<string>
    requires n <= |lines|
  {
    Filter(Trim(lines)[..n], IsToken)
  }

  lemma TokensAll(lines: seq<string>)
    ensures TokensUpTo(lines, |lines|) == Filter(Trim(lines), IsToken)
  {
    assert Trim(lines)[..|lines|] == Trim(lines);
  }

  lemma TokensAppend(lines: seq<string>, n: nat)
    requires n < |lines|
    ensures var line := TrimSpace(lines[n]);
      TokensUpTo(lines, n + 1) == TokensUpTo(lines, n) + if IsToken(line) then [line] else []
  {
    hide Filter, TrimSpace;
    assert Trim(lines)[..n+1] == Trim(lines)[..n] + [TrimSpace(lines[n])];
    FilterAppend(Trim(lines)[..n], TrimSpace(lines[n]), IsToken);
  }

  // An element that passes the filter is in the filtered sequence.
  lemma FilterKeeps<T>(s: seq<T>, i: nat, p: T -> bool)
    requires i < |s| && p(s[i])
    ensures s[i] in Filter(s, p)
  {
    if i < |s| - 1 {
      FilterKeeps(s[..|s|-1], i, p);
    }
  }

  // ----- The cached set, one object shared by all request handlers -----

  predicate Differs(a: FileInfo, b: FileInfo)
  {
    a.inode != b.inode || a.mtime != b.mtime || a.size != b.size
  }

  datatype Outcome = Throttled | StatFailed | Unchanged | ReloadFailed | Reloaded

  class TokenSet {
    var digests: seq<Digest>
    var info: FileInfo
    var lastStat: int

    predicate Changed(fi: FileInfo)
      reads this
      ensures Changed(fi) <==> info != fi
    {
      Differs(info, fi)
    }

    // stat and read are what the two system calls gave; None is an error.
    method Load(stat: Option<FileInfo>, read: Option<Content>, now: int) returns (ok: bool)
      modifies this
      ensures ok <==> stat.Some? && read.Some? && Parse(read.value).Some?
      ensures ok ==> digests == Parse(read.value).value && info == stat.value && lastStat == now
      ensures !ok ==> digests == old(digests) && info == old(info) && lastStat == old(lastStat)
    {
      if stat.None? { return false; }
      if read.None? { return false; }
      var parsed := ParseTokens(read.value);
      if parsed.None? { return false; }
      digests, info, lastStat := parsed.value, stat.value, now;
      return true;
    }

    /** One refresh without interference: at most one stat per interval, the set
        replaced exactly by a successful load of a changed file, and kept otherwise. */
    method Refresh(now: int, stat: Option<FileInfo>, loadStat: Option<FileInfo>, read: Option<Content>,
                   later: int)
      returns (outcome: Outcome)
      modifies this
      ensures outcome == (
          if now - old(lastStat) < 10 then Throttled
          else if stat.None? then StatFailed
          else if stat.value == old(info) then Unchanged
          else if loadStat.None? || read.None? || Parse(read.value).None? then ReloadFailed
          else Reloaded)
      ensures outcome.Reloaded? ==>
          digests == Parse(read.value).value && info == loadStat.value && lastStat == later
      ensures !outcome.Reloaded? ==> digests == old(digests) && info == old(info)
      ensures outcome.Throttled? ==> lastStat == old(lastStat)
      ensures !outcome.Throttled? && !outcome.Reloaded? ==> lastStat == now
    {
      if now - lastStat < RELOAD_EVERY { return Throttled; }
      lastStat := now;
      if stat.None? { return StatFailed; }
      if !Changed(stat.value) { return Unchanged; }
      var ok := Load(loadStat, read, later);
      outcome := if ok then Reloaded else ReloadFailed;
    }

    // The comparison loop of match: it walks the whole set whatever it finds.
    method Accepts(presented: string) returns (ok: bool)
      ensures ok <==> Sha256(presented) in digests
    {
      var got := Sha256(presented);
      ok := false;
      for i := 0 to |digests|
        invariant ok <==> got in digests[..i]
      {
        assert digests[..i+1] == digests[..i] + [digests[i]];
        ok := ok || got == digests[i];
      }
      assert digests[..|digests|] == digests;
    }
  }

  // ----- The protocol: edits and critical sections of many threads, interleaved -----

  datatype FileState = Absent | Present(info: FileInfo, content: Content)

  /** Where a thread is. The indices into the file's history say which state of the
      file its stat and its read saw; the program itself does not keep them. */
  datatype Pc =
    | Idle
    | AtStat
    | AtCompare(fi: FileInfo, seen: nat)
    | AtLoadStat
    | AtRead(fi: FileInfo, seen: nat)
    | AtCommit(fi: FileInfo, seen: nat, data: Content, readAt: nat)

  datatype Stored = Stored(digests: seq<Digest>, info: FileInfo, seen: nat, readAt: nat)

  datatype State = State(history: seq<FileState>, stored: Option<Stored>, lastStat: int, threads: seq<Pc>)

  datatype Step =
    | Edit(file: FileState)
    | Begin(t: nat, now: int)      // refresh: the throttle
    | BeginLoad(t: nat)            // load called directly
    | Stat(t: nat, ok: bool)       // refresh: its own stat
    | Compare(t: nat)              // refresh: changed, under the mutex
    | LoadStat(t: nat, ok: bool)
    | Read(t: nat, ok: bool)
    | Commit(t: nat, now: int)     // load: parse, and publish under the mutex if that succeeds

  function Current(s: State): FileState
    requires s.history != []
  {
    s.history[|s.history|-1]
  }

  // An edit never brings back an identity that the file already had.
  predicate FreshIdentity(h: seq<FileState>, f: FileState)
  {
    f.Present? ==> forall i :: 0 <= i < |h| && h[i].Present? ==> Differs(h[i].info, f.info)
  }

  predicate Enabled(s: State, e: Step)
  {
    s.history != [] &&
    match e
    case Edit(f) => FreshIdentity(s.history, f)
    case Begin(t, _) => t < |s.threads| && s.threads[t].Idle? && s.stored.Some?
    case BeginLoad(t) => t < |s.threads| && s.threads[t].Idle?
    case Stat(t, ok) => t < |s.threads| && s.threads[t].AtStat? && (ok ==> Current(s).Present?)
    case Compare(t) => t < |s.threads| && s.threads[t].AtCompare? && s.stored.Some?
    case LoadStat(t, ok) => t < |s.threads| && s.threads[t].AtLoadStat? && (ok ==> Current(s).Present?)
    case Read(t, ok) => t < |s.threads| && s.threads[t].AtRead? && (ok ==> Current(s).Present?)
    case Commit(t, _) => t < |s.threads| && s.threads[t].AtCommit?
  }

  function Apply(s: State, e: Step): (next: State)
    requires Enabled(s, e)
    ensures next.history != [] && |next.threads| == |s.threads|
  {
    var last := |s.history| - 1;
    match e
    case Edit(f) => s.(history := s.history + [f])
    case Begin(t, now) =>
      if now - s.lastStat < RELOAD_EVERY then s
      else s.(lastStat := now, threads := s.threads[t := AtStat])
    case BeginLoad(t) => s.(threads := s.threads[t := AtLoadStat])
    case Stat(t, ok) =>
      s.(threads := s.threads[t := if ok then AtCompare(Current(s).info, last) else Idle])
    case Compare(t) =>
      s.(threads := s.threads[t := if Differs(s.stored.value.info, s.threads[t].fi) then AtLoadStat else Idle])
    case LoadStat(t, ok) =>
      s.(threads := s.threads[t := if ok then AtRead(Current(s).info, last) else Idle])
    case Read(t, ok) =>
      var p := s.threads[t];
      s.(threads := s.threads[t := if ok then AtCommit(p.fi, p.seen, Current(s).content, last) else Idle])
    case Commit(t, now) =>
      var p := s.threads[t];
      var idle := s.(threads := s.threads[t := Idle]);
      match Parse(p.data)
      case None => idle
      case Some(ds) => idle.(stored := Some(Stored(ds, p.fi, p.seen, p.readAt)), lastStat := now)
  }

  ghost predicate Runs(s: State, es: seq<Step>)
    decreases |es|
  {
    es == [] || (Enabled(s, es[0]) && Runs(Apply(s, es[0]), es[1..]))
  }

  ghost function Final(s: State, es: seq<Step>): State
    requires Runs(s, es)
    decreases |es|
  {
    if es == [] then s else Final(Apply(s, es[0]), es[1..])
  }

  // Before boot: one state of the file, nothing stored, every thread idle.
  ghost predicate Init(s: State)
  {
    |s.history| == 1 && s.stored.None? && forall t :: 0 <= t < |s.threads| ==> s.threads[t].Idle?
  }

  ghost predicate Distinct(h: seq<FileState>)
  {
    forall i, j :: 0 <= i < j < |h| && h[i].Present? && h[j].Present? ==> Differs(h[i].info, h[j].info)
  }

  predicate SawInfo(h: seq<FileState>, seen: nat, fi: FileInfo)
  {
    seen < |h| && h[seen].Present? && h[seen].info == fi
  }

  predicate PcOk(h: seq<FileState>, p: Pc)
  {
    match p
    case Idle => true
    case AtStat => true
    case AtCompare(fi, seen) => SawInfo(h, seen, fi)
    case AtLoadStat => true
    case AtRead(fi, seen) => SawInfo(h, seen, fi)
    case AtCommit(fi, seen, data, readAt) =>
      SawInfo(h, seen, fi) && seen <= readAt < |h| && h[readAt].Present? && h[readAt].content == data
  }

  ghost predicate Inv(s: State)
  {
    && s.history != []
    && Distinct(s.history)
    && (forall t :: 0 <= t < |s.threads| ==> PcOk(s.history, s.threads[t]))
    && (s.stored.Some? ==>
          var st := s.stored.value;
          && SawInfo(s.history, st.seen, st.info)
          && st.seen <= st.readAt < |s.history| && s.history[st.readAt].Present?
          && Parse(s.history[st.readAt].content) == Some(st.digests))
  }

  lemma InvStep(s: State, e: Step)
    requires Inv(s) && Enabled(s, e)
    ensures Inv(Apply(s, e))
  {
    hide Parse;
  }

  lemma {:induction false} InvRun(s: State, es: seq<Step>)
    requires Inv(s) && Runs(s, es)
    ensures Inv(Final(s, es))
    decreases |es|
  {
    if es != [] {
      InvStep(s, es[0]);
      InvRun(Apply(s, es[0]), es[1..]);
    }
  }

  lemma StoredIsCurrent(s: State)
    requires Inv(s) && s.stored.Some?
    requires Current(s).Present? && !Differs(s.stored.value.info, Current(s).info)
    ensures Parse(Current(s).content) == Some(s.stored.value.digests)
  {
    hide Parse;
    assert s.stored.value.seen == |s.history| - 1;
  }

  // The file is there and has the identity that is stored.
  predicate IdentityMatches(s: State)
    requires s.history != []
  {
    s.stored.Some? && Current(s).Present? && !Differs(s.stored.value.info, Current(s).info)
  }

  /** In every interleaving of edits with any number of refresh and load calls: whenever
      the stored identity is the file's identity, the stored digests are exactly the
      parse of the file's content; and the set is never empty. */
  lemma Coherence(s: State, es: seq<Step>)
    requires Init(s) && Runs(s, es)
    ensures var f := Final(s, es);
      && f.history != []
      && (f.stored.Some? ==> f.stored.value.digests != [])
      && (IdentityMatches(f) ==> Parse(Current(f).content) == Some(f.stored.value.digests))
  {
    InvRun(s, es);
    if IdentityMatches(Final(s, es)) {
      StoredIsCurrent(Final(s, es));
    }
  }

  /** A token is accepted only if some state the file has had holds it on a line of its own, and it
      is not too short. */
  lemma AcceptedTokenWasInFile(s: State, es: seq<Step>, token: string)
    requires Init(s) && Runs(s, es) && Final(s, es).stored.Some?
    requires Sha256(token) in Final(s, es).stored.value.digests
    ensures exists f :: f in Final(s, es).history && f.Present? && Holds(f.content, token)
    ensures ByteLen(token) >= 32 && token != "" && token[0] != '#'
  {
    hide Holds, Parse, Runs, Final, ByteLen;
    InvRun(s, es);
    var f := Final(s, es);
    var state := f.history[f.stored.value.readAt];
    ParsedTokens(state.content);
    HeldToken(state.content, token);
  }

  lemma HeldToken(c: Content, t: string)
    requires Holds(c, t)
    ensures t != "" && t[0] != '#'
  {
    hide TrimSpace;
  }

  /** While the stored identity is the file's, a token is accepted if and only if the file holds it. */
  lemma AcceptedIffHeld(s: State, es: seq<Step>, token: string)
    requires Init(s) && Runs(s, es)
    ensures var f := Final(s, es);
      f.history != [] && (IdentityMatches(f) ==>
        (Sha256(token) in f.stored.value.digests <==> Holds(Current(f).content, token)))
  {
    hide Holds, Parse, Runs, Final, ByteLen;
    Coherence(s, es);
    var f := Final(s, es);
    if IdentityMatches(f) {
      ParsedTokens(Current(f).content);
    }
  }

  // ----- Settling: a stable, valid file and no load that saw an older one -----

  // No load in flight will publish under an identity that is no longer the file's.
  ghost predicate NoStaleLoad(s: State)
  {
    forall t :: 0 <= t < |s.threads| ==> !Stale(s, s.threads[t])
  }

  // The thread's load saw an older identity, and will publish it if what it reads is valid.
  predicate Stale(s: State, p: Pc)
  {
    || (p.AtRead? && p.seen < |s.history| - 1)
    || (p.AtCommit? && p.seen < |s.history| - 1 && Parse(p.data).Some?)
  }

  ghost predicate Settled(s: State)
  {
    Inv(s) && s.stored.Some? && Current(s).Present? && Parse(Current(s).content).Some? && NoStaleLoad(s)
  }

  ghost predicate Fresh(s: State)
    requires s.history != []
  {
    && s.stored.Some? && Current(s).Present? && s.stored.value.info == Current(s).info
    && Parse(Current(s).content) == Some(s.stored.value.digests)
  }

  // Thread t has passed the throttle and has not gone idle without the set being fresh.
  ghost predicate OnTheWay(s: State, t: nat)
    requires s.history != [] && t < |s.threads|
  {
    || Fresh(s)
    || s.threads[t].AtStat? || s.threads[t].AtLoadStat?
    || ((s.threads[t].AtCompare? || s.threads[t].AtRead? || s.threads[t].AtCommit?)
        && s.threads[t].seen == |s.history| - 1)
  }

  // The file is not edited, and the system calls of t succeed.
  ghost predicate Undisturbed(es: seq<Step>, t: nat)
  {
    forall e :: e in es ==>
      !e.Edit? && e != Stat(t, false) && e != LoadStat(t, false) && e != Read(t, false)
  }

  // Publishing a load that saw the current identity stores the current file.
  lemma CommitIsFresh(s: State, t: nat, now: int)
    requires t < |s.threads| && s.threads[t].AtCommit? && Settled(s) && Enabled(s, Commit(t, now))
    ensures Settled(Apply(s, Commit(t, now)))
    ensures s.threads[t].seen == |s.history| - 1 ==> Fresh(Apply(s, Commit(t, now)))
    ensures s.threads[t].seen != |s.history| - 1 ==> Apply(s, Commit(t, now)).stored == s.stored
  {
    hide Parse;
    InvStep(s, Commit(t, now));
    var p := s.threads[t];
    assert PcOk(s.history, p) && !Stale(s, p);
  }

  lemma SettleStep(s: State, e: Step, t: nat)
    requires Settled(s) && Enabled(s, e) && t < |s.threads| && Undisturbed([e], t) && OnTheWay(s, t)
    ensures Settled(Apply(s, e)) && OnTheWay(Apply(s, e), t)
  {
    hide Parse, Inv;
    InvStep(s, e);
    assert e in [e];
    if e.Commit? {
      CommitIsFresh(s, e.t, e.now);
    } else if e == Compare(t) {
      CompareSettles(s, t);
    }
  }

  // A refresh that finds the identity unchanged goes idle with the current file stored.
  lemma CompareSettles(s: State, t: nat)
    requires Settled(s) && Enabled(s, Compare(t)) && OnTheWay(s, t)
    ensures OnTheWay(Apply(s, Compare(t)), t)
  {
    hide Parse;
    assert PcOk(s.history, s.threads[t]);
    if !Fresh(s) && IdentityMatches(s) {
      StoredIsCurrent(s);
    }
  }

  // While the file is stable a fresh set stays fresh.
  lemma FreshStep(s: State, e: Step)
    requires Settled(s) && Fresh(s) && Enabled(s, e) && !e.Edit?
    ensures Settled(Apply(s, e)) && Fresh(Apply(s, e))
  {
    hide Parse, Inv;
    InvStep(s, e);
    if e.Commit? {
      CommitIsFresh(s, e.t, e.now);
    }
  }

  ghost predicate NoEdit(es: seq<Step>) { forall e :: e in es ==> !e.Edit? }

  lemma {:induction false} FreshRun(s: State, es: seq<Step>)
    requires Settled(s) && Fresh(s) && Runs(s, es) && NoEdit(es)
    ensures Final(s, es).history != [] && Fresh(Final(s, es))
    decreases |es|
  {
    hide Settled, Apply, Enabled, Parse;
    SettledHistory(s);
    if es != [] {
      assert es[0] in es;
      FreshStep(s, es[0]);
      FreshRun(Apply(s, es[0]), es[1..]);
    }
  }

  // A stale load undoes a fresh set in at most two steps.
  lemma StaleUndoes(s: State, t: nat) returns (es: seq<Step>)
    requires Inv(s) && Fresh(s) && t < |s.threads| && Stale(s, s.threads[t])
    ensures es == [Read(t, true), Commit(t, 0)] || es == [Commit(t, 0)]
    ensures Runs(s, es) && Final(s, es).history != [] && !Fresh(Final(s, es))
  {
    hide Parse, Runs, Final;
    var p := s.threads[t];
    assert PcOk(s.history, p);
    var s1 := s;
    if p.AtRead? {
      s1 := Apply(s, Read(t, true));
    }
    var s2 := Apply(s1, Commit(t, 0));
    assert s2.history == s.history && s2.stored.Some? && s2.stored.value.info == p.fi;
    assert Differs(p.fi, Current(s).info);
    RunsNothing(s2);
    es := RunsCons(s1, Commit(t, 0), s2, [], s2);
    if p.AtRead? {
      es := RunsCons(s, Read(t, true), s1, es, s2);
    }
  }

  /** A set that is the file's stays so in every run without edits if and only if no load in
      flight saw an older identity and read, or will read, something valid. */
  lemma StaysFreshIffNoStaleLoad(s: State)
    requires Inv(s) && Fresh(s)
    ensures NoStaleLoad(s) <==>
      forall es :: Runs(s, es) && NoEdit(es) ==>
        Final(s, es).history != [] && Fresh(Final(s, es))
  {
    hide Parse, Inv, Fresh, Stale, Runs, Final;
    if NoStaleLoad(s) {
      assert Settled(s) by { FreshSettled(s); }
      forall es | Runs(s, es) && NoEdit(es)
        ensures Final(s, es).history != [] && Fresh(Final(s, es))
      {
        FreshRun(s, es);
      }
    } else {
      var t :| 0 <= t < |s.threads| && Stale(s, s.threads[t]);
      var es := StaleUndoes(s, t);
    }
  }

  lemma FreshSettled(s: State)
    requires Inv(s) && Fresh(s) && NoStaleLoad(s)
    ensures Settled(s)
  {
    hide Parse, NoStaleLoad;
  }

  /** Self-correction: once the file is stable and valid and no stale load is in flight, a
      refresh that passes the throttle ends with exactly the file's tokens stored, whatever the
      other threads do, and they stay stored. */
  lemma {:induction false} RefreshEndsCoherent(s: State, es: seq<Step>, t: nat)
    requires Settled(s) && Runs(s, es) && t < |s.threads| && Undisturbed(es, t) && OnTheWay(s, t)
    ensures var f := Final(s, es);
      Settled(f) && |f.threads| == |s.threads| && OnTheWay(f, t) && (f.threads[t].Idle? ==> Fresh(f))
    decreases |es|
  {
    hide Apply, Enabled, Settled, Undisturbed;
    assert Settled(s) ==> s.history != [] by { SettledHistory(s); }
    if es != [] {
      UndisturbedSplit(es, t);
      hide OnTheWay;
      SettleStep(s, es[0], t);
      RefreshEndsCoherent(Apply(s, es[0]), es[1..], t);
    }
  }

  lemma SettledHistory(s: State)
    ensures Settled(s) ==> s.history != []
  {}

  lemma UndisturbedSplit(es: seq<Step>, t: nat)
    requires es != [] && Undisturbed(es, t)
    ensures Undisturbed([es[0]], t) && Undisturbed(es[1..], t)
  {
    assert es[0] in es;
  }

  // Thread 0 stats and reads the old file, thread 1 loads the new one.
  function RacingLoads(new_: FileState): seq<Step>
  {
    [BeginLoad(0), LoadStat(0, true), Read(0, true), BeginLoad(1), Edit(new_),
     LoadStat(1, true), Read(1, true), Commit(1, 20)]
  }

  /** The condition on loads in flight is needed: here the new file is already stored
      when the load that saw the old one publishes, and the old identity is back. */
  lemma StaleLoadCanLandLast(a: FileInfo, b: FileInfo, oldText: Content, newText: Content)
    requires Differs(a, b) && Parse(oldText).Some? && Parse(newText).Some?
    ensures var boot := State([Present(a, oldText)], None, 0, [Idle, Idle]);
      var es := RacingLoads(Present(b, newText));
      var s := State([Present(a, oldText), Present(b, newText)],
                     Some(Stored(Parse(newText).value, b, 1, 1)), 20, [AtCommit(a, 0, oldText, 0), Idle]);
      && Init(boot) && Runs(boot, es) && Final(boot, es) == s
      && Fresh(s) && Enabled(s, Commit(0, 21))
      && Current(Apply(s, Commit(0, 21))) == Present(b, newText)
      && Apply(s, Commit(0, 21)).stored == Some(Stored(Parse(oldText).value, a, 0, 0))
  {
    hide Parse, Runs, Final;
    var s0 := State([Present(a, oldText)], None, 0, [Idle, Idle]);
    var s1 := s0.(threads := [AtLoadStat, Idle]);
    var s2 := s0.(threads := [AtRead(a, 0), Idle]);
    var s3 := s0.(threads := [AtCommit(a, 0, oldText, 0), Idle]);
    var r3, s8 := SecondLoad(s3, a, b, oldText, newText);
    var r2 := RunsCons(s2, Read(0, true), s3, r3, s8);
    var r1 := RunsCons(s1, LoadStat(0, true), s2, r2, s8);
    var r0 := RunsCons(s0, BeginLoad(0), s1, r1, s8);
    assert RacingLoads(Present(b, newText)) == r0;
  }

  lemma SecondLoad(s3: State, a: FileInfo, b: FileInfo, oldText: Content, newText: Content)
    returns (run: seq<Step>, s8: State)
    requires Differs(a, b) && Parse(oldText).Some? && Parse(newText).Some?
    requires s3 == State([Present(a, oldText)], None, 0, [AtCommit(a, 0, oldText, 0), Idle])
    ensures run == RacingLoads(Present(b, newText))[3..]
    ensures s8 == State([Present(a, oldText), Present(b, newText)],
                        Some(Stored(Parse(newText).value, b, 1, 1)), 20, [AtCommit(a, 0, oldText, 0), Idle])
    ensures Runs(s3, run) && Final(s3, run) == s8
  {
    hide Parse, Runs, Final;
    var h := [Present(a, oldText), Present(b, newText)];
    var s4 := s3.(threads := [AtCommit(a, 0, oldText, 0), AtLoadStat]);
    var s5 := s4.(history := h);
    var s6 := s5.(threads := [AtCommit(a, 0, oldText, 0), AtRead(b, 1)]);
    var s7 := s5.(threads := [AtCommit(a, 0, oldText, 0), AtCommit(b, 1, newText, 1)]);
    s8 := State(h, Some(Stored(Parse(newText).value, b, 1, 1)), 20, [AtCommit(a, 0, oldText, 0), Idle]);
    RunsNothing(s8);
    run := RunsCons(s7, Commit(1, 20), s8, [], s8);
    run := RunsCons(s6, Read(1, true), s7, run, s8);
    run := RunsCons(s5, LoadStat(1, true), s6, run, s8);
    run := RunsCons(s4, Edit(h[1]), s5, run, s8);
    run := RunsCons(s3, BeginLoad(1), s4, run, s8);
  }

  lemma RunsNothing(s: State)
    ensures Runs(s, []) && Final(s, []) == s
  {}

  // A run extended at its front.
  lemma RunsCons(s: State, e: Step, next: State, es: seq<Step>, f: State) returns (run: seq<Step>)
    requires Enabled(s, e) && Apply(s, e) == next
    requires Runs(next, es) && Final(next, es) == f
    ensures run == [e] + es && Runs(s, run) && Final(s, run) == f
  {
    run := [e] + es;
    assert run[1..] == es;
  }
}
