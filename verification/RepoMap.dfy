/** Repo maps of the evaluation harness: parsing "key=path,key=path" and rewriting the repo of
    each golden record. */
module RepoMap {
  import opened EvalData
  import opened Seqs
  import opened Sorting
  import opened Text

  // ----- Parsing -----

  datatype ParseError = MissingEquals(pair: string) | EmptyKeyOrPath(pair: string)

  datatype Result<T> = Ok(value: T) | Err(error: ParseError)

  datatype Entry = Entry(key: string, path: string)

  // One comma-separated piece: nothing, an entry, or an error.
  function ParsePiece(piece: string): Result<Option<Entry>>
  {
    var pair := TrimSpace(piece);
    if pair == "" then Ok(None)
    else
      match Cut(pair, '=')
      case None => Err(MissingEquals(pair))
      case Some((k, v)) =>
        if TrimSpace(k) == "" || TrimSpace(v) == "" then Err(EmptyKeyOrPath(pair))
        else Ok(Some(Entry(TrimSpace(k), TrimSpace(v))))
  }

  function ParsePieces(pieces: seq<string>): Result<map<string, string>>
  {
    if pieces == [] then Ok(map[])
    else
      match ParsePieces(pieces[..|pieces|-1])
      case Err(e) => Err(e)
      case Ok(m) =>
        match ParsePiece(pieces[|pieces|-1])
        case Err(e) => Err(e)
        case Ok(None) => Ok(m)
        case Ok(Some(e)) => Ok(m[e.key := e.path])
  }

  function Parse(raw: string): Result<map<string, string>>
  {
    if TrimSpace(raw) == "" then Ok(map[]) else ParsePieces(Split(TrimSpace(raw), ','))
  }

  // The first error stops the parse.
  lemma {:induction false} ErrorStays(pieces: seq<string>, i: nat)
    requires i <= |pieces| && ParsePieces(pieces[..i]).Err?
    ensures ParsePieces(pieces) == ParsePieces(pieces[..i])
    decreases |pieces|
  {
    if i < |pieces| {
      assert pieces[..|pieces|-1][..i] == pieces[..i];
      ErrorStays(pieces[..|pieces|-1], i);
    } else {
      assert pieces[..i] == pieces;
    }
  }

  method ParseRepoMap(raw: string) returns (r: Result<map<string, string>>)
    ensures r == Parse(raw)
  {
    hide TrimSpace, Cut, Split;
    var text := TrimSpace(raw);
    if text == "" {
      return Ok(map[]);
    }
    var out: map<string, string> := map[];
    var pieces := Split(text, ',');
    for i := 0 to |pieces|
      invariant ParsePieces(pieces[..i]) == Ok(out)
    {
      assert pieces[..i+1][..i] == pieces[..i];
      var pair := TrimSpace(pieces[i]);
      if pair == "" {
        continue;
      }
      var cut := Cut(pair, '=');
      if cut.None? {
        ErrorStays(pieces, i + 1);
        return Err(MissingEquals(pair));
      }
      var key, val := TrimSpace(cut.value.0), TrimSpace(cut.value.1);
      if key == "" || val == "" {
        ErrorStays(pieces, i + 1);
        return Err(EmptyKeyOrPath(pair));
      }
      out := out[key := val];
    }
    assert pieces[..|pieces|] == pieces;
    return Ok(out);
  }

  lemma {:induction false} RejectedIffBadPiece(pieces: seq<string>)
    ensures ParsePieces(pieces).Err? <==> exists i :: 0 <= i < |pieces| && ParsePiece(pieces[i]).Err?
  {
    hide ParsePiece;
    if pieces != [] {
      var front := pieces[..|pieces|-1];
      RejectedIffBadPiece(front);
      if exists i :: 0 <= i < |front| && ParsePiece(front[i]).Err? {
        var i :| 0 <= i < |front| && ParsePiece(front[i]).Err?;
        assert ParsePiece(pieces[i]).Err?;
      }
    }
  }

  /** A text is rejected exactly when one of its comma-separated pieces, trimmed, is not empty and
      has no '=', or has an empty key or path. */
  lemma RejectedIff(raw: string)
    ensures Parse(raw).Err? <==> exists piece ::
      piece in Split(TrimSpace(raw), ',') && TrimSpace(piece) != "" &&
      match Cut(TrimSpace(piece), '=')
      case None => true
      case Some((k, v)) => TrimSpace(k) == "" || TrimSpace(v) == ""
  {
    hide TrimSpace, Cut, Split;
    var pieces := Split(TrimSpace(raw), ',');
    RejectedIffBadPiece(pieces);
    assert TrimSpace(raw) == "" ==> pieces == [""] by {
      SplitNothing(',');
    }
    TrimNothing();
    if exists i :: 0 <= i < |pieces| && ParsePiece(pieces[i]).Err? {
      var i :| 0 <= i < |pieces| && ParsePiece(pieces[i]).Err?;
      assert pieces[i] in pieces;
    }
  }

  lemma SplitNothing(c: char)
    ensures Split("", c) == [""]
  {}

  lemma TrimNothing()
    ensures TrimSpace("") == ""
  {}

  // ----- Printing -----

  function Show(e: Entry): string { e.key + "=" + e.path }

  function ShowAll(es: seq<Entry>): seq<string>
  {
    seq(|es|, i requires 0 <= i < |es| => Show(es[i]))
  }

  function Print(es: seq<Entry>): string { Join(ShowAll(es), ',') }

  // Later entries override earlier ones.
  function MapOf(es: seq<Entry>): map<string, string>
  {
    if es == [] then map[] else MapOf(es[..|es|-1])[es[|es|-1].key := es[|es|-1].path]
  }

  predicate Clean(s: string) { s != "" && Trimmed(s) && ',' !in s }

  predicate Printable(e: Entry) { Clean(e.key) && '=' !in e.key && Clean(e.path) }

  lemma PieceOfEntry(e: Entry)
    requires Printable(e)
    ensures ParsePiece(Show(e)) == Ok(Some(e))
    ensures Clean(Show(e)) && Show(e)[0] == e.key[0] && Show(e)[|Show(e)|-1] == e.path[|e.path|-1]
  {
    hide TrimSpace, Cut;
    CutUnique(e.key, '=', e.path);
  }

  lemma {:induction false} PiecesOfEntries(es: seq<Entry>)
    requires forall e :: e in es ==> Printable(e)
    ensures ParsePieces(ShowAll(es)) == Ok(MapOf(es))
  {
    hide ParsePiece, Show, Printable;
    if es != [] {
      var front, e := es[..|es|-1], es[|es|-1];
      PiecesOfEntries(front);
      PieceOfEntry(e);
      assert ShowAll(es)[..|es|-1] == ShowAll(front);
    }
  }

  // A joined text begins and ends as its first and last parts do.
  lemma {:induction false} JoinEnds(parts: seq<string>, c: char)
    requires |parts| > 0 && parts[0] != "" && parts[|parts|-1] != ""
    ensures Join(parts, c) != "" && Join(parts, c)[0] == parts[0][0]
    ensures Join(parts, c)[|Join(parts, c)|-1] == parts[|parts|-1][|parts[|parts|-1]|-1]
  {
    if |parts| > 1 {
      if |parts| > 2 {
        JoinLast(parts[1..], c);
      }
    }
  }

  lemma {:induction false} JoinLast(parts: seq<string>, c: char)
    requires |parts| > 0 && parts[|parts|-1] != ""
    ensures Join(parts, c) != ""
    ensures Join(parts, c)[|Join(parts, c)|-1] == parts[|parts|-1][|parts[|parts|-1]|-1]
  {
    if |parts| > 1 {
      JoinLast(parts[1..], c);
    }
  }

  /** Parsing undoes printing, for entries whose keys and paths are trimmed, not empty and free
      of commas and whose keys have no '='. */
  lemma ParsePrint(es: seq<Entry>)
    requires forall e :: e in es ==> Printable(e)
    ensures Parse(Print(es)) == Ok(MapOf(es))
  {
    hide ParsePiece, TrimSpace, Split, Join;
    if es == [] {
      assert Print(es) == "" by { JoinNothing(','); }
    } else {
      hide ParsePieces, MapOf, Printable, Show;
      PiecesOfEntries(es);
      forall p | p in ShowAll(es)
        ensures Clean(p)
      {
        var i :| 0 <= i < |es| && ShowAll(es)[i] == p;
        PieceOfEntry(es[i]);
      }
      SplitJoin(ShowAll(es), ',');
      JoinEnds(ShowAll(es), ',');
      assert Clean(ShowAll(es)[0]) && Clean(ShowAll(es)[|es|-1]);
      assert Trimmed(Print(es));
    }
  }

  lemma JoinNothing(c: char)
    ensures Join([], c) == ""
  {}

  // ----- Parsing normalises -----

  lemma {:induction false} TrimKeepsOut(s: string, c: char)
    requires c !in s
    ensures c !in TrimSpace(s)
  {
    if s != "" && IsSpace(s[0]) {
      TrimKeepsOut(s[1..], c);
    } else if s != "" && IsSpace(s[|s|-1]) {
      TrimKeepsOut(s[..|s|-1], c);
    }
  }

  lemma {:induction false} PiecesHaveNoSeparator(s: string, c: char)
    ensures forall p :: p in Split(s, c) ==> c !in p
    decreases |s|
  {
    match Cut(s, c)
    case None =>
    case Some((a, b)) => PiecesHaveNoSeparator(b, c);
  }

  lemma ParsedEntryPrintable(piece: string)
    requires ',' !in piece && ParsePiece(piece).Ok? && ParsePiece(piece).value.Some?
    ensures Printable(ParsePiece(piece).value.value)
  {
    hide TrimSpace;
    var pair := TrimSpace(piece);
    TrimKeepsOut(piece, ',');
    var (k, v) := Cut(pair, '=').value;
    TrimKeepsOut(k, ',');
    TrimKeepsOut(v, ',');
    TrimKeepsOut(k, '=');
  }

  ghost predicate AllPrintable(m: map<string, string>)
  {
    forall k :: k in m ==> Printable(Entry(k, m[k]))
  }

  lemma {:induction false} ParsedPiecesPrintable(pieces: seq<string>)
    requires ParsePieces(pieces).Ok? && forall p :: p in pieces ==> ',' !in p
    ensures AllPrintable(ParsePieces(pieces).value)
  {
    hide ParsePiece, Printable;
    if pieces != [] {
      ParsedPiecesPrintable(pieces[..|pieces|-1]);
      var r := ParsePiece(pieces[|pieces|-1]);
      assert pieces[|pieces|-1] in pieces;
      if r.Ok? && r.value.Some? {
        ParsedEntryPrintable(pieces[|pieces|-1]);
      }
    }
  }

  // The entries of m for the given keys, in their order.
  function EntriesFor(m: map<string, string>, keys: seq<string>): (es: seq<Entry>)
    requires forall k :: k in keys ==> k in m
    ensures |es| == |keys| && forall i :: 0 <= i < |keys| ==> es[i] == Entry(keys[i], m[keys[i]])
  {
    if keys == [] then [] else EntriesFor(m, keys[..|keys|-1]) + [Entry(keys[|keys|-1], m[keys[|keys|-1]])]
  }

  lemma {:induction false} MapOfEntries(m: map<string, string>, keys: seq<string>)
    requires forall k :: k in keys ==> k in m
    ensures forall k :: k in MapOf(EntriesFor(m, keys)) <==> k in keys
    ensures forall k :: k in keys ==> MapOf(EntriesFor(m, keys))[k] == m[k]
  {
    if keys != [] {
      var front, last := keys[..|keys|-1], keys[|keys|-1];
      MapOfEntries(m, front);
      assert EntriesFor(m, keys)[..|keys|-1] == EntriesFor(m, front);
      assert forall k :: k in keys <==> k in front || k == last;
    }
  }

  lemma EntriesMakeMap(m: map<string, string>, keys: seq<string>)
    requires Elements(keys) == m.Keys
    ensures forall k :: k in keys <==> k in m
    ensures MapOf(EntriesFor(m, keys)) == m
  {
    hide MapOf, EntriesFor;
    assert forall k :: k in keys <==> k in Elements(keys);
    MapOfEntries(m, keys);
  }

  ghost function EntriesOf(m: map<string, string>): seq<Entry>
  {
    EntriesMakeMap(m, Sorted(m.Keys));
    EntriesFor(m, Sorted(m.Keys))
  }

  lemma EntriesOfMap(m: map<string, string>)
    ensures forall e :: e in EntriesOf(m) ==> e.key in m && m[e.key] == e.path
    ensures MapOf(EntriesOf(m)) == m
  {
    hide MapOf, EntriesFor, Sorted, Less;
    EntriesMakeMap(m, Sorted(m.Keys));
  }

  /** Whatever is parsed can be printed in key order and parsed again to the same map. */
  lemma ParsedMapPrintsBack(raw: string)
    requires Parse(raw).Ok?
    ensures Parse(Print(EntriesOf(Parse(raw).value))) == Parse(raw)
  {
    hide TrimSpace, ParsePieces, Split, Print, Printable, EntriesOf, MapOf;
    var m := Parse(raw).value;
    assert AllPrintable(m) by {
      if TrimSpace(raw) != "" {
        PiecesHaveNoSeparator(TrimSpace(raw), ',');
        ParsedPiecesPrintable(Split(TrimSpace(raw), ','));
      }
    }
    hide Parse;
    EntriesOfMap(m);
    var es := EntriesOf(m);
    forall e | e in es
      ensures Printable(e)
    {
      assert e == Entry(e.key, m[e.key]);
    }
    ParsePrint(es);
  }

  // ----- Applying a map -----

  predicate Maps(repoMap: map<string, string>, key: string)
  {
    key in repoMap && repoMap[key] != ""
  }

  // A record of the golden file with this basename, after the map is applied.
  function Rewrite(rec: GoldenRecord, file: string, repoMap: map<string, string>): GoldenRecord
  {
    if Maps(repoMap, file) then rec.(repo := repoMap[file])
    else if rec.repo != "" && Maps(repoMap, rec.repo) then rec.(repo := repoMap[rec.repo])
    else rec
  }

  function RewriteAll(recs: seq<GoldenRecord>, file: string, repoMap: map<string, string>): (r: seq<GoldenRecord>)
    ensures |r| == |recs|
  {
    seq(|recs|, i requires 0 <= i < |recs| => Rewrite(recs[i], file, repoMap))
  }

  function Mapped(perRepo: map<string, seq<GoldenRecord>>, repoMap: map<string, string>)
    : map<string, seq<GoldenRecord>>
  {
    map f | f in perRepo :: RewriteAll(perRepo[f], f, repoMap)
  }

  // The keys that the records of one file use.
  function UsedBy(file: string, recs: seq<GoldenRecord>, repoMap: map<string, string>): set<string>
  {
    if Maps(repoMap, file) then {file}
    else set r | r in recs && r.repo != "" && Maps(repoMap, r.repo) :: r.repo
  }

  function Used(perRepo: map<string, seq<GoldenRecord>>, repoMap: map<string, string>): set<string>
  {
    set f, k | f in perRepo && k in UsedBy(f, perRepo[f], repoMap) :: k
  }

  class GoldenSet {
    var perRepo: map<string, seq<GoldenRecord>>

    /** The files are ranged over in any order and rewritten in place; the result is the same
        for every order. */
    method ApplyRepoMap(repoMap: map<string, string>) returns (unmatched: seq<string>)
      modifies this
      ensures perRepo == Mapped(old(perRepo), repoMap)
      ensures unmatched == Sorted(repoMap.Keys - Used(old(perRepo), repoMap))
    {
      if |repoMap| == 0 {
        NothingMapped(perRepo, repoMap);
        return [];
      }
      hide FilesMapped, Mapped, Used, UsedBy, RewriteAll, Sorted, Ascending;
      var used: set<string> := {};
      var rest := perRepo.Keys;
      NoFileMapped(perRepo, repoMap);
      while rest != {}
        invariant rest <= perRepo.Keys
        invariant FilesMapped(old(perRepo), perRepo, repoMap, rest, used)
        decreases |rest|
      {
        var file :| file in rest;
        ghost var now, before := perRepo, used;
        if file in repoMap && repoMap[file] != "" {
          used := used + {file};
          RewriteByBasename(file, repoMap);
        } else {
          used := RewriteBySlug(file, repoMap, used);
        }
        OneMoreFile(old(perRepo), now, repoMap, rest, before, file, perRepo, used);
        rest := rest - {file};
      }
      AllFilesMapped(old(perRepo), perRepo, repoMap, used);
      var missing := map k | k in repoMap && k !in used :: repoMap[k];
      assert missing.Keys == repoMap.Keys - used;
      unmatched := SortedKeys(missing);
    }

    method RewriteByBasename(file: string, repoMap: map<string, string>)
      requires file in perRepo && Maps(repoMap, file)
      modifies this
      ensures perRepo == old(perRepo)[file := RewriteAll(old(perRepo)[file], file, repoMap)]
    {
      var n := |perRepo[file]|;
      for i := 0 to n
        invariant RecordsMapped(old(perRepo), perRepo, file, repoMap, i)
      {
        perRepo := perRepo[file := perRepo[file][i := perRepo[file][i].(repo := repoMap[file])]];
      }
      AllRecordsMapped(old(perRepo), perRepo, file, repoMap);
    }

    method RewriteBySlug(file: string, repoMap: map<string, string>, used: set<string>) returns (out: set<string>)
      requires file in perRepo && !Maps(repoMap, file)
      modifies this
      ensures perRepo == old(perRepo)[file := RewriteAll(old(perRepo)[file], file, repoMap)]
      ensures out == used + UsedBy(file, old(perRepo)[file], repoMap)
    {
      hide UsedBy;
      var records := perRepo[file];
      out := used;
      UsedByNone(file, repoMap);
      for i := 0 to |records|
        invariant RecordsMapped(old(perRepo), perRepo, file, repoMap, i)
        invariant out == used + UsedBy(file, records[..i], repoMap)
      {
        var rec := records[i];
        UsedByAppend(file, records[..i], rec, repoMap);
        assert records[..i+1] == records[..i] + [rec];
        if rec.repo == "" {
          continue;
        }
        if rec.repo in repoMap && repoMap[rec.repo] != "" {
          out := out + {rec.repo};
          perRepo := perRepo[file := perRepo[file][i := perRepo[file][i].(repo := repoMap[rec.repo])]];
        }
      }
      assert records[..|records|] == records;
      AllRecordsMapped(old(perRepo), perRepo, file, repoMap);
    }
  }

  type Golden = map<string, seq<GoldenRecord>>

  // The first n records of one file are rewritten, and nothing else.
  ghost predicate RecordsMapped(before: Golden, now: Golden, file: string, repoMap: map<string, string>, n: nat)
  {
    && file in before && now.Keys == before.Keys
    && (forall f :: f in now && f != file ==> now[f] == before[f])
    && |now[file]| == |before[file]|
    && forall j :: 0 <= j < |now[file]| ==>
      now[file][j] == if j < n then Rewrite(before[file][j], file, repoMap) else before[file][j]
  }

  lemma AllRecordsMapped(before: Golden, now: Golden, file: string, repoMap: map<string, string>)
    requires file in before && RecordsMapped(before, now, file, repoMap, |before[file]|)
    ensures now == before[file := RewriteAll(before[file], file, repoMap)]
  {
    hide Rewrite;
    assert now[file] == RewriteAll(before[file], file, repoMap);
  }

  // Every file but those in rest is rewritten, and used is what they used.
  ghost predicate FilesMapped(before: Golden, now: Golden, repoMap: map<string, string>,
                              rest: set<string>, used: set<string>)
  {
    && now.Keys == before.Keys
    && (forall f :: f in before ==>
          now[f] == if f in rest then before[f] else RewriteAll(before[f], f, repoMap))
    && forall k :: k in used <==> exists f :: f in before && f !in rest && k in UsedBy(f, before[f], repoMap)
  }

  lemma NoFileMapped(before: Golden, repoMap: map<string, string>)
    ensures FilesMapped(before, before, repoMap, before.Keys, {})
  {}

  lemma OneMoreFile(before: Golden, now: Golden, repoMap: map<string, string>, rest: set<string>,
                    used: set<string>, file: string, next: Golden, usedNext: set<string>)
    requires FilesMapped(before, now, repoMap, rest, used) && file in rest && file in before
    requires next == now[file := RewriteAll(now[file], file, repoMap)]
    requires usedNext == used + UsedBy(file, now[file], repoMap) || (Maps(repoMap, file) && usedNext == used + {file})
    ensures FilesMapped(before, next, repoMap, rest - {file}, usedNext)
  {
    assert usedNext == used + UsedBy(file, before[file], repoMap);
    hide UsedBy, RewriteAll;
    forall k
      ensures k in usedNext <==>
        exists f :: f in before && f !in rest - {file} && k in UsedBy(f, before[f], repoMap)
    {
      if k in UsedBy(file, before[file], repoMap) {
        assert file !in rest - {file};
      }
    }
  }

  lemma AllFilesMapped(before: Golden, now: Golden, repoMap: map<string, string>, used: set<string>)
    requires FilesMapped(before, now, repoMap, {}, used)
    ensures now == Mapped(before, repoMap) && used == Used(before, repoMap)
  {
    hide UsedBy, RewriteAll;
  }

  lemma UsedByNone(file: string, repoMap: map<string, string>)
    requires !Maps(repoMap, file)
    ensures UsedBy(file, [], repoMap) == {}
  {}

  lemma NothingMapped(perRepo: map<string, seq<GoldenRecord>>, repoMap: map<string, string>)
    requires |repoMap| == 0
    ensures perRepo == Mapped(perRepo, repoMap)
    ensures [] == Sorted(repoMap.Keys - Used(perRepo, repoMap))
  {
    assert repoMap == map[];
    forall f | f in perRepo
      ensures RewriteAll(perRepo[f], f, repoMap) == perRepo[f]
    {}
  }

  lemma UsedByAppend(file: string, recs: seq<GoldenRecord>, rec: GoldenRecord, repoMap: map<string, string>)
    requires !Maps(repoMap, file)
    ensures UsedBy(file, recs + [rec], repoMap)
         == UsedBy(file, recs, repoMap) + if rec.repo != "" && Maps(repoMap, rec.repo) then {rec.repo} else {}
  {
    hide Maps;
    assert rec in recs + [rec] && forall r :: r in recs ==> r in recs + [rec];
  }

  /** A key is reported as unmatched exactly when its path is empty, or it is no golden file's
      basename and no record carries it in a file that is not itself mapped. */
  lemma UnmatchedIff(perRepo: map<string, seq<GoldenRecord>>, repoMap: map<string, string>, key: string)
    requires key in repoMap
    ensures key in Sorted(repoMap.Keys - Used(perRepo, repoMap)) <==>
      || repoMap[key] == ""
      || (&& key !in perRepo
          && forall f, r :: f in perRepo && !Maps(repoMap, f) && r in perRepo[f] && r.repo == key ==> key == "")
  {
    hide Sorted, Less;
    var missing := repoMap.Keys - Used(perRepo, repoMap);
    assert key in Sorted(missing) <==> key in Elements(Sorted(missing));
    if key in Used(perRepo, repoMap) {
      var f :| f in perRepo && key in UsedBy(f, perRepo[f], repoMap);
    } else if key in perRepo {
      assert key !in UsedBy(key, perRepo[key], repoMap);
    } else {
      forall f, r | f in perRepo && !Maps(repoMap, f) && r in perRepo[f] && r.repo == key && repoMap[key] != ""
        ensures key == ""
      {
        assert key !in UsedBy(f, perRepo[f], repoMap);
      }
    }
  }

  // Does the fallback send the record's repo on to a path that the map would send on again?
  predicate Chains(rec: GoldenRecord, file: string, repoMap: map<string, string>)
  {
    && !Maps(repoMap, file) && rec.repo != "" && Maps(repoMap, rec.repo)
    && Maps(repoMap, repoMap[rec.repo]) && repoMap[repoMap[rec.repo]] != repoMap[rec.repo]
  }

  ghost predicate SomeChain(perRepo: map<string, seq<GoldenRecord>>, repoMap: map<string, string>)
  {
    exists f, i :: f in perRepo && 0 <= i < |perRepo[f]| && Chains(perRepo[f][i], f, repoMap)
  }

  lemma RewriteTwice(rec: GoldenRecord, file: string, repoMap: map<string, string>)
    ensures Rewrite(Rewrite(rec, file, repoMap), file, repoMap) == Rewrite(rec, file, repoMap)
            <==> !Chains(rec, file, repoMap)
  {}

  /** One application never follows a chain of keys, and a second one changes nothing if and
      only if no record's new path is itself a key that the map sends elsewhere. */
  lemma ApplyTwiceIffNoChain(perRepo: map<string, seq<GoldenRecord>>, repoMap: map<string, string>)
    ensures Mapped(Mapped(perRepo, repoMap), repoMap) == Mapped(perRepo, repoMap) <==> !SomeChain(perRepo, repoMap)
  {
    hide Rewrite, Chains;
    var once := Mapped(perRepo, repoMap);
    var twice := Mapped(once, repoMap);
    forall f, i | f in perRepo && 0 <= i < |perRepo[f]|
      ensures once[f][i] == Rewrite(perRepo[f][i], f, repoMap)
      ensures twice[f][i] == once[f][i] <==> !Chains(perRepo[f][i], f, repoMap)
    {
      RewriteTwice(perRepo[f][i], f, repoMap);
    }
    if !SomeChain(perRepo, repoMap) {
      forall f | f in perRepo
        ensures twice[f] == once[f]
      {}
    } else {
      var f, i :| f in perRepo && 0 <= i < |perRepo[f]| && Chains(perRepo[f][i], f, repoMap);
      assert twice[f][i] != once[f][i];
    }
  }
}
