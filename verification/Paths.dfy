/** path/filepath on Unix: Clean, Join and Base, with what the file pointer needs of them. */
module Paths {
  import opened Seqs
  import T = Text

  // One component against the stack of those kept so far.
  function Push(stack: seq<string>, c: string, rooted: bool): seq<string>
  {
    if c == "" || c == "." then stack
    else if c == ".." then
      if stack != [] && stack[|stack|-1] != ".." then stack[..|stack|-1]
      else if rooted then stack else stack + [c]
    else stack + [c]
  }

  function Reduce(comps: seq<string>, rooted: bool): seq<string>
  {
    if comps == [] then [] else Push(Reduce(comps[..|comps|-1], rooted), comps[|comps|-1], rooted)
  }

  function Clean(path: string): string
  {
    if path == "" then "."
    else
      var rooted := path[0] == '/';
      var kept := Reduce(T.Split(path, '/'), rooted);
      if rooted then "/" + T.Join(kept, '/') else if kept == [] then "." else T.Join(kept, '/')
  }

  // filepath.Join of two non-empty elements.
  function JoinPath(dir: string, file: string): string { Clean(dir + "/" + file) }

  function StripSlashes(path: string): string
  {
    if path != "" && path[|path|-1] == '/' then StripSlashes(path[..|path|-1]) else path
  }

  function Base(path: string): string
  {
    if path == "" then "."
    else
      var p := StripSlashes(path);
      if p == "" then "/" else T.Split(p, '/')[|T.Split(p, '/')|-1]
  }

  // The length of the components with one slash each.
  function Size(comps: seq<string>): nat
  {
    if comps == [] then 0 else Size(comps[..|comps|-1]) + |comps[|comps|-1]| + 1
  }

  lemma {:induction false} SizeAppend(a: seq<string>, b: seq<string>)
    ensures Size(a + b) == Size(a) + Size(b)
  {
    if b == [] {
      assert a + b == a;
    } else {
      SizeAppend(a, b[..|b|-1]);
      assert (a + b)[..|a+b|-1] == a + b[..|b|-1];
    }
  }

  lemma {:induction false} SplitSize(s: string)
    ensures Size(T.Split(s, '/')) == |s| + 1
    decreases |s|
  {
    match T.Cut(s, '/')
    case None =>
      SizeAppend([], [s]);
      assert [s][..0] == [];
    case Some((a, b)) =>
      SplitSize(b);
      SizeAppend([a], T.Split(b, '/'));
      assert [a][..0] == [];
  }

  lemma {:induction false} JoinSize(parts: seq<string>)
    requires parts != []
    ensures |T.Join(parts, '/')| == Size(parts) - 1
  {
    assert parts[..1] == [parts[0]] && [parts[0]][..0] == [];
    assert Size([parts[0]]) == |parts[0]| + 1;
    if |parts| > 1 {
      JoinSize(parts[1..]);
      SizeAppend([parts[0]], parts[1..]);
      assert parts == [parts[0]] + parts[1..];
    } else {
      assert parts == [parts[0]];
    }
  }

  lemma {:induction false} ReduceSize(comps: seq<string>, rooted: bool)
    ensures Size(Reduce(comps, rooted)) <= Size(comps)
    ensures comps != [] && comps[0] == "" ==> Size(Reduce(comps, rooted)) + 1 <= Size(comps)
  {
    if comps != [] {
      var init, c := comps[..|comps|-1], comps[|comps|-1];
      ReduceSize(init, rooted);
      SizeAppend(Reduce(init, rooted), [c]);
      assert [c][..0] == [];
      assert init != [] ==> init[0] == comps[0];
    }
  }

  lemma SplitHead(s: string)
    ensures s != "" && s[0] == '/' ==> T.Split(s, '/')[0] == ""
  {
    if s != "" && s[0] == '/' {
      assert s == "" + ['/'] + s[1..];
      T.CutUnique("", '/', s[1..]);
    }
  }

  /** Cleaning never lengthens a non-empty path. */
  lemma CleanShortens(path: string)
    requires path != ""
    ensures |Clean(path)| <= |path|
  {
    var comps := T.Split(path, '/');
    var kept := Reduce(comps, path[0] == '/');
    SplitSize(path);
    SplitHead(path);
    ReduceSize(comps, path[0] == '/');
    if kept != [] {
      JoinSize(kept);
    }
  }

  // ----- Cleaning keeps the directory that is named -----

  // Following one component from the directory with these names below the root.
  function Enter(at: seq<string>, c: string): seq<string>
  {
    if c == "" || c == "." then at
    else if c == ".." then if at == [] then [] else at[..|at|-1]
    else at + [c]
  }

  function Follow(at: seq<string>, comps: seq<string>): seq<string>
  {
    if comps == [] then at else Enter(Follow(at, comps[..|comps|-1]), comps[|comps|-1])
  }

  // Where a path leads from a working directory, in a tree without symbolic links.
  function Destination(cwd: seq<string>, path: string): seq<string>
  {
    Follow(if path != "" && path[0] == '/' then [] else cwd, T.Split(path, '/'))
  }

  // Parent directories only in front, and none from the root.
  predicate Reduced(comps: seq<string>, rooted: bool)
  {
    && (forall c :: c in comps ==> c != "" && c != ".")
    && (forall i :: 0 <= i < |comps| && comps[i] == ".." ==> !rooted && forall j :: 0 <= j < i ==> comps[j] == "..")
  }

  lemma PushReduced(stack: seq<string>, c: string, rooted: bool)
    requires Reduced(stack, rooted)
    ensures Reduced(Push(stack, c, rooted), rooted)
    ensures forall x :: x in Push(stack, c, rooted) ==> x in stack || x == c
  {
    if stack != [] {
      var init := stack[..|stack|-1];
      assert forall x :: x in init ==> x in stack;
    }
    assert forall x :: x in stack + [c] ==> x in stack || x == c;
  }

  lemma {:induction false} ReduceReduced(comps: seq<string>, rooted: bool)
    ensures Reduced(Reduce(comps, rooted), rooted)
    ensures forall c :: c in Reduce(comps, rooted) ==> c in comps
  {
    if comps != [] {
      hide Reduced, Push;
      var init, c := comps[..|comps|-1], comps[|comps|-1];
      ReduceReduced(init, rooted);
      PushReduced(Reduce(init, rooted), c, rooted);
      assert comps == init + [c];
    }
  }

  lemma {:induction false} ReduceFollows(at: seq<string>, comps: seq<string>, rooted: bool)
    requires rooted ==> at == []
    ensures Follow(at, Reduce(comps, rooted)) == Follow(at, comps)
  {
    if comps != [] {
      var init, c := comps[..|comps|-1], comps[|comps|-1];
      ReduceFollows(at, init, rooted);
      ReduceReduced(init, rooted);
      PushFollows(at, Reduce(init, rooted), c, rooted);
    }
  }

  lemma PushFollows(at: seq<string>, stack: seq<string>, c: string, rooted: bool)
    requires Reduced(stack, rooted) && (rooted ==> at == [])
    ensures Follow(at, Push(stack, c, rooted)) == Enter(Follow(at, stack), c)
  {
    var more := stack + [c];
    assert more[..|more|-1] == stack;
    if stack != [] {
      var top := stack[|stack|-1];
      assert top in stack;
      assert Follow(at, stack) == Enter(Follow(at, stack[..|stack|-1]), top);
    }
  }

  lemma {:induction false} SplitFree(s: string)
    ensures forall c :: c in T.Split(s, '/') ==> '/' !in c
    decreases |s|
  {
    match T.Cut(s, '/')
    case None =>
    case Some((a, b)) => SplitFree(b);
  }

  // The components of a cleaned path, after the empty one in front of a leading slash.
  lemma CleanParts(path: string)
    requires path != ""
    ensures var rooted := path[0] == '/';
      var kept, clean := Reduce(T.Split(path, '/'), rooted), Clean(path);
      && clean != "" && (clean[0] == '/' <==> rooted)
      && T.Split(clean, '/')
         == (if rooted then [""] else []) + (if kept != [] then kept else if rooted then [""] else ["."])
  {
    hide Reduce;
    var rooted, comps := path[0] == '/', T.Split(path, '/');
    var kept := Reduce(comps, rooted);
    SplitFree(path);
    ReduceReduced(comps, rooted);
    var joined := T.Join(kept, '/');
    if kept != [] {
      T.SplitJoin(kept, '/');
      assert kept[0] in kept;
      FirstPart(kept);
    }
    if rooted {
      T.SplitAppend("", '/', joined);
      assert "" + ['/'] + joined == "/" + joined;
      T.SplitNone("", '/');
    } else if kept == [] {
      T.SplitNone(".", '/');
    }
    if joined == "" {
      T.SplitNone("", '/');
    }
  }

  lemma FirstPart(parts: seq<string>)
    requires parts != [] && parts[0] != "" && '/' !in parts[0]
    ensures T.Join(parts, '/') != "" && T.Join(parts, '/')[0] == parts[0][0] != '/'
  {
    assert parts[0][0] in parts[0];
  }

  lemma FollowTwo(at: seq<string>, a: seq<string>, b: seq<string>)
    requires a == [""] || a == []
    ensures Follow(at, a + b) == Follow(at, b)
  {
    if b == [] {
      assert a + b == a && (a == [""] ==> a[..0] == []);
    } else {
      FollowTwo(at, a, b[..|b|-1]);
      assert (a + b)[..|a + b|-1] == a + b[..|b|-1];
    }
  }

  /** Cleaning keeps the directory a path leads to, from every working directory, and leaves no
      empty or "." component and a ".." only in front: a path's cleaned form is its shortest. */
  lemma CleanKeepsDestination(cwd: seq<string>, path: string) returns (kept: seq<string>)
    ensures Destination(cwd, Clean(path)) == Destination(cwd, path)
    ensures Reduced(kept, path != "" && path[0] == '/')
    ensures Clean(path) == "." || Clean(path) == "/"
         || T.Split(Clean(path), '/') == (if path != "" && path[0] == '/' then [""] else []) + kept
  {
    kept := [];
    if path == "" {
      T.SplitNone("", '/');
      T.SplitNone(".", '/');
      OneStep(cwd);
    } else {
      var rooted, comps := path[0] == '/', T.Split(path, '/');
      hide Reduce, Reduced, Enter;
      kept := Reduce(comps, rooted);
      var at := if rooted then [] else cwd;
      CleanParts(path);
      ReduceFollows(at, comps, rooted);
      ReduceReduced(comps, rooted);
      OneStep(at);
      FollowTwo(at, if rooted then [""] else [], if kept != [] then kept else if rooted then [""] else ["."]);
    }
  }

  lemma OneStep(at: seq<string>)
    ensures Follow(at, [""]) == at && Follow(at, ["."]) == at && Follow(at, []) == at
  {
    assert [""][..0] == [] && ["."][..0] == [];
  }

  // A file name that Clean leaves alone.
  predicate PlainName(file: string) { file != "" && '/' !in file && file != "." && file != ".." }

  lemma SplitLast(dir: string, file: string)
    requires '/' !in file
    ensures T.Split(dir + "/" + file, '/') == T.Split(dir, '/') + [file]
  {
    T.SplitAppend(dir, '/', file);
    T.SplitNone(file, '/');
  }

  // A joined sequence ends in its last part, after nothing or after a slash.
  lemma {:induction false} JoinLast(parts: seq<string>, file: string) returns (dir: string)
    requires parts != [] && parts[|parts|-1] == file
    ensures T.Join(parts, '/') == dir + file && (dir == "" || dir[|dir|-1] == '/')
  {
    if |parts| == 1 {
      dir := "";
    } else {
      var d := JoinLast(parts[1..], file);
      dir := parts[0] + ['/'] + d;
      assert dir + file == parts[0] + ['/'] + (d + file);
    }
  }

  lemma BaseOfLast(dir: string, file: string)
    requires PlainName(file) && (dir == "" || dir[|dir|-1] == '/')
    ensures Base(dir + file) == file
  {
    var p := dir + file;
    assert p[|p|-1] == file[|file|-1] && file[|file|-1] in file;
    assert StripSlashes(p) == p;
    if dir == "" {
      assert p == file && T.Cut(file, '/') == None;
    } else {
      assert p == dir[..|dir|-1] + "/" + file;
      SplitLast(dir[..|dir|-1], file);
    }
  }

  /** For every directory, joining a plain file name gives a path no longer than the two with
      a slash between, and its base is the file name. */
  lemma JoinPathKeepsName(dir: string, file: string)
    requires dir != "" && PlainName(file)
    ensures |JoinPath(dir, file)| <= |dir| + 1 + |file|
    ensures Base(JoinPath(dir, file)) == file
  {
    var path := dir + "/" + file;
    CleanShortens(path);
    SplitLast(dir, file);
    var rooted := path[0] == '/';
    var comps := T.Split(path, '/');
    assert comps[..|comps|-1] == T.Split(dir, '/') && comps[|comps|-1] == file;
    var kept := Reduce(comps, rooted);
    assert kept == Reduce(T.Split(dir, '/'), rooted) + [file];
    var d := JoinLast(kept, file);
    if rooted {
      assert Clean(path) == ("/" + d) + file;
      BaseOfLast("/" + d, file);
    } else {
      BaseOfLast(d, file);
    }
  }

  // What follows the last slash of s.
  function LastPart(s: string): (r: string)
    ensures '/' !in r && T.HasSuffix(s, r)
    ensures r == s || s[|s|-|r|-1] == '/'
  {
    if '/' !in s then s else LastPart(s[1..])
  }

  // The last part is no shorter than any ending without a slash.
  lemma LastPartKeeps(front: string, end: string)
    requires '/' !in end
    ensures |LastPart(front + end)| >= |end|
  {
    var s := front + end;
    assert forall i :: |front| <= i < |s| ==> s[i] == end[i-|front|];
  }

  /** The same for a file name with directories in it: the path grows by no more than the name and
      a slash, and its base is the last part of the name. */
  lemma JoinPathKeepsLastPart(dir: string, file: string)
    requires dir != "" && PlainName(LastPart(file))
    ensures |JoinPath(dir, file)| <= |dir| + 1 + |file|
    ensures Base(JoinPath(dir, file)) == LastPart(file)
  {
    var last := LastPart(file);
    if last == file {
      JoinPathKeepsName(dir, file);
    } else {
      var front := dir + "/" + file[..|file|-|last|-1];
      assert front + "/" + last == dir + "/" + file;
      JoinPathKeepsName(front, last);
    }
  }
}
