/** The duplicate-group filter: the hand-written itoa behind its cache keys, the body-length
    scan that the cache memoises, and the filter itself against its cache-free meaning. */
module DupFilter {
  import opened Seqs
  import opened Text

  // ----- itoa -----

  type Int = x: int | MIN_INT <= x <= MAX_INT

  // Negation of a machine integer wraps at the least one.
  function Negate(n: Int): Int { if n == MIN_INT then MIN_INT else -n }

  // What itoa prints.
  function Numeral(n: Int): string
  {
    if n == MIN_INT then "-" else if n < 0 then "-" + Decimal(-n) else Decimal(n)
  }

  lemma MachineIntBelow10To19(n: Int)
    ensures n < Pow10(19)
  {
    assert Pow10(5) == 100_000;
    assert Pow10(10) == 10_000_000_000;
    assert Pow10(15) == 1_000_000_000_000_000;
  }

  // The numeral of what is left to print; nothing for 0.
  function Leading(n: nat): string { if n == 0 then "" else Decimal(n) }

  lemma LastDigit(n: nat, k: nat)
    requires 0 < n < Pow10(k)
    ensures k > 0 && n / 10 < Pow10(k - 1)
    ensures Leading(n) == Leading(n / 10) + [Digit(n % 10)]
  {}

  lemma ZeroNumeral()
    ensures Decimal(0) == "0"
  {}

  /** The digits are written backwards into a 20-byte buffer, which never underruns. */
  method Itoa(value: Int) returns (s: string)
    ensures s == Numeral(value)
  {
    hide Decimal, Pow10, Digit, IsDigit;
    if value == 0 {
      ZeroNumeral();
      return "0";
    }
    var neg := value < 0;
    var n: int := value;
    if neg {
      n := Negate(value);
    }
    ghost var all := n;
    var buf := new char[20];
    var i := buf.Length;
    MachineIntBelow10To19(if neg then Negate(value) else value);
    assert buf[i..] == "";
    while n > 0
      invariant 1 <= i <= 20
      invariant all < 0 ==> n == all && i == 20
      invariant all > 0 ==> 0 <= n < Pow10(i - 1)
      invariant all > 0 ==> Decimal(all) == Leading(n) + buf[i..]
      decreases n
    {
      ghost var done := buf[i..];
      LastDigit(n, i - 1);
      assert all > 0 ==> Decimal(all) == Leading(n / 10) + ([Digit(n % 10)] + done);
      i := i - 1;
      buf[i] := Digit(n % 10);
      assert buf[i..] == [Digit(n % 10)] + done;
      n := n / 10;
    }
    if neg {
      ghost var digits := buf[i..];
      i := i - 1;
      buf[i] := '-';
      assert buf[i..] == "-" + digits;
    }
    s := buf[i..];
  }

  // Reading a numeral back: an optional sign and at least one digit.
  function ParseInt(s: string): Option<int>
  {
    if s != "" && (forall c :: c in s ==> IsDigit(c)) then Some(Value(s))
    else if |s| > 1 && s[0] == '-' && (forall c :: c in s[1..] ==> IsDigit(c)) then Some(-Value(s[1..]))
    else None
  }

  /** itoa prints every machine integer except the least one as a numeral for it. */
  lemma NumeralParses(n: Int)
    ensures ParseInt(Numeral(n)) == if n == MIN_INT then None else Some(n)
  {
    if n == MIN_INT {
      assert '-' in Numeral(n);
    } else if n < 0 {
      assert '-' in Numeral(n) && Numeral(n)[1..] == Decimal(-n);
      DecimalValue(-n);
    } else {
      DecimalValue(n);
    }
  }

  lemma NumeralInjective(m: Int, n: Int)
    requires Numeral(m) == Numeral(n)
    ensures m == n
  {
    NumeralParses(m);
    NumeralParses(n);
  }

  // ----- Cache keys -----

  function CacheKey(file: string, line: Int): string { file + ":" + Numeral(line) }

  lemma NumeralHasNoColon(n: Int)
    ensures ':' !in Numeral(n)
  {}

  /** file:line keys are injective, for files with colons and for every machine integer. */
  lemma CacheKeyInjective(f: string, m: Int, g: string, n: Int)
    requires CacheKey(f, m) == CacheKey(g, n)
    ensures f == g && m == n
  {
    NumeralHasNoColon(m);
    NumeralHasNoColon(n);
    LastColon(f, Numeral(m), g, Numeral(n));
    NumeralInjective(m, n);
  }

  lemma LastColon(a: string, b: string, c: string, d: string)
    requires a + ":" + b == c + ":" + d && ':' !in b && ':' !in d
    ensures a == c && b == d
  {
    var s, t := a + ":" + b, c + ":" + d;
    assert s[|a|] == ':' && t[|c|] == ':';
    assert s[|a|+1..] == b && t[|c|+1..] == d;
    assert forall i :: |a| < i < |s| ==> s[i] == b[i-|a|-1] && s[i] != ':';
    assert forall i :: |c| < i < |t| ==> t[i] == d[i-|c|-1] && t[i] != ':';
    assert |c| <= |a| && |a| <= |c|;
    assert s[..|a|] == a && t[..|c|] == c;
  }

  // ----- The body-length scan -----

  const SCAN_CAP := 5000

  // What the filter asks of its surroundings: filepath.Clean with slashes, the extension
  // table, strings.ToLower, and the scanned lines of a file under a root (None: unreadable).
  datatype Host = Host(
    clean: string -> string,
    language: string -> string,
    lower: string -> string,
    lines: (string, string) -> Option<seq<string>>)

  predicate IsBraced(lang: string) { lang != "python" && lang != "ruby" && lang != "" }

  predicate StartsAtCol0(s: string)
  {
    s != "" && !(s[0] < '\U{80}' && IsSpace(s[0])) && s[0] != '#' && s[0] != '@'
  }

  function Net(s: string): int
  {
    if s == "" then 0
    else Net(s[..|s|-1]) + (if s[|s|-1] == '{' then 1 else if s[|s|-1] == '}' then -1 else 0)
  }

  // The text of the first k lines.
  function TextOf(body: seq<string>, k: nat): string
    requires k <= |body|
  {
    if k == 0 then "" else TextOf(body, k - 1) + body[k - 1]
  }

  // The text up to and including p ends a body: it ends in a closing brace, has an opening
  // one, and has no more opening than closing ones.
  predicate ClosesAfter(p: string)
  {
    p != "" && p[|p|-1] == '}' && '{' in p && Net(p) <= 0
  }

  ghost predicate Ends(body: seq<string>, braced: bool, k: nat)
    requires k < |body|
  {
    if braced then exists j :: 0 < j <= |body[k]| && ClosesAfter(TextOf(body, k) + body[k][..j])
    else k > 0 && StartsAtCol0(body[k])
  }

  // The first line from k on that ends the body, within the scan cap.
  ghost function FirstEnd(body: seq<string>, braced: bool, k: nat): (r: Option<nat>)
    ensures r.Some? ==> k <= r.value < |body| && r.value < SCAN_CAP && Ends(body, braced, r.value)
    ensures r.Some? ==> forall m :: k <= m < r.value ==> !Ends(body, braced, m)
    ensures r.None? ==> forall m :: k <= m < |body| && m < SCAN_CAP ==> !Ends(body, braced, m)
    decreases |body| - k
  {
    if k >= |body| || k >= SCAN_CAP then None
    else if Ends(body, braced, k) then Some(k)
    else FirstEnd(body, braced, k + 1)
  }

  ghost function BodyLines(body: seq<string>, braced: bool): nat
  {
    match FirstEnd(body, braced, 0)
    case Some(k) => if braced then k + 1 else k
    case None => if |body| > SCAN_CAP then SCAN_CAP + 1 else |body|
  }

  ghost function LineCount(host: Host, root: string, file: string, line: Int): nat
  {
    if root == "" || file == "" || line <= 0 then 0
    else
      match host.lines(root, file)
      case None => 0
      case Some(ls) =>
        if |ls| < line then 0 else BodyLines(ls[line-1..], IsBraced(host.language(file)))
  }

  lemma NetAppend(p: string, c: char)
    ensures Net(p + [c]) == Net(p) + (if c == '{' then 1 else if c == '}' then -1 else 0)
  {
    assert (p + [c])[..|p|] == p;
  }

  // The brace scan of one line, given the depth before it.
  method ScanLine(ghost before: string, text: string, depth: int, seen: bool)
    returns (depth': int, seen': bool, closed: bool)
    requires depth == Net(before) && seen == ('{' in before)
    ensures closed <==> exists j :: 0 < j <= |text| && ClosesAfter(before + text[..j])
    ensures !closed ==> depth' == Net(before + text) && seen' == ('{' in before + text)
  {
    hide Net;
    depth', seen', closed := depth, seen, false;
    assert before + text[..0] == before;
    for j := 0 to |text|
      invariant depth' == Net(before + text[..j]) && seen' == ('{' in before + text[..j])
      invariant forall m :: 0 < m <= j ==> !ClosesAfter(before + text[..m])
    {
      assert before + text[..j+1] == before + text[..j] + [text[j]];
      NetAppend(before + text[..j], text[j]);
      if text[j] == '{' {
        depth' := depth' + 1;
        seen' := true;
      } else if text[j] == '}' {
        depth' := depth' - 1;
        if seen' && depth' <= 0 {
          assert ClosesAfter(before + text[..j+1]);
          closed := true;
          return;
        }
      }
    }
    assert text[..|text|] == text;
  }

  method SymbolLineCount(host: Host, root: string, file: string, startLine: Int) returns (count: nat)
    ensures count == LineCount(host, root, file, startLine)
  {
    if root == "" || file == "" || startLine <= 0 {
      return 0;
    }
    var read := host.lines(root, file);
    if read.None? {
      return 0;
    }
    var lines := read.value;
    if |lines| < startLine {
      return 0;
    }
    var braced := IsBraced(host.language(file));
    ghost var body := lines[startLine-1..];
    var depth, seen := 0, false;
    count := 0;
    while true
      invariant count < |body| && count <= SCAN_CAP
      invariant FirstEnd(body, braced, count) == FirstEnd(body, braced, 0)
      invariant braced ==> depth == Net(TextOf(body, count)) && seen == ('{' in TextOf(body, count))
      decreases |body| - count
    {
      var text := lines[startLine - 1 + count];
      assert text == body[count];
      count := count + 1;
      if count > SCAN_CAP {
        return;
      }
      if braced {
        var closed;
        depth, seen, closed := ScanLine(TextOf(body, count - 1), text, depth, seen);
        if closed {
          return;
        }
      } else if count > 1 && StartsAtCol0(text) {
        return count - 1;
      }
      if startLine - 1 + count >= |lines| {
        return;
      }
    }
  }

  // ----- The filter -----

  datatype DupSymbol = DupSymbol(file: string, line: Int)
  datatype DupGroup = DupGroup(tier: string, avgSimilarity: real, symbols: seq<DupSymbol>)
  datatype Opts = Opts(language: string, path: string, threshold: real, minLines: int, root: string)

  function NormalizePathPrefix(host: Host, path: string): string
  {
    var p := host.clean(path);
    if p == "" || p == "." || p == "/" then ""
    else
      var q := if HasPrefix(p, "/") then p[1..] else p;
      if q == "" then "" else if HasSuffix(q, "/") then q else q + "/"
  }

  predicate PathHasPrefix(host: Host, file: string, prefix: string)
  {
    var f := host.clean(file);
    HasPrefix(f, prefix) || f == (if HasSuffix(prefix, "/") then prefix[..|prefix|-1] else prefix)
  }

  // The directory that a path filter names: the cleaned path without a slash at either end.
  function FilterDir(host: Host, path: string): string
  {
    var p := host.clean(path);
    var q := if HasPrefix(p, "/") then p[1..] else p;
    if HasSuffix(q, "/") then q[..|q|-1] else q
  }

  /** A file passes the path filter if and only if the components of the filter's directory begin
      those of the file's cleaned path; an empty, "." or "/" path filters nothing. */
  lemma PathFilterComponents(host: Host, path: string, file: string)
    ensures NormalizePathPrefix(host, path) == "" <==> host.clean(path) in {"", ".", "/"}
    ensures var prefix := NormalizePathPrefix(host, path);
      prefix != "" ==>
        (PathHasPrefix(host, file, prefix)
         <==> Split(FilterDir(host, path), '/') <= Split(host.clean(file), '/'))
  {
    hide Split;
    var prefix, dir := NormalizePathPrefix(host, path), FilterDir(host, path);
    if prefix != "" {
      assert prefix == dir + "/";
      assert prefix[|prefix|-1..] == "/" && prefix[..|prefix|-1] == dir;
      BeginsIffParts(dir, '/', host.clean(file));
    }
  }

  // Without a cache: what it means for one symbol to pass the active filters.
  ghost predicate SymbolPasses(host: Host, opts: Opts, prefix: string, s: DupSymbol)
  {
    && (opts.language != "" ==> host.language(s.file) == host.lower(opts.language))
    && (prefix != "" ==> PathHasPrefix(host, s.file, prefix))
    && (opts.minLines > 0 ==> LineCount(host, opts.root, s.file, s.line) >= opts.minLines)
  }

  ghost predicate Passes(host: Host, opts: Opts, g: DupGroup)
  {
    && (opts.threshold > 0.0 && g.tier != "exact" ==> g.avgSimilarity >= opts.threshold)
    && forall s :: s in g.symbols ==> SymbolPasses(host, opts, NormalizePathPrefix(host, opts.path), s)
  }

  // Every entry under the key of a symbol is that symbol's line count.
  ghost predicate CacheSound(host: Host, root: string, cache: map<string, int>)
  {
    forall f: string, l: Int :: CacheKey(f, l) in cache ==> cache[CacheKey(f, l)] == LineCount(host, root, f, l)
  }

  lemma CacheStaysSound(host: Host, root: string, cache: map<string, int>, f: string, l: Int)
    requires CacheSound(host, root, cache)
    ensures CacheSound(host, root, cache[CacheKey(f, l) := LineCount(host, root, f, l)])
  {
    forall g: string, m: Int | CacheKey(g, m) == CacheKey(f, l)
      ensures g == f && m == l
    {
      CacheKeyInjective(g, m, f, l);
    }
  }

  class LineCache {
    var counts: map<string, int>

    constructor ()
      ensures counts == map[]
    {
      counts := map[];
    }

    method GroupPasses(host: Host, g: DupGroup, opts: Opts, pathPrefix: string) returns (ok: bool)
      requires CacheSound(host, opts.root, counts)
      requires pathPrefix == NormalizePathPrefix(host, opts.path)
      modifies this
      ensures CacheSound(host, opts.root, counts)
      ensures ok <==> Passes(host, opts, g)
    {
      hide LineCount, CacheSound;
      if opts.threshold > 0.0 && g.tier != "exact" && g.avgSimilarity < opts.threshold {
        return false;
      }
      for i := 0 to |g.symbols|
        invariant CacheSound(host, opts.root, counts)
        invariant forall s :: s in g.symbols[..i] ==> SymbolPasses(host, opts, pathPrefix, s)
      {
        var s := g.symbols[i];
        assert s in g.symbols && g.symbols[..i+1] == g.symbols[..i] + [s];
        if opts.language != "" && host.language(s.file) != host.lower(opts.language) {
          return false;
        }
        if pathPrefix != "" && !PathHasPrefix(host, s.file, pathPrefix) {
          return false;
        }
        if opts.minLines > 0 {
          var n := Lookup(host, opts.root, s);
          if n < opts.minLines {
            return false;
          }
        }
      }
      assert g.symbols[..|g.symbols|] == g.symbols;
      return true;
    }

    // The memoised line count.
    method Lookup(host: Host, root: string, s: DupSymbol) returns (n: int)
      requires CacheSound(host, root, counts)
      modifies this
      ensures CacheSound(host, root, counts)
      ensures n == LineCount(host, root, s.file, s.line)
    {
      var digits := Itoa(s.line);
      var key := s.file + ":" + digits;
      assert key == CacheKey(s.file, s.line);
      if key in counts {
        n := counts[key];
      } else {
        n := SymbolLineCount(host, root, s.file, s.line);
        CacheStaysSound(host, root, counts, s.file, s.line);
        counts := counts[key := n];
      }
    }
  }

  ghost function PassesFilter(host: Host, opts: Opts): DupGroup -> bool { g => Passes(host, opts, g) }

  lemma {:induction false} FilterAll<T>(s: seq<T>, p: T -> bool)
    requires forall i :: 0 <= i < |s| ==> p(s[i])
    ensures Filter(s, p) == s
  {
    if s != [] {
      FilterAll(s[..|s|-1], p);
      assert s[..|s|-1] + [s[|s|-1]] == s;
    }
  }

  /** The memoised filter keeps, in order, exactly the groups that pass without a cache.
      clean("") == "." is what filepath.Clean documents. */
  method FilterDupGroups(host: Host, groups: seq<DupGroup>, opts: Opts) returns (out: seq<DupGroup>)
    requires host.clean("") == "."
    ensures out == Filter(groups, PassesFilter(host, opts))
  {
    hide LineCount;
    if opts.language == "" && opts.path == "" && opts.threshold <= 0.0 && opts.minLines <= 0 {
      assert NormalizePathPrefix(host, opts.path) == "";
      FilterAll(groups, PassesFilter(host, opts));
      return groups;
    }
    var pathPrefix := NormalizePathPrefix(host, opts.path);
    var cache := new LineCache();
    out := [];
    for i := 0 to |groups|
      invariant CacheSound(host, opts.root, cache.counts)
      invariant out == Filter(groups[..i], PassesFilter(host, opts))
    {
      assert groups[..i+1] == groups[..i] + [groups[i]];
      FilterAppend(groups[..i], groups[i], PassesFilter(host, opts));
      var ok := cache.GroupPasses(host, groups[i], opts, pathPrefix);
      if !ok {
        continue;
      }
      out := out + [groups[i]];
    }
    assert groups[..|groups|] == groups;
  }
}
