/** The parts of Go's strings and strconv packages that the models use.
    A string is a sequence of code points; ByteLen gives its length in bytes. */
module Text {
  import opened Seqs
  import opened Utf8

  predicate IsSpace(c: char)
  {
    || '\t' <= c <= '\r' || c == ' ' || c == '\U{85}' || c == '\U{A0}' || c == '\U{1680}'
    || '\U{2000}' <= c <= '\U{200A}' || c == '\U{2028}' || c == '\U{2029}'
    || c == '\U{202F}' || c == '\U{205F}' || c == '\U{3000}'
  }

  function ByteLen(s: string): (n: nat)
    ensures n >= |s|
  {
    if s == "" then 0 else ByteLen(s[..|s|-1]) + CharBytes(s[|s|-1])
  }

  // How many bytes UTF-8 takes for c.
  function CharBytes(c: char): nat
  {
    if c < '\U{80}' then 1 else if c < '\U{800}' then 2 else if c < '\U{10000}' then 3 else 4
  }

  function Runes(s: string): seq<Scalar> { Map(s, c => c as int) }

  // The length in bytes is that of the UTF-8 encoding.
  lemma {:induction false} ByteLenIsEncoded(s: string)
    ensures |Encode(Runes(s))| == ByteLen(s)
  {
    if s != "" {
      var init, last := s[..|s|-1], s[|s|-1] as int;
      ByteLenIsEncoded(init);
      assert Runes(s) == Runes(init) + [last];
      EncodeConcat(Runes(init), [last]);
      assert Encode([last]) == EncodeRune(last) + Encode([]);
    }
  }

  predicate HasPrefix(s: string, p: string) { |p| <= |s| && s[..|p|] == p }

  predicate HasSuffix(s: string, p: string) { |p| <= |s| && s[|s|-|p|..] == p }

  // No white space at either end.
  predicate Trimmed(s: string)
  {
    s == "" || (!IsSpace(s[0]) && !IsSpace(s[|s|-1]))
  }

  function TrimSpace(s: string): (t: string)
    ensures Trimmed(t)
    ensures Trimmed(s) ==> t == s
  {
    if s == "" then ""
    else if IsSpace(s[0]) then TrimSpace(s[1..])
    else if IsSpace(s[|s|-1]) then TrimSpace(s[..|s|-1])
    else s
  }

  // Trimming gives up white space at the two ends, and nothing else.
  lemma {:induction false} TrimSpaceGivesUp(s: string) returns (i: nat, j: nat)
    ensures i <= j <= |s| && TrimSpace(s) == s[i..j]
    ensures forall k :: 0 <= k < i || j <= k < |s| ==> IsSpace(s[k])
  {
    hide IsSpace;
    if s == "" || (!IsSpace(s[0]) && !IsSpace(s[|s|-1])) {
      i, j := 0, |s|;
      assert s[0..|s|] == s;
    } else if IsSpace(s[0]) {
      var a, b := TrimSpaceGivesUp(s[1..]);
      i, j := a + 1, b + 1;
      assert s[1..][a..b] == s[i..j];
      assert forall k :: 0 < k < |s| ==> s[k] == s[1..][k-1];
    } else {
      i, j := TrimSpaceGivesUp(s[..|s|-1]);
      assert s[..|s|-1][i..j] == s[i..j];
    }
  }

  // White space around trimmed text is all that trimming removes.
  lemma {:induction false} TrimSpaceOf(before: string, s: string, after: string)
    requires Trimmed(s) && (s == "" ==> after == "")
    requires forall c :: c in before || c in after ==> IsSpace(c)
    ensures TrimSpace(before + s + after) == s
  {
    hide IsSpace;
    if before != "" {
      TrimSpaceOf(before[1..], s, after);
      assert before[0] in before && (before + s + after)[1..] == before[1..] + s + after;
    } else if after != "" {
      var init, last := after[..|after|-1], after[|after|-1];
      TrimSpaceOf("", s, init);
      var t := before + s + after;
      assert last in after && t[|t|-1] == last && t[..|t|-1] == "" + s + init && t[0] == s[0];
    } else {
      assert before + s + after == s;
    }
  }

  // The first index at which sub occurs in s, or -1.
  function Index(s: string, sub: string): (i: int)
    ensures -1 <= i <= |s|
    ensures i >= 0 ==> HasPrefix(s[i..], sub)
    ensures forall j :: 0 <= j <= |s| && (i < 0 || j < i) ==> !HasPrefix(s[j..], sub)
  {
    if HasPrefix(s, sub) then assert s[0..] == s; 0
    else if s == "" then -1
    else
      var i := Index(s[1..], sub);
      assert forall j :: 0 < j <= |s| ==> s[j..] == s[1..][j-1..];
      assert s[0..] == s;
      if i < 0 then -1 else i + 1
  }

  // The parts before and after the first c, if s contains c.
  function Cut(s: string, c: char): (r: Option<(string, string)>)
    ensures r.None? <==> c !in s
    ensures r.Some? ==> s == r.value.0 + [c] + r.value.1 && c !in r.value.0
  {
    if s == "" then None
    else if s[0] == c then Some(("", s[1..]))
    else
      match Cut(s[1..], c)
      case None => None
      case Some((a, b)) => Some(([s[0]] + a, b))
  }

  // Cutting is determined by the first separator.
  lemma {:induction false} CutUnique(a: string, c: char, b: string)
    requires c !in a
    ensures Cut(a + [c] + b, c) == Some((a, b))
  {
    if a == "" {
      assert (a + [c] + b)[1..] == b;
    } else {
      CutUnique(a[1..], c, b);
      assert (a + [c] + b)[1..] == a[1..] + [c] + b;
      assert [a[0]] + a[1..] == a;
    }
  }

  // strings.Split on one character.
  function Split(s: string, c: char): (parts: seq<string>)
    ensures |parts| > 0
    decreases |s|
  {
    match Cut(s, c)
    case None => [s]
    case Some((a, b)) => [a] + Split(b, c)
  }

  function Join(parts: seq<string>, c: char): string
  {
    if parts == [] then "" else if |parts| == 1 then parts[0]
    else parts[0] + [c] + Join(parts[1..], c)
  }

  lemma {:induction false} JoinSplit(s: string, c: char)
    ensures Join(Split(s, c), c) == s
    decreases |s|
  {
    if Cut(s, c).Some? {
      JoinSplit(Cut(s, c).value.1, c);
    }
  }

  lemma {:induction false} SplitAppend(a: string, c: char, b: string)
    ensures Split(a + [c] + b, c) == Split(a, c) + Split(b, c)
    decreases |a|
  {
    hide Split, Cut;
    match Cut(a, c)
    case None =>
      CutUnique(a, c, b);
      SplitNone(a, c);
      SplitSome(a + [c] + b, c, a, b);
    case Some((x, y)) =>
      CutUnique(x, c, y + [c] + b);
      assert a + [c] + b == x + [c] + (y + [c] + b);
      SplitSome(a, c, x, y);
      SplitSome(a + [c] + b, c, x, y + [c] + b);
      SplitAppend(y, c, b);
  }

  lemma SplitNone(s: string, c: char)
    requires c !in s
    ensures Split(s, c) == [s]
  {}

  lemma SplitSome(s: string, c: char, a: string, b: string)
    requires Cut(s, c) == Some((a, b))
    ensures Split(s, c) == [a] + Split(b, c)
  {
    hide Cut;
  }

  lemma {:induction false} SplitJoin(parts: seq<string>, c: char)
    requires |parts| > 0 && forall p :: p in parts ==> c !in p
    ensures Split(Join(parts, c), c) == parts
  {
    hide Split, Cut;
    if |parts| == 1 {
      SplitNone(parts[0], c);
    } else {
      var rest := Join(parts[1..], c);
      assert parts[0] in parts;
      CutUnique(parts[0], c, rest);
      SplitSome(Join(parts, c), c, parts[0], rest);
      SplitJoin(parts[1..], c);
      assert parts == [parts[0]] + parts[1..];
    }
  }

  lemma {:induction false} JoinAppend(ps: seq<string>, c: char, qs: seq<string>)
    requires |ps| > 0 && |qs| > 0
    ensures Join(ps + qs, c) == Join(ps, c) + [c] + Join(qs, c)
  {
    if |ps| == 1 {
      assert (ps + qs)[1..] == qs;
    } else {
      JoinAppend(ps[1..], c, qs);
      assert (ps + qs)[1..] == ps[1..] + qs;
    }
  }

  // A string is another one, or begins with it and a separator, exactly when its parts begin with the
  // other's.
  lemma BeginsIffParts(s: string, c: char, t: string)
    ensures t == s || HasPrefix(t, s + [c]) <==> Split(s, c) <= Split(t, c)
  {
    hide Split, Join;
    var ps, qs := Split(s, c), Split(t, c);
    if HasPrefix(t, s + [c]) {
      var rest := t[|s|+1..];
      assert t == s + [c] + rest;
      SplitAppend(s, c, rest);
    }
    if ps <= qs {
      JoinSplit(s, c);
      JoinSplit(t, c);
      var rest := qs[|ps|..];
      assert qs == ps + rest;
      if rest == [] {
        assert qs == ps;
      } else {
        JoinAppend(ps, c, rest);
        assert t == s + [c] + Join(rest, c);
        assert t[..|s|+1] == s + [c];
      }
    }
  }

  // ----- Decimal numerals -----

  // The machine integers of a 64-bit Go program.
  const MIN_INT := -0x8000_0000_0000_0000
  const MAX_INT := 0x7FFF_FFFF_FFFF_FFFF

  function Digit(d: nat): char
    requires d < 10
  {
    '0' + d as char
  }

  predicate IsDigit(c: char) { '0' <= c <= '9' }

  function Decimal(n: nat): (s: string)
    ensures |s| > 0 && (forall c :: c in s ==> IsDigit(c))
    ensures n > 0 ==> s[0] != '0'
  {
    if n < 10 then [Digit(n)] else Decimal(n / 10) + [Digit(n % 10)]
  }

  // The number a string of digits denotes.
  function Value(s: string): int
    requires forall c :: c in s ==> IsDigit(c)
  {
    if s == "" then 0 else Value(s[..|s|-1]) * 10 + (s[|s|-1] as int - '0' as int)
  }

  lemma {:induction false} DecimalValue(n: nat)
    ensures Value(Decimal(n)) == n
  {
    if n >= 10 {
      DecimalValue(n / 10);
      assert Decimal(n)[..|Decimal(n)|-1] == Decimal(n / 10);
    } else {
      assert Decimal(n)[..0] == "";
    }
  }

  // The digits that s ends with.
  function DigitsAtEnd(s: string): (d: string)
    ensures forall c :: c in d ==> IsDigit(c)
  {
    if s == "" || !IsDigit(s[|s|-1]) then "" else DigitsAtEnd(s[..|s|-1]) + [s[|s|-1]]
  }

  // The digits that s begins with.
  function DigitsAtStart(s: string): (d: string)
    ensures |d| <= |s| && forall c :: c in d ==> IsDigit(c)
  {
    if s == "" || !IsDigit(s[0]) then "" else [s[0]] + DigitsAtStart(s[1..])
  }

  lemma {:induction false} EndsInDigits(s: string, d: string)
    requires (s == "" || !IsDigit(s[|s|-1])) && forall c :: c in d ==> IsDigit(c)
    ensures DigitsAtEnd(s + d) == d
  {
    if d == "" {
      assert s + d == s;
    } else {
      EndsInDigits(s, d[..|d|-1]);
      assert (s + d)[..|s|+|d|-1] == s + d[..|d|-1] && d[|d|-1] in d;
    }
  }

  lemma {:induction false} StartsWithDigits(d: string, s: string)
    requires (s == "" || !IsDigit(s[0])) && forall c :: c in d ==> IsDigit(c)
    ensures DigitsAtStart(d + s) == d
  {
    if d == "" {
      assert d + s == s;
    } else {
      StartsWithDigits(d[1..], s);
      assert (d + s)[1..] == d[1..] + s && d[0] in d;
    }
  }

  // A numeral after text that does not end in a digit is read back.
  lemma NumberAtEnd(s: string, n: nat)
    requires s == "" || !IsDigit(s[|s|-1])
    ensures Value(DigitsAtEnd(s + Decimal(n))) == n
  {
    EndsInDigits(s, Decimal(n));
    DecimalValue(n);
  }

  lemma NumberAtStart(n: nat, s: string)
    requires s == "" || !IsDigit(s[0])
    ensures Value(DigitsAtStart(Decimal(n) + s)) == n
  {
    StartsWithDigits(Decimal(n), s);
    DecimalValue(n);
  }

  function Pow10(k: nat): (p: nat)
    ensures p >= 1
  {
    if k == 0 then 1 else 10 * Pow10(k - 1)
  }

  // A number below 10^k has at most k digits.
  lemma {:induction false} DecimalLength(n: nat, k: nat)
    requires k > 0 && n < Pow10(k)
    ensures |Decimal(n)| <= k
  {
    if n >= 10 {
      DecimalLength(n / 10, k - 1);
    }
  }

  // A larger number has no fewer digits.
  lemma {:induction false} DecimalMonotone(m: nat, n: nat)
    requires m <= n
    ensures |Decimal(m)| <= |Decimal(n)|
  {
    if m >= 10 {
      DecimalMonotone(m / 10, n / 10);
    }
  }

  // ----- Formatting -----

  const DASH := "\U{E2}\U{80}\U{94}"  // the three bytes of an em dash

  // Strings that %q puts between quotes as they are.
  predicate Plain(s: string)
  {
    forall c :: c in s ==> ' ' <= c <= '~' && c != '"' && c != '\\'
  }

  // %q for plain strings.
  function Quote(s: string): string { "\"" + s + "\"" }

  // ----- Byte-wise order of strings -----

  predicate Less(a: string, b: string)
  {
    b != "" && (a == "" || a[0] < b[0] || (a[0] == b[0] && Less(a[1..], b[1..])))
  }

  // The first difference of a and b is at n, where a has the smaller character.
  ghost predicate SmallerAt(a: string, b: string, n: nat)
  {
    n < |a| && n < |b| && (forall k :: 0 <= k < n ==> a[k] == b[k]) && a[n] < b[n]
  }

  ghost predicate ProperlyBegins(a: string, b: string)
  {
    |a| < |b| && forall k :: 0 <= k < |a| ==> a[k] == b[k]
  }

  /** One string is less than another if and only if it is a proper beginning of it, or its
      character at the first difference is smaller. */
  lemma LessIff(a: string, b: string)
    ensures Less(a, b) <==> ProperlyBegins(a, b) || exists n :: SmallerAt(a, b, n)
  {
    hide Less, SmallerAt, ProperlyBegins;
    if Less(a, b) {
      var n := LessBecause(a, b);
    } else {
      if ProperlyBegins(a, b) {
        BeginningIsLess(a, b);
      }
      forall n: nat
        ensures !SmallerAt(a, b, n)
      {
        if SmallerAt(a, b, n) {
          SmallerIsLess(a, b, n);
        }
      }
    }
  }

  lemma {:induction false} LessBecause(a: string, b: string) returns (n: nat)
    requires Less(a, b)
    ensures ProperlyBegins(a, b) || SmallerAt(a, b, n)
  {
    n := 0;
    if a != "" && a[0] == b[0] {
      var m := LessBecause(a[1..], b[1..]);
      n := m + 1;
      assert forall k :: 0 < k < |a| ==> a[k] == a[1..][k-1];
      assert forall k :: 0 < k < |b| ==> b[k] == b[1..][k-1];
    }
  }

  lemma {:induction false} BeginningIsLess(a: string, b: string)
    requires ProperlyBegins(a, b)
    ensures Less(a, b)
  {
    if a != "" {
      BeginningIsLess(a[1..], b[1..]);
    }
  }

  lemma {:induction false} SmallerIsLess(a: string, b: string, n: nat)
    requires SmallerAt(a, b, n)
    ensures Less(a, b)
  {
    if n > 0 {
      SmallerIsLess(a[1..], b[1..], n - 1);
    }
  }

  lemma {:induction false} LessTotal(a: string, b: string)
    ensures a == b || Less(a, b) || Less(b, a)
    ensures !(Less(a, b) && Less(b, a)) && !Less(a, a)
  {
    if a != "" && b != "" {
      LessTotal(a[1..], b[1..]);
      LessTotal(a[1..], a[1..]);
      if a[0] == b[0] && a[1..] == b[1..] {
        assert a == [a[0]] + a[1..] == b;
      }
    } else if a != "" {
      LessTotal(a[1..], a[1..]);
    }
  }

  lemma {:induction false} LessTransitive(a: string, b: string, c: string)
    requires Less(a, b) && Less(b, c)
    ensures Less(a, c)
  {
    if a != "" && a[0] == b[0] == c[0] {
      LessTransitive(a[1..], b[1..], c[1..]);
    }
  }
}
