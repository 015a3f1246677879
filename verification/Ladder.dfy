/** The result-shortening ladder: picking a rung that fits the budget, and the pointer to the
    saved full rendering. A string here is a sequence of bytes, one char each. */
module Ladder {
  import opened Seqs
  import opened Text
  import opened Paths

  const MIN_BUDGET := 512
  const CUT_PREFIX := "<!-- cut:"

  // text is what the rung's Render closure gives.
  datatype Rung = Rung(name: string, text: string)

  function CondensationNote(i: nat, n: nat, name: string): string
  {
    "<!-- condensed:" + " rung " + Decimal(i) + "/" + Decimal(n) + " " + DASH + " " + name + " -->"
  }

  function CutMarker(budget: nat, n: nat, name: string): string
  {
    CUT_PREFIX + " result truncated at " + Decimal(budget) + " bytes " + LastResort(n, name)
  }

  function LastResort(n: nat, name: string): string
  {
    DASH + " even rung " + Decimal(n) + ("/" + Decimal(n) + " (" + name + ") did not fit -->")
  }

  // Rung i as it would be returned: every rung but the first says that it is condensed.
  function Shown(l: seq<Rung>, i: nat): string
    requires i < |l|
  {
    l[i].text + if i > 0 then CondensationNote(i + 1, |l|, l[i].name) else ""
  }

  // The index of the first rung that fits, or |l|.
  function FirstFit(l: seq<Rung>, budget: int, i: nat): (r: nat)
    requires i <= |l|
    ensures i <= r <= |l|
    ensures forall j :: i <= j < r ==> |Shown(l, j)| > budget
    ensures r < |l| ==> |Shown(l, r)| <= budget
    decreases |l| - i
  {
    hide Shown;
    if i == |l| || |Shown(l, i)| <= budget then i else FirstFit(l, budget, i + 1)
  }

  function Cut(l: seq<Rung>, budget: nat): string
    requires l != []
  {
    var last := l[|l|-1];
    var marker := CutMarker(budget, |l|, last.name);
    var m := if |marker| >= budget then CUT_PREFIX + " -->" else marker;
    var cut := if budget < |m| then 0 else if budget - |m| > |last.text| then |last.text| else budget - |m|;
    last.text[..cut] + m
  }

  // The text chosen for a budget: the first rung that fits, or the last one cut.
  function Picked(l: seq<Rung>, budget: int): string
  {
    if l == [] || budget <= 0 then ""
    else if FirstFit(l, budget, 0) < |l| then Shown(l, FirstFit(l, budget, 0)) else Cut(l, budget)
  }

  function PickedRung(l: seq<Rung>, budget: int): nat
  {
    if l == [] || budget <= 0 then 0
    else if FirstFit(l, budget, 0) < |l| then FirstFit(l, budget, 0) + 1 else |l|
  }

  /** rendered lists the rungs whose Render was called, in order: every rung up to the chosen
      one, each once, and none after it. */
  method PickFitting(l: seq<Rung>, budget: int)
    returns (body: string, full: string, rung: nat, rendered: seq<nat>)
    ensures body == Picked(l, budget) && rung == PickedRung(l, budget)
    ensures l == [] || budget <= 0 ==> full == ""
    ensures l != [] && budget > 0 ==> full == l[0].text
    ensures |rendered| == rung && forall i :: 0 <= i < rung ==> rendered[i] == i
  {
    hide CondensationNote, CutMarker, Decimal;
    if |l| == 0 || budget <= 0 {
      return "", "", 0, [];
    }
    var n := |l|;
    full, rendered := l[0].text, [0];
    var lastRaw := "";
    for i := 0 to n
      invariant FirstFit(l, budget, 0) == FirstFit(l, budget, i)
      invariant |rendered| == (if i == 0 then 1 else i) && forall j :: 0 <= j < |rendered| ==> rendered[j] == j
      invariant i == n ==> lastRaw == l[n-1].text
    {
      var raw := full;
      if i > 0 {
        raw := l[i].text;
        rendered := rendered + [i];
      }
      if i == n - 1 {
        lastRaw := raw;
      }
      var text := raw;
      if i > 0 {
        text := text + CondensationNote(i + 1, n, l[i].name);
      }
      assert text == Shown(l, i);
      if |text| <= budget {
        return text, full, i + 1, rendered;
      }
    }
    var marker := CutMarker(budget, n, l[n-1].name);
    if |marker| >= budget {
      marker := CUT_PREFIX + " -->";
    }
    var cut := budget - |marker|;
    if cut < 0 {
      cut := 0;
    }
    if cut > |lastRaw| {
      cut := |lastRaw|;
    }
    return lastRaw[..cut] + marker, full, n, rendered;
  }

  /** The picked text keeps the budget for every ladder exactly when the budget has room for
      the shortest cut marker, or is not positive. */
  lemma PickedFits(budget: int)
    ensures (forall l :: |Picked(l, budget)| <= (if budget > 0 then budget else 0)) <==> (budget >= 13 || budget <= 0)
  {
    if budget >= 13 {
      forall l
        ensures |Picked(l, budget)| <= budget
      {
        PickedFitsLadder(l, budget);
      }
    } else if budget > 0 {
      var l := [Rung("", "0123456789abc")];
      assert FirstFit(l, budget, 0) == 1;
      assert |Picked(l, budget)| >= 13;
    }
  }

  // Only a ladder with rungs can be condensed.
  lemma PickedFromRungs(l: seq<Rung>, budget: int)
    ensures PickedRung(l, budget) > 1 ==> l != [] && budget > 0
  {}

  lemma PickedFitsLadder(l: seq<Rung>, budget: int)
    requires budget >= 13
    ensures |Picked(l, budget)| <= budget
  {}

  // ----- What the picked text says -----

  // The text tells of the number in the words that begin with `before`.
  predicate Tells(text: string, before: string, n: nat, after: string)
  {
    && HasPrefix(text, before) && after != "" && !IsDigit(after[0])
    && var rest := text[|before|..];
      && Value(DigitsAtStart(rest)) == n && HasPrefix(rest[|DigitsAtStart(rest)|..], after)
  }

  lemma NumberTold(before: string, n: nat, after: string, rest: string)
    requires after != "" && !IsDigit(after[0])
    ensures Tells(before + Decimal(n) + after + rest, before, n, after)
  {
    hide Decimal, Value, DigitsAtStart;
    var text, tail := before + Decimal(n) + after + rest, after + rest;
    assert text[..|before|] == before && text[|before|..] == Decimal(n) + tail;
    NumberAtStart(n, tail);
    StartsWithDigits(Decimal(n), tail);
    assert (Decimal(n) + tail)[|Decimal(n)|..] == tail && tail[..|after|] == after;
  }

  // A note tells the rung, how many there are, and the rung's name.
  lemma NoteTells(i: nat, n: nat, name: string)
    ensures Tells(CondensationNote(i, n, name), "<!-- condensed: rung ", i, "/")
    ensures Tells(CondensationNote(i, n, name), "<!-- condensed: rung " + Decimal(i) + "/", n, " " + DASH + " ")
    ensures HasSuffix(CondensationNote(i, n, name), DASH + " " + name + " -->")
  {
    hide Decimal, Tells;
    var note, end := CondensationNote(i, n, name), DASH + " " + name + " -->";
    var before := "<!-- condensed: rung ";
    NumberTold(before, i, "/", Decimal(n) + " " + end);
    assert note == before + Decimal(i) + "/" + (Decimal(n) + " " + end);
    NumberTold(before + Decimal(i) + "/", n, " " + DASH + " ", name + " -->");
    assert note == (before + Decimal(i) + "/") + Decimal(n) + (" " + DASH + " ") + (name + " -->");
    assert note == before + Decimal(i) + "/" + Decimal(n) + " " + end;
    EndsWith(before + Decimal(i) + "/" + Decimal(n) + " ", end);
  }

  lemma EndsWith(s: string, t: string)
    ensures HasSuffix(s + t, t)
  {}

  // A full marker tells the budget and the number of rungs.
  lemma MarkerTells(budget: nat, n: nat, name: string)
    ensures Tells(CutMarker(budget, n, name), "<!-- cut: result truncated at ", budget, " bytes ")
    ensures HasSuffix(CutMarker(budget, n, name), "/" + Decimal(n) + " (" + name + ") did not fit -->")
  {
    assert CUT_PREFIX + " result truncated at " == "<!-- cut: result truncated at ";
    hide Decimal, Tells;
    NumberTold("<!-- cut: result truncated at ", budget, " bytes ", LastResort(n, name));
    EndsWith(DASH + " even rung " + Decimal(n), "/" + Decimal(n) + " (" + name + ") did not fit -->");
    hide LastResort, HasSuffix;
    SuffixOfSuffix("<!-- cut: result truncated at " + Decimal(budget) + " bytes ", LastResort(n, name),
                   "/" + Decimal(n) + " (" + name + ") did not fit -->");
  }

  lemma SuffixOfSuffix(s: string, t: string, u: string)
    requires HasSuffix(t, u)
    ensures HasSuffix(s + t, u)
  {
    assert (s + t)[|s + t| - |u|..] == t[|t| - |u|..];
  }

  // The last of n rungs as it is returned when none fits.
  ghost predicate CutOf(text: string, last: Rung, n: nat, budget: nat)
  {
    exists cut: nat :: cut <= |last.text| && CutAt(text, last, n, budget, cut)
  }

  predicate CutAt(text: string, last: Rung, n: nat, budget: nat, cut: nat)
    requires cut <= |last.text|
  {
    var marker := CutMarker(budget, n, last.name);
    if |marker| < budget then text == last.text[..cut] + marker && |text| == budget
    else text == last.text[..cut] + "<!-- cut: -->" && cut == Min(|last.text|, if budget < 13 then 0 else budget - 13)
  }

  /** The picked rung is the first whose text, with its note, keeps the budget; when there is none,
      the beginning of the last rung's text fills the budget up to the marker, or all of that
      text stands before the short marker. */
  lemma PickedMeans(l: seq<Rung>, budget: int)
    requires l != [] && budget > 0
    ensures var r := PickedRung(l, budget);
      && 1 <= r <= |l|
      && (forall j :: 0 <= j < r - 1 ==> |Shown(l, j)| > budget)
      && (|Shown(l, r - 1)| <= budget ==> Picked(l, budget) == Shown(l, r - 1))
      && (|Shown(l, r - 1)| > budget ==> r == |l| && CutOf(Picked(l, budget), l[r-1], r, budget))
  {
    hide Shown, CutMarker, CutOf;
    if FirstFit(l, budget, 0) == |l| {
      CutFills(l, budget);
    }
  }

  lemma CutFills(l: seq<Rung>, budget: nat)
    requires l != [] && budget > 0 && |Shown(l, |l| - 1)| > budget
    ensures CutOf(Cut(l, budget), l[|l|-1], |l|, budget)
  {
    hide CondensationNote, CutMarker;
    var n, last := |l|, l[|l|-1];
    var marker := CutMarker(budget, n, last.name);
    NoteShorter(budget, n, last.name);
    var m := if |marker| >= budget then "<!-- cut: -->" else marker;
    var cut := if budget < |m| then 0 else if budget - |m| > |last.text| then |last.text| else budget - |m|;
    assert CUT_PREFIX + " -->" == "<!-- cut: -->";
    assert CutAt(Cut(l, budget), last, n, budget, cut);
  }

  lemma NoteShorter(budget: nat, n: nat, name: string)
    ensures |CondensationNote(n, n, name)| < |CutMarker(budget, n, name)|
  {
    hide Decimal;
  }

  // ----- The pointer to the saved file -----

  // %q, of which only this is assumed.
  type Quoter = string -> string

  ghost predicate IsQuoter(quote: Quoter) { forall s :: Plain(s) ==> quote(s) == Quote(s) }

  function FileSavePointer(charCount: nat, path: string, quote: Quoter): string
  {
    "\n\n<!-- full-result: " + Decimal(charCount) + (" chars saved to: " + path + " ") + HowToRead(path, quote)
  }

  function HowToRead(path: string, quote: Quoter): string
  {
    DASH + " remote: read_output(name=" + quote(Base(path)) + ", offset=0); same-host: Read -->"
  }

  // The pointer tells how much was saved and where.
  lemma PointerTells(charCount: nat, path: string, quote: Quoter)
    ensures Tells(FileSavePointer(charCount, path, quote), "\n\n<!-- full-result: ", charCount,
                  " chars saved to: " + path + " ")
  {
    hide Decimal, Tells, HowToRead;
    NumberTold("\n\n<!-- full-result: ", charCount, " chars saved to: " + path + " ", HowToRead(path, quote));
  }

  function Repeat(c: char, n: nat): string { seq(n, _ => c) }

  function MaxFileName(toolName: string): string { toolName + "_" + Repeat('9', 20) + ".txt" }

  function FileSavePointerUpperBound(toolName: string, outputDir: string, quote: Quoter): nat
  {
    |FileSavePointer(MAX_INT, Repeat('x', |outputDir| + 1 + |MaxFileName(toolName)|), quote)|
  }

  function Signed(n: int): string { if n < 0 then "-" + Decimal(-n) else Decimal(n) }

  // The name saveToFile gives a file at the given nanosecond.
  function FileName(toolName: string, nanos: int): string { toolName + "_" + Signed(nanos) + ".txt" }

  lemma SignedShort(nanos: int)
    requires MIN_INT <= nanos <= MAX_INT
    ensures |Signed(nanos)| <= 20 && '/' !in Signed(nanos) && Plain(Signed(nanos))
  {
    assert Pow10(5) == 100_000;
    assert Pow10(10) == 10_000_000_000;
    assert Pow10(15) == 1_000_000_000_000_000;
    DecimalLength(if nanos < 0 then -nanos else nanos, 19);
  }

  lemma BaseOfPlain(path: string)
    requires path != "" && '/' !in path
    ensures Base(path) == path
  {
    assert path[|path|-1] in path;
    assert StripSlashes(path) == path;
    assert Text.Cut(path, '/') == None;
  }

  // The quoted base of the path is no longer than the reserve allows for.
  predicate QuotedFits(toolName: string, outputDir: string, nanos: int, quote: Quoter)
  {
    |quote(Base(JoinPath(outputDir, FileName(toolName, nanos))))| <= |outputDir| + |MaxFileName(toolName)| + 3
  }

  /** The reserve bounds every pointer: for every directory, tool name, character count and
      timestamp, unless quoting lengthens the base beyond what the directory's length leaves;
      it does not for a tool name that %q leaves alone. */
  lemma PointerWithinReserve(toolName: string, outputDir: string, charCount: nat, nanos: int, quote: Quoter)
    requires outputDir != "" && charCount <= MAX_INT && MIN_INT <= nanos <= MAX_INT && IsQuoter(quote)
    ensures var path := JoinPath(outputDir, FileName(toolName, nanos));
      && (QuotedFits(toolName, outputDir, nanos, quote) ==>
            |FileSavePointer(charCount, path, quote)| <= FileSavePointerUpperBound(toolName, outputDir, quote))
      && Base(path) == LastPart(FileName(toolName, nanos))
      && (Plain(toolName) ==> QuotedFits(toolName, outputDir, nanos, quote))
  {
    hide Decimal, Base, JoinPath, Signed;
    var file := FileName(toolName, nanos);
    SignedShort(nanos);
    LastPartPlain(toolName, Signed(nanos));
    JoinPathKeepsLastPart(outputDir, file);
    DecimalMonotone(charCount, MAX_INT);
    var longest := Repeat('x', |outputDir| + 1 + |MaxFileName(toolName)|);
    BaseOfPlain(longest);
    assert |file| <= |MaxFileName(toolName)|;
    assert Plain(longest) && quote(longest) == Quote(longest);
    PointerLength(charCount, JoinPath(outputDir, file), quote);
    PointerLength(MAX_INT, longest, quote);
  }

  // The last part of a file name is a plain name, and %q leaves it alone if it does the tool name.
  lemma LastPartPlain(toolName: string, number: string)
    requires '/' !in number && Plain(number)
    ensures var last := LastPart(toolName + "_" + number + ".txt");
      PlainName(last) && (Plain(toolName) ==> Plain(last))
  {
    hide Plain, LastPart;
    var file, end := toolName + "_" + number + ".txt", "_" + number + ".txt";
    var last := LastPart(file);
    assert file == toolName + end && '/' !in end;
    LastPartKeeps(toolName, end);
    if Plain(toolName) {
      PlainParts(toolName, number, last);
    }
  }

  lemma PlainParts(toolName: string, number: string, last: string)
    requires Plain(toolName) && Plain(number) && HasSuffix(toolName + "_" + number + ".txt", last)
    ensures Plain(last)
  {
    var file := toolName + "_" + number + ".txt";
    assert Plain(file);
    forall c | c in last
      ensures c in file
    {
      var i :| 0 <= i < |last| && last[i] == c;
      assert file[|file|-|last|+i] == c;
    }
  }

  // How much of a pointer does not depend on its fields.
  const FIXED_TEXT: nat := 99

  lemma PointerLength(charCount: nat, path: string, quote: Quoter)
    ensures |FileSavePointer(charCount, path, quote)|
         == |Decimal(charCount)| + |path| + |quote(Base(path))| + FIXED_TEXT
  {
    hide Decimal, Base;
  }

  // ----- renderLadder -----

  datatype Saved = Saved(path: string, content: string)

  function Reserve(toolName: string, outputDir: string, quote: Quoter): nat
  {
    if outputDir == "" then 0 else FileSavePointerUpperBound(toolName, outputDir, quote)
  }

  function EffectiveBudget(budget: int, reserve: nat): int
  {
    if budget - reserve < MIN_BUDGET then MIN_BUDGET else budget - reserve
  }

  /** Without a file the text keeps the budget for every ladder exactly when the budget is not
      below the floor to which the effective budget is raised. */
  lemma BudgetKeptIffAboveFloor(budget: int)
    ensures (forall l :: |Picked(l, EffectiveBudget(budget, 0))| <= budget) <==> budget >= 512
  {
    if budget >= MIN_BUDGET {
      forall l
        ensures |Picked(l, EffectiveBudget(budget, 0))| <= budget
      {
        PickedFitsLadder(l, budget);
      }
    } else {
      var l := [Rung("", Repeat('x', MIN_BUDGET))];
      assert FirstFit(l, MIN_BUDGET, 0) == 0;
      assert |Picked(l, EffectiveBudget(budget, 0))| == MIN_BUDGET;
    }
  }

  /** clock is the save's timestamp, None when saving fails; file is what was saved. The body
      keeps the budget; exactly a condensed rung is saved, in full; and with room for the
      reserve the pointer to a saved file is never dropped. */
  method RenderLadder(l: seq<Rung>, toolName: string, outputDir: string, budget: int, clock: Option<int>,
                      quote: Quoter)
    returns (body: string, file: Option<Saved>)
    requires IsQuoter(quote)
    requires clock.Some? ==> MIN_INT <= clock.value <= MAX_INT
    requires l != [] ==> |l[0].text| <= MAX_INT
    ensures budget >= MIN_BUDGET ==> |body| <= budget
    ensures var effective := EffectiveBudget(budget, Reserve(toolName, outputDir, quote));
      && (file.Some? <==> outputDir != "" && PickedRung(l, effective) > 1 && clock.Some?)
      && (file.Some? ==>
            && file.value == Saved(JoinPath(outputDir, FileName(toolName, clock.value)), l[0].text)
            && var pointer := FileSavePointer(|l[0].text|, file.value.path, quote);
              body == Picked(l, effective) + if |Picked(l, effective)| + |pointer| <= budget then pointer else "")
      && (file.None? ==> body == Picked(l, effective))
      && (file.Some? && (Plain(toolName) || QuotedFits(toolName, outputDir, clock.value, quote))
          && budget - Reserve(toolName, outputDir, quote) >= MIN_BUDGET ==>
            body == Picked(l, effective) + FileSavePointer(|l[0].text|, file.value.path, quote))
  {
    hide FileSavePointer, FileSavePointerUpperBound, Picked, FirstFit, JoinPath, Base, LastPart, FileName;
    hide QuotedFits, Plain, IsQuoter, Decimal, Shown, Cut;
    var reserve := 0;
    if outputDir != "" {
      reserve := FileSavePointerUpperBound(toolName, outputDir, quote);
    }
    var effectiveBudget := budget - reserve;
    if effectiveBudget < MIN_BUDGET {
      effectiveBudget := MIN_BUDGET;
    }
    var full, rung, rendered;
    body, full, rung, rendered := PickFitting(l, effectiveBudget);
    PickedFitsLadder(l, effectiveBudget);
    PickedFromRungs(l, effectiveBudget);
    hide PickedRung;
    file := None;
    if outputDir != "" && rung > 1 && clock.Some? {
      var path := JoinPath(outputDir, FileName(toolName, clock.value));
      file := Some(Saved(path, full));
      PointerWithinReserve(toolName, outputDir, |full|, clock.value, quote);
      var pointer := FileSavePointer(|full|, path, quote);
      if |body| + |pointer| <= budget {
        body := body + pointer;
      }
    }
  }
}
