/** The text of a read_output reply: how much the header and the footer add to a page. A string
    here is a sequence of bytes, one char each. */
module PageText {
  import opened ReadOutput
  import opened Seqs
  import opened Utf8
  import Text

  // %q, of which nothing is assumed.
  type Quoter = string -> string

  function Header(name: string, start: nat, end: nat, total: nat): string
  {
    name + " " + Text.DASH + " bytes " + Text.Decimal(start) + ".." + Text.Decimal(end)
    + " of " + Text.Decimal(total) + "\n"
  }

  function Footer(quoted: string, end: nat, total: nat): string
    requires end <= total
  {
    "\n[truncated: " + Text.Decimal(total - end) + " more chars " + Text.DASH + " read_output(name=" + quoted
    + ", offset=" + Text.Decimal(end) + ")]"
  }

  // The length of what the client is sent for the page at offset.
  function ReplyLength(name: string, file: seq<byte>, offset: nat, quote: Quoter): nat
    requires offset < |file|
  {
    PageExact(file, offset);
    var r := ReplyFor(|file|, file, offset);
    |Header(name, r.start, r.end, r.total)| + |r.chunk|
    + if r.next.Some? then |Footer(quote(name), r.end, r.total)| else 0
  }

  // How much of a header and of a footer does not depend on the name and the numbers.
  const HEADER_FRAME: nat := 18
  const FOOTER_FRAME: nat := 57

  lemma HeaderLength(name: string, start: nat, end: nat, total: nat)
    ensures |Header(name, start, end, total)|
         == HEADER_FRAME + |name| + |Text.Decimal(start)| + |Text.Decimal(end)| + |Text.Decimal(total)|
  {
    hide Text.Decimal;
  }

  lemma FooterLength(quoted: string, end: nat, total: nat)
    requires end <= total
    ensures |Footer(quoted, end, total)|
         == FOOTER_FRAME + |quoted| + |Text.Decimal(total - end)| + |Text.Decimal(end)|
  {
    hide Text.Decimal;
  }

  // ----- Reading the numbers back -----

  // The text without its last k characters.
  function Without(text: string, k: nat): string { if k <= |text| then text[..|text|-k] else "" }

  // What a client reads in a footer: the number before the closing ")]" and the first number.
  function OffsetIn(footer: string): int { Text.Value(Text.DigitsAtEnd(Without(footer, 2))) }

  function LeftIn(footer: string): int
  {
    Text.Value(Text.DigitsAtStart(if |footer| < 13 then "" else footer[13..]))
  }

  // A header's numbers from the back: the total before the newline, the end before " of ",
  // the start before "..".
  function TotalDigits(header: string): string { Text.DigitsAtEnd(Without(header, 1)) }

  function EndDigits(header: string): string { Text.DigitsAtEnd(Without(header, 1 + |TotalDigits(header)| + 4)) }

  function StartDigits(header: string): string
  {
    Text.DigitsAtEnd(Without(header, 1 + |TotalDigits(header)| + 4 + |EndDigits(header)| + 2))
  }

  lemma FooterParses(quoted: string, end: nat, total: nat)
    requires end <= total
    ensures OffsetIn(Footer(quoted, end, total)) == end
    ensures LeftIn(Footer(quoted, end, total)) == total - end
  {
    hide Footer, OffsetIn, LeftIn;
    FooterOffset(quoted, end, total);
    FooterLeft(quoted, end, total);
  }

  lemma FooterLeft(quoted: string, end: nat, total: nat)
    requires end <= total
    ensures LeftIn(Footer(quoted, end, total)) == total - end
  {
    hide Text.Decimal, Text.Value, Text.DigitsAtStart, Text.DigitsAtEnd;
    var f := Footer(quoted, end, total);
    var rest := " more chars " + Text.DASH + " read_output(name=" + quoted + ", offset=" + Text.Decimal(end) + ")]";
    assert f == "\n[truncated: " + (Text.Decimal(total - end) + rest);
    assert f[13..] == Text.Decimal(total - end) + rest;
    Text.NumberAtStart(total - end, rest);
  }

  lemma FooterOffset(quoted: string, end: nat, total: nat)
    requires end <= total
    ensures OffsetIn(Footer(quoted, end, total)) == end
  {
    hide Text.Decimal, Text.Value, Text.DigitsAtEnd;
    var f := Footer(quoted, end, total);
    var before := "\n[truncated: " + Text.Decimal(total - end) + " more chars " + Text.DASH + " read_output(name="
      + quoted + ", offset=";
    assert f == before + Text.Decimal(end) + ")]";
    assert Without(f, 2) == before + Text.Decimal(end);
    assert before[|before|-1] == '=';
    Text.NumberAtEnd(before, end);
  }

  lemma HeaderParses(name: string, start: nat, end: nat, total: nat)
    ensures var h := Header(name, start, end, total);
      && Text.Value(StartDigits(h)) == start && Text.Value(EndDigits(h)) == end
      && Text.Value(TotalDigits(h)) == total
  {
    hide Text.Decimal, Text.Value, Text.DigitsAtEnd;
    var h := Header(name, start, end, total);
    var first := name + " " + Text.DASH + " bytes ";
    var second := first + Text.Decimal(start) + "..";
    var third := second + Text.Decimal(end) + " of ";
    assert Without(h, 1) == third + Text.Decimal(total);
    Text.NumberAtEnd(third, total);
    Text.EndsInDigits(third, Text.Decimal(total));
    assert Without(h, 1 + |Text.Decimal(total)| + 4) == second + Text.Decimal(end);
    Text.NumberAtEnd(second, end);
    Text.EndsInDigits(second, Text.Decimal(end));
    assert Without(h, 1 + |Text.Decimal(total)| + 4 + |Text.Decimal(end)| + 2) == first + Text.Decimal(start);
    Text.NumberAtEnd(first, start);
  }

  /** The header states which bytes follow, and the offset in the footer is the one to pass next,
      whatever the name and however it is quoted. */
  lemma TextLeadsOn(name: string, file: seq<byte>, offset: nat, quote: Quoter) returns (r: Reply)
    requires offset < |file|
    ensures r.Page? && r.end <= r.total
    ensures var h := Header(name, r.start, r.end, r.total);
      && Text.Value(StartDigits(h)) == offset && Text.Value(EndDigits(h)) == r.end
      && Text.Value(TotalDigits(h)) == |file|
    ensures var f := Footer(quote(name), r.end, r.total);
      r.next.Some? ==> OffsetIn(f) == r.next.value && LeftIn(f) == |file| - r.end
    ensures r == ReplyFor(|file|, file, offset)
  {
    hide ReplyFor, Header, Footer, OffsetIn, LeftIn, StartDigits, EndDigits, TotalDigits;
    PageExact(file, offset);
    r := ReplyFor(|file|, file, offset);
    HeaderParses(name, r.start, r.end, r.total);
    FooterParses(quote(name), r.end, r.total);
  }

  // ----- How many digits -----

  lemma {:induction false} DecimalAtLeast(n: nat, k: nat)
    requires k > 0 && n >= Text.Pow10(k - 1)
    ensures |Text.Decimal(n)| >= k
  {
    if k > 1 {
      DecimalAtLeast(n / 10, k - 1);
    }
  }

  lemma Digits(n: nat, k: nat)
    requires k > 0 && Text.Pow10(k - 1) <= n < Text.Pow10(k)
    ensures |Text.Decimal(n)| == k
  {
    DecimalAtLeast(n, k);
    Text.DecimalLength(n, k);
  }

  // A number has no more digits than it has units, and 0 has one.
  lemma {:induction false} FewDigits(n: nat)
    ensures |Text.Decimal(n)| <= n + 1 && |Text.Decimal(0)| == 1
  {
    if n >= 10 {
      FewDigits(n / 10);
    }
  }

  lemma Powers()
    ensures Text.Pow10(0) == 1 && Text.Pow10(1) == 10 && Text.Pow10(2) == 100 && Text.Pow10(3) == 1000
    ensures Text.Pow10(4) == 10_000
  {
    assert Text.Pow10(2) == 100;
  }

  lemma {:induction false} PowAtLeast(k: nat)
    requires k >= 4
    ensures Text.Pow10(k) >= 10_000
  {
    if k > 4 {
      PowAtLeast(k - 1);
    } else {
      Powers();
    }
  }

  // ----- Files that fill their pages -----

  // A file of n capital As.
  function Letters(n: nat): (s: seq<byte>)
    ensures |s| == n
  {
    seq(n, _ => 65)
  }

  lemma {:induction false} LettersValid(n: nat)
    ensures Valid(Letters(n))
  {
    if n > 0 {
      LettersValid(n - 1);
      assert Letters(n)[1..] == Letters(n - 1);
      assert CharLen(Letters(n)) == 1;
    }
  }

  // A page in the middle of such a file fills the window.
  lemma FullPage(n: nat, offset: nat)
    requires offset + WINDOW < n
    ensures var r := ReplyFor(n, Letters(n), offset);
      r == Page(offset, offset + WINDOW, n, Letters(WINDOW), Some(offset + WINDOW))
  {
    hide Valid;
    var buf := Letters(n)[offset..offset + WINDOW];
    assert buf == Letters(WINDOW);
    LettersValid(WINDOW);
    assert buf[..WINDOW] == buf;
    assert BackedOff(buf, WINDOW, Left(0)) == WINDOW;
  }

  // A file within the window is one page.
  lemma OnlyPage(file: seq<byte>, offset: nat)
    requires offset < |file| <= offset + WINDOW
    ensures ReplyFor(|file|, file, offset) == Page(offset, |file|, |file|, file[offset..], None)
  {
    hide BackedOff, Valid;
    var read := file[offset..|file|];
    assert read[..|read|] == read == file[offset..];
  }

  // ----- The longest reply -----

  // The longest reply for a name of this length, quoted to that length, and files below 10^k bytes.
  function Longest(name: nat, quoted: nat, k: nat): nat
  {
    if k <= 3 then HEADER_FRAME + name + 2 * k + Text.Pow10(k)
    else WINDOW + HEADER_FRAME + FOOTER_FRAME + name + quoted + if k == 4 then 19 else 5 * k
  }

  lemma LongestSmall(name: string, file: seq<byte>, offset: nat, k: nat, quote: Quoter)
    requires offset < |file| < Text.Pow10(k) && 0 < k <= 3
    ensures ReplyLength(name, file, offset, quote) <= Longest(|name|, |quote(name)|, k)
  {
    Powers();
    hide Text.Decimal, ReplyFor, Text.Pow10, Header, Footer;
    OnlyPage(file, offset);
    HeaderLength(name, offset, |file|, |file|);
    FewDigits(offset);
    Text.DecimalLength(|file|, k);
  }

  lemma LongestLarge(name: string, file: seq<byte>, offset: nat, k: nat, quote: Quoter)
    requires offset < |file| < Text.Pow10(k) && k >= 4
    ensures ReplyLength(name, file, offset, quote) <= Longest(|name|, |quote(name)|, k)
  {
    if k == 4 {
      Powers();
    }
    hide Text.Decimal, ReplyFor, Text.Pow10, Header, Footer;
    PageExact(file, offset);
    var r := ReplyFor(|file|, file, offset);
    HeaderLength(name, r.start, r.end, r.total);
    FooterLength(quote(name), r.end, r.total);
    Text.DecimalLength(r.start, k);
    Text.DecimalLength(r.end, k);
    Text.DecimalLength(r.total, k);
    Text.DecimalLength(r.total - r.end, k);
    if k == 4 {
      NotAllFour(r.start, r.total - r.end);
    }
  }

  // A start and a remainder of four digits each leave no room for a full window below 10^4.
  lemma NotAllFour(start: nat, left: nat)
    requires start < 10_000 && left < 10_000
    ensures |Text.Decimal(start)| + |Text.Decimal(left)| <= 7 || (start >= 1000 && left >= 1000)
  {
    Powers();
    if start < 1000 {
      Text.DecimalLength(start, 3);
      Text.DecimalLength(left, 4);
    } else if left < 1000 {
      Text.DecimalLength(left, 3);
      Text.DecimalLength(start, 4);
    }
  }

  // The reply that reaches the bound.
  lemma LongReply(name: string, k: nat, quote: Quoter) returns (file: seq<byte>, offset: nat)
    requires k > 0
    ensures offset < |file| < Text.Pow10(k)
    ensures ReplyLength(name, file, offset, quote) == Longest(|name|, |quote(name)|, k)
  {
    hide Text.Decimal, ReplyFor, Header, Footer, BackedOff, Letters;
    var p := Text.Pow10(k - 1);
    var n := 10 * p - 1;
    file := Letters(n);
    Digits(n, k);
    if k <= 3 {
      offset := 0;
      Powers();
      OnlyPage(file, 0);
      HeaderLength(name, 0, n, n);
      FewDigits(0);
    } else {
      LongPage(name, k, quote);
      offset := if k == 4 then 1000 else p;
    }
  }

  lemma LongPage(name: string, k: nat, quote: Quoter)
    requires k >= 4
    ensures var n, offset := Text.Pow10(k) - 1, if k == 4 then 1000 else Text.Pow10(k - 1);
      && offset < n
      && ReplyLength(name, Letters(n), offset, quote) == Longest(|name|, |quote(name)|, k)
  {
    hide Text.Decimal, ReplyFor, Header, Footer, BackedOff, Letters;
    var p := Text.Pow10(k - 1);
    var n := 10 * p - 1;
    assert n == Text.Pow10(k) - 1;
    Powers();
    if k > 4 {
      PowAtLeast(k - 1);
    }
    hide Text.Pow10;
    var end := p + WINDOW;
    FullPage(n, p);
    HeaderLength(name, p, end, n);
    FooterLength(quote(name), end, n);
    Digits(p, k);
    Digits(end, k);
    Digits(n, k);
    Digits(n - end, if k == 4 then 3 else k);
  }

  /** For files below 10^k bytes every reply stays within the budget if and only if the longest
      one does: the headroom of 256 bytes is not enough for every name. */
  lemma RepliesFitIff(name: string, k: nat, quote: Quoter)
    requires k > 0
    ensures (forall file: seq<byte>, offset: nat :: offset < |file| < Text.Pow10(k) ==>
                                                      ReplyLength(name, file, offset, quote) <= MAX_BUDGET)
            <==> Longest(|name|, |quote(name)|, k) <= MAX_BUDGET
  {
    hide ReplyLength, Longest;
    if Longest(|name|, |quote(name)|, k) <= MAX_BUDGET {
      forall file: seq<byte>, offset: nat | offset < |file| < Text.Pow10(k)
        ensures ReplyLength(name, file, offset, quote) <= MAX_BUDGET
      {
        if k <= 3 {
          LongestSmall(name, file, offset, k, quote);
        } else {
          LongestLarge(name, file, offset, k, quote);
        }
      }
    } else {
      var file, offset := LongReply(name, k, quote);
    }
  }
}
