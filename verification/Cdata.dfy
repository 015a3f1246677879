/** wrapCDATA, and CDATA sections as section 2.7 of XML 1.0 reads them. */
module Cdata {
  import opened Seqs
  import opened Text

  const OPEN := "<![CDATA["
  const CLOSE := "]]>"

  // strings.ReplaceAll: left to right, without overlap.
  function ReplaceAll(s: string, from: string, to: string): string
    requires from != ""
    decreases |s|
  {
    if s == "" then ""
    else if HasPrefix(s, from) then to + ReplaceAll(s[|from|..], from, to)
    else [s[0]] + ReplaceAll(s[1..], from, to)
  }

  function WrapCData(s: string): string
  {
    OPEN + ReplaceAll(s, CLOSE, "]]]]><![CDATA[>") + CLOSE
  }

  // The text of a run of CDATA sections that is the whole of doc, if it is one.
  function ReadSections(doc: string): Option<string>
    decreases |doc|, 1
  {
    if HasPrefix(doc, OPEN) then ReadContent(doc[|OPEN|..]) else None
  }

  // A section ends at its first CLOSE; then the document ends or another section begins.
  function ReadContent(doc: string): Option<string>
    decreases |doc|, 0
  {
    if HasPrefix(doc, CLOSE) then
      var rest := doc[|CLOSE|..];
      if rest == "" then Some("") else ReadSections(rest)
    else if doc == "" then None
    else
      match ReadContent(doc[1..])
      case None => None
      case Some(text) => Some([doc[0]] + text)
  }

  const REPLACEMENT := "]]]]><![CDATA[>"

  function Escape(s: string): string { ReplaceAll(s, CLOSE, REPLACEMENT) }

  lemma ClosePrefix(s: string)
    ensures HasPrefix(s, CLOSE) <==> |s| >= 3 && s[0] == ']' && s[1] == ']' && s[2] == '>'
  {
    if |s| >= 3 && s[0] == ']' && s[1] == ']' && s[2] == '>' {
      assert s[..3] == CLOSE;
    }
  }

  // An escaped text begins like the rest of a CLOSE only if the text itself does.
  lemma EscapeHead(s: string)
    ensures |Escape(s) + CLOSE| >= 3
    ensures (Escape(s) + CLOSE)[0] == '>' ==> s != "" && s[0] == '>'
    ensures (Escape(s) + CLOSE)[0] == ']' && (Escape(s) + CLOSE)[1] == '>' ==>
      |s| >= 2 && s[0] == ']' && s[1] == '>'
  {
    if s != "" && !HasPrefix(s, CLOSE) {
      EscapeHead(s[1..]);
      assert Escape(s) + CLOSE == [s[0]] + (Escape(s[1..]) + CLOSE);
    } else if s != "" {
      assert Escape(s)[0] == REPLACEMENT[0] && Escape(s)[1] == REPLACEMENT[1];
    }
  }

  // Reading one character of content.
  lemma ReadChar(c: char, rest: string, text: string)
    requires !HasPrefix([c] + rest, CLOSE) && ReadContent(rest) == Some(text)
    ensures ReadContent([c] + rest) == Some([c] + text)
  {
    assert ([c] + rest)[1..] == rest;
  }

  lemma ReadEnd()
    ensures Escape("") + CLOSE == CLOSE && ReadContent(CLOSE) == Some("")
  {}

  // Reading across the end of one section and the beginning of the next.
  lemma ReadSeam(rest: string)
    ensures ReadContent(CLOSE + (OPEN + rest)) == ReadContent(rest)
  {
    var doc := CLOSE + (OPEN + rest);
    ClosePrefix(doc);
    assert doc[3..] == OPEN + rest;
    assert (OPEN + rest)[|OPEN|..] == rest;
    assert (OPEN + rest)[..|OPEN|] == OPEN;
  }

  lemma {:induction false} ReadEscaped(s: string)
    ensures ReadContent(Escape(s) + CLOSE) == Some(s)
    decreases |s|
  {
    hide ReadContent, ReadSections;
    if s == "" {
      ReadEnd();
    } else if HasPrefix(s, CLOSE) {
      ClosePrefix(s);
      var rest := Escape(s[3..]) + CLOSE;
      ReadEscaped(s[3..]);
      ClosePrefix(['>'] + rest);
      ReadChar('>', rest, s[3..]);
      var seam := CLOSE + (OPEN + (['>'] + rest));
      ReadSeam(['>'] + rest);
      ClosePrefix([']'] + seam);
      ReadChar(']', seam, ['>'] + s[3..]);
      ClosePrefix([']'] + ([']'] + seam));
      ReadChar(']', [']'] + seam, [']'] + (['>'] + s[3..]));
      assert REPLACEMENT == [']'] + ([']'] + (CLOSE + (OPEN + ['>'])));
      assert Escape(s) + CLOSE == [']'] + ([']'] + seam);
      assert s == [']'] + ([']'] + (['>'] + s[3..]));
    } else {
      var rest := Escape(s[1..]) + CLOSE;
      ReadEscaped(s[1..]);
      EscapeHead(s[1..]);
      ClosePrefix(s);
      ClosePrefix([s[0]] + rest);
      ReadChar(s[0], rest, s[1..]);
      assert Escape(s) + CLOSE == [s[0]] + rest;
      assert s == [s[0]] + s[1..];
    }
  }

  /** For every string, reading the wrapped form as consecutive CDATA sections consumes it
      completely and yields the string. */
  lemma WrapRoundTrip(s: string)
    ensures ReadSections(WrapCData(s)) == Some(s)
  {
    ReadEscaped(s);
    assert WrapCData(s) == OPEN + (Escape(s) + CLOSE);
    assert WrapCData(s)[|OPEN|..] == Escape(s) + CLOSE;
  }

  // Two strings never wrap to the same text.
  lemma WrapInjective(s: string, t: string)
    requires WrapCData(s) == WrapCData(t)
    ensures s == t
  {
    WrapRoundTrip(s);
    WrapRoundTrip(t);
  }

  /** The escape is needed exactly for strings that contain CLOSE: bracketing alone reads back
      as the string if and only if it does not. */
  lemma PlainBracketsSuffice(s: string)
    ensures ReadSections(OPEN + s + CLOSE) == Some(s) <==> Index(s, CLOSE) < 0
  {
    assert OPEN + s + CLOSE == OPEN + (s + CLOSE);
    assert (OPEN + (s + CLOSE))[|OPEN|..] == s + CLOSE;
    PlainContent(s);
  }

  // What is read back from a document is never longer than the document without its last CLOSE.
  lemma {:induction false} ReadShrinks(doc: string)
    ensures ReadContent(doc).Some? ==> |ReadContent(doc).value| + |CLOSE| <= |doc|
    decreases |doc|
  {
    if HasPrefix(doc, CLOSE) {
      var rest := doc[|CLOSE|..];
      if HasPrefix(rest, OPEN) {
        ReadShrinks(rest[|OPEN|..]);
      }
    } else if doc != "" {
      ReadShrinks(doc[1..]);
    }
  }

  lemma {:induction false} PlainContent(s: string)
    ensures ReadContent(s + CLOSE) == Some(s) <==> Index(s, CLOSE) < 0
    decreases |s|
  {
    var doc := s + CLOSE;
    if s == "" {
      assert doc == CLOSE;
    } else if HasPrefix(s, CLOSE) {
      assert HasPrefix(doc, CLOSE);
      var rest := doc[|CLOSE|..];
      if HasPrefix(rest, OPEN) {
        ReadShrinks(rest[|OPEN|..]);
      }
    } else {
      PlainContent(s[1..]);
      assert doc[1..] == s[1..] + CLOSE;
      ClosePrefix(s);
      ClosePrefix(doc);
      assert s == [s[0]] + s[1..];
    }
  }
}
