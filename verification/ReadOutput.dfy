/** The read_output tool: one page of a spilled file per call, never splitting a
    UTF-8 sequence across two pages of well-formed content. */
module ReadOutput {
  import opened Seqs
  import opened Utf8

  const MAX_BUDGET := 9000
  const WINDOW: nat := MAX_BUDGET - 256
  const UTF_MAX := 4

  datatype Error = BeyondEnd | ReadFailed | ChangedWhileReading

  // next is the offset printed in the continuation footer, if there is a footer.
  datatype Reply =
    | Empty
    | Page(start: nat, end: nat, total: nat, chunk: seq<byte>, next: Option<nat>)
    | Failed(error: Error)

  // How many bytes the trim may still give back after i of them.
  function Left(i: nat): nat { if i < UTF_MAX - 1 then UTF_MAX - 1 - i else 0 }

  // The longest prefix length the trim may stop at: the greatest m <= n whose
  // prefix is valid, looking at most `left` bytes back, else n - left (not below 0).
  function BackedOff(buf: seq<byte>, n: nat, left: nat): (m: nat)
    requires n <= |buf|
    ensures m <= n <= m + left
    ensures Valid(buf[..m]) || m == 0 || m + left == n
    ensures forall i :: m < i <= n ==> !Valid(buf[..i])
  {
    if left == 0 || n == 0 || Valid(buf[..n]) then n else BackedOff(buf, n - 1, left - 1)
  }

  /** What a call at a clamped offset answers when stat reported `total` bytes and
      the read saw `content`; the two differ when the file changed in between. */
  function ReplyFor(total: nat, content: seq<byte>, offset: nat): Reply
  {
    if total == 0 then Empty
    else if offset >= total then Failed(BeyondEnd)
    else
      var want := Min(WINDOW, total - offset);
      var got := if offset >= |content| then 0 else Min(want, |content| - offset);
      if got == 0 then Failed(ReadFailed) else PageOf(total, offset, content[offset..offset + got])
  }

  // The page made of the bytes read at offset.
  function PageOf(total: nat, offset: nat, read: seq<byte>): Reply
  {
    var n := if offset + |read| < total then BackedOff(read, |read|, Left(0)) else |read|;
    if n == 0 then Failed(ChangedWhileReading)
    else Page(offset, offset + n, total, read[..n], if offset + n < total then Some(offset + n) else None)
  }

  // Where the trim of content[offset..last] stops, in terms of content.
  lemma TrimOf(content: seq<byte>, offset: nat, last: nat)
    requires offset < last <= |content|
    ensures var n := BackedOff(content[offset..last], last - offset, Left(0));
      && n <= last - offset <= n + 3
      && content[offset..last][..n] == content[offset..offset + n]
      && (Valid(content[offset..offset + n]) || n == 0 || n + 3 == last - offset)
      && forall e :: offset + n < e <= last ==> !Valid(content[offset..e])
  {
    hide CharLen, Valid;
    var read := content[offset..last];
    var n := BackedOff(read, last - offset, Left(0));
    assert read[..n] == content[offset..offset + n];
    forall e | offset + n < e <= last
      ensures !Valid(content[offset..e])
    {
      assert content[offset..e] == read[..e - offset];
    }
  }

  /** Every answer to every call: which error, and where the page ends. A page that does not end
      with the file is the longest well-formed prefix of what was read, or three bytes short of it. */
  lemma ReplyCases(total: nat, content: seq<byte>, offset: nat)
    ensures var r := ReplyFor(total, content, offset);
      && (r.Empty? <==> total == 0)
      && (r == Failed(BeyondEnd) <==> 0 < total <= offset)
      && (r == Failed(ReadFailed) <==> offset < total && |content| <= offset)
    ensures offset < total && offset < |content| ==>
      var r, last := ReplyFor(total, content, offset), Min(offset + WINDOW, Min(total, |content|));
      && (r.Page? || r == Failed(ChangedWhileReading))
      && (r.Page? ==>
            && r.start == offset < r.end <= last <= r.end + 3 && r.total == total
            && r.chunk == content[offset..r.end]
            && (r.next == if r.end < total then Some(r.end) else None)
            && (if last == total then r.end == last
                else (Valid(r.chunk) || r.end + 3 == last)
                     && forall e :: r.end < e <= last ==> !Valid(content[offset..e])))
      && (r == Failed(ChangedWhileReading) <==>
            last < total && last <= offset + 3 && forall e :: offset < e <= last ==> !Valid(content[offset..e]))
  {
    hide CharLen, Valid, BackedOff;
    if offset < total && offset < |content| {
      var last := Min(offset + WINDOW, Min(total, |content|));
      var read := content[offset..last];
      assert ReplyFor(total, content, offset) == PageOf(total, offset, read);
      assert read[..|read|] == read;
      TrimOf(content, offset, last);
    }
  }

  // ReadAt: fills buf from offset, reporting how much it got.
  method ReadAt(content: seq<byte>, buf: array<byte>, offset: nat) returns (n: nat, eof: bool)
    modifies buf
    ensures n == (if offset >= |content| then 0 else Min(buf.Length, |content| - offset))
    ensures eof <==> n < buf.Length
    ensures forall i :: 0 <= i < n ==> buf[i] == content[offset + i]
  {
    n := 0;
    while n < buf.Length && offset + n < |content|
      invariant n <= buf.Length && (n > 0 ==> offset + n <= |content|)
      invariant forall i :: 0 <= i < n ==> buf[i] == content[offset + i]
    {
      buf[n] := content[offset + n];
      n := n + 1;
    }
    eof := n < buf.Length;
  }

  // The back-off loop: gives up at most UTF_MAX - 1 bytes to end between runes.
  method TrimToRune(buf: array<byte>, read: nat) returns (n: nat)
    requires read <= buf.Length
    ensures n == BackedOff(buf[..read], read, Left(0))
  {
    hide CharLen;
    n := read;
    var i: nat := 0;
    while i < UTF_MAX - 1 && n > 0 && !Valid(buf[..n])
      invariant i <= UTF_MAX - 1 && n <= read
      invariant BackedOff(buf[..read], n, Left(i)) == BackedOff(buf[..read], read, Left(0))
    {
      assert buf[..read][..n] == buf[..n];
      n := n - 1;
      i := i + 1;
    }
    assert buf[..read][..n] == buf[..n];
  }

  // The reply made of the n bytes read at offset.
  method PageFrom(total: nat, offset: nat, buf: array<byte>, read: nat) returns (r: Reply)
    requires read <= buf.Length
    ensures r == PageOf(total, offset, buf[..read])
  {
    hide CharLen, Valid, BackedOff;
    var n := read;
    if offset + n < total {
      n := TrimToRune(buf, n);
    }
    if n == 0 {
      return Failed(ChangedWhileReading);
    }
    var chunk := buf[..n];
    assert chunk == buf[..read][..n];
    r := Page(offset, offset + n, total, chunk, if offset + n < total then Some(offset + n) else None);
  }

  method HandleReadOutput(total: nat, content: seq<byte>, requested: int) returns (r: Reply)
    ensures r == ReplyFor(total, content, if requested < 0 then 0 else requested)
  {
    hide PageOf;
    if total == 0 {
      return Empty;
    }
    var offset: nat := if requested < 0 then 0 else requested;
    if offset >= total {
      return Failed(BeyondEnd);
    }
    var window := WINDOW;
    if total - offset < window {
      window := total - offset;
    }
    var buf := new byte[window];
    var n, eof := ReadAt(content, buf, offset);
    if eof && n == 0 {
      return Failed(ReadFailed);
    }
    assert n <= |content| - offset;
    assert buf[..n] == content[offset..offset + n];
    r := PageFrom(total, offset, buf, n);
  }

  // ----- Following the footers of an unchanging file -----

  // A page starts where it was asked to, is not empty, holds exactly the bytes it
  // announces, and points to its own end exactly when bytes remain.
  lemma PageExact(file: seq<byte>, offset: nat)
    requires offset < |file|
    ensures var r := ReplyFor(|file|, file, offset);
      && r.Page? && r.start == offset && offset < r.end <= |file| && r.total == |file|
      && r.end - offset <= WINDOW
      && r.chunk == file[offset..r.end]
      && (r.next == if r.end < |file| then Some(r.end) else None)
  {
    var want := Min(WINDOW, |file| - offset);
    var buf := file[offset..offset + want];
    var n := if offset + want < |file| then BackedOff(buf, want, Left(0)) else want;
    assert buf[..n] == file[offset..offset + n];
  }

  // The replies a client collects by passing each footer's offset to the next call.
  ghost function Pages(file: seq<byte>, offset: nat): seq<Reply>
    requires offset < |file|
    decreases |file| - offset
  {
    PageExact(file, offset);
    var r := ReplyFor(|file|, file, offset);
    [r] + if r.next.Some? then Pages(file, r.next.value) else []
  }

  ghost function Chunks(pages: seq<Reply>): seq<seq<byte>>
    requires forall p :: p in pages ==> p.Page?
  {
    if pages == [] then [] else [pages[0].chunk] + Chunks(pages[1..])
  }

  ghost function DecodeEach(chunks: seq<seq<byte>>): seq<int>
  {
    if chunks == [] then [] else Decode(chunks[0]) + DecodeEach(chunks[1..])
  }

  /** Reassembly: whatever the content, the client ends after finitely many calls,
      every page makes progress and continues where the previous one stopped, and
      the chunks concatenate to the rest of the file. */
  lemma {:induction false} PagesReassemble(file: seq<byte>, offset: nat)
    requires offset < |file|
    ensures var ps := Pages(file, offset);
      && (forall p :: p in ps ==> p.Page? && p.start < p.end <= p.start + WINDOW)
      && ps[0].start == offset && ps[|ps|-1].end == |file|
      && (forall i :: 0 < i < |ps| ==> ps[i].start == ps[i-1].end)
      && Flatten(Chunks(ps)) == file[offset..]
    decreases |file| - offset
  {
    hide CharLen, BackedOff, ReplyFor, PageOf;
    PageExact(file, offset);
    var ps := Pages(file, offset);
    var r := ps[0];
    if r.next.Some? {
      PagesReassemble(file, r.end);
      assert ps[1..] == Pages(file, r.end);
      assert file[offset..] == file[offset..r.end] + file[r.end..];
    } else {
      assert Chunks(ps)[1..] == [];
    }
  }

  // The trim reaches a boundary of well-formed content, and the nearest one.
  lemma TrimFindsBoundary(rest: seq<byte>, n: nat)
    requires Valid(rest) && n <= |rest|
    ensures var m := BackedOff(rest[..n], n, Left(0));
      && Boundary(rest, m) && (n >= UTF_MAX ==> m > 0)
      && forall e :: m < e <= n ==> !Boundary(rest, e)
  {
    hide CharLen;
    var buf := rest[..n];
    var m := BackedOff(buf, n, Left(0));
    forall i: nat | i <= n
      ensures Valid(buf[..i]) <==> Boundary(rest, i)
    {
      ValidPrefixIffBoundary(rest, i);
      assert buf[..i] == rest[..i];
    }
    var back := BoundaryNearby(rest, n);
    assert Valid(buf[..n-back]);
    assert forall i :: m < i <= n ==> !Valid(buf[..i]);
  }

  // How far the page at offset goes.
  lemma PageEnd(file: seq<byte>, offset: nat)
    requires offset < |file|
    ensures var want := Min(WINDOW, |file| - offset);
      ReplyFor(|file|, file, offset).Page?
      && ReplyFor(|file|, file, offset).end - offset
         == if offset + want < |file| then BackedOff(file[offset..][..want], want, Left(0)) else want
  {
    hide BackedOff, Valid;
    PageExact(file, offset);
    var want := Min(WINDOW, |file| - offset);
    assert file[offset..offset + want] == file[offset..][..want];
  }

  // Where a trimmed or last page of well-formed bytes ends.
  lemma EndOnBoundary(rest: seq<byte>, want: nat, m: nat)
    requires Valid(rest) && want <= |rest|
    requires m == if want < |rest| then BackedOff(rest[..want], want, Left(0)) else want
    ensures m <= want && Boundary(rest, m) && Valid(rest[..m])
    ensures forall e :: m < e <= want ==> !Boundary(rest, e)
  {
    if want < |rest| {
      TrimFindsBoundary(rest, want);
    } else {
      ValidPrefixIffBoundary(rest, |rest|);
      assert rest[..|rest|] == rest;
    }
    hide Boundary, Valid, BackedOff;
    ValidPrefixIffBoundary(rest, m);
  }

  /** Every page of well-formed content is well-formed, starts between two
      characters, and no longer page within the window would have done so. */
  lemma PageOnBoundary(file: seq<byte>, offset: nat)
    requires Valid(file) && offset < |file| && Boundary(file, offset)
    ensures var r := ReplyFor(|file|, file, offset);
      && r.Page? && Valid(r.chunk) && Boundary(file, r.end)
      && forall e :: r.end < e <= |file| && e <= offset + WINDOW ==> !Boundary(file, e)
  {
    hide CharLen, ReplyFor, BackedOff, Valid, Boundary;
    PageExact(file, offset);
    PageEnd(file, offset);
    var r := ReplyFor(|file|, file, offset);
    var want := Min(WINDOW, |file| - offset);
    var rest := file[offset..];
    ValidPrefixIffBoundary(file, offset);
    EndOnBoundary(rest, want, r.end - offset);
    forall e | r.end <= e <= offset + want
      ensures Boundary(file, e) <==> Boundary(rest, e - offset)
    {
      BoundaryCompose(file, offset, e);
    }
    assert rest[..r.end - offset] == r.chunk;
  }

  // Decoding from a page's start is decoding the page and then from its end.
  lemma PageDecodes(file: seq<byte>, offset: nat)
    requires Valid(file) && offset < |file| && Boundary(file, offset)
    ensures var r := ReplyFor(|file|, file, offset);
      r.Page? && r.end <= |file| && Decode(file[offset..]) == Decode(r.chunk) + Decode(file[r.end..])
  {
    hide CharLen, ReplyFor, Valid, Boundary, Decode;
    PageExact(file, offset);
    PageOnBoundary(file, offset);
    var r := ReplyFor(|file|, file, offset);
    var rest := file[offset..];
    BoundaryCompose(file, offset, r.end);
    DecodeSplit(rest, r.end - offset);
    assert rest[..r.end - offset] == r.chunk;
    assert rest[r.end - offset..] == file[r.end..];
  }

  /** For well-formed content no page shows a replacement character that the file
      does not have: decoding page by page is decoding the file. */
  lemma {:induction false} PagesValid(file: seq<byte>, offset: nat)
    requires Valid(file) && offset < |file| && Boundary(file, offset)
    ensures var ps := Pages(file, offset);
      && (forall p :: p in ps ==> p.Page? && Valid(p.chunk) && p.start < |file| && Boundary(file, p.start))
      && DecodeEach(Chunks(ps)) == Decode(file[offset..])
    decreases |file| - offset
  {
    assert Decode([]) == [];
    hide CharLen, ReplyFor, Valid, Boundary, Decode;
    PageExact(file, offset);
    PageOnBoundary(file, offset);
    PageDecodes(file, offset);
    var ps := Pages(file, offset);
    var r := ps[0];
    if r.next.Some? {
      PagesValid(file, r.end);
      assert ps[1..] == Pages(file, r.end);
    } else {
      assert Chunks(ps)[1..] == [];
    }
  }

  /** The whole-file statement: from offset 0 the pages of well-formed content
      are well-formed and give back the file, byte for byte and rune for rune. */
  lemma ReadWholeFile(file: seq<byte>)
    requires file != [] && Valid(file)
    ensures var ps := Pages(file, 0);
      && (forall p :: p in ps ==> p.Page? && Valid(p.chunk))
      && Flatten(Chunks(ps)) == file
      && DecodeEach(Chunks(ps)) == Decode(file)
  {
    PagesReassemble(file, 0);
    PagesValid(file, 0);
    assert file[0..] == file;
  }

  // ----- Files given as characters -----

  // How many bytes the characters before the k-th take.
  ghost function OffsetOf(rs: seq<Scalar>, k: nat): nat
    requires k <= |rs|
  {
    |Encode(rs[..k])|
  }

  lemma PieceOfEncoded(rs: seq<Scalar>, k: nat, m: nat)
    requires k <= m <= |rs|
    ensures OffsetOf(rs, k) + |Encode(rs[k..m])| == OffsetOf(rs, m) <= |Encode(rs)|
    ensures Encode(rs)[OffsetOf(rs, k)..OffsetOf(rs, m)] == Encode(rs[k..m])
    ensures k < m ==> OffsetOf(rs, k) < OffsetOf(rs, m)
  {
    hide Boundary;
    EncodeConcat(rs[..k], rs[k..m]);
    assert rs[..m] == rs[..k] + rs[k..m];
    EncodedBoundary(rs, m);
    var file, a, b := Encode(rs), OffsetOf(rs, k), OffsetOf(rs, m);
    assert file[a..b] == file[..b][a..];
  }

  /** The page that starts at the k-th character of a file holds the longest run of whole
      characters that fits the window: the next character would not have fitted. */
  lemma PageOfEncoded(rs: seq<Scalar>, k: nat) returns (m: nat)
    requires k < |rs|
    ensures OffsetOf(rs, k) < |Encode(rs)|
    ensures var r := ReplyFor(|Encode(rs)|, Encode(rs), OffsetOf(rs, k));
      && k < m <= |rs| && r.Page? && r.end == OffsetOf(rs, m)
      && r.chunk == Encode(rs[k..m]) && |r.chunk| <= WINDOW
      && (m < |rs| ==> |Encode(rs[k..m+1])| > WINDOW)
      && (r.next == if m < |rs| then Some(OffsetOf(rs, m)) else None)
  {
    hide CharLen, ReplyFor, Valid, Boundary, Encode, EncodeRune;
    var file, offset := Encode(rs), OffsetOf(rs, k);
    assert rs[..|rs|] == rs;
    PieceOfEncoded(rs, k, |rs|);
    EncodedBoundary(rs, k);
    DecodeEncode(rs);
    PageExact(file, offset);
    PageOnBoundary(file, offset);
    var r := ReplyFor(|file|, file, offset);
    m := BoundaryOfEncoded(rs, r.end);
    if m <= k {
      PieceOfEncoded(rs, m, k);
      assert false;
    }
    PieceOfEncoded(rs, k, m);
    PieceOfEncoded(rs, m, |rs|);
    if m < |rs| {
      PieceOfEncoded(rs, m, m + 1);
      PieceOfEncoded(rs, k, m + 1);
      EncodedBoundary(rs, m + 1);
    }
  }

  // Consecutive pieces, each the longest that fits the window.
  ghost predicate Greedy(pieces: seq<seq<Scalar>>)
  {
    && (forall i :: 0 <= i < |pieces| ==> pieces[i] != [] && |Encode(pieces[i])| <= WINDOW)
    && (forall i :: 0 < i < |pieces| ==> |Encode(pieces[i-1] + [pieces[i][0]])| > WINDOW)
  }

  /** A client that follows the footers of a file of characters gets the encodings of
      consecutive pieces of it, cut greedily between characters. */
  lemma {:induction false} PagesOfEncoded(rs: seq<Scalar>, k: nat) returns (pieces: seq<seq<Scalar>>)
    requires k < |rs|
    ensures OffsetOf(rs, k) < |Encode(rs)|
    ensures Flatten(pieces) == rs[k..] && Greedy(pieces)
    ensures var ps := Pages(Encode(rs), OffsetOf(rs, k));
      && (forall p :: p in ps ==> p.Page?)
      && |ps| == |pieces| && forall i :: 0 <= i < |ps| ==> ps[i].chunk == Encode(pieces[i])
    decreases |rs| - k
  {
    hide ReplyFor, Encode;
    var m := PageOfEncoded(rs, k);
    if m < |rs| {
      var rest := PagesOfEncoded(rs, m);
      pieces := [rs[k..m]] + rest;
      assert rs[k..m+1] == rs[k..m] + [rs[m]] && Flatten(rest)[0] == rs[m];
      assert rs[k..] == rs[k..m] + rs[m..];
    } else {
      pieces := [rs[k..m]];
      assert Flatten(pieces[1..]) == [];
    }
  }
}
