/** Well-formed UTF-8, section 4 of RFC 3629, and the decoder that Go applies to
    byte strings (one U+FFFD for each byte that starts no well-formed sequence). */
module Utf8 {

  type byte = x: int | 0 <= x < 256

  const REPLACEMENT := 0xFFFD

  predicate Tail(b: byte) { 0x80 <= b <= 0xBF }

  // The length of the well-formed character s begins with; 0 when it begins with none.
  function CharLen(s: seq<byte>): (n: nat)
    ensures n <= 4 && n <= |s|
  {
    if |s| == 0 then 0
    else if s[0] <= 0x7F then 1
    else if |s| >= 2 && 0xC2 <= s[0] <= 0xDF && Tail(s[1]) then 2
    else if |s| >= 3 && Tail(s[2]) && (
        || (s[0] == 0xE0 && 0xA0 <= s[1] <= 0xBF)
        || (0xE1 <= s[0] <= 0xEC && Tail(s[1]))
        || (s[0] == 0xED && 0x80 <= s[1] <= 0x9F)
        || (0xEE <= s[0] <= 0xEF && Tail(s[1]))) then 3
    else if |s| >= 4 && Tail(s[2]) && Tail(s[3]) && (
        || (s[0] == 0xF0 && 0x90 <= s[1] <= 0xBF)
        || (0xF1 <= s[0] <= 0xF3 && Tail(s[1]))
        || (s[0] == 0xF4 && 0x80 <= s[1] <= 0x8F)) then 4
    else 0
  }

  predicate Valid(s: seq<byte>)
  {
    s == [] || (CharLen(s) > 0 && Valid(s[CharLen(s)..]))
  }

  // Position n of s lies between two characters.
  predicate Boundary(s: seq<byte>, n: nat)
    requires n <= |s|
    decreases |s|
  {
    n == 0 || (0 < CharLen(s) <= n && Boundary(s[CharLen(s)..], n - CharLen(s)))
  }

  function Payload(b: byte, marker: int): int { b - marker }

  // The scalar value of the character s begins with.
  function Rune(s: seq<byte>): int
    requires CharLen(s) > 0
  {
    var n := CharLen(s);
    if n == 1 then s[0]
    else if n == 2 then Payload(s[0], 0xC0) * 0x40 + Payload(s[1], 0x80)
    else if n == 3 then
      Payload(s[0], 0xE0) * 0x1000 + Payload(s[1], 0x80) * 0x40 + Payload(s[2], 0x80)
    else
      Payload(s[0], 0xF0) * 0x4_0000 + Payload(s[1], 0x80) * 0x1000 + Payload(s[2], 0x80) * 0x40
      + Payload(s[3], 0x80)
  }

  // What a consumer sees after the bytes went through a JSON string.
  function Decode(s: seq<byte>): seq<int>
  {
    if s == [] then []
    else if CharLen(s) == 0 then [REPLACEMENT] + Decode(s[1..])
    else [Rune(s)] + Decode(s[CharLen(s)..])
  }

  // UTF-8 is prefix-decodable: cutting after the first character does not change
  // it, and no proper non-empty part of a character is a character.
  lemma CharLenOfPrefix(s: seq<byte>, n: nat)
    requires 0 < n <= |s| && CharLen(s) > 0
    ensures n >= CharLen(s) ==> CharLen(s[..n]) == CharLen(s) && Rune(s[..n]) == Rune(s)
    ensures n < CharLen(s) ==> CharLen(s[..n]) == 0
  {}

  // Within a valid string, the valid prefixes are exactly those that end between
  // two characters, and what follows such a prefix is valid too.
  lemma {:induction false} ValidPrefixIffBoundary(s: seq<byte>, n: nat)
    requires n <= |s| && Valid(s)
    ensures Valid(s[..n]) <==> Boundary(s, n)
    ensures Boundary(s, n) ==> Valid(s[n..])
    decreases |s|
  {
    if n > 0 {
      var k := CharLen(s);
      CharLenOfPrefix(s, n);
      if n >= k {
        ValidPrefixIffBoundary(s[k..], n - k);
        assert s[..n][k..] == s[k..][..n-k];
        assert s[k..][n-k..] == s[n..];
      }
    }
  }

  // Boundaries of a suffix that starts at a boundary are boundaries of the whole.
  lemma {:induction false} BoundaryCompose(s: seq<byte>, m: nat, n: nat)
    requires m <= n <= |s| && Boundary(s, m)
    ensures Boundary(s, n) <==> Boundary(s[m..], n - m)
    decreases |s|
  {
    hide CharLen;
    if m > 0 {
      var k := CharLen(s);
      BoundaryCompose(s[k..], m - k, n - k);
      assert s[k..][m-k..] == s[m..];
    } else {
      assert s[0..] == s;
    }
  }

  // Between any position of a valid string and the nearest boundary before it
  // there are at most three bytes.
  lemma {:induction false} BoundaryNearby(s: seq<byte>, n: nat) returns (back: nat)
    requires n <= |s| && Valid(s)
    ensures back <= 3 && back <= n && Boundary(s, n - back)
    decreases |s|
  {
    if n < CharLen(s) || n == 0 {
      back := n;
    } else {
      back := BoundaryNearby(s[CharLen(s)..], n - CharLen(s));
    }
  }

  lemma DecodeNothing()
    ensures Decode([]) == []
  {}

  lemma DecodeStep(s: seq<byte>)
    requires s != [] && CharLen(s) > 0
    ensures Decode(s) == [Rune(s)] + Decode(s[CharLen(s)..])
  {
    hide CharLen, Rune;
  }

  // Decoding splits at a boundary.
  lemma {:induction false} DecodeSplit(s: seq<byte>, n: nat)
    requires n <= |s| && Boundary(s, n)
    ensures Decode(s) == Decode(s[..n]) + Decode(s[n..])
    decreases |s|
  {
    hide CharLen, Rune, Decode;
    if n == 0 {
      assert s[0..] == s && s[..0] == [];
      DecodeNothing();
    } else {
      var k, t := CharLen(s), s[..n];
      CharLenOfPrefix(s, n);
      DecodeSplit(s[k..], n - k);
      DecodeStep(s);
      DecodeStep(t);
      assert t[k..] == s[k..][..n-k];
      assert s[k..][n-k..] == s[n..];
    }
  }

  // ----- Encoding, section 3 of RFC 3629 -----

  type Scalar = r: int | 0 <= r <= 0x10FFFF && !(0xD800 <= r <= 0xDFFF)

  // The first byte of a character of two to four: a marker and the high bits.
  function Lead(marker: byte, bits: nat): byte
    requires marker + bits < 256
  {
    marker + bits
  }

  // A byte after the first: six bits of the scalar value.
  function Trail(bits: nat): byte { 0x80 + bits % 0x40 }

  function EncodeRune(r: Scalar): (s: seq<byte>)
    ensures 1 <= |s| <= 4
  {
    if r < 0x80 then [Lead(0, r)]
    else if r < 0x800 then [Lead(0xC0, r / 0x40), Trail(r)]
    else if r < 0x1_0000 then [Lead(0xE0, r / 0x40 / 0x40), Trail(r / 0x40), Trail(r)]
    else [Lead(0xF0, r / 0x40 / 0x40 / 0x40), Trail(r / 0x40 / 0x40), Trail(r / 0x40), Trail(r)]
  }

  function Encode(rs: seq<Scalar>): (s: seq<byte>)
    ensures |s| >= |rs|
  {
    if rs == [] then [] else EncodeRune(rs[0]) + Encode(rs[1..])
  }

  lemma EncodeNothing()
    ensures Encode([]) == []
  {}

  lemma EncodedStep(rs: seq<Scalar>)
    requires rs != []
    ensures Encode(rs) == EncodeRune(rs[0]) + Encode(rs[1..])
  {
    hide EncodeRune;
  }

  // Only the bytes of the first character matter.
  lemma HeadOnly(s: seq<byte>, rest: seq<byte>)
    requires CharLen(s) == |s| > 0
    ensures CharLen(s + rest) == |s| && Rune(s + rest) == Rune(s)
  {
    CharLenOfPrefix(s + rest, |s|);
    assert (s + rest)[..|s|] == s;
    assert forall i :: 0 <= i < |s| ==> (s + rest)[i] == s[i];
  }

  lemma EncodedRune(r: Scalar)
    ensures CharLen(EncodeRune(r)) == |EncodeRune(r)| && Rune(EncodeRune(r)) == r
  {
    var q := r / 0x40;
    var p := q / 0x40;
    assert r == q * 0x40 + r % 0x40 && q == p * 0x40 + q % 0x40 && p == p / 0x40 * 0x40 + p % 0x40;
    assert EncodeRune(r)[0] < 0x80 <==> r < 0x80;
    if r < 0x80 {
    } else if r < 0x800 {
    } else if r < 0x1_0000 {
    } else {
    }
  }

  // The first character of encoded text is the one that was encoded first.
  lemma EncodedHead(r: Scalar, rest: seq<byte>)
    ensures CharLen(EncodeRune(r) + rest) == |EncodeRune(r)| && Rune(EncodeRune(r) + rest) == r
  {
    hide CharLen, Rune, EncodeRune;
    EncodedRune(r);
    HeadOnly(EncodeRune(r), rest);
  }

  // Digits to base 0x40 are what division and remainder give back.
  lemma Digits(high: nat, low: nat)
    requires low < 0x40
    ensures (high * 0x40 + low) / 0x40 == high && (high * 0x40 + low) % 0x40 == low
  {}

  lemma TwoBytesEncoded(a: nat, b: nat)
    requires 2 <= a < 0x20 && b < 0x40
    ensures EncodeRune(a * 0x40 + b) == [0xC0 + a, 0x80 + b]
  {
    Digits(a, b);
  }

  lemma ThreeBytesEncoded(a: nat, b: nat, c: nat)
    requires a < 0x10 && b < 0x40 && c < 0x40 && (a == 0 ==> b >= 0x20) && (a == 0xD ==> b < 0x20)
    ensures EncodeRune(a * 0x1000 + b * 0x40 + c) == [0xE0 + a, 0x80 + b, 0x80 + c]
  {
    Digits(a, b);
    Digits(a * 0x40 + b, c);
  }

  lemma FourBytesEncoded(a: nat, b: nat, c: nat, d: nat)
    requires a <= 4 && b < 0x40 && c < 0x40 && d < 0x40 && (a == 0 ==> b >= 0x10) && (a == 4 ==> b < 0x10)
    ensures EncodeRune(a * 0x4_0000 + b * 0x1000 + c * 0x40 + d) == [0xF0 + a, 0x80 + b, 0x80 + c, 0x80 + d]
  {
    Digits(a, b);
    Digits(a * 0x40 + b, c);
    Digits(a * 0x1000 + b * 0x40 + c, d);
  }

  lemma ShortIsEncoded(s: seq<byte>) returns (r: Scalar)
    requires 0 < CharLen(s) <= 2
    ensures r == Rune(s) && EncodeRune(r) == s[..CharLen(s)]
  {
    r := Rune(s);
    if CharLen(s) == 1 {
      assert s[..1] == [s[0]];
    } else {
      hide EncodeRune;
      TwoBytesEncoded(s[0] - 0xC0, s[1] - 0x80);
      assert s[..2] == [s[0], s[1]];
    }
  }

  lemma ThreeIsEncoded(s: seq<byte>) returns (r: Scalar)
    requires CharLen(s) == 3
    ensures r == Rune(s) && EncodeRune(r) == s[..3]
  {
    hide EncodeRune;
    r := Rune(s);
    ThreeBytesEncoded(s[0] - 0xE0, s[1] - 0x80, s[2] - 0x80);
    assert s[..3] == [s[0], s[1], s[2]];
  }

  lemma FourIsEncoded(s: seq<byte>) returns (r: Scalar)
    requires CharLen(s) == 4
    ensures r == Rune(s) && EncodeRune(r) == s[..4]
  {
    hide EncodeRune;
    r := Rune(s);
    FourBytesEncoded(s[0] - 0xF0, s[1] - 0x80, s[2] - 0x80, s[3] - 0x80);
    assert s[..4] == [s[0], s[1], s[2], s[3]];
  }

  // A character is the encoding of the scalar value it stands for.
  lemma CharIsEncoded(s: seq<byte>) returns (r: Scalar)
    requires CharLen(s) > 0
    ensures r == Rune(s) && EncodeRune(r) == s[..CharLen(s)]
  {
    hide CharLen, Rune, EncodeRune;
    if CharLen(s) <= 2 {
      r := ShortIsEncoded(s);
    } else if CharLen(s) == 3 {
      r := ThreeIsEncoded(s);
    } else {
      r := FourIsEncoded(s);
    }
  }

  /** Decoding undoes encoding, for every sequence of scalar values. */
  lemma {:induction false} DecodeEncode(rs: seq<Scalar>)
    ensures Valid(Encode(rs)) && Decode(Encode(rs)) == rs
  {
    hide CharLen, Rune, EncodeRune;
    if rs != [] {
      var head, rest := EncodeRune(rs[0]), Encode(rs[1..]);
      EncodedHead(rs[0], rest);
      DecodeEncode(rs[1..]);
      assert (head + rest)[|head|..] == rest;
      assert rs == [rs[0]] + rs[1..];
    }
  }

  // Well-formed bytes are the encoding of what they decode to.
  lemma {:induction false} EncodeDecode(s: seq<byte>) returns (rs: seq<Scalar>)
    requires Valid(s)
    ensures rs == Decode(s) && Encode(rs) == s
    decreases |s|
  {
    hide CharLen, Rune, EncodeRune;
    if s == [] {
      rs := [];
    } else {
      var k := CharLen(s);
      var r := CharIsEncoded(s);
      var rest := EncodeDecode(s[k..]);
      rs := [r] + rest;
      assert rs[1..] == rest && s == s[..k] + s[k..];
    }
  }

  /** Bytes are well-formed if and only if they encode some sequence of scalar values. */
  lemma ValidIffEncoded(s: seq<byte>)
    ensures Valid(s) <==> exists rs: seq<Scalar> :: s == Encode(rs)
  {
    hide Valid, Encode;
    if Valid(s) {
      var rs := EncodeDecode(s);
    } else {
      forall rs: seq<Scalar>
        ensures s != Encode(rs)
      {
        DecodeEncode(rs);
      }
    }
  }

  lemma {:induction false} EncodeConcat(a: seq<Scalar>, b: seq<Scalar>)
    ensures Encode(a + b) == Encode(a) + Encode(b)
  {
    hide EncodeRune, Encode;
    if a == [] {
      assert a + b == b;
      EncodeNothing();
    } else {
      EncodeConcat(a[1..], b);
      EncodedStep(a);
      EncodedStep(a + b);
      assert (a + b)[1..] == a[1..] + b;
    }
  }

  // A boundary of encoded text lies after some number of its characters.
  lemma {:induction false} BoundaryOfEncoded(rs: seq<Scalar>, n: nat) returns (k: nat)
    requires n <= |Encode(rs)| && Boundary(Encode(rs), n)
    ensures k <= |rs| && Encode(rs[..k]) == Encode(rs)[..n] && Encode(rs[k..]) == Encode(rs)[n..]
    decreases |rs|
  {
    hide CharLen, EncodeRune, Rune;
    if n == 0 {
      k := 0;
      assert rs[0..] == rs && Encode(rs)[0..] == Encode(rs);
    } else {
      assert rs != [];
      var head, rest := EncodeRune(rs[0]), Encode(rs[1..]);
      EncodedHead(rs[0], rest);
      assert (head + rest)[|head|..] == rest;
      var j := BoundaryOfEncoded(rs[1..], n - |head|);
      k := j + 1;
      assert rs[..k] == [rs[0]] + rs[1..][..j] && rs[..k][1..] == rs[1..][..j];
      assert rs[k..] == rs[1..][j..];
      assert (head + rest)[..n] == head + rest[..n-|head|];
      assert (head + rest)[n..] == rest[n-|head|..];
    }
  }

  lemma {:induction false} EncodedBoundary(rs: seq<Scalar>, k: nat)
    requires k <= |rs|
    ensures |Encode(rs[..k])| <= |Encode(rs)| && Boundary(Encode(rs), |Encode(rs[..k])|)
    ensures Encode(rs)[..|Encode(rs[..k])|] == Encode(rs[..k])
  {
    EncodeConcat(rs[..k], rs[k..]);
    assert rs == rs[..k] + rs[k..];
    DecodeEncode(rs);
    DecodeEncode(rs[..k]);
    ValidPrefixIffBoundary(Encode(rs), |Encode(rs[..k])|);
  }
}
