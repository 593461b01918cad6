/** Text as code points (section 3 of RFC 3629), and which byte strings are text. */
module Utf8Text {
  import opened Bits
  import opened Bytes
  import opened DerSpec

  /** A Unicode scalar value: any code point but the surrogates. */
  predicate Scalar(c: int) {
    0 <= c < 0xD800 || 0xE000 <= c < 0x11_0000
  }

  /** A code point in one to four bytes. */
  function CharBytes(c: int): (b: bytes)
    requires Scalar(c)
    ensures 1 <= |b| <= 4
  {
    if c < 0x80 then [c]
    else if c < 0x800 then [0xC0 + c / 64, 0x80 + c % 64]
    else if c < 0x1_0000 then [0xE0 + c / 4096, 0x80 + c / 64 % 64, 0x80 + c % 64]
    else [0xF0 + c / 0x4_0000, 0x80 + c / 4096 % 64, 0x80 + c / 64 % 64, 0x80 + c % 64]
  }

  predicate Scalars(cs: seq<int>) {
    forall c :: c in cs ==> Scalar(c)
  }

  function TextBytes(cs: seq<int>): bytes
    requires Scalars(cs)
  {
    if cs == [] then [] else CharBytes(cs[0]) + TextBytes(cs[1..])
  }

  lemma Front(b: bytes, rest: bytes)
    ensures forall k :: 0 <= k < |b| ==> (b + rest)[k] == b[k]
  {
  }

  lemma CharLenOf2(c: int, rest: bytes)
    requires 0x80 <= c < 0x800
    ensures CharLen(CharBytes(c) + rest) == 2
  {
    Front(CharBytes(c), rest);
    assert 2 <= c / 64 < 32;
  }

  lemma CharLenOf3(c: int, rest: bytes)
    requires 0x800 <= c < 0x1_0000 && Scalar(c)
    ensures CharLen(CharBytes(c) + rest) == 3
  {
    Front(CharBytes(c), rest);
    var q, x := c / 64, c / 4096;
    assert x == q / 64 && 0 <= x < 16;
    assert c < 0x1000 ==> q % 64 >= 32;
    assert x == 13 ==> q % 64 < 32;
  }

  lemma CharLenOf4(c: int, rest: bytes)
    requires 0x1_0000 <= c < 0x11_0000
    ensures CharLen(CharBytes(c) + rest) == 4
  {
    Front(CharBytes(c), rest);
    var q, x := c / 4096, c / 0x4_0000;
    assert x == q / 64 && 0 <= x <= 4;
    assert x == 0 ==> q % 64 >= 16;
    assert x == 4 ==> q % 64 < 16;
  }

  lemma CharLenOfChar(c: int, rest: bytes)
    requires Scalar(c)
    ensures CharLen(CharBytes(c) + rest) == |CharBytes(c)|
  {
    if 0x80 <= c < 0x800 { CharLenOf2(c, rest); }
    if 0x800 <= c < 0x1_0000 { CharLenOf3(c, rest); }
    if 0x1_0000 <= c { CharLenOf4(c, rest); }
  }

  /** The code point at the front of text. */
  function CharAt(s: bytes): (c: int)
    requires CharLen(s) > 0
  {
    var b0: int := s[0];
    if CharLen(s) == 1 then b0
    else if CharLen(s) == 2 then var b1: int := s[1]; (b0 - 0xC0) * 64 + (b1 - 0x80)
    else if CharLen(s) == 3 then
      var b1: int, b2: int := s[1], s[2];
      (b0 - 0xE0) * 4096 + (b1 - 0x80) * 64 + (b2 - 0x80)
    else
      var b1: int, b2: int, b3: int := s[1], s[2], s[3];
      (b0 - 0xF0) * 0x4_0000 + (b1 - 0x80) * 4096 + (b2 - 0x80) * 64 + (b3 - 0x80)
  }

  lemma Digits2(x: int, y: int)
    requires 0 <= y < 64
    ensures var c := x * 64 + y; c / 64 == x && c % 64 == y
  {
  }

  lemma Digits3(x: int, y: int, z: int)
    requires 0 <= y < 64 && 0 <= z < 64
    ensures var c := x * 4096 + y * 64 + z; c / 4096 == x && c / 64 % 64 == y && c % 64 == z
  {
    var c := x * 4096 + y * 64 + z;
    DivMod(c, 64, x * 64 + y, z);
    DivMod(x * 64 + y, 64, x, y);
    DivMod(c, 4096, x, y * 64 + z);
  }

  lemma Digits4(x: int, y: int, z: int, u: int)
    requires 0 <= y < 64 && 0 <= z < 64 && 0 <= u < 64
    ensures var c := x * 0x4_0000 + y * 4096 + z * 64 + u;
            c / 0x4_0000 == x && c / 4096 % 64 == y && c / 64 % 64 == z && c % 64 == u
  {
    var c := x * 0x4_0000 + y * 4096 + z * 64 + u;
    DivMod(c, 4096, x * 64 + y, z * 64 + u);
    DivMod(x * 64 + y, 64, x, y);
    DivMod(c, 64, (x * 64 + y) * 64 + z, u);
    DivMod((x * 64 + y) * 64 + z, 64, x * 64 + y, z);
    DivMod(c, 0x4_0000, x, y * 4096 + z * 64 + u);
  }

  lemma CharAtIsChar(s: bytes)
    requires CharLen(s) > 0
    ensures Scalar(CharAt(s)) && CharBytes(CharAt(s)) == s[..CharLen(s)]
  {
    if CharLen(s) == 1 {
      assert s[..1] == [s[0]];
    } else if CharLen(s) == 2 {
      var b0: int, b1: int := s[0], s[1];
      Digits2(b0 - 0xC0, b1 - 0x80);
      assert s[..2] == [s[0], s[1]];
    } else if CharLen(s) == 3 {
      CharAt3(s);
    } else {
      CharAt4(s);
    }
  }

  lemma CharAt3(s: bytes)
    requires CharLen(s) == 3
    ensures Scalar(CharAt(s)) && CharBytes(CharAt(s)) == s[..3]
  {
    var b0: int, b1: int, b2: int := s[0], s[1], s[2];
    Digits3(b0 - 0xE0, b1 - 0x80, b2 - 0x80);
    assert s[..3] == [s[0], s[1], s[2]];
  }

  lemma CharAt4(s: bytes)
    requires CharLen(s) == 4
    ensures Scalar(CharAt(s)) && CharBytes(CharAt(s)) == s[..4]
  {
    var b0: int, b1: int, b2: int, b3: int := s[0], s[1], s[2], s[3];
    Digits4(b0 - 0xF0, b1 - 0x80, b2 - 0x80, b3 - 0x80);
    assert s[..4] == [s[0], s[1], s[2], s[3]];
  }

  lemma {:induction false} EncodedIsText(cs: seq<int>)
    requires Scalars(cs)
    ensures ValidUtf8(TextBytes(cs))
  {
    if cs != [] {
      EncodedIsText(cs[1..]);
      CharLenOfChar(cs[0], TextBytes(cs[1..]));
      hide CharLen, CharBytes;
      assert TextBytes(cs)[|CharBytes(cs[0])|..] == TextBytes(cs[1..]);
    }
  }

  lemma ValidStep(s: bytes)
    requires ValidUtf8(s) && s != []
    ensures CharLen(s) > 0 && ValidUtf8(s[CharLen(s)..])
  {
  }

  lemma FrontAndBack(s: bytes, n: nat)
    requires n <= |s|
    ensures s == s[..n] + s[n..]
  {
  }

  lemma {:induction false} TextIsEncoded(s: bytes) returns (cs: seq<int>)
    requires ValidUtf8(s)
    ensures Scalars(cs) && TextBytes(cs) == s
    decreases |s|
  {
    hide ValidUtf8, CharLen, CharBytes, CharAt, TextBytes, Scalars, Scalar;
    if s == [] {
      cs := [];
      NoText();
    } else {
      ValidStep(s);
      var n := CharLen(s);
      var rest := TextIsEncoded(s[n..]);
      CharAtIsChar(s);
      TextPrepend(CharAt(s), rest);
      FrontAndBack(s, n);
      cs := [CharAt(s)] + rest;
    }
  }

  lemma NoText()
    ensures Scalars([]) && TextBytes([]) == []
  {
  }

  lemma TextPrepend(c: int, rest: seq<int>)
    requires Scalar(c) && Scalars(rest)
    ensures Scalars([c] + rest) && TextBytes([c] + rest) == CharBytes(c) + TextBytes(rest)
  {
    hide CharBytes, Scalar;
    assert ([c] + rest)[1..] == rest;
  }

  /** A byte string is accepted as text exactly if it is the encoding of some code points. */
  lemma TextExactly(s: bytes)
    ensures ValidUtf8(s) <==> exists cs :: Scalars(cs) && TextBytes(cs) == s
  {
    hide ValidUtf8, TextBytes, Scalars;
    if ValidUtf8(s) { var cs := TextIsEncoded(s); }
    if cs :| Scalars(cs) && TextBytes(cs) == s { EncodedIsText(cs); }
  }
}
