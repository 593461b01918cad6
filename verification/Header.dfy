/** The fixed 16-byte packet header. */
module Header {
  import opened Bits
  import opened Bytes

  const LEN := 16
  const VERSION: u8 := 1

  const HANDSHAKE: u8 := 0
  const MESSAGE: u8 := 1
  const LIGHTHOUSE: u8 := 3
  const IX_PSK0: u8 := 0

  datatype Header = Header(version: u8, kind: u8, subtype: u8, remoteIndex: u32, counter: u64)

  datatype ParseResult = Parsed(header: Header) | HeaderTooShort(need: nat, got: nat)

  /** `(version << 4) | (kind & 0x0f)` in eight bits: the version's high nibble is lost. */
  function FirstByte(version: u8, kind: u8): u8 {
    (version % 16) * 16 + kind % 16
  }

  lemma Nibbles(version: u8, kind: u8)
    ensures FirstByte(version, kind) / 16 % 16 == version % 16
    ensures FirstByte(version, kind) % 16 == kind % 16
  {
    var v := version % 16;
    DivMod(v * 16 + kind % 16, 16, v, kind % 16);
  }

  /** The bytes `encode` leaves in the buffer. */
  function Encoded(h: Header): (b: bytes)
    ensures |b| == LEN
  {
    [FirstByte(h.version, h.kind), h.subtype, 0, 0] + ToBE(h.remoteIndex, 4) + ToBE(h.counter, 8)
  }

  function Parse(b: bytes): ParseResult {
    if |b| < LEN then HeaderTooShort(LEN, |b|)
    else
      Pow256Values();
      FromBEBound(b[4..8]);
      FromBEBound(b[8..16]);
      Parsed(Header(b[0] / 16 % 16, b[0] % 16, b[1], FromBE(b[4..8]), FromBE(b[8..16])))
  }

  method Encode(h: Header, out: array<u8>)
    requires out.Length == LEN
    modifies out
    ensures out[..] == Encoded(h)
  {
    out[0] := FirstByte(h.version, h.kind);
    out[1] := h.subtype;
    out[2], out[3] := 0, 0;
    assert out[..4] == Encoded(h)[..4];
    CopyInto(out, 4, ToBE(h.remoteIndex, 4));
    CopyInto(out, 8, ToBE(h.counter, 8));
    assert out[..4] == Encoded(h)[..4];
    assert out[4..8] == Encoded(h)[4..8];
    assert out[8..16] == Encoded(h)[8..16];
    assert out[..] == out[..4] + out[4..8] + out[8..16];
  }

  method CopyInto(out: array<u8>, at: nat, src: bytes)
    requires at + |src| <= out.Length
    modifies out
    ensures out[at..at + |src|] == src
    ensures out[..at] == old(out[..at]) && out[at + |src|..] == old(out[at + |src|..])
  {
    for i := 0 to |src|
      invariant out[at..at + i] == src[..i]
      invariant out[..at] == old(out[..at]) && out[at + i..] == old(out[at + i..])
    {
      out[at + i] := src[i];
    }
  }

  /** What a receiver parses off the wire, whatever follows the header: every field as sent,
      the two nibbles reduced to four bits. */
  lemma ParseEncoded(h: Header, body: bytes)
    ensures Parse(Encoded(h) + body)
            == Parsed(Header(h.version % 16, h.kind % 16, h.subtype, h.remoteIndex, h.counter))
  {
    Pow256Values();
    Nibbles(h.version, h.kind);
    var b := Encoded(h) + body;
    assert b[0] == FirstByte(h.version, h.kind) && b[1] == h.subtype;
    assert b[4..8] == ToBE(h.remoteIndex, 4);
    assert b[8..16] == ToBE(h.counter, 8);
    BERoundTrip(h.remoteIndex, 4);
    BERoundTrip(h.counter, 8);
  }

  /** The round trip returns the header itself exactly when both nibbles fit in four bits. */
  lemma ParseInvertsEncode(h: Header)
    ensures Parse(Encoded(h)) == Parsed(h) <==> h.version < 16 && h.kind < 16
  {
    assert Encoded(h) + [] == Encoded(h);
    ParseEncoded(h, []);
  }

  lemma NibblesOfByte(x: u8)
    ensures FirstByte(x / 16 % 16, x % 16) == x
  {
  }

  lemma ReEncoded(b: bytes)
    requires Parse(b).Parsed?
    ensures Encoded(Parse(b).header) == [b[0], b[1], 0, 0] + b[4..8] + b[8..16]
  {
    hide FromBE, ToBE, FirstByte;
    NibblesOfByte(b[0]);
    FromBERoundTrip(b[4..8]);
    FromBERoundTrip(b[8..16]);
    assert |b[4..8]| == 4 && |b[8..16]| == 8;
    var h := Parse(b).header;
    assert ToBE(h.remoteIndex, 4) == b[4..8];
    assert ToBE(h.counter, 8) == b[8..16];
    assert FirstByte(h.version, h.kind) == b[0];
  }

  lemma SixteenBytes(b: bytes)
    requires |b| == 16
    ensures b == [b[0], b[1], b[2], b[3]] + b[4..8] + b[8..16]
  {
    assert b == b[..4] + b[4..8] + b[8..16];
    assert b[..4] == [b[0], b[1], b[2], b[3]];
  }

  /** Re-encoding a parsed header gives back the received bytes exactly when they are one
      header long and the reserved field is zero: this is why the raw bytes, not a
      re-encoding, have to be authenticated. */
  lemma EncodeInvertsParse(b: bytes)
    requires Parse(b).Parsed?
    ensures Encoded(Parse(b).header) == b <==> |b| == LEN && b[2] == 0 && b[3] == 0
  {
    ReEncoded(b);
    hide Encoded, FromBE, FirstByte;
    var e := [b[0], b[1], 0, 0] + b[4..8] + b[8..16];
    assert e[2] == 0 && e[3] == 0;
    if |b| == LEN { SixteenBytes(b); }
  }

  /** The sixteen bytes, in numbers. */
  lemma Layout(h: Header)
    ensures Encoded(h) == [h.version % 16 * 16 + h.kind % 16, h.subtype, 0, 0]
                          + FourBytes(h.remoteIndex) + EightBytes(h.counter)
  {
    FourBytesAreBE(h.remoteIndex);
    EightBytesAreBE(h.counter);
    hide ToBE, FourBytes, EightBytes;
  }

  /** What any received bytes parse to, in numbers; only fewer than sixteen are refused. */
  lemma ParsedNumbers(b: bytes)
    ensures Parse(b).Parsed? <==> |b| >= 16
    ensures |b| < 16 ==> Parse(b) == HeaderTooShort(16, |b|)
    ensures |b| >= 16 ==>
              var h := Parse(b).header;
              && h.version == b[0] / 16 && h.kind == b[0] % 16 && h.subtype == b[1]
              && h.remoteIndex == Value(b[4..8]) && h.counter == Value(b[8..16])
  {
    if |b| >= 16 {
      FromBEIsValue(b[8..16]);
      FromBEIsValue(b[4..8]);
      hide FromBE, Value;
    }
  }
}
