/** The hand-written encoder and decoder: a cursor over the input, a growing output buffer and
    loops over lists, each proved to compute what the format specifies. */
module DerCodec {
  import opened Optional
  import opened Bits
  import opened Bytes
  import opened Net
  import opened DerSpec
  import opened DerProofs

  class Reader {
    const data: bytes
    var pos: nat

    ghost predicate Valid()
      reads this
    {
      pos <= |data|
    }

    /** What is still to be read. */
    ghost function Rest(): bytes
      reads this
      requires Valid()
    {
      data[pos..]
    }

    constructor (data: bytes)
      ensures Valid() && this.data == data && Rest() == data
    {
      this.data, pos := data, 0;
    }

    method IsEmpty() returns (empty: bool)
      requires Valid()
      ensures empty <==> Rest() == []
    {
      empty := pos >= |data|;
    }

    method ReadLength() returns (r: Result<nat>)
      requires Valid()
      modifies this`pos
      ensures Valid() && pos >= old(pos)
      ensures match DerSpec.ReadLength(old(Rest()))
              case Ok(item) => r == Ok(item.value) && Rest() == item.rest
              case Malformed => r.Malformed?
    {
      if pos >= |data| { return Malformed; }
      var first := data[pos];
      pos := pos + 1;
      if first < 0x80 { return Ok(first); }
      var numBytes := first - 0x80;
      if numBytes == 0 || numBytes > 8 || pos + numBytes > |data| { return Malformed; }
      ghost var rest := old(Rest());
      assert data[pos..pos + numBytes] == rest[1..1 + numBytes];
      var value := FromBE(data[pos..pos + numBytes]);
      pos := pos + numBytes;
      r := Ok(value);
    }

    method ReadTlv(tag: u8) returns (r: Result<bytes>)
      requires Valid()
      modifies this`pos
      ensures Valid() && pos >= old(pos)
      ensures match DerSpec.ReadTlv(old(Rest()), tag)
              case Ok(item) => r == Ok(item.value) && Rest() == item.rest && pos > old(pos)
              case Malformed => r.Malformed?
    {
      hide DerSpec.ReadLength;
      if pos >= |data| || data[pos] != tag { return Malformed; }
      pos := pos + 1;
      assert Rest() == old(Rest())[1..];
      var length := ReadLength();
      if length.Malformed? { return Malformed; }
      var end := pos + length.value;
      if end > |data| { return Malformed; }
      ghost var after := Rest();
      var content := data[pos..end];
      assert content == after[..length.value];
      pos := end;
      assert Rest() == after[length.value..];
      r := Ok(content);
    }

    method ReadTlvRaw(tag: u8) returns (r: Result<bytes>)
      requires Valid()
      modifies this`pos
      ensures Valid() && pos >= old(pos)
      ensures match DerSpec.ReadTlvRaw(old(Rest()), tag)
              case Ok(item) => r == Ok(item.value) && Rest() == item.rest
              case Malformed => r.Malformed?
    {
      hide DerSpec.ReadTlv;
      var start := pos;
      var item := ReadTlv(tag);
      if item.Malformed? { return Malformed; }
      ghost var was := old(Rest());
      assert data[start..pos] == was[..|was| - |Rest()|];
      r := Ok(data[start..pos]);
    }

    method ReadTlvOpt(tag: u8) returns (r: Result<Option<bytes>>)
      requires Valid()
      modifies this`pos
      ensures Valid() && pos >= old(pos)
      ensures match DerSpec.ReadTlvOpt(old(Rest()), tag)
              case Ok(item) => r == Ok(item.value) && Rest() == item.rest
              case Malformed => r.Malformed?
    {
      hide DerSpec.ReadTlv;
      if pos < |data| && data[pos] == tag {
        var item := ReadTlv(tag);
        if item.Malformed? { return Malformed; }
        r := Ok(Some(item.value));
      } else {
        r := Ok(None);
      }
    }
  }

  class Writer {
    var out: bytes

    constructor ()
      ensures out == []
    {
      out := [];
    }

    method WriteLength(len: u64)
      modifies this
      ensures out == old(out) + Length(len)
    {
      hide ToBE, FromBE;
      if len < 0x80 {
        out := out + [len];
      } else {
        var significant := SignificantBytes(ToBE(len, 8));
        out := out + [0x80 + |significant|] + significant;
      }
    }

    /** The position loop over the eight length bytes. */
    method SignificantBytes(buf: bytes) returns (s: bytes)
      requires |buf| == 8
      ensures s == Significant(buf)
    {
      var i := 0;
      while i < 7 && buf[i] == 0
        invariant i <= 7
        invariant Significant(buf[i..]) == Significant(buf)
      {
        assert buf[i..][1..] == buf[i + 1..];
        i := i + 1;
      }
      s := buf[i..];
    }

    method WriteTlv(tag: u8, content: bytes)
      requires |content| < TWO64
      modifies this
      ensures out == old(out) + Tlv(tag, content)
    {
      hide Length;
      out := out + [tag];
      WriteLength(|content|);
      out := out + content;
    }
  }

  method EncodeDerInt(v: i64) returns (b: bytes)
    ensures b == DerInt(v)
  {
    var buf := I64Bytes(v);
    var i := 0;
    while i < 7 && buf[i] == 0 && buf[i + 1] < 0x80
      invariant i <= 7
      invariant IntStart(buf, i) == IntStart(buf, 0)
    {
      i := i + 1;
    }
    b := buf[i..];
  }

  lemma {:induction false} NetworkListAppend(ns: seq<Network>, n: Network)
    ensures NetworkList(ns + [n]) == NetworkList(ns) + Tlv(UNIVERSAL_OCTET_STRING, NetworkBytes(n))
  {
    hide Tlv;
    if ns == [] {
      assert [n][1..] == [] && [] + [n] == [n];
      assert NetworkList([n]) == Tlv(UNIVERSAL_OCTET_STRING, NetworkBytes(n)) + NetworkList([n][1..]);
    } else {
      assert (ns + [n])[1..] == ns[1..] + [n];
      NetworkListAppend(ns[1..], n);
    }
  }

  lemma {:induction false} GroupListAppend(gs: seq<Utf8>, g: Utf8)
    ensures GroupList(gs + [g]) == GroupList(gs) + Tlv(UNIVERSAL_UTF8_STRING, g)
  {
    hide Tlv;
    if gs == [] {
      assert [g][1..] == [] && [] + [g] == [g];
      assert GroupList([g]) == Tlv(UNIVERSAL_UTF8_STRING, g) + GroupList([g][1..]);
    } else {
      assert (gs + [g])[1..] == gs[1..] + [g];
      GroupListAppend(gs[1..], g);
    }
  }

  method EncodeNetworks(ns: seq<Network>) returns (b: bytes)
    ensures b == NetworkList(ns)
  {
    var w := new Writer();
    for i := 0 to |ns|
      invariant w.out == NetworkList(ns[..i]) && fresh(w)
    {
      NetworkRoundTrip(ns[i]);
      NetworkListAppend(ns[..i], ns[i]);
      assert ns[..i + 1] == ns[..i] + [ns[i]];
      w.WriteTlv(UNIVERSAL_OCTET_STRING, NetworkBytes(ns[i]));
    }
    assert ns[..|ns|] == ns;
    b := w.out;
  }

  method EncodeGroups(gs: seq<Utf8>) returns (b: bytes)
    requires |GroupList(gs)| < TWO64
    ensures b == GroupList(gs)
  {
    var w := new Writer();
    for i := 0 to |gs|
      invariant w.out == GroupList(gs[..i]) && fresh(w)
    {
      GroupFits(gs, i);
      GroupListAppend(gs[..i], gs[i]);
      assert gs[..i + 1] == gs[..i] + [gs[i]];
      w.WriteTlv(UNIVERSAL_UTF8_STRING, gs[i]);
    }
    assert gs[..|gs|] == gs;
    b := w.out;
  }

  lemma {:induction false} GroupFits(gs: seq<Utf8>, i: nat)
    requires i < |gs|
    ensures |gs[i]| < |GroupList(gs)|
  {
    if i > 0 { GroupFits(gs[1..], i - 1); }
  }

  method WriteLists(w: Writer, d: Details)
    requires |FromNetworks(d)| < TWO64
    modifies w
    ensures w.out + FromIsCa(d) == old(w.out) + FromNetworks(d)
  {
    hide Tlv, NetworkList, GroupList, FromIsCa;
    FieldSizes(d);
    ghost var start := w.out;
    if d.networks != [] {
      var nets := EncodeNetworks(d.networks);
      w.WriteTlv(TAG_DETAILS_NETWORKS, nets);
    }
    ghost var afterNetworks := w.out;
    assert afterNetworks == start + OptTlv(d.networks != [], TAG_DETAILS_NETWORKS, NetworkList(d.networks));
    assert afterNetworks + FromUnsafeNetworks(d) == start + FromNetworks(d);
    if d.unsafeNetworks != [] {
      var nets := EncodeNetworks(d.unsafeNetworks);
      w.WriteTlv(TAG_DETAILS_UNSAFE_NETWORKS, nets);
    }
    assert w.out + FromGroups(d) == afterNetworks + FromUnsafeNetworks(d);
    hide FromNetworks, FromUnsafeNetworks;
    if d.groups != [] {
      var groups := EncodeGroups(d.groups);
      w.WriteTlv(TAG_DETAILS_GROUPS, groups);
    }
  }

  method WriteTail(w: Writer, d: Details)
    requires |d.issuer| < TWO64
    modifies w
    ensures w.out == old(w.out) + FromIsCa(d)
  {
    hide Tlv, DerInt;
    DerIntRoundTrip(d.notBefore);
    DerIntRoundTrip(d.notAfter);
    if d.isCa {
      w.WriteTlv(TAG_DETAILS_IS_CA, [0xFF]);
    }
    assert w.out + FromNotBefore(d) == old(w.out) + FromIsCa(d);
    var notBefore := EncodeDerInt(d.notBefore);
    w.WriteTlv(TAG_DETAILS_NOT_BEFORE, notBefore);
    var notAfter := EncodeDerInt(d.notAfter);
    w.WriteTlv(TAG_DETAILS_NOT_AFTER, notAfter);
    assert w.out + FromIssuer(d) == old(w.out) + FromIsCa(d);
    if d.issuer != [] {
      w.WriteTlv(TAG_DETAILS_ISSUER, d.issuer);
    }
  }

  /** Writes the fields in order, leaving out empty lists, an absent authority flag and an
      empty issuer. The bound is that of a 64-bit length. */
  method EncodeDetails(d: Details) returns (b: bytes)
    requires |DetailsTlv(d)| < TWO64
    ensures b == DetailsTlv(d)
  {
    FieldSizes(d);
    hide Tlv, FromNetworks, FromIsCa;
    var inner := new Writer();
    inner.WriteTlv(TAG_DETAILS_NAME, d.name);
    WriteLists(inner, d);
    WriteTail(inner, d);
    assert inner.out == Tlv(TAG_DETAILS_NAME, d.name) + FromNetworks(d);
    var w := new Writer();
    w.WriteTlv(TAG_CERT_DETAILS, inner.out);
    b := w.out;
  }

  /** The list read so far followed by whatever the rest decodes to, failure included. */
  ghost function Prepend<T>(front: seq<T>, rest: Result<seq<T>>): Result<seq<T>> {
    if rest.Ok? then Ok(front + rest.value) else Malformed
  }

  lemma PrependNothing<T>(r: Result<seq<T>>)
    ensures Prepend([], r) == r
  {
    if r.Ok? { assert [] + r.value == r.value; }
  }

  lemma PrependTwice<T>(a: seq<T>, b: seq<T>, r: Result<seq<T>>)
    ensures Prepend(a, Prepend(b, r)) == Prepend(a + b, r)
  {
    if r.Ok? { assert a + (b + r.value) == (a + b) + r.value; }
  }

  lemma NetworkListStep(s: bytes)
    requires s != []
    ensures ReadNetworkList(s) ==
              match DerSpec.ReadTlv(s, UNIVERSAL_OCTET_STRING)
              case Malformed => Malformed
              case Ok(item) =>
                match ReadNetwork(item.value)
                case Malformed => Malformed
                case Ok(n) => Prepend([n], ReadNetworkList(item.rest))
  {
    hide DerSpec.ReadTlv, ReadNetwork;
  }

  lemma GroupListStep(s: bytes)
    requires s != []
    ensures ReadGroupList(s) ==
              match DerSpec.ReadTlv(s, UNIVERSAL_UTF8_STRING)
              case Malformed => Malformed
              case Ok(item) =>
                match ReadUtf8(item.value)
                case Malformed => Malformed
                case Ok(g) => Prepend([g], ReadGroupList(item.rest))
  {
    hide DerSpec.ReadTlv, ReadUtf8;
  }

  method DecodeNetworks(nets: bytes) returns (r: Result<seq<Network>>)
    ensures r == ReadNetworkList(nets)
  {
    hide DerSpec.ReadTlv, ReadNetwork;
    var nr := new Reader(nets);
    var networks := [];
    PrependNothing(ReadNetworkList(nets));
    var empty := nr.IsEmpty();
    while !empty
      invariant nr.Valid() && fresh(nr)
      invariant empty <==> nr.Rest() == []
      invariant ReadNetworkList(nets) == Prepend(networks, ReadNetworkList(nr.Rest()))
      decreases |nr.data| - nr.pos
    {
      hide ReadNetworkList;
      NetworkListStep(nr.Rest());
      var content := nr.ReadTlv(UNIVERSAL_OCTET_STRING);
      if content.Malformed? { return Malformed; }
      var n := ReadNetwork(content.value);
      if n.Malformed? { return Malformed; }
      PrependTwice(networks, [n.value], ReadNetworkList(nr.Rest()));
      networks := networks + [n.value];
      empty := nr.IsEmpty();
    }
    assert networks + [] == networks;
    r := Ok(networks);
  }

  method DecodeGroups(gs: bytes) returns (r: Result<seq<Utf8>>)
    ensures r == ReadGroupList(gs)
  {
    hide DerSpec.ReadTlv, ReadUtf8;
    var gr := new Reader(gs);
    var groups := [];
    PrependNothing(ReadGroupList(gs));
    var empty := gr.IsEmpty();
    while !empty
      invariant gr.Valid() && fresh(gr)
      invariant empty <==> gr.Rest() == []
      invariant ReadGroupList(gs) == Prepend(groups, ReadGroupList(gr.Rest()))
      decreases |gr.data| - gr.pos
    {
      hide ReadGroupList;
      GroupListStep(gr.Rest());
      var content := gr.ReadTlv(UNIVERSAL_UTF8_STRING);
      if content.Malformed? { return Malformed; }
      var g := ReadUtf8(content.value);
      if g.Malformed? { return Malformed; }
      PrependTwice(groups, [g.value], ReadGroupList(gr.Rest()));
      groups := groups + [g.value];
      empty := gr.IsEmpty();
    }
    assert groups + [] == groups;
    r := Ok(groups);
  }

  method DecodeLists(r: Reader) returns (result: Result<Lists>)
    requires r.Valid()
    modifies r`pos
    ensures r.Valid()
    ensures match ReadLists(old(r.Rest()))
            case Ok(item) => result == Ok(item.value) && r.Rest() == item.rest
            case Malformed => result.Malformed?
  {
    hide DerSpec.ReadTlvOpt, ReadNetworkList, ReadGroupList;
    var networks: seq<Network>, unsafeNetworks: seq<Network>, groups: seq<Utf8> := [], [], [];
    var nets := r.ReadTlvOpt(TAG_DETAILS_NETWORKS);
    if nets.Malformed? { return Malformed; }
    var ns := DecodeNetworks(OrEmpty(nets.value));
    if ns.Malformed? { return Malformed; }
    var unsafeNets := r.ReadTlvOpt(TAG_DETAILS_UNSAFE_NETWORKS);
    if unsafeNets.Malformed? { return Malformed; }
    var us := DecodeNetworks(OrEmpty(unsafeNets.value));
    if us.Malformed? { return Malformed; }
    var gs := r.ReadTlvOpt(TAG_DETAILS_GROUPS);
    if gs.Malformed? { return Malformed; }
    var texts := DecodeGroups(OrEmpty(gs.value));
    if texts.Malformed? { return Malformed; }
    result := Ok(Lists(ns.value, us.value, texts.value));
  }

  method DecodeTail(r: Reader) returns (result: Result<Tail>)
    requires r.Valid()
    modifies r`pos
    ensures r.Valid()
    ensures result == ReadTail(old(r.Rest()))
  {
    hide DerSpec.ReadTlvOpt, DerSpec.ReadTlv, ReadDerInt;
    var ca := r.ReadTlvOpt(TAG_DETAILS_IS_CA);
    if ca.Malformed? { return Malformed; }
    var nb := r.ReadTlv(TAG_DETAILS_NOT_BEFORE);
    if nb.Malformed? { return Malformed; }
    var notBefore := ReadDerInt(nb.value);
    if notBefore.Malformed? { return Malformed; }
    var na := r.ReadTlv(TAG_DETAILS_NOT_AFTER);
    if na.Malformed? { return Malformed; }
    var notAfter := ReadDerInt(na.value);
    if notAfter.Malformed? { return Malformed; }
    var issuer := r.ReadTlvOpt(TAG_DETAILS_ISSUER);
    if issuer.Malformed? { return Malformed; }
    result := Ok(Tail(ca.value.Some?, notBefore.value, notAfter.value, OrEmpty(issuer.value)));
  }

  method DecodeDetails(raw: bytes) returns (result: Result<Details>)
    ensures result == ReadDetails(raw)
  {
    hide DerSpec.ReadTlv, ReadUtf8, ReadLists, ReadTail;
    var outer := new Reader(raw);
    var inner := outer.ReadTlv(TAG_CERT_DETAILS);
    if inner.Malformed? { return Malformed; }
    var r := new Reader(inner.value);
    var nameBytes := r.ReadTlv(TAG_DETAILS_NAME);
    if nameBytes.Malformed? { return Malformed; }
    var name := ReadUtf8(nameBytes.value);
    if name.Malformed? { return Malformed; }
    var lists := DecodeLists(r);
    if lists.Malformed? { return Malformed; }
    var t := DecodeTail(r);
    if t.Malformed? { return Malformed; }
    result := Ok(Details(name.value, lists.value.networks, lists.value.unsafeNetworks, lists.value.groups,
                         t.value.isCa, t.value.notBefore, t.value.notAfter, t.value.issuer));
  }

  method DecodeCertificate(der: bytes) returns (result: Result<Certificate>)
    ensures result == ReadCertificate(der)
  {
    hide DerSpec.ReadTlv, DerSpec.ReadTlvRaw, DerSpec.ReadTlvOpt, ReadDetails, ReadCurve;
    var top := new Reader(der);
    var envelope := top.ReadTlv(UNIVERSAL_SEQUENCE);
    if envelope.Malformed? { return Malformed; }
    var r := new Reader(envelope.value);
    var raw := r.ReadTlvRaw(TAG_CERT_DETAILS);
    if raw.Malformed? { return Malformed; }
    var details := DecodeDetails(raw.value);
    if details.Malformed? { return Malformed; }
    var curveField := r.ReadTlvOpt(TAG_CERT_CURVE);
    if curveField.Malformed? { return Malformed; }
    var curve := ReadCurve(curveField.value);
    if curve.Malformed? { return Malformed; }
    var publicKey := r.ReadTlv(TAG_CERT_PUBLIC_KEY);
    if publicKey.Malformed? { return Malformed; }
    var signature := r.ReadTlv(TAG_CERT_SIGNATURE);
    if signature.Malformed? { return Malformed; }
    result := Ok(Certificate(details.value, raw.value, curve.value, publicKey.value, signature.value));
  }

  method EncodeCertificate(c: Certificate) returns (b: bytes)
    requires |c.rawDetails + AfterDetails(c)| < TWO64
    ensures b == CertificateBytes(c)
  {
    hide Length;
    var inner := new Writer();
    inner.out := c.rawDetails;
    if c.curve != Curve25519 {
      inner.WriteTlv(TAG_CERT_CURVE, [CurveByte(c.curve)]);
    }
    inner.WriteTlv(TAG_CERT_PUBLIC_KEY, c.publicKey);
    inner.WriteTlv(TAG_CERT_SIGNATURE, c.signature);
    assert inner.out == c.rawDetails + AfterDetails(c);
    var w := new Writer();
    w.WriteTlv(UNIVERSAL_SEQUENCE, inner.out);
    b := w.out;
  }

  method EncodeForHandshake(c: Certificate) returns (b: bytes)
    requires |c.rawDetails + AfterDetails(c)| < TWO64
    ensures b == HandshakeBytes(c)
  {
    hide Length;
    var inner := new Writer();
    inner.out := c.rawDetails;
    inner.WriteTlv(TAG_CERT_SIGNATURE, c.signature);
    var w := new Writer();
    w.WriteTlv(UNIVERSAL_SEQUENCE, inner.out);
    b := w.out;
  }

  method RecombineCertificate(handshake: bytes, peerPublicKey: bytes, curve: Curve)
    returns (result: Result<Certificate>)
    ensures result == Recombine(handshake, peerPublicKey, curve)
  {
    hide DerSpec.ReadTlv, DerSpec.ReadTlvRaw, ReadDetails;
    var top := new Reader(handshake);
    var envelope := top.ReadTlv(UNIVERSAL_SEQUENCE);
    if envelope.Malformed? { return Malformed; }
    var r := new Reader(envelope.value);
    var raw := r.ReadTlvRaw(TAG_CERT_DETAILS);
    if raw.Malformed? { return Malformed; }
    var details := DecodeDetails(raw.value);
    if details.Malformed? { return Malformed; }
    var signature := r.ReadTlv(TAG_CERT_SIGNATURE);
    if signature.Malformed? { return Malformed; }
    result := Ok(Certificate(details.value, raw.value, curve, peerPublicKey, signature.value));
  }

  /** What the encoder writes is what the decoder reads, on the code itself. */
  method EncodeThenDecode(d: Details) returns (r: Result<Details>)
    requires |DetailsTlv(d)| < TWO64
    ensures r == Ok(d)
  {
    hide ReadDetails, DetailsTlv;
    var b := EncodeDetails(d);
    r := DecodeDetails(b);
    DetailsRoundTrip(d);
  }
}
