/** Round trips, self-delimitation and injectivity of the certificate format. */
module DerProofs {
  import opened Optional
  import opened Bits
  import opened Bytes
  import opened Net
  import opened DerSpec

  // ---- Lengths ----

  lemma {:induction false} SignificantValue(b: bytes)
    ensures FromBE(Significant(b)) == FromBE(b)
  {
    if |b| > 1 && b[0] == 0 {
      assert b == [0] + b[1..];
      FromBELeadingZero(b[1..]);
      SignificantValue(b[1..]);
    }
  }

  /** `ReadLength` inverts `Length` for every 64-bit length, whatever follows. */
  lemma LengthRoundTrip(n: nat, rest: bytes)
    requires n < TWO64
    ensures ReadLength(Length(n) + rest) == Ok(Item(n, rest))
  {
    var s := Length(n) + rest;
    if n < 0x80 {
      assert s[1..] == rest;
    } else {
      var significant := Significant(ToBE(n, 8));
      Pow256Values();
      SignificantValue(ToBE(n, 8));
      BERoundTrip(n, 8);
      assert s[1..1 + |significant|] == significant;
      assert s[1 + |significant|..] == rest;
    }
  }

  /** A value that fits in `k` bytes has at most `k` significant ones. */
  lemma {:induction false} SignificantShort(b: bytes, k: nat)
    requires 0 < k <= |b| && FromBE(b) < Pow256(k)
    ensures |Significant(b)| <= k
  {
    if k < |b| {
      Pow256Monotone(k, |b| - 1);
      if b[0] != 0 { LeadingByteNonzero(b); }
      assert b == [0] + b[1..];
      FromBELeadingZero(b[1..]);
      SignificantShort(b[1..], k);
    }
  }

  lemma {:induction false} Pow256Monotone(j: nat, k: nat)
    requires j <= k
    ensures Pow256(j) <= Pow256(k)
  {
    if j < k { Pow256Monotone(j, k - 1); }
  }

  lemma {:induction false} LeadingByteNonzero(b: bytes)
    requires |b| > 0 && b[0] != 0
    ensures FromBE(b) >= Pow256(|b| - 1)
  {
    if |b| > 1 { LeadingByteNonzero(b[..|b| - 1]); }
  }

  /** No accepted length is shorter than the one the encoder writes. */
  lemma LengthIsMinimal(s: bytes)
    requires ReadLength(s).Ok?
    ensures |Length(ReadLength(s).value.value)| + |ReadLength(s).value.rest| <= |s|
  {
    if s[0] >= 0x80 {
      var n := s[0] - 0x80;
      var value := ReadLength(s).value.value;
      FromBEBound(s[1..1 + n]);
      Pow256Values();
      Pow256Monotone(n, 8);
      BERoundTrip(value, 8);
      SignificantShort(ToBE(value, 8), n);
    }
  }

  // ---- Tag-length-value ----

  lemma TlvRoundTrip(tag: u8, content: bytes, rest: bytes)
    requires |content| < TWO64
    ensures ReadTlv(Tlv(tag, content) + rest, tag) == Ok(Item(content, rest))
  {
    var s := Tlv(tag, content) + rest;
    assert s[1..] == Length(|content|) + (content + rest);
    LengthRoundTrip(|content|, content + rest);
    assert (content + rest)[..|content|] == content;
    assert (content + rest)[|content|..] == rest;
  }

  /** An optional field reads back as present or absent, provided what follows cannot be
      mistaken for it. */
  lemma OptTlvRoundTrip(present: bool, tag: u8, content: bytes, rest: bytes)
    requires |content| < TWO64
    requires rest == [] || rest[0] != tag
    ensures ReadTlvOpt(OptTlv(present, tag, content) + rest, tag)
            == Ok(Item(if present then Some(content) else None, rest))
  {
    if present {
      TlvRoundTrip(tag, content, rest);
    } else {
      assert [] + rest == rest;
    }
  }

  /** A length is self-delimiting: the bytes after it do not affect how it reads. */
  lemma LengthSelfDelimiting(s: bytes, other: bytes)
    requires ReadLength(s).Ok?
    ensures var rest := ReadLength(s).value.rest;
            ReadLength(s[..|s| - |rest|] + other) == Ok(Item(ReadLength(s).value.value, other))
  {
    var used := |s| - |ReadLength(s).value.rest|;
    var t := s[..used] + other;
    assert t[used..] == other;
    if s[0] >= 0x80 {
      assert t[1..used] == s[1..used];
    }
  }

  /** A field is self-delimiting: replacing everything after it leaves its content as it was. */
  lemma TlvSelfDelimiting(s: bytes, tag: u8, other: bytes)
    requires ReadTlv(s, tag).Ok?
    ensures var item := ReadTlv(s, tag).value;
            ReadTlv(s[..|s| - |item.rest|] + other, tag) == Ok(Item(item.value, other))
  {
    hide ReadLength;
    var item := ReadTlv(s, tag).value;
    var after := ReadLength(s[1..]).value.rest;
    var header := |s| - |after|;
    LengthSelfDelimiting(s[1..], item.value + other);
    var t := s[..|s| - |item.rest|] + other;
    assert s[1..][..|s[1..]| - |after|] == s[1..header];
    assert s[header..|s| - |item.rest|] == item.value;
    assert t[1..] == s[1..header] + (item.value + other);
    assert (item.value + other)[..|item.value|] == item.value;
    assert (item.value + other)[|item.value|..] == other;
  }

  lemma TlvIsMinimal(s: bytes, tag: u8)
    requires ReadTlv(s, tag).Ok?
    ensures |Tlv(tag, ReadTlv(s, tag).value.value)| + |ReadTlv(s, tag).value.rest| <= |s|
  {
    LengthIsMinimal(s[1..]);
  }

  // ---- Integers ----

  lemma {:induction false} IntStartZeros(b: bytes, i: nat)
    requires |b| == 8 && i <= 7
    requires forall j :: 0 <= j < i ==> b[j] == 0
    requires i > 0 ==> b[i] < 0x80
    ensures var k := IntStart(b, i);
            && (forall j :: 0 <= j < k ==> b[j] == 0)
            && (k > 0 ==> b[k] < 0x80)
    decreases 7 - i
  {
    if i < 7 && b[i] == 0 && b[i + 1] < 0x80 { IntStartZeros(b, i + 1); }
  }

  lemma I64RoundTrip(v: i64)
    ensures I64FromBytes(I64Bytes(v)) == v
  {
    Pow256Values();
    BERoundTrip(if v < 0 then v + TWO64 else v, 8);
  }

  /** `ReadDerInt` inverts `DerInt` for every 64-bit integer, negative ones included. */
  lemma DerIntRoundTrip(v: i64)
    ensures 1 <= |DerInt(v)| <= 8
    ensures ReadDerInt(DerInt(v)) == Ok(v)
  {
    var b := I64Bytes(v);
    var k := IntStart(b, 0);
    IntStartZeros(b, 0);
    I64RoundTrip(v);
    hide I64Bytes, I64FromBytes, IntStart;
    assert Fill(if b[k] >= 0x80 then 0xFF else 0, 8 - |DerInt(v)|) + DerInt(v) == b;
  }

  /** The signed value of up to eight bytes: two's complement at their own length. */
  lemma {:induction false} FillValue(fill: u8, n: nat, b: bytes)
    requires fill == 0 || fill == 0xFF
    ensures FromBE(Fill(fill, n) + b)
            == FromBE(b) + if fill == 0 then 0 else Pow256(n + |b|) - Pow256(|b|)
  {
    if n == 0 {
      assert Fill(fill, 0) + b == b;
    } else {
      assert Fill(fill, n) + b == Fill(fill, n - 1) + ([fill] + b);
      FillValue(fill, n - 1, [fill] + b);
      LeadingByteValue(fill, b);
    }
  }

  lemma {:induction false} LeadingByteValue(x: u8, b: bytes)
    ensures FromBE([x] + b) == x * Pow256(|b|) + FromBE(b)
  {
    if b == [] {
      assert [x] + b == [x] && [x][..0] == [];
    } else {
      assert ([x] + b)[..|b|] == [x] + b[..|b| - 1];
      LeadingByteValue(x, b[..|b| - 1]);
    }
  }

  lemma MulMonotone(x: int, y: int, p: nat)
    requires x <= y
    ensures x * p <= y * p
  {
  }

  /** The first byte decides in which half of its range a byte string lies. */
  lemma FirstByteHalf(b: bytes)
    requires b != []
    ensures b[0] < 0x80 <==> FromBE(b) < 0x80 * Pow256(|b| - 1)
  {
    hide FromBE, Pow256;
    var x: int, p := b[0], Pow256(|b| - 1);
    assert b == [b[0]] + b[1..];
    LeadingByteValue(b[0], b[1..]);
    FromBEBound(b[1..]);
    if x < 0x80 { MulMonotone(x, 0x7F, p); } else { MulMonotone(0x80, x, p); }
  }

  lemma I64ByFirstByte(b: bytes)
    requires |b| == 8
    ensures I64FromBytes(b) == if b[0] < 0x80 then FromBE(b) else FromBE(b) - TWO64
  {
    Pow256Values();
    assert Pow256(8) == 256 * Pow256(7);
    hide FromBE, Pow256;
    FirstByteHalf(b);
  }

  lemma SignedValue(b: bytes)
    requires 1 <= |b| <= 8
    ensures ReadDerInt(b) == Ok(if b[0] < 0x80 then FromBE(b) else FromBE(b) - Pow256(|b|))
  {
    hide FromBE, Pow256, Fill, I64FromBytes;
    var fill := if b[0] >= 0x80 then 0xFF else 0;
    var full := Fill(fill, 8 - |b|) + b;
    FillValue(fill, 8 - |b|, b);
    assert full[0] < 0x80 <==> b[0] < 0x80;
    I64ByFirstByte(full);
    Pow256Values();
  }

  lemma {:induction false} IntStartStops(b: bytes, i: nat)
    requires |b| == 8 && i <= 7
    ensures var k := IntStart(b, i); k == 7 || b[k] != 0 || b[k + 1] >= 0x80
    decreases 7 - i
  {
    if i < 7 && b[i] == 0 && b[i + 1] < 0x80 { IntStartStops(b, i + 1); }
  }

  /** A byte string that needs its first byte, to hold its value without a sign. */
  lemma NeedsFirstByte(d: bytes)
    requires |d| >= 2 && (d[0] != 0 || d[1] >= 0x80)
    ensures FromBE(d) >= 0x80 * Pow256(|d| - 2)
  {
    hide FromBE;
    if d[0] != 0 {
      LeadingByteNonzero(d);
    } else {
      assert d == [0] + d[1..];
      FromBELeadingZero(d[1..]);
      FirstByteHalf(d[1..]);
    }
  }

  lemma NonNegativeIsMinimal(v: i64, b: bytes)
    requires v >= 0 && ReadDerInt(b) == Ok(v)
    ensures |DerInt(v)| <= |b|
  {
    DerIntRoundTrip(v);
    IntStartStops(I64Bytes(v), 0);
    hide FromBE, Pow256, ReadDerInt, I64Bytes, IntStart;
    var d := DerInt(v);
    ReadLimits(b);
    SignedValue(b);
    SignedValue(d);
    FirstByteHalf(b);
    FromBEBound(b);
    FromBEBound(d);
    if |b| < |d| {
      NeedsFirstByte(d);
      Pow256Monotone(|b| - 1, |d| - 2);
    }
  }

  lemma ReadLimits(b: bytes)
    requires ReadDerInt(b).Ok?
    ensures 1 <= |b| <= 8
  {
  }

  lemma Pow256Six()
    ensures 0x80 * Pow256(6) == 0x80_0000_0000_0000 && Pow256(7) == 0x100_0000_0000_0000
  {
    Pow256Values();
    assert Pow256(6) == 256 * 256 * Pow256(4);
  }

  /** Seven bytes hold exactly the integers of 56 bits. */
  lemma SevenBytesRange(v: i64, b: bytes)
    requires ReadDerInt(b) == Ok(v) && |b| <= 7
    ensures v >= -0x80_0000_0000_0000
  {
    hide FromBE, ReadDerInt;
    ReadLimits(b);
    SignedValue(b);
    FirstByteHalf(b);
    Pow256Monotone(|b| - 1, 6);
    Pow256Six();
    hide Pow256;
    assert Pow256(|b|) == 256 * Pow256(|b| - 1) by { Pow256Step(|b|); }
  }

  lemma Pow256Step(k: nat)
    requires k > 0
    ensures Pow256(k) == 256 * Pow256(k - 1)
  {
  }

  /** A negative integer of 56 bits has a seven-byte encoding, and the encoder uses eight. */
  lemma SmallNegativeIsLong(v: i64)
    requires -0x80_0000_0000_0000 <= v < 0
    ensures |DerInt(v)| == 8
    ensures ReadDerInt(ToBE(v + 0x100_0000_0000_0000, 7)) == Ok(v)
  {
    hide FromBE, ReadDerInt, ToBE;
    Pow256Six();
    Pow256Values();
    var b := ToBE(v + 0x100_0000_0000_0000, 7);
    BERoundTrip(v + 0x100_0000_0000_0000, 7);
    SignedValue(b);
    FirstByteHalf(b);
    I64RoundTrip(v);
    I64ByFirstByte(I64Bytes(v));
    FromBEBound(I64Bytes(v));
    hide Pow256, I64Bytes, I64FromBytes;
  }

  /** The encoding is the shortest one that decodes to `v` exactly when `v` is not negative, or
      so far below zero that all eight bytes are needed. */
  lemma DerIntMinimal(v: i64)
    ensures (forall b: bytes :: ReadDerInt(b) == Ok(v) ==> |DerInt(v)| <= |b|)
            <==> v >= 0 || v < -0x80_0000_0000_0000
  {
    hide ReadDerInt, DerInt, ToBE;
    forall b: bytes | ReadDerInt(b) == Ok(v) && (v >= 0 || v < -0x80_0000_0000_0000) ensures |DerInt(v)| <= |b| {
      if v >= 0 {
        NonNegativeIsMinimal(v, b);
      } else {
        DerIntRoundTrip(v);
        if |b| <= 7 { SevenBytesRange(v, b); }
      }
    }
    if -0x80_0000_0000_0000 <= v < 0 {
      SmallNegativeIsLong(v);
      assert |ToBE(v + 0x100_0000_0000_0000, 7)| == 7;
    }
  }

  // ---- Lists ----

  lemma NetworkRoundTrip(n: Network)
    ensures |NetworkBytes(n)| < 18 && ReadNetwork(NetworkBytes(n)) == Ok(n)
  {
    assert NetworkBytes(n)[..|Octets(n.addr)|] == Octets(n.addr);
  }

  lemma {:induction false} NetworkListRoundTrip(ns: seq<Network>)
    ensures ReadNetworkList(NetworkList(ns)) == Ok(ns)
  {
    hide ReadTlv, FromBE;
    if ns != [] {
      NetworkRoundTrip(ns[0]);
      TlvRoundTrip(UNIVERSAL_OCTET_STRING, NetworkBytes(ns[0]), NetworkList(ns[1..]));
      NetworkListRoundTrip(ns[1..]);
      assert ns == [ns[0]] + ns[1..];
    }
  }

  lemma {:induction false} GroupListRoundTrip(gs: seq<Utf8>)
    requires |GroupList(gs)| < TWO64
    ensures ReadGroupList(GroupList(gs)) == Ok(gs)
  {
    hide ReadTlv, FromBE, ValidUtf8;
    if gs != [] {
      TlvRoundTrip(UNIVERSAL_UTF8_STRING, gs[0], GroupList(gs[1..]));
      GroupListRoundTrip(gs[1..]);
      assert gs == [gs[0]] + gs[1..];
    }
  }

  // ---- Details ----

  /** Each run of trailing fields starts with one of the tags still to come, so an absent
      field is never confused with the next one. */
  lemma FieldTags(d: Details)
    ensures FromNotBefore(d)[0] == TAG_DETAILS_NOT_BEFORE
    ensures FromIsCa(d) != [] && FromIsCa(d)[0] in {TAG_DETAILS_IS_CA, TAG_DETAILS_NOT_BEFORE}
    ensures FromGroups(d) != []
         && FromGroups(d)[0] in {TAG_DETAILS_GROUPS, TAG_DETAILS_IS_CA, TAG_DETAILS_NOT_BEFORE}
    ensures FromUnsafeNetworks(d) != []
         && FromUnsafeNetworks(d)[0] in
            {TAG_DETAILS_UNSAFE_NETWORKS, TAG_DETAILS_GROUPS, TAG_DETAILS_IS_CA, TAG_DETAILS_NOT_BEFORE}
  {
  }

  /** Every field is shorter than the whole, so its length fits when the whole one's does. */
  lemma FieldSizes(d: Details)
    ensures |FromName(d)| < |DetailsTlv(d)|
    ensures |d.name| + |FromNetworks(d)| < |FromName(d)|
    ensures |NetworkList(d.networks)| < |FromNetworks(d)|
    ensures |NetworkList(d.unsafeNetworks)| < |FromNetworks(d)|
    ensures |GroupList(d.groups)| < |FromNetworks(d)|
    ensures |d.issuer| < |FromNetworks(d)|
  {
    assert |FromGroups(d)| <= |FromUnsafeNetworks(d)| <= |FromNetworks(d)|;
    assert |FromIssuer(d)| < |FromNotAfter(d)| < |FromNotBefore(d)| <= |FromIsCa(d)| <= |FromGroups(d)|;
  }

  lemma IssuerField(d: Details)
    requires |d.issuer| < TWO64
    ensures ReadTlvOpt(FromIssuer(d), TAG_DETAILS_ISSUER)
            == Ok(Item(if d.issuer != [] then Some(d.issuer) else None, []))
  {
    OptTlvRoundTrip(d.issuer != [], TAG_DETAILS_ISSUER, d.issuer, []);
    assert FromIssuer(d) + [] == FromIssuer(d);
  }

  lemma DateFields(d: Details)
    ensures ReadTlv(FromNotBefore(d), TAG_DETAILS_NOT_BEFORE) == Ok(Item(DerInt(d.notBefore), FromNotAfter(d)))
    ensures ReadTlv(FromNotAfter(d), TAG_DETAILS_NOT_AFTER) == Ok(Item(DerInt(d.notAfter), FromIssuer(d)))
    ensures ReadDerInt(DerInt(d.notBefore)) == Ok(d.notBefore)
    ensures ReadDerInt(DerInt(d.notAfter)) == Ok(d.notAfter)
  {
    DerIntRoundTrip(d.notBefore);
    DerIntRoundTrip(d.notAfter);
    TlvRoundTrip(TAG_DETAILS_NOT_BEFORE, DerInt(d.notBefore), FromNotAfter(d));
    TlvRoundTrip(TAG_DETAILS_NOT_AFTER, DerInt(d.notAfter), FromIssuer(d));
  }

  lemma ListFields(d: Details)
    requires |FromNetworks(d)| < TWO64
    ensures ReadTlvOpt(FromNetworks(d), TAG_DETAILS_NETWORKS)
            == Ok(Item(if d.networks != [] then Some(NetworkList(d.networks)) else None, FromUnsafeNetworks(d)))
    ensures ReadTlvOpt(FromUnsafeNetworks(d), TAG_DETAILS_UNSAFE_NETWORKS)
            == Ok(Item(if d.unsafeNetworks != [] then Some(NetworkList(d.unsafeNetworks)) else None, FromGroups(d)))
    ensures ReadTlvOpt(FromGroups(d), TAG_DETAILS_GROUPS)
            == Ok(Item(if d.groups != [] then Some(GroupList(d.groups)) else None, FromIsCa(d)))
    ensures ReadTlvOpt(FromIsCa(d), TAG_DETAILS_IS_CA)
            == Ok(Item(if d.isCa then Some([0xFF]) else None, FromNotBefore(d)))
  {
    FieldTags(d);
    FieldSizes(d);
    OptTlvRoundTrip(d.networks != [], TAG_DETAILS_NETWORKS, NetworkList(d.networks), FromUnsafeNetworks(d));
    OptTlvRoundTrip(d.unsafeNetworks != [], TAG_DETAILS_UNSAFE_NETWORKS, NetworkList(d.unsafeNetworks), FromGroups(d));
    OptTlvRoundTrip(d.groups != [], TAG_DETAILS_GROUPS, GroupList(d.groups), FromIsCa(d));
    OptTlvRoundTrip(d.isCa, TAG_DETAILS_IS_CA, [0xFF], FromNotBefore(d));
  }

  lemma ListsRoundTrip(d: Details)
    requires |FromNetworks(d)| < TWO64
    ensures ReadLists(FromNetworks(d)) == Ok(Item(Lists(d.networks, d.unsafeNetworks, d.groups), FromIsCa(d)))
  {
    hide ReadTlvOpt, FromNetworks, FromUnsafeNetworks, FromGroups, FromIsCa, Tlv, FromBE, ValidUtf8;
    FieldSizes(d);
    ListFields(d);
    NetworkListRoundTrip(d.networks);
    NetworkListRoundTrip(d.unsafeNetworks);
    GroupListRoundTrip(d.groups);
    hide NetworkList, GroupList;
  }

  lemma TailRoundTrip(d: Details)
    requires |FromNetworks(d)| < TWO64
    ensures ReadTail(FromIsCa(d)) == Ok(Tail(d.isCa, d.notBefore, d.notAfter, d.issuer))
  {
    hide ReadTlv, ReadTlvOpt, ReadDerInt, DerInt, FromIsCa, FromNotBefore, FromNotAfter, FromIssuer, FromNetworks;
    hide FromUnsafeNetworks, FromGroups, NetworkList, GroupList, ValidUtf8, FromBE, Tlv;
    FieldSizes(d);
    ListFields(d);
    DateFields(d);
    IssuerField(d);
  }

  lemma FieldsRoundTrip(d: Details)
    requires |FromName(d)| < TWO64
    ensures ReadFields(FromName(d)) == Ok(d)
  {
    FieldSizes(d);
    TlvRoundTrip(TAG_DETAILS_NAME, d.name, FromNetworks(d));
    ListsRoundTrip(d);
    TailRoundTrip(d);
    hide ReadTlv, ReadLists, ReadTail, FromNetworks, FromIsCa, Tlv;
  }

  /** Decoding undoes encoding for every details value, over any number of networks and
      groups and every choice of absent fields. The bound is that of a 64-bit length. */
  lemma DetailsRoundTrip(d: Details)
    requires |DetailsTlv(d)| < TWO64
    ensures ReadDetails(DetailsTlv(d)) == Ok(d)
  {
    FieldSizes(d);
    assert DetailsTlv(d) + [] == DetailsTlv(d);
    TlvRoundTrip(TAG_CERT_DETAILS, FromName(d), []);
    FieldsRoundTrip(d);
  }

  // ---- Certificates ----

  /** What decoding establishes: the raw details are one details field, and decode to `details`. */
  ghost predicate Consistent(c: Certificate) {
    && ReadTlvRaw(c.rawDetails, TAG_CERT_DETAILS) == Ok(Item(c.rawDetails, []))
    && ReadDetails(c.rawDetails) == Ok(c.details)
  }

  lemma RawDetailsConsistent(envelope: bytes)
    requires ReadTlvRaw(envelope, TAG_CERT_DETAILS).Ok?
    ensures var raw := ReadTlvRaw(envelope, TAG_CERT_DETAILS).value.value;
            ReadTlvRaw(raw, TAG_CERT_DETAILS) == Ok(Item(raw, []))
  {
    var raw := ReadTlvRaw(envelope, TAG_CERT_DETAILS).value.value;
    TlvSelfDelimiting(envelope, TAG_CERT_DETAILS, []);
    assert raw + [] == raw;
  }

  lemma DecodedIsConsistent(der: bytes)
    requires ReadCertificate(der).Ok?
    ensures Consistent(ReadCertificate(der).value)
  {
    hide ReadTlv, ReadTlvOpt, ReadFields, FromBE;
    RawDetailsConsistent(ReadTlv(der, UNIVERSAL_SEQUENCE).value.value);
  }

  lemma RecombinedIsConsistent(handshake: bytes, publicKey: bytes, curve: Curve)
    requires Recombine(handshake, publicKey, curve).Ok?
    ensures Consistent(Recombine(handshake, publicKey, curve).value)
  {
    hide ReadTlv, ReadFields, FromBE;
    RawDetailsConsistent(ReadTlv(handshake, UNIVERSAL_SEQUENCE).value.value);
  }

  /** The raw details read back unchanged whatever is appended to them. */
  lemma RawDetailsThen(c: Certificate, rest: bytes)
    requires Consistent(c)
    ensures ReadTlvRaw(c.rawDetails + rest, TAG_CERT_DETAILS) == Ok(Item(c.rawDetails, rest))
  {
    TlvSelfDelimiting(c.rawDetails, TAG_CERT_DETAILS, rest);
    assert c.rawDetails[..|c.rawDetails| - 0] == c.rawDetails;
    assert (c.rawDetails + rest)[..|c.rawDetails|] == c.rawDetails;
  }

  /** The re-encoded envelope is no longer than the one decoded. */
  lemma EncodedNoLonger(der: bytes)
    requires ReadCertificate(der).Ok?
    ensures var c := ReadCertificate(der).value;
            |c.rawDetails + AfterDetails(c)| < |der|
  {
    hide ReadTlv, ReadDetails, Tlv, FromBE;
    var envelope := ReadTlv(der, UNIVERSAL_SEQUENCE).value.value;
    var raw := ReadTlvRaw(envelope, TAG_CERT_DETAILS).value;
    var curveField := ReadTlvOpt(raw.rest, TAG_CERT_CURVE).value;
    if curveField.value.Some? {
      TlvIsMinimal(raw.rest, TAG_CERT_CURVE);
      assert curveField.value.value == [curveField.value.value[0]];
    }
    TlvIsMinimal(curveField.rest, TAG_CERT_PUBLIC_KEY);
    var publicKey := ReadTlv(curveField.rest, TAG_CERT_PUBLIC_KEY).value;
    TlvIsMinimal(publicKey.rest, TAG_CERT_SIGNATURE);
  }

  lemma AfterDetailsReads(c: Certificate)
    requires |AfterDetails(c)| < TWO64
    ensures var keyAndSignature := Tlv(TAG_CERT_PUBLIC_KEY, c.publicKey) + Tlv(TAG_CERT_SIGNATURE, c.signature);
            && ReadTlvOpt(AfterDetails(c), TAG_CERT_CURVE)
               == Ok(Item(if c.curve != Curve25519 then Some([CurveByte(c.curve)]) else None, keyAndSignature))
            && ReadTlv(keyAndSignature, TAG_CERT_PUBLIC_KEY)
               == Ok(Item(c.publicKey, Tlv(TAG_CERT_SIGNATURE, c.signature)))
    ensures ReadTlv(Tlv(TAG_CERT_SIGNATURE, c.signature), TAG_CERT_SIGNATURE) == Ok(Item(c.signature, []))
  {
    hide ReadTlv, ReadTlvOpt, Length;
    var signature := Tlv(TAG_CERT_SIGNATURE, c.signature);
    var keyAndSignature := Tlv(TAG_CERT_PUBLIC_KEY, c.publicKey) + signature;
    OptTlvRoundTrip(c.curve != Curve25519, TAG_CERT_CURVE, [CurveByte(c.curve)], keyAndSignature);
    TlvRoundTrip(TAG_CERT_PUBLIC_KEY, c.publicKey, signature);
    TlvRoundTrip(TAG_CERT_SIGNATURE, c.signature, []);
    assert signature + [] == signature;
  }

  /** Encoding a consistent certificate and decoding it again is the identity. */
  lemma ConsistentRoundTrip(c: Certificate)
    requires Consistent(c) && |c.rawDetails + AfterDetails(c)| < TWO64
    ensures ReadCertificate(CertificateBytes(c)) == Ok(c)
  {
    hide ReadTlv, ReadTlvRaw, ReadTlvOpt, ReadDetails, AfterDetails, Tlv;
    var inner := c.rawDetails + AfterDetails(c);
    assert CertificateBytes(c) + [] == CertificateBytes(c);
    TlvRoundTrip(UNIVERSAL_SEQUENCE, inner, []);
    RawDetailsThen(c, AfterDetails(c));
    AfterDetailsReads(c);
  }

  /** Details, curve, key and signature of any value make a certificate that is consistent, and
      that survives both encodings. */
  lemma BuiltCertificateRoundTrips(d: Details, curve: Curve, publicKey: bytes, signature: bytes)
    requires var c := Certificate(d, DetailsTlv(d), curve, publicKey, signature);
             |c.rawDetails + AfterDetails(c)| < TWO64
    ensures var c := Certificate(d, DetailsTlv(d), curve, publicKey, signature);
            && Consistent(c)
            && ReadCertificate(CertificateBytes(c)) == Ok(c)
            && Recombine(HandshakeBytes(c), publicKey, curve) == Ok(c)
  {
    hide AfterDetails, CertificateBytes, HandshakeBytes, FromName, ReadDetails, ReadCertificate, Recombine;
    var c := Certificate(d, DetailsTlv(d), curve, publicKey, signature);
    DetailsRoundTrip(d);
    var raw := DetailsTlv(d);
    assert raw + [] == raw;
    TlvRoundTrip(TAG_CERT_DETAILS, FromName(d), []);
    hide ReadTlv, Tlv;
    assert Consistent(c);
    ConsistentRoundTrip(c);
    ConsistentRecombines(c);
  }

  /** Whatever bytes a certificate was decoded from - non-minimal lengths, an explicit default
      curve, trailing bytes - encoding it and decoding again gives the same certificate. */
  lemma CertificateRoundTrip(der: bytes)
    requires |der| < TWO64 && ReadCertificate(der).Ok?
    ensures ReadCertificate(CertificateBytes(ReadCertificate(der).value)) == ReadCertificate(der)
  {
    DecodedIsConsistent(der);
    EncodedNoLonger(der);
    ConsistentRoundTrip(ReadCertificate(der).value);
  }

  /** The reduced handshake form and the peer's key together restore the certificate. */
  lemma ConsistentRecombines(c: Certificate)
    requires Consistent(c) && |c.rawDetails + AfterDetails(c)| < TWO64
    ensures Recombine(HandshakeBytes(c), c.publicKey, c.curve) == Ok(c)
  {
    hide ReadTlv, ReadTlvRaw, ReadTlvOpt, ReadDetails, Tlv;
    var signature := Tlv(TAG_CERT_SIGNATURE, c.signature);
    assert HandshakeBytes(c) + [] == HandshakeBytes(c);
    TlvRoundTrip(UNIVERSAL_SEQUENCE, c.rawDetails + signature, []);
    RawDetailsThen(c, signature);
    AfterDetailsReads(c);
  }

  lemma RecombineRoundTrip(der: bytes)
    requires |der| < TWO64 && ReadCertificate(der).Ok?
    ensures var c := ReadCertificate(der).value;
            Recombine(HandshakeBytes(c), c.publicKey, c.curve) == Ok(c)
  {
    DecodedIsConsistent(der);
    EncodedNoLonger(der);
    ConsistentRecombines(ReadCertificate(der).value);
  }

  /** A certificate that came out of decoding or recombining some bytes. */
  ghost predicate Obtained(c: Certificate) {
    || (exists der :: ReadCertificate(der) == Ok(c))
    || (exists handshake, publicKey, curve :: Recombine(handshake, publicKey, curve) == Ok(c))
  }

  lemma ObtainedIsConsistent(c: Certificate)
    requires Obtained(c)
    ensures Consistent(c)
  {
    hide Recombine, ReadCertificate, Consistent;
    if der :| ReadCertificate(der) == Ok(c) {
      DecodedIsConsistent(der);
    } else {
      var handshake, publicKey, curve :| Recombine(handshake, publicKey, curve) == Ok(c);
      RecombinedIsConsistent(handshake, publicKey, curve);
    }
  }

  lemma ConsistentSigningBytes(c1: Certificate, c2: Certificate)
    requires Consistent(c1) && Consistent(c2)
    requires SigningBytes(c1) == SigningBytes(c2)
    ensures c1.(signature := c2.signature) == c2
  {
    hide ReadTlvRaw, ReadDetails;
    var rest1, rest2 := [CurveByte(c1.curve)] + c1.publicKey, [CurveByte(c2.curve)] + c2.publicKey;
    assert SigningBytes(c1) == c1.rawDetails + rest1;
    assert SigningBytes(c2) == c2.rawDetails + rest2;
    RawDetailsThen(c1, rest1);
    RawDetailsThen(c2, rest2);
    assert rest1 == rest2;
    assert c1.publicKey == rest1[1..] == rest2[1..] == c2.publicKey;
  }

  /** Equal signed bytes mean equal certificates but for the signature itself, however the two
      certificates were obtained. */
  lemma SigningBytesInjective(c1: Certificate, c2: Certificate)
    requires Obtained(c1) && Obtained(c2)
    ensures SigningBytes(c1) == SigningBytes(c2) <==> c1.(signature := c2.signature) == c2
  {
    ObtainedIsConsistent(c1);
    ObtainedIsConsistent(c2);
    hide Obtained, Consistent;
    if SigningBytes(c1) == SigningBytes(c2) { ConsistentSigningBytes(c1, c2); }
  }

  /** Where each part stands in the signed bytes: one details field in front, then one byte for the
      curve, then the public key to the end. */
  lemma SigningLayout(c: Certificate)
    requires Obtained(c)
    ensures SigningBytes(c) == c.rawDetails + [if c.curve == P256 then 1 else 0] + c.publicKey
    ensures ReadTlvRaw(SigningBytes(c), 0xA0)
            == Ok(Item(c.rawDetails, [if c.curve == P256 then 1 else 0] + c.publicKey))
  {
    ObtainedIsConsistent(c);
    hide Obtained, Consistent, ReadTlvRaw;
    var rest := [CurveByte(c.curve)] + c.publicKey;
    assert SigningBytes(c) == c.rawDetails + rest;
    RawDetailsThen(c, rest);
  }
}
