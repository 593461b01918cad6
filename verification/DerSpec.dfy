/** The certificate format: tag-length-value strings with definite lengths (section 8.1.3 of
    ITU-T X.690), each reader given as the value it returns and the bytes left over. */
module DerSpec {
  import opened Optional
  import opened Bits
  import opened Bytes
  import opened Net

  const TAG_CERT_DETAILS: u8 := 0xA0
  const TAG_CERT_CURVE: u8 := 0x81
  const TAG_CERT_PUBLIC_KEY: u8 := 0x82
  const TAG_CERT_SIGNATURE: u8 := 0x83

  const TAG_DETAILS_NAME: u8 := 0x80
  const TAG_DETAILS_NETWORKS: u8 := 0xA1
  const TAG_DETAILS_UNSAFE_NETWORKS: u8 := 0xA2
  const TAG_DETAILS_GROUPS: u8 := 0xA3
  const TAG_DETAILS_IS_CA: u8 := 0x84
  const TAG_DETAILS_NOT_BEFORE: u8 := 0x85
  const TAG_DETAILS_NOT_AFTER: u8 := 0x86
  const TAG_DETAILS_ISSUER: u8 := 0x87

  const UNIVERSAL_OCTET_STRING: u8 := 0x04
  const UNIVERSAL_UTF8_STRING: u8 := 0x0C
  const UNIVERSAL_SEQUENCE: u8 := 0x30

  /** Every failure of the codec is one malformed-DER error; its message is not modelled. */
  datatype Result<+T> = Ok(value: T) | Malformed {
    predicate IsFailure() { Malformed? }
    function PropagateFailure<U>(): Result<U>
      requires Malformed?
    { Malformed }
    function Extract(): T
      requires Ok?
    { value }
  }

  /** A value read off the front of a byte string, and what follows it. */
  datatype Item<+T> = Item(value: T, rest: bytes)

  // ---- Lengths ----

  /** Drops leading zero bytes, keeping at least one byte. */
  function Significant(b: bytes): (s: bytes)
    ensures |s| <= |b| && (b != [] ==> s != [])
  {
    if |b| > 1 && b[0] == 0 then Significant(b[1..]) else b
  }

  function Length(n: nat): (b: bytes)
    ensures b != []
  {
    if n < 0x80 then [n]
    else
      var significant := Significant(ToBE(n, 8));
      [0x80 + |significant|] + significant
  }

  function ReadLength(s: bytes): (r: Result<Item<nat>>)
    ensures r.Ok? ==> |r.value.rest| < |s| && r.value.rest == s[|s| - |r.value.rest|..]
  {
    if s == [] then Malformed
    else if s[0] < 0x80 then Ok(Item(s[0], s[1..]))
    else
      var n := s[0] - 0x80;
      if n == 0 || n > 8 || n > |s| - 1 then Malformed
      else Ok(Item(FromBE(s[1..1 + n]), s[1 + n..]))
  }

  // ---- Tag-length-value ----

  function Tlv(tag: u8, content: bytes): (b: bytes)
    ensures |b| > |content| && b[0] == tag
  {
    [tag] + Length(|content|) + content
  }

  function ReadTlv(s: bytes, tag: u8): (r: Result<Item<bytes>>)
    ensures r.Ok? ==> |r.value.rest| + |r.value.value| < |s| && r.value.rest == s[|s| - |r.value.rest|..]
  {
    if s == [] || s[0] != tag then Malformed
    else
      var length :- ReadLength(s[1..]);
      if length.value > |length.rest| then Malformed
      else Ok(Item(length.rest[..length.value], length.rest[length.value..]))
  }

  /** Like `ReadTlv`, returning the tag and length bytes with the content. */
  function ReadTlvRaw(s: bytes, tag: u8): (r: Result<Item<bytes>>)
    ensures r.Ok? ==> |r.value.rest| < |s| && s == r.value.value + r.value.rest
  {
    var item :- ReadTlv(s, tag);
    Ok(Item(s[..|s| - |item.rest|], item.rest))
  }

  function ReadTlvOpt(s: bytes, tag: u8): (r: Result<Item<Option<bytes>>>)
    ensures r.Ok? ==> |r.value.rest| <= |s| && r.value.rest == s[|s| - |r.value.rest|..]
  {
    if s != [] && s[0] == tag then
      var item :- ReadTlv(s, tag);
      Ok(Item(Some(item.value), item.rest))
    else Ok(Item(None, s))
  }

  // ---- Integers ----

  type i64 = x: int | -0x8000_0000_0000_0000 <= x < 0x8000_0000_0000_0000

  /** The eight two's complement bytes of `v`. */
  function I64Bytes(v: i64): (b: bytes)
    ensures |b| == 8
  {
    ToBE(if v < 0 then v + TWO64 else v, 8)
  }

  function I64FromBytes(b: bytes): i64
    requires |b| == 8
  {
    Pow256Values();
    FromBEBound(b);
    var u := FromBE(b);
    if u >= 0x8000_0000_0000_0000 then u - TWO64 else u
  }

  /** How many leading zero bytes, from `i` on, can go without changing the sign. */
  function IntStart(b: bytes, i: nat): (k: nat)
    requires |b| == 8 && i <= 7
    ensures i <= k <= 7
    decreases 7 - i
  {
    if i < 7 && b[i] == 0 && b[i + 1] < 0x80 then IntStart(b, i + 1) else i
  }

  function DerInt(v: i64): bytes {
    I64Bytes(v)[IntStart(I64Bytes(v), 0)..]
  }

  function Fill(b: u8, n: nat): (s: bytes)
    ensures |s| == n && forall i :: 0 <= i < n ==> s[i] == b
  {
    seq(n, _ => b)
  }

  function ReadDerInt(b: bytes): Result<i64> {
    if b == [] || |b| > 8 then Malformed
    else Ok(I64FromBytes(Fill(if b[0] >= 0x80 then 0xFF else 0, 8 - |b|) + b))
  }

  // ---- Text ----

  predicate Continuation(b: u8) { 0x80 <= b <= 0xBF }

  /** The length of the well-formed UTF-8 sequence at the front (section 4 of RFC 3629), 0 if none. */
  function CharLen(s: bytes): (n: nat)
    ensures n <= |s|
  {
    if |s| >= 1 && s[0] < 0x80 then 1
    else if |s| >= 2 && 0xC2 <= s[0] <= 0xDF && Continuation(s[1]) then 2
    else if |s| >= 3 && 0xE0 <= s[0] <= 0xEF
         && (if s[0] == 0xE0 then 0xA0 else 0x80) <= s[1] <= (if s[0] == 0xED then 0x9F else 0xBF)
         && Continuation(s[2]) then 3
    else if |s| >= 4 && 0xF0 <= s[0] <= 0xF4
         && (if s[0] == 0xF0 then 0x90 else 0x80) <= s[1] <= (if s[0] == 0xF4 then 0x8F else 0xBF)
         && Continuation(s[2]) && Continuation(s[3]) then 4
    else 0
  }

  predicate ValidUtf8(s: bytes) {
    s == [] || (CharLen(s) > 0 && ValidUtf8(s[CharLen(s)..]))
  }

  /** A string is its UTF-8 bytes. */
  type Utf8 = s: bytes | ValidUtf8(s)

  function ReadUtf8(b: bytes): Result<Utf8> {
    if ValidUtf8(b) then Ok(b) else Malformed
  }

  // ---- Networks ----

  datatype Network = Network(addr: IpAddr, prefixLen: u8)

  function NetworkBytes(n: Network): bytes {
    Octets(n.addr) + [n.prefixLen]
  }

  function ReadNetwork(b: bytes): Result<Network> {
    if |b| == 5 then Ok(Network(V4(b[..4]), b[4]))
    else if |b| == 17 then Ok(Network(V6(b[..16]), b[16]))
    else Malformed
  }

  function NetworkList(ns: seq<Network>): bytes {
    if ns == [] then [] else Tlv(UNIVERSAL_OCTET_STRING, NetworkBytes(ns[0])) + NetworkList(ns[1..])
  }

  function ReadNetworkList(s: bytes): Result<seq<Network>>
    decreases |s|
  {
    if s == [] then Ok([])
    else
      var item :- ReadTlv(s, UNIVERSAL_OCTET_STRING);
      var n :- ReadNetwork(item.value);
      var ns :- ReadNetworkList(item.rest);
      Ok([n] + ns)
  }

  function GroupList(gs: seq<Utf8>): bytes {
    if gs == [] then [] else Tlv(UNIVERSAL_UTF8_STRING, gs[0]) + GroupList(gs[1..])
  }

  function ReadGroupList(s: bytes): Result<seq<Utf8>>
    decreases |s|
  {
    if s == [] then Ok([])
    else
      var item :- ReadTlv(s, UNIVERSAL_UTF8_STRING);
      var g :- ReadUtf8(item.value);
      var gs :- ReadGroupList(item.rest);
      Ok([g] + gs)
  }

  // ---- Details ----

  datatype Details = Details(
    name: Utf8,
    networks: seq<Network>,
    unsafeNetworks: seq<Network>,
    groups: seq<Utf8>,
    isCa: bool,
    notBefore: i64,
    notAfter: i64,
    issuer: bytes)

  function OptTlv(present: bool, tag: u8, content: bytes): bytes {
    if present then Tlv(tag, content) else []
  }

  // The fields of the details in order; each function is one field and all that follow it.
  function FromIssuer(d: Details): bytes {
    OptTlv(d.issuer != [], TAG_DETAILS_ISSUER, d.issuer)
  }
  function FromNotAfter(d: Details): bytes {
    Tlv(TAG_DETAILS_NOT_AFTER, DerInt(d.notAfter)) + FromIssuer(d)
  }
  function FromNotBefore(d: Details): bytes {
    Tlv(TAG_DETAILS_NOT_BEFORE, DerInt(d.notBefore)) + FromNotAfter(d)
  }
  function FromIsCa(d: Details): bytes {
    OptTlv(d.isCa, TAG_DETAILS_IS_CA, [0xFF]) + FromNotBefore(d)
  }
  function FromGroups(d: Details): bytes {
    OptTlv(d.groups != [], TAG_DETAILS_GROUPS, GroupList(d.groups)) + FromIsCa(d)
  }
  function FromUnsafeNetworks(d: Details): bytes {
    OptTlv(d.unsafeNetworks != [], TAG_DETAILS_UNSAFE_NETWORKS, NetworkList(d.unsafeNetworks)) + FromGroups(d)
  }
  function FromNetworks(d: Details): bytes {
    OptTlv(d.networks != [], TAG_DETAILS_NETWORKS, NetworkList(d.networks)) + FromUnsafeNetworks(d)
  }
  function FromName(d: Details): bytes {
    Tlv(TAG_DETAILS_NAME, d.name) + FromNetworks(d)
  }

  function DetailsTlv(d: Details): bytes {
    Tlv(TAG_CERT_DETAILS, FromName(d))
  }

  function OrEmpty(o: Option<bytes>): bytes {
    if o.Some? then o.value else []
  }

  function ReadDetails(raw: bytes): Result<Details> {
    var inner :- ReadTlv(raw, TAG_CERT_DETAILS);
    ReadFields(inner.value)
  }

  datatype Lists = Lists(networks: seq<Network>, unsafeNetworks: seq<Network>, groups: seq<Utf8>)
  datatype Tail = Tail(isCa: bool, notBefore: i64, notAfter: i64, issuer: bytes)

  /** The fields in the fixed order of the format. */
  function ReadFields(s: bytes): Result<Details> {
    var name :- ReadTlv(s, TAG_DETAILS_NAME);
    var nameText :- ReadUtf8(name.value);
    var lists :- ReadLists(name.rest);
    var l := lists.value;
    var t :- ReadTail(lists.rest);
    Ok(Details(nameText, l.networks, l.unsafeNetworks, l.groups, t.isCa, t.notBefore, t.notAfter, t.issuer))
  }

  /** An absent list reads as the empty one. */
  function ReadLists(s: bytes): Result<Item<Lists>> {
    var nets :- ReadTlvOpt(s, TAG_DETAILS_NETWORKS);
    var networks :- ReadNetworkList(OrEmpty(nets.value));
    var unsafeNets :- ReadTlvOpt(nets.rest, TAG_DETAILS_UNSAFE_NETWORKS);
    var unsafeNetworks :- ReadNetworkList(OrEmpty(unsafeNets.value));
    var gs :- ReadTlvOpt(unsafeNets.rest, TAG_DETAILS_GROUPS);
    var groups :- ReadGroupList(OrEmpty(gs.value));
    Ok(Item(Lists(networks, unsafeNetworks, groups), gs.rest))
  }

  /** The authority flag counts by its presence; anything after the issuer is ignored. */
  function ReadTail(s: bytes): Result<Tail> {
    var ca :- ReadTlvOpt(s, TAG_DETAILS_IS_CA);
    var nb :- ReadTlv(ca.rest, TAG_DETAILS_NOT_BEFORE);
    var notBefore :- ReadDerInt(nb.value);
    var na :- ReadTlv(nb.rest, TAG_DETAILS_NOT_AFTER);
    var notAfter :- ReadDerInt(na.value);
    var issuer :- ReadTlvOpt(na.rest, TAG_DETAILS_ISSUER);
    Ok(Tail(ca.value.Some?, notBefore, notAfter, OrEmpty(issuer.value)))
  }

  // ---- Certificates ----

  datatype Curve = Curve25519 | P256

  function CurveByte(c: Curve): u8 {
    if c.Curve25519? then 0 else 1
  }

  function ReadCurve(o: Option<bytes>): Result<Curve> {
    if o.None? then Ok(Curve25519)
    else if |o.value| != 1 then Malformed
    else if o.value[0] == 0 then Ok(Curve25519)
    else if o.value[0] == 1 then Ok(P256)
    else Malformed
  }

  datatype Certificate = Certificate(
    details: Details,
    rawDetails: bytes,
    curve: Curve,
    publicKey: bytes,
    signature: bytes)

  function ReadCertificate(der: bytes): Result<Certificate> {
    var envelope :- ReadTlv(der, UNIVERSAL_SEQUENCE);
    var raw :- ReadTlvRaw(envelope.value, TAG_CERT_DETAILS);
    var details :- ReadDetails(raw.value);
    var curveField :- ReadTlvOpt(raw.rest, TAG_CERT_CURVE);
    var curve :- ReadCurve(curveField.value);
    var publicKey :- ReadTlv(curveField.rest, TAG_CERT_PUBLIC_KEY);
    var signature :- ReadTlv(publicKey.rest, TAG_CERT_SIGNATURE);
    Ok(Certificate(details, raw.value, curve, publicKey.value, signature.value))
  }

  /** The envelope's content after the raw details. */
  function AfterDetails(c: Certificate): bytes {
    OptTlv(c.curve != Curve25519, TAG_CERT_CURVE, [CurveByte(c.curve)])
    + (Tlv(TAG_CERT_PUBLIC_KEY, c.publicKey) + Tlv(TAG_CERT_SIGNATURE, c.signature))
  }

  function CertificateBytes(c: Certificate): bytes {
    Tlv(UNIVERSAL_SEQUENCE, c.rawDetails + AfterDetails(c))
  }

  /** What the issuer's signature covers. */
  function SigningBytes(c: Certificate): bytes {
    c.rawDetails + [CurveByte(c.curve)] + c.publicKey
  }

  /** The reduced form carried in a handshake: curve and public key travel as the Noise static key. */
  function HandshakeBytes(c: Certificate): bytes {
    Tlv(UNIVERSAL_SEQUENCE, c.rawDetails + Tlv(TAG_CERT_SIGNATURE, c.signature))
  }

  function Recombine(handshake: bytes, peerPublicKey: bytes, curve: Curve): Result<Certificate> {
    var envelope :- ReadTlv(handshake, UNIVERSAL_SEQUENCE);
    var raw :- ReadTlvRaw(envelope.value, TAG_CERT_DETAILS);
    var details :- ReadDetails(raw.value);
    var signature :- ReadTlv(raw.rest, TAG_CERT_SIGNATURE);
    Ok(Certificate(details, raw.value, curve, peerPublicKey, signature.value))
  }
}
