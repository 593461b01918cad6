/** Reads the addressing fields of an IPv4 or IPv6 packet. */
module IpPacket {
  import opened Optional
  import opened Bits
  import opened Bytes
  import opened Net
  import opened FirewallPacket

  datatype FiveTuple = FiveTuple(
    src: IpAddr,
    dst: IpAddr,
    protocol: Protocol,
    srcPort: u16,
    dstPort: u16,
    icmpIdentifier: Option<u16>,
    fragment: bool)

  function U16At(s: bytes, at: nat): u16
    requires at + 2 <= |s|
  {
    var high: int, low: int := s[at], s[at + 1];
    high * 256 + low
  }

  /** Assigns local and remote by direction. An ICMP identifier has no direction: it goes into
      the remote port with the local port 0. */
  function Oriented(t: FiveTuple, incoming: bool): Packet {
    var localPort, remotePort :=
      if t.icmpIdentifier.Some? then 0 else if incoming then t.dstPort else t.srcPort,
      if t.icmpIdentifier.Some? then t.icmpIdentifier.value else if incoming then t.srcPort else t.dstPort;
    Packet(if incoming then t.dst else t.src, if incoming then t.src else t.dst,
           localPort, remotePort, t.protocol, t.fragment)
  }

  function ReadTuple(raw: bytes): Option<FiveTuple> {
    if raw == [] then None
    else if raw[0] / 16 == 4 then ParseIpv4(raw)
    else if raw[0] / 16 == 6 then Ipv6Tuple(raw)
    else None
  }

  /** Parses a packet, or gives nothing for one to be dropped. */
  function ParseSpec(raw: bytes, incoming: bool): Option<Packet> {
    match ReadTuple(raw)
    case Some(t) => Some(Oriented(t, incoming))
    case None => None
  }

  function ReadPorts(l4: bytes): (u16, u16) {
    if |l4| < 4 then (0, 0) else (U16At(l4, 0), U16At(l4, 2))
  }

  function ParseIpv4(raw: bytes): Option<FiveTuple> {
    if |raw| < 20 then None
    else
      var ihl := raw[0] % 16 * 4;
      if ihl < 20 || |raw| < ihl then None
      else
        var protocol := ProtocolFrom(raw[9]);
        // The fragment offset alone decides, whatever the more-fragments bit.
        var fragment := U16At(raw, 6) % 0x2000 != 0;
        if !fragment && |raw| < ihl + (if protocol == Icmp then 6 else 4) then None
        else
          var ports := if !fragment && (protocol == Tcp || protocol == Udp) then ReadPorts(raw[ihl..]) else (0, 0);
          var id := if !fragment && protocol == Icmp then Some(U16At(raw, ihl + 4)) else None;
          assert |raw[12..16]| == 4 && |raw[16..20]| == 4;
          Some(FiveTuple(V4(raw[12..16]), V4(raw[16..20]), protocol, ports.0, ports.1, id, fragment))
  }

  // ---- IPv6 extension headers ----

  const NH_TCP: u8 := 6
  const NH_UDP: u8 := 17
  const NH_FRAGMENT: u8 := 44
  const NH_ESP: u8 := 50
  const NH_AH: u8 := 51
  const NH_ICMPV6: u8 := 58
  const NH_NO_NEXT: u8 := 59

  /** One turn of the walk: it ends, dropping the packet or not, or moves past one header. */
  datatype Step = Drop | Found(tuple: FiveTuple) | Advance(size: nat)

  function Terminal(raw: bytes, protocol: Protocol, srcPort: u16, dstPort: u16, id: Option<u16>, fragment: bool): Step
    requires |raw| >= 40
  {
    Found(FiveTuple(V6(raw[8..24]), V6(raw[24..40]), protocol, srcPort, dstPort, id, fragment))
  }

  /** What the header numbered `next` and starting at `offset` means. */
  function HeaderStep(raw: bytes, next: u8, offset: nat): Step
    requires |raw| >= 40
  {
    var protocol := ProtocolFrom(next);
    if next == NH_ESP || next == NH_NO_NEXT then Terminal(raw, protocol, 0, 0, None, false)
    else if next == NH_ICMPV6 then
      if |raw| < offset + 6 then Drop
      else
        var id := if raw[offset] == 128 || raw[offset] == 129 then Some(U16At(raw, offset + 4)) else None;
        Terminal(raw, protocol, 0, 0, id, false)
    else if next == NH_TCP || next == NH_UDP then
      if |raw| < offset + 4 then Drop
      else
        var ports := ReadPorts(raw[offset..]);
        Terminal(raw, protocol, ports.0, ports.1, None, false)
    else if next == NH_FRAGMENT then
      if |raw| < offset + 8 then Drop
      else if U16At(raw, offset + 2) / 8 != 0 then Terminal(raw, ProtocolFrom(raw[offset]), 0, 0, None, true)
      else Advance(8)
    else if offset + 1 >= |raw| then Drop
    else
      var len: int := raw[offset + 1];
      // Authentication headers count in 4-byte units; both forms leave out the first 8 bytes.
      Advance(if next == NH_AH then (len + 2) * 4 else (len + 1) * 8)
  }

  /** Every header is at least 8 bytes long, and the walk never gets more than 2048 bytes past
      the end of the buffer. */
  lemma StepAdvances(raw: bytes, next: u8, offset: nat)
    requires |raw| >= 40 && HeaderStep(raw, next, offset).Advance?
    ensures 8 <= HeaderStep(raw, next, offset).size
    ensures offset + HeaderStep(raw, next, offset).size <= |raw| + 2046
  {
  }

  /** The chain walk: `protoAt` holds the number of the header that starts at `offset`. */
  function Walk(raw: bytes, protoAt: nat, offset: nat): Option<FiveTuple>
    requires |raw| >= 40 && protoAt < offset
    decreases |raw| - protoAt
  {
    if protoAt >= |raw| then None
    else
      match HeaderStep(raw, raw[protoAt], offset)
      case Drop => None
      case Found(t) => Some(t)
      case Advance(size) => StepAdvances(raw, raw[protoAt], offset); Walk(raw, offset, offset + size)
  }

  function Ipv6Tuple(raw: bytes): Option<FiveTuple> {
    if |raw| < 40 then None else Walk(raw, 6, 40)
  }

  method ParseIpv6(raw: bytes) returns (r: Option<FiveTuple>)
    ensures r == Ipv6Tuple(raw)
  {
    if |raw| < 40 { return None; }
    var protoAt, offset := 6, 40;
    while true
      invariant protoAt + 8 <= offset <= |raw| + 2046
      invariant Walk(raw, protoAt, offset) == Ipv6Tuple(raw)
      decreases |raw| - protoAt
    {
      if protoAt >= |raw| { return None; }
      var nextHeader := raw[protoAt];
      var protocol := ProtocolFrom(nextHeader);
      var advance: nat;
      if nextHeader == NH_ESP || nextHeader == NH_NO_NEXT {
        return Some(FiveTuple(V6(raw[8..24]), V6(raw[24..40]), protocol, 0, 0, None, false));
      } else if nextHeader == NH_ICMPV6 {
        if |raw| < offset + 6 { return None; }
        var id := if raw[offset] == 128 || raw[offset] == 129 then Some(U16At(raw, offset + 4)) else None;
        return Some(FiveTuple(V6(raw[8..24]), V6(raw[24..40]), protocol, 0, 0, id, false));
      } else if nextHeader == NH_TCP || nextHeader == NH_UDP {
        if |raw| < offset + 4 { return None; }
        var ports := ReadPorts(raw[offset..]);
        return Some(FiveTuple(V6(raw[8..24]), V6(raw[24..40]), protocol, ports.0, ports.1, None, false));
      } else if nextHeader == NH_FRAGMENT {
        if |raw| < offset + 8 { return None; }
        if U16At(raw, offset + 2) / 8 != 0 {
          return Some(FiveTuple(V6(raw[8..24]), V6(raw[24..40]), ProtocolFrom(raw[offset]), 0, 0, None, true));
        }
        advance := 8;
      } else {
        if offset + 1 >= |raw| { return None; }
        var len: int := raw[offset + 1];
        advance := if nextHeader == NH_AH then (len + 2) * 4 else (len + 1) * 8;
      }
      protoAt, offset := offset, offset + advance;
    }
    assert false;
    r := None;
  }

  method Parse(raw: bytes, incoming: bool) returns (r: Option<Packet>)
    ensures r == ParseSpec(raw, incoming)
  {
    if raw == [] { return None; }
    var t: Option<FiveTuple> := None;
    if raw[0] / 16 == 4 {
      t := ParseIpv4(raw);
    } else if raw[0] / 16 == 6 {
      t := ParseIpv6(raw);
    }
    r := if t.Some? then Some(Oriented(t.value, incoming)) else None;
  }
}

/** Building packets, and what parsing them back returns. */
module IpFlows {
  import opened Optional
  import opened Bits
  import opened Bytes
  import opened Net
  import opened FirewallPacket
  import opened IpPacket

  function U16Bytes(p: u16): (b: bytes)
    ensures |b| == 2 && U16At(b, 0) == p
  {
    [p / 256, p % 256]
  }

  /** The upper layer: a port pair, or an ICMP message with an identifier. */
  datatype Upper =
    | Ports(tcp: bool, srcPort: u16, dstPort: u16, rest: bytes)
    | Echo(kind: u8, codeAndChecksum: bytes, id: u16, rest: bytes)

  function UpperBytes(u: Upper): bytes {
    match u
    case Ports(_, s, d, rest) => U16Bytes(s) + U16Bytes(d) + rest
    case Echo(kind, misc, id, rest) => [kind] + misc + U16Bytes(id) + rest
  }

  /** Hop-by-hop (0), routing (43) and destination options (60) with any length byte - and any
      header the parser does not know, which it takes for one of these -, an authentication header
      counted in 4-byte units, or the header of a first fragment. */
  datatype Ext =
    | Standard(number: u8, len: u8, body: bytes)
    | Auth(len: u8, body: bytes)
    | FirstFragment(reserved: u8, flags: u8, id: bytes)

  predicate ValidExt(e: Ext) {
    match e
    case Standard(number, len, body) => number !in {6, 17, 44, 50, 51, 58, 59} && |body| == (len + 1) * 8 - 2
    case Auth(len, body) => |body| == (len + 2) * 4 - 2
    case FirstFragment(_, flags, id) => flags < 8 && |id| == 4
  }

  function Number(e: Ext): u8 {
    match e
    case Standard(number, _, _) => number
    case Auth(_, _) => 51
    case FirstFragment(_, _, _) => 44
  }

  function ExtBytes(e: Ext, next: u8): bytes {
    match e
    case Standard(_, len, body) => [next, len] + body
    case Auth(len, body) => [next, len] + body
    case FirstFragment(reserved, flags, id) => [next, reserved, 0, flags] + id
  }

  function FirstNumber(exts: seq<Ext>, upper: u8): u8 {
    if exts == [] then upper else Number(exts[0])
  }

  function Chain(exts: seq<Ext>, upper: u8, payload: bytes): bytes {
    if exts == [] then payload
    else ExtBytes(exts[0], FirstNumber(exts[1..], upper)) + Chain(exts[1..], upper, payload)
  }

  /** One well-formed header is stepped over exactly. */
  lemma StepOver(raw: bytes, front: bytes, e: Ext, next: u8, back: bytes)
    requires |front| >= 40 && ValidExt(e)
    requires raw == front + (ExtBytes(e, next) + back)
    ensures HeaderStep(raw, Number(e), |front|) == Advance(|ExtBytes(e, next)|)
    ensures raw[|front|] == next
  {
    var o, b := |front|, ExtBytes(e, next);
    assert raw[o] == b[0] && raw[o + 1] == b[1];
    if e.FirstFragment? {
      assert raw[o + 2] == b[2] == 0 && raw[o + 3] == b[3];
    }
  }

  /** Where walking a chain ends: `p` holds the upper layer's number, `o` is where it starts. */
  ghost predicate EndsAt(raw: bytes, upper: u8, payload: bytes, protoAt: nat, offset: nat, p: nat)
    requires |raw| >= 40 && protoAt < offset
  {
    var o := |raw| - |payload|;
    p < o && p < |raw| && raw[p] == upper && Walk(raw, protoAt, offset) == Walk(raw, p, o)
  }

  /** Walking any chain of well-formed extension headers lands exactly on the upper layer. */
  lemma {:induction false} WalkChain(raw: bytes, front: bytes, exts: seq<Ext>, upper: u8, payload: bytes, protoAt: nat)
    returns (p: nat)
    requires |front| >= 40 && protoAt < |front|
    requires forall e :: e in exts ==> ValidExt(e)
    requires raw == front + Chain(exts, upper, payload)
    requires raw[protoAt] == FirstNumber(exts, upper)
    ensures EndsAt(raw, upper, payload, protoAt, |front|, p)
    decreases |exts|
  {
    if exts == [] {
      p := protoAt;
    } else {
      var next := FirstNumber(exts[1..], upper);
      var header := ExtBytes(exts[0], next);
      var back := Chain(exts[1..], upper, payload);
      StepOver(raw, front, exts[0], next, back);
      hide HeaderStep, ExtBytes;
      assert raw == (front + header) + back;
      p := WalkChain(raw, front + header, exts[1..], upper, payload, |front|);
    }
  }

  /** A packet that is not a later fragment, with everything that does not identify its flow:
      IP options or extension headers, and all other header fields. */
  datatype Datagram =
    | D4(src: Octets4, dst: Octets4, tos: u8, lengthAndId: bytes, flags: u8, ttl: u8, checksum: bytes,
         options: bytes, upper: Upper)
    | D6(src6: Octets16, dst6: Octets16, version: u8, flowAndLength: bytes, hopLimit: u8,
         exts: seq<Ext>, upper: Upper)

  predicate ValidUpper(u: Upper) {
    u.Echo? ==> |u.codeAndChecksum| == 3
  }

  predicate Valid(d: Datagram) {
    && ValidUpper(d.upper)
    && match d
       case D4(_, _, _, lengthAndId, flags, _, checksum, options, _) =>
         && |lengthAndId| == 4 && flags < 8 && |checksum| == 2
         && |options| <= 40 && |options| % 4 == 0
       case D6(_, _, version, flowAndLength, _, exts, upper) =>
         && version < 16 && |flowAndLength| == 5
         && (forall e :: e in exts ==> ValidExt(e))
         && (upper.Echo? ==> upper.kind == 128 || upper.kind == 129)
  }

  function UpperNumber(d: Datagram): u8 {
    if d.upper.Ports? then (if d.upper.tcp then 6 else 17) else if d.D4? then 1 else 58
  }

  function Header4(d: Datagram): bytes
    requires d.D4? && Valid(d)
  {
    [0x40 + 5 + |d.options| / 4, d.tos] + d.lengthAndId + [d.flags * 32, 0, d.ttl, UpperNumber(d)]
    + d.checksum + d.src + d.dst + d.options
  }

  function Header6(d: Datagram): bytes
    requires d.D6? && Valid(d)
  {
    [0x60 + d.version] + d.flowAndLength + [FirstNumber(d.exts, UpperNumber(d)), d.hopLimit] + d.src6 + d.dst6
  }

  function Wire(d: Datagram): bytes
    requires Valid(d)
  {
    if d.D4? then Header4(d) + UpperBytes(d.upper)
    else Header6(d) + Chain(d.exts, UpperNumber(d), UpperBytes(d.upper))
  }

  function Source(d: Datagram): IpAddr { if d.D4? then V4(d.src) else V6(d.src6) }
  function Destination(d: Datagram): IpAddr { if d.D4? then V4(d.dst) else V6(d.dst6) }

  function TupleOf(d: Datagram): FiveTuple {
    var u := d.upper;
    FiveTuple(Source(d), Destination(d),
              if u.Ports? then (if u.tcp then Tcp else Udp) else if d.D4? then Icmp else IcmpV6,
              if u.Ports? then u.srcPort else 0, if u.Ports? then u.dstPort else 0,
              if u.Echo? then Some(u.id) else None, false)
  }

  lemma UpperFields(raw: bytes, front: bytes, u: Upper)
    requires raw == front + UpperBytes(u) && ValidUpper(u)
    ensures u.Ports? ==> |raw| >= |front| + 4 && ReadPorts(raw[|front|..]) == (u.srcPort, u.dstPort)
    ensures u.Echo? ==> |raw| >= |front| + 6 && raw[|front|] == u.kind && U16At(raw, |front| + 4) == u.id
  {
    var b := UpperBytes(u);
    assert raw[|front|..] == b;
    if u.Ports? {
      assert b[0] == U16Bytes(u.srcPort)[0] && b[1] == U16Bytes(u.srcPort)[1];
      assert b[2] == U16Bytes(u.dstPort)[0] && b[3] == U16Bytes(u.dstPort)[1];
    } else {
      assert raw[|front|] == b[0];
      assert raw[|front| + 4] == b[4] == U16Bytes(u.id)[0];
      assert raw[|front| + 5] == b[5] == U16Bytes(u.id)[1];
    }
  }

  lemma Header4Fields(d: Datagram)
    requires Valid(d) && d.D4?
    ensures var h := Header4(d);
            && |h| == 20 + |d.options| == h[0] % 16 * 4 && h[0] / 16 == 4
            && U16At(h, 6) % 0x2000 == 0 && h[9] == UpperNumber(d)
            && h[12..16] == d.src && h[16..20] == d.dst
  {
    var h := Header4(d);
    assert h[0] == 0x45 + |d.options| / 4;
    assert h[6] == d.flags * 32 && h[7] == 0;
  }

  lemma ReadWire4(d: Datagram)
    requires Valid(d) && d.D4?
    ensures ReadTuple(Wire(d)) == Some(TupleOf(d))
  {
    var h, raw := Header4(d), Wire(d);
    Header4Fields(d);
    UpperFields(raw, h, d.upper);
    hide Header4, UpperBytes, ReadPorts;
    assert raw[0] == h[0] && raw[9] == h[9] && raw[6] == h[6] && raw[7] == h[7];
    assert raw[12..16] == h[12..16] && raw[16..20] == h[16..20];
  }

  lemma Header6Fields(d: Datagram)
    requires Valid(d) && d.D6?
    ensures var h := Header6(d);
            && |h| == 40 && h[0] / 16 == 6 && h[6] == FirstNumber(d.exts, UpperNumber(d))
            && h[8..24] == d.src6 && h[24..40] == d.dst6
  {
    assert Header6(d)[0] == 0x60 + d.version;
  }

  lemma UpperStep(d: Datagram, raw: bytes, o: nat)
    requires Valid(d) && d.D6? && 40 <= o <= |raw|
    requires raw[8..24] == d.src6 && raw[24..40] == d.dst6
    requires raw[o..] == UpperBytes(d.upper)
    ensures HeaderStep(raw, UpperNumber(d), o) == Found(TupleOf(d))
  {
    assert raw == raw[..o] + UpperBytes(d.upper);
    UpperFields(raw, raw[..o], d.upper);
    hide UpperBytes, ReadPorts;
  }

  lemma WalkFinds(raw: bytes, p: nat, o: nat, t: FiveTuple)
    requires |raw| >= 40 && p < o && p < |raw| && HeaderStep(raw, raw[p], o) == Found(t)
    ensures Walk(raw, p, o) == Some(t)
  {
    hide HeaderStep;
  }

  lemma Wire6Layout(d: Datagram)
    requires Valid(d) && d.D6?
    ensures var raw, payload := Wire(d), UpperBytes(d.upper);
            && raw == Header6(d) + Chain(d.exts, UpperNumber(d), payload)
            && |Header6(d)| == 40 && 40 <= |raw| - |payload|
            && ReadTuple(raw) == Walk(raw, 6, 40)
            && raw[6] == FirstNumber(d.exts, UpperNumber(d))
            && raw[8..24] == d.src6 && raw[24..40] == d.dst6
            && raw[|raw| - |payload|..] == payload
  {
    hide Wire, Header6, Header4, Chain, UpperBytes, FirstNumber, Walk, UpperNumber, ReadTuple;
    var h, raw, payload := Header6(d), Wire(d), UpperBytes(d.upper);
    var c := Chain(d.exts, UpperNumber(d), payload);
    WireIsHeaderThenChain(d);
    Header6Fields(d);
    ChainEndsWith(d.exts, UpperNumber(d), payload);
    HeaderThenChain(h, c, payload);
    IsIpv6(raw);
  }

  lemma WireIsHeaderThenChain(d: Datagram)
    requires Valid(d) && d.D6?
    ensures Wire(d) == Header6(d) + Chain(d.exts, UpperNumber(d), UpperBytes(d.upper))
  {
  }

  lemma IsIpv6(raw: bytes)
    requires |raw| >= 40 && raw[0] / 16 == 6
    ensures ReadTuple(raw) == Walk(raw, 6, 40)
  {
  }

  lemma HeaderThenChain(h: bytes, c: bytes, payload: bytes)
    requires |h| == 40 && |payload| <= |c| && c[|c| - |payload|..] == payload
    ensures var raw := h + c;
            && raw[0] == h[0] && raw[6] == h[6] && raw[8..24] == h[8..24] && raw[24..40] == h[24..40]
            && raw[|raw| - |payload|..] == payload
  {
    assert (h + c)[..40] == h;
    assert (h + c)[|h + c| - |payload|..] == c[|c| - |payload|..];
  }

  /** A list of well-formed extension headers, of any length, changes nothing: the parser
      returns the transport protocol behind it and its ports or identifier. */
  lemma ReadWire6(d: Datagram)
    requires Valid(d) && d.D6?
    ensures ReadTuple(Wire(d)) == Some(TupleOf(d))
  {
    hide Wire, Header6, Chain, UpperBytes, FirstNumber, HeaderStep, TupleOf, Walk, ReadTuple, UpperNumber;
    var raw := Wire(d);
    var o := |raw| - |UpperBytes(d.upper)|;
    Wire6Layout(d);
    var p := WalkChain(raw, Header6(d), d.exts, UpperNumber(d), UpperBytes(d.upper), 6);
    UpperStep(d, raw, o);
    WalkFinds(raw, p, o, TupleOf(d));
  }

  lemma {:induction false} ChainEndsWith(exts: seq<Ext>, upper: u8, payload: bytes)
    ensures var c := Chain(exts, upper, payload);
            |payload| <= |c| && c[|c| - |payload|..] == payload
  {
    hide ExtBytes;
    if exts != [] { ChainEndsWith(exts[1..], upper, payload); }
  }

  lemma ReadWire(d: Datagram)
    requires Valid(d)
    ensures ReadTuple(Wire(d)) == Some(TupleOf(d))
  {
    hide Wire, Valid, ReadTuple, TupleOf;
    if d.D4? { ReadWire4(d); } else { ReadWire6(d); }
  }

  /** The parsed key of any packet that is not a later fragment: our own side is the source of
      an outgoing packet and the destination of an incoming one, and an ICMP identifier stands
      in the remote port either way. */
  lemma ParsedKey(d: Datagram, incoming: bool)
    requires Valid(d)
    ensures ParseSpec(Wire(d), incoming) ==
            Some(Packet(if incoming then Destination(d) else Source(d),
                        if incoming then Source(d) else Destination(d),
                        if d.upper.Echo? then 0 else if incoming then d.upper.dstPort else d.upper.srcPort,
                        if d.upper.Echo? then d.upper.id else if incoming then d.upper.srcPort else d.upper.dstPort,
                        if d.upper.Ports? then (if d.upper.tcp then Tcp else Udp) else if d.D4? then Icmp else IcmpV6,
                        false))
  {
    hide Valid, Wire, ReadTuple;
    ReadWire(d);
  }

  /** `b` answers `a`: addresses swapped, same protocol, ports swapped or same identifier. */
  predicate Answers(b: Datagram, a: Datagram) {
    && Source(b) == Destination(a) && Destination(b) == Source(a)
    && match (a.upper, b.upper)
       case (Ports(tcp1, s1, d1, _), Ports(tcp2, s2, d2, _)) => tcp1 == tcp2 && s2 == d1 && d2 == s1
       case (Echo(_, _, id1, _), Echo(_, _, id2, _)) => id1 == id2
       case _ => false
  }

  /** An outgoing packet and an incoming one have the same connection-table key exactly when
      the second answers the first, whatever options and extension headers they carry. */
  lemma BothLegsShareOneKey(request: Datagram, reply: Datagram)
    requires Valid(request) && Valid(reply)
    ensures ParseSpec(Wire(request), false).Some? && ParseSpec(Wire(reply), true).Some?
    ensures ParseSpec(Wire(request), false) == ParseSpec(Wire(reply), true) <==> Answers(reply, request)
  {
    hide Valid, Wire, ReadTuple;
    ReadWire(request);
    ReadWire(reply);
  }
}
