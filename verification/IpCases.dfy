/** Every packet there is: what the parser makes of any bytes at all, case by case and in numbers.
    Later fragments, encrypted packets and packets cut short are among the cases. */
module IpCases {
  import opened Optional
  import opened Bits
  import opened Bytes
  import opened Net
  import opened FirewallPacket
  import opened IpPacket
  import opened IpFlows

  /** The protocol of this number. */
  predicate Names(p: Protocol, number: u8) {
    match p
    case Any => number == 0
    case Icmp => number == 1
    case Tcp => number == 6
    case Udp => number == 17
    case IcmpV6 => number == 58
    case Other(n) => n == number && number !in {0, 1, 6, 17, 58}
  }

  lemma ProtocolNames(number: u8)
    ensures forall p :: ProtocolFrom(number) == p <==> Names(p, number)
  {
  }

  /** A tuple with these parts. */
  predicate IsTuple(t: Option<FiveTuple>, src: IpAddr, dst: IpAddr, number: u8, srcPort: int, dstPort: int,
                    id: Option<u16>, fragment: bool) {
    t.Some? && t.value.src == src && t.value.dst == dst && Names(t.value.protocol, number)
    && t.value.srcPort == srcPort && t.value.dstPort == dstPort && t.value.icmpIdentifier == id
    && t.value.fragment == fragment
  }

  /** Two bytes as a number. */
  function Two(s: bytes, at: nat): u16
    requires at + 2 <= |s|
  {
    var high: int, low: int := s[at], s[at + 1];
    256 * high + low
  }

  /** A packet of no known version. */
  lemma OtherVersions(raw: bytes)
    requires raw == [] || raw[0] / 16 !in {4, 6}
    ensures ReadTuple(raw) == None
  {
  }

  // ---- IPv4 ----

  /** An IPv4 header, its fragment offset in units of 8 bytes. */
  datatype Ip4 = Ip4(src: Octets4, dst: Octets4, tos: u8, lengthAndId: bytes, flags: u8, offset: nat, ttl: u8,
                     protocol: u8, checksum: bytes, options: bytes)

  predicate Valid4(h: Ip4) {
    |h.lengthAndId| == 4 && h.flags < 8 && h.offset < 0x2000 && |h.checksum| == 2
    && |h.options| <= 40 && |h.options| % 4 == 0
  }

  function Head4(h: Ip4): bytes
    requires Valid4(h)
  {
    [0x45 + |h.options| / 4, h.tos] + h.lengthAndId + [h.flags * 32 + h.offset / 256, h.offset % 256, h.ttl, h.protocol]
    + h.checksum + h.src + h.dst + h.options
  }

  /** What is read off an IPv4 packet: a later fragment by its addresses and protocol alone;
      anything else only if 4 bytes follow the header, or 6 for ICMP, with the ports of TCP and UDP
      and the identifier of ICMP. */
  predicate Reads4(t: Option<FiveTuple>, h: Ip4, payload: bytes) {
    if h.offset != 0 then IsTuple(t, V4(h.src), V4(h.dst), h.protocol, 0, 0, None, true)
    else if |payload| < 4 || (h.protocol == 1 && |payload| < 6) then t == None
    else if h.protocol == 6 || h.protocol == 17 then
      IsTuple(t, V4(h.src), V4(h.dst), h.protocol, Two(payload, 0), Two(payload, 2), None, false)
    else if h.protocol == 1 then IsTuple(t, V4(h.src), V4(h.dst), 1, 0, 0, Some(Two(payload, 4)), false)
    else IsTuple(t, V4(h.src), V4(h.dst), h.protocol, 0, 0, None, false)
  }

  lemma Head4Fields(h: Ip4, payload: bytes)
    requires Valid4(h)
    ensures var raw := Head4(h) + payload;
            && |raw| == 20 + |h.options| + |payload| && raw[0] / 16 == 4 && raw[0] % 16 * 4 == 20 + |h.options|
            && U16At(raw, 6) % 0x2000 == h.offset && raw[9] == h.protocol
            && raw[12..16] == h.src && raw[16..20] == h.dst && raw[20 + |h.options|..] == payload
  {
    var head := Head4(h);
    var raw := head + payload;
    assert head[0] == 0x45 + |h.options| / 4;
    assert head[6] == h.flags * 32 + h.offset / 256 && head[7] == h.offset % 256 && head[9] == h.protocol;
    assert head[12..16] == h.src && head[16..20] == h.dst;
    assert raw[..|head|] == head;
    assert raw[12..16] == raw[..|head|][12..16] && raw[16..20] == raw[..|head|][16..20];
    FragmentWord(h.flags, h.offset);
  }

  lemma FragmentWord(flags: u8, offset: nat)
    requires flags < 8 && offset < 0x2000
    ensures (flags * 32 + offset / 256) * 256 + offset % 256 == flags * 0x2000 + offset
    ensures (flags * 0x2000 + offset) % 0x2000 == offset
  {
    DivMod(flags * 0x2000 + offset, 0x2000, flags, offset);
  }

  /** Every well-formed header, whatever follows it. */
  lemma ReadAny4(h: Ip4, payload: bytes)
    requires Valid4(h)
    ensures Reads4(ReadTuple(Head4(h) + payload), h, payload)
  {
    Head4Fields(h, payload);
    ProtocolNames(h.protocol);
    hide Head4;
    var raw, ihl := Head4(h) + payload, 20 + |h.options|;
    assert forall k :: 0 <= k < |payload| ==> raw[ihl..][k] == payload[k];
  }

  /** Any other bytes of version 4 are dropped: too short for the header they announce, or
      announcing one shorter than 20 bytes. */
  lemma EveryIpv4(raw: bytes) returns (h: Ip4, payload: bytes)
    requires raw != [] && raw[0] / 16 == 4
    ensures if |raw| < 20 || raw[0] % 16 < 5 || |raw| < raw[0] % 16 * 4 then ReadTuple(raw) == None
            else Valid4(h) && raw == Head4(h) + payload && Reads4(ReadTuple(raw), h, payload)
  {
    h := Ip4([0, 0, 0, 0], [0, 0, 0, 0], 0, [], 0, 0, 0, 0, [], []);
    payload := [];
    if |raw| >= 20 && raw[0] % 16 >= 5 && |raw| >= raw[0] % 16 * 4 {
      var n := raw[0] % 16 * 4;
      var high: int := raw[6];
      h := Ip4(raw[12..16], raw[16..20], raw[1], raw[2..6], high / 32, high % 32 * 256 + raw[7], raw[8], raw[9],
               raw[10..12], raw[20..n]);
      payload := raw[n..];
      hide ReadTuple, Reads4;
      Rebuild4(raw, h, n);
      ReadAny4(h, payload);
    }
  }

  lemma Rebuild4(raw: bytes, h: Ip4, n: nat)
    requires |raw| >= n >= 20 && raw[0] / 16 == 4 && raw[0] % 16 * 4 == n
    requires var high: int := raw[6];
             h == Ip4(raw[12..16], raw[16..20], raw[1], raw[2..6], high / 32, high % 32 * 256 + raw[7], raw[8], raw[9],
                      raw[10..12], raw[20..n])
    ensures Valid4(h) && raw == Head4(h) + raw[n..]
  {
    var front, back := raw[..10], raw[10..n];
    assert front == [raw[0], raw[1]] + raw[2..6] + [raw[6], raw[7], raw[8], raw[9]];
    assert back == raw[10..12] + raw[12..16] + raw[16..20] + raw[20..n];
    assert raw == front + back + raw[n..];
    assert Valid4(h);
    HeadParts(h);
  }

  lemma HeadParts(h: Ip4)
    requires Valid4(h)
    ensures Head4(h) == ([0x45 + |h.options| / 4, h.tos] + h.lengthAndId
                         + [h.flags * 32 + h.offset / 256, h.offset % 256, h.ttl, h.protocol])
                        + (h.checksum + h.src + h.dst + h.options)
  {
  }

  // ---- IPv6 ----

  /** How a chain of whole extension headers ends: with an upper layer the parser knows (6, 17, 58,
      50 encrypted, 59 nothing), with the header of a later fragment, with too few bytes for the
      header announced, or with a header announcing more bytes than there are. */
  datatype End =
    | Upper(number: u8, payload: bytes)
    | LaterFragment(next: u8, reserved: u8, offset: nat, flags: u8, id: bytes, payload: bytes)
    | Cut(number: u8, payload: bytes)
    | Overrun(number: u8, next: u8, len: u8, body: bytes)

  predicate Extension(number: u8) { number !in {6, 17, 44, 50, 58, 59} }

  predicate ValidEnd(e: End) {
    match e
    case Upper(number, _) => number in {6, 17, 50, 58, 59}
    case LaterFragment(_, _, offset, flags, id, _) => 0 < offset < 0x2000 && flags < 8 && |id| == 4
    case Cut(number, payload) => (number == 44 && |payload| < 8) || (Extension(number) && |payload| < 2)
    case Overrun(number, _, len, body) =>
      Extension(number) && 2 + |body| < if number == 51 then (len + 2) * 4 else (len + 1) * 8
  }

  function EndNumber(e: End): u8 {
    if e.LaterFragment? then 44 else e.number
  }

  function EndBytes(e: End): bytes
    requires ValidEnd(e)
  {
    match e
    case Upper(_, payload) => payload
    case LaterFragment(next, reserved, offset, flags, id, payload) =>
      [next, reserved, offset / 32, offset % 32 * 8 + flags] + id + payload
    case Cut(_, payload) => payload
    case Overrun(_, next, len, body) => [next, len] + body
  }

  datatype Ip6 = Ip6(src: Octets16, dst: Octets16, version: u8, flowAndLength: bytes, hopLimit: u8,
                     exts: seq<Ext>, end: End)

  predicate Valid6(h: Ip6) {
    h.version < 16 && |h.flowAndLength| == 5 && (forall e :: e in h.exts ==> ValidExt(e)) && ValidEnd(h.end)
  }

  function Head6(h: Ip6): bytes
    requires Valid6(h)
  {
    [0x60 + h.version] + h.flowAndLength + [FirstNumber(h.exts, EndNumber(h.end)), h.hopLimit] + h.src + h.dst
  }

  function Wire6(h: Ip6): bytes
    requires Valid6(h)
  {
    Head6(h) + Chain(h.exts, EndNumber(h.end), EndBytes(h.end))
  }

  /** What is read off an IPv6 packet, by how its chain ends. */
  predicate Reads6(t: Option<FiveTuple>, src: IpAddr, dst: IpAddr, end: End) {
    match end
    case Upper(number, p) =>
      if number == 6 || number == 17 then
        if |p| < 4 then t == None else IsTuple(t, src, dst, number, Two(p, 0), Two(p, 2), None, false)
      else if number == 58 then
        if |p| < 6 then t == None
        else IsTuple(t, src, dst, 58, 0, 0, if p[0] == 128 || p[0] == 129 then Some(Two(p, 4)) else None, false)
      else IsTuple(t, src, dst, number, 0, 0, None, false)
    case LaterFragment(next, _, _, _, _, _) => IsTuple(t, src, dst, next, 0, 0, None, true)
    case Cut(_, _) => t == None
    case Overrun(_, next, _, _) =>
      if next == 50 || next == 59 then IsTuple(t, src, dst, next, 0, 0, None, false) else t == None
  }

  lemma UpperEnd(raw: bytes, o: nat, end: End, p: nat)
    requires end.Upper? && ValidEnd(end) && 40 <= o <= |raw| && p < o && p < |raw| && raw[p] == end.number
    requires raw[o..] == end.payload && |raw| == o + |end.payload|
    ensures Reads6(Walk(raw, p, o), V6(raw[8..24]), V6(raw[24..40]), end)
  {
    ProtocolNames(end.number);
    hide ProtocolFrom;
    assert forall k :: 0 <= k < |end.payload| ==> raw[o..][k] == end.payload[k];
  }

  lemma FragmentEndStep(raw: bytes, o: nat, end: End, p: nat)
    requires end.LaterFragment? && ValidEnd(end) && 40 <= o && p < o && o + 8 <= |raw| && raw[p] == 44
    requires raw[o] == end.next && raw[o + 2] == end.offset / 32 && raw[o + 3] == end.offset % 32 * 8 + end.flags
    ensures Reads6(Walk(raw, p, o), V6(raw[8..24]), V6(raw[24..40]), end)
  {
    ProtocolNames(end.next);
    FragmentBits(end.offset, end.flags);
    hide ProtocolFrom;
    assert HeaderStep(raw, 44, o).Found?;
  }

  lemma CutEnd(raw: bytes, o: nat, end: End, p: nat)
    requires end.Cut? && ValidEnd(end) && 40 <= o && p < o && p < |raw| && raw[p] == end.number
    requires |raw| == o + |end.payload|
    ensures Walk(raw, p, o) == None
  {
  }

  lemma OverrunEndStep(raw: bytes, o: nat, end: End, p: nat)
    requires end.Overrun? && ValidEnd(end) && 40 <= o && p < o && p < |raw| && raw[p] == end.number
    requires |raw| == o + 2 + |end.body| && raw[o] == end.next && raw[o + 1] == end.len
    ensures Reads6(Walk(raw, p, o), V6(raw[8..24]), V6(raw[24..40]), end)
  {
    ProtocolNames(end.next);
    hide ProtocolFrom;
    OverrunWalk(raw, p, o);
  }

  lemma EndStep(raw: bytes, o: nat, end: End, p: nat)
    requires ValidEnd(end) && 40 <= o <= |raw| && p < o && p < |raw| && raw[o..] == EndBytes(end)
    requires raw[p] == EndNumber(end)
    ensures Reads6(Walk(raw, p, o), V6(raw[8..24]), V6(raw[24..40]), end)
  {
    hide Walk, Names;
    var b := EndBytes(end);
    assert forall k :: 0 <= k < |b| ==> raw[o + k] == b[k];
    match end
    case Upper(_, _) => UpperEnd(raw, o, end, p);
    case LaterFragment(_, _, _, _, _, _) =>
      assert raw[o + 2] == b[2] && raw[o + 3] == b[3] && raw[o + 0] == b[0];
      FragmentEndStep(raw, o, end, p);
    case Cut(_, _) => CutEnd(raw, o, end, p);
    case Overrun(_, _, _, _) =>
      assert raw[o + 0] == b[0] && raw[o + 1] == b[1];
      OverrunEndStep(raw, o, end, p);
  }

  lemma FragmentBits(offset: nat, flags: u8)
    requires 0 < offset < 0x2000 && flags < 8
    ensures (256 * (offset / 32) + (offset % 32 * 8 + flags)) / 8 == offset
  {
    DivMod(256 * (offset / 32) + (offset % 32 * 8 + flags), 8, offset, flags);
  }

  /** Past the end of the buffer only two kinds of header are read without looking at them. */
  lemma OverrunWalk(raw: bytes, p: nat, o: nat)
    requires 40 <= o && o + 1 < |raw| && p < o
    requires HeaderStep(raw, raw[p], o).Advance? && o + HeaderStep(raw, raw[p], o).size > |raw|
    ensures Walk(raw, p, o) == Walk(raw, o, o + HeaderStep(raw, raw[p], o).size)
    ensures Walk(raw, p, o)
            == if raw[o] == 50 || raw[o] == 59
               then Some(FiveTuple(V6(raw[8..24]), V6(raw[24..40]), ProtocolFrom(raw[o]), 0, 0, None, false)) else None
  {
  }

  lemma Head6Fields(h: Ip6)
    requires Valid6(h)
    ensures var head, raw := Head6(h), Wire6(h);
            && |head| == 40 && raw[..40] == head && raw[0] / 16 == 6 && raw[6] == FirstNumber(h.exts, EndNumber(h.end))
            && raw[8..24] == h.src && raw[24..40] == h.dst
  {
    var head, raw := Head6(h), Wire6(h);
    assert head[0] == 0x60 + h.version && head[6] == FirstNumber(h.exts, EndNumber(h.end));
    assert head[8..24] == h.src && head[24..40] == h.dst;
    hide Head6, Chain, EndBytes;
    assert raw[..40] == head;
    assert raw[8..24] == raw[..40][8..24] && raw[24..40] == raw[..40][24..40];
  }

  /** Every IPv6 header with any chain of whole extension headers and any of these ends. */
  lemma ReadAny6(h: Ip6)
    requires Valid6(h)
    ensures Reads6(ReadTuple(Wire6(h)), V6(h.src), V6(h.dst), h.end)
  {
    hide Walk, ReadTuple, Reads6, HeaderStep, EndBytes, ExtBytes, Head6, Chain, FirstNumber, EndNumber;
    var raw, b := Wire6(h), EndBytes(h.end);
    Head6Fields(h);
    ChainEndsWith(h.exts, EndNumber(h.end), b);
    HeaderThenChain(Head6(h), Chain(h.exts, EndNumber(h.end), b), b);
    IsIpv6(raw);
    var p := WalkChain(raw, Head6(h), h.exts, EndNumber(h.end), b, 6);
    EndStep(raw, |raw| - |b|, h.end, p);
  }

  lemma FragmentEnd(s: bytes) returns (end: End)
    requires |s| >= 8 && Two(s, 2) >= 8
    ensures end.LaterFragment? && ValidEnd(end) && EndBytes(end) == s
  {
    var b2: int, b3: int := s[2], s[3];
    end := LaterFragment(s[0], s[1], b2 * 32 + b3 / 8, b3 % 8, s[4..8], s[8..]);
    DivMod(b2 * 32 + b3 / 8, 32, b2, b3 / 8);
    var head := [s[0], s[1], s[2], s[3]];
    assert s[..4] == head;
    assert s == s[..4] + s[4..8] + s[8..];
  }

  lemma OverrunEnd(number: u8, s: bytes)
    requires |s| >= 2
    ensures var end := Overrun(number, s[0], s[1], s[2..]); ValidEnd(end) ==> EndBytes(end) == s
  {
    assert s == [s[0], s[1]] + s[2..];
  }

  /** How long a header of this number says it is. */
  function HeaderSize(number: u8, len: u8): nat {
    if number == 44 then 8 else if number == 51 then (len + 2) * 4 else (len + 1) * 8
  }

  lemma ExtAtFront(number: u8, s: bytes) returns (e: Ext)
    requires |s| >= 2 && (Extension(number) || (number == 44 && |s| >= 8 && Two(s, 2) < 8))
    requires HeaderSize(number, s[1]) <= |s|
    ensures ValidExt(e) && Number(e) == number && ExtBytes(e, s[0]) == s[..HeaderSize(number, s[1])]
  {
    var size := HeaderSize(number, s[1]);
    if number == 44 {
      e := FirstFragment(s[1], s[3], s[4..8]);
      assert s[..8] == [s[0], s[1], s[2], s[3]] + s[4..8];
    } else {
      e := if number == 51 then Auth(s[1], s[2..size]) else Standard(number, s[1], s[2..size]);
      assert s[..size] == [s[0], s[1]] + s[2..size];
    }
  }

  lemma ChainPrepend(e: Ext, exts: seq<Ext>, upper: u8, payload: bytes)
    ensures Chain([e] + exts, upper, payload) == ExtBytes(e, FirstNumber(exts, upper)) + Chain(exts, upper, payload)
    ensures FirstNumber([e] + exts, upper) == Number(e)
  {
    hide ExtBytes;
    assert ([e] + exts)[1..] == exts;
  }

  /** The extension headers and the end that any bytes after an IPv6 header make up. */
  lemma {:induction false} SplitChain(number: u8, s: bytes) returns (exts: seq<Ext>, end: End)
    ensures forall e :: e in exts ==> ValidExt(e)
    ensures ValidEnd(end) && FirstNumber(exts, EndNumber(end)) == number
    ensures Chain(exts, EndNumber(end), EndBytes(end)) == s
    decreases |s|
  {
    exts := [];
    if number in {6, 17, 50, 58, 59} {
      end := Upper(number, s);
    } else if |s| < 2 || (number == 44 && |s| < 8) {
      end := Cut(number, s);
    } else if number == 44 && Two(s, 2) >= 8 {
      hide EndBytes;
      end := FragmentEnd(s);
    } else if |s| < HeaderSize(number, s[1]) {
      OverrunEnd(number, s);
      hide EndBytes;
      end := Overrun(number, s[0], s[1], s[2..]);
    } else {
      hide EndBytes, ExtBytes, ValidExt, ValidEnd, Chain, FirstNumber, Number;
      var size := HeaderSize(number, s[1]);
      var e := ExtAtFront(number, s);
      hide Two;
      var more: seq<Ext>;
      more, end := SplitChain(s[0], s[size..]);
      ChainPrepend(e, more, EndNumber(end), EndBytes(end));
      exts := [e] + more;
      assert s == s[..size] + s[size..];
    }
  }

  /** Any bytes of version 6 are such a packet, unless shorter than the header: then they are
      dropped. */
  lemma EveryIpv6(raw: bytes) returns (h: Ip6)
    requires raw != [] && raw[0] / 16 == 6
    ensures if |raw| < 40 then ReadTuple(raw) == None
            else Valid6(h) && raw == Wire6(h) && Reads6(ReadTuple(raw), V6(h.src), V6(h.dst), h.end)
  {
    var zeros: Octets16 := [0, 0, 0, 0, 0, 0, 0, 0, 0, 0, 0, 0, 0, 0, 0, 0];
    h := Ip6(zeros, zeros, 0, [], 0, [], Upper(59, []));
    if |raw| >= 40 {
      var exts, end := SplitChain(raw[6], raw[40..]);
      h := Ip6(raw[8..24], raw[24..40], raw[0] % 16, raw[1..6], raw[7], exts, end);
      hide ReadTuple, Reads6, Chain, EndBytes, FirstNumber;
      assert raw[..40] == [raw[0]] + raw[1..6] + [raw[6], raw[7]] + raw[8..24] + raw[24..40];
      assert raw == raw[..40] + raw[40..];
      ReadAny6(h);
    }
  }

  /** A later fragment of either version, for the firewall: its addresses by direction, its
      protocol, no ports, and the fragment mark. */
  lemma LaterFragmentKey(h4: Ip4, payload: bytes, h6: Ip6, incoming: bool)
    requires Valid4(h4) && h4.offset != 0 && Valid6(h6) && h6.end.LaterFragment?
    ensures IsFragment(ParseSpec(Head4(h4) + payload, incoming), V4(h4.src), V4(h4.dst), h4.protocol, incoming)
    ensures IsFragment(ParseSpec(Wire6(h6), incoming), V6(h6.src), V6(h6.dst), h6.end.next, incoming)
  {
    ReadAny4(h4, payload);
    ReadAny6(h6);
    hide Head4, Wire6, ReadTuple;
  }

  predicate IsFragment(p: Option<Packet>, src: IpAddr, dst: IpAddr, number: u8, incoming: bool) {
    p.Some? && p.value.fragment && p.value.localPort == 0 && p.value.remotePort == 0
    && p.value.localAddr == (if incoming then dst else src) && p.value.remoteAddr == (if incoming then src else dst)
    && Names(p.value.protocol, number)
  }
}
