/** The compiled rules: a nested index from direction, protocol and port to peers and networks. */
module RuleTree {
  import opened Optional
  import opened Bits
  import opened Net
  import opened FirewallPacket

  const PORT_ANY := 0
  const PORT_FRAGMENT := -1

  /** What a verified certificate says about a peer. */
  datatype PeerIdentity = PeerIdentity(
    name: string,
    groups: set<string>,
    caName: string,
    caSha: string,
    vpnNetworks: seq<IpNet>,
    unsafeNetworks: seq<IpNet>)

  predicate AnyContains(nets: seq<IpNet>, addr: IpAddr) {
    exists n :: n in nets && Contains(n, addr)
  }

  predicate Owns(peer: PeerIdentity, addr: IpAddr) {
    AnyContains(peer.vpnNetworks, addr) || AnyContains(peer.unsafeNetworks, addr)
  }

  datatype LocalCidr = LocalCidr(any: bool, nets: seq<IpNet>)

  datatype GroupEntry = GroupEntry(groups: seq<string>, local: LocalCidr)
  datatype CidrEntry = CidrEntry(net: IpNet, local: LocalCidr)

  datatype PeerRule = PeerRule(
    any: Option<LocalCidr>,
    hosts: map<string, LocalCidr>,
    groups: seq<GroupEntry>,
    cidrs: seq<CidrEntry>)

  datatype CaRule = CaRule(any: Option<PeerRule>, caNames: map<string, PeerRule>, caShas: map<string, PeerRule>)

  type PortTable = map<int, CaRule>

  datatype Direction = Direction(tcp: PortTable, udp: PortTable, icmp: PortTable, anyProto: PortTable)

  datatype RuleSet = RuleSet(inbound: Direction, outbound: Direction)

  const NO_LOCAL := LocalCidr(false, [])
  const NO_PEER := PeerRule(None, map[], [], [])
  const NO_CA := CaRule(None, map[], map[])
  const NO_DIRECTION := Direction(map[], map[], map[], map[])

  predicate LocalMatches(lc: LocalCidr, packet: Packet) {
    lc.any || AnyContains(lc.nets, packet.localAddr)
  }

  predicate HasAll(groups: seq<string>, remote: PeerIdentity) {
    forall g :: g in groups ==> g in remote.groups
  }

  predicate GroupsMatch(entries: seq<GroupEntry>, packet: Packet, remote: PeerIdentity) {
    entries != [] &&
    ((HasAll(entries[0].groups, remote) && LocalMatches(entries[0].local, packet))
     || GroupsMatch(entries[1..], packet, remote))
  }

  predicate CidrsMatch(entries: seq<CidrEntry>, packet: Packet) {
    entries != [] &&
    ((Contains(entries[0].net, packet.remoteAddr) && LocalMatches(entries[0].local, packet))
     || CidrsMatch(entries[1..], packet))
  }

  predicate PeerMatches(pr: PeerRule, packet: Packet, remote: PeerIdentity) {
    || (pr.any.Some? && LocalMatches(pr.any.value, packet))
    || GroupsMatch(pr.groups, packet, remote)
    || (remote.name in pr.hosts && LocalMatches(pr.hosts[remote.name], packet))
    || CidrsMatch(pr.cidrs, packet)
  }

  predicate CaMatches(ca: CaRule, packet: Packet, remote: PeerIdentity) {
    || (ca.any.Some? && PeerMatches(ca.any.value, packet, remote))
    || (remote.caSha in ca.caShas && PeerMatches(ca.caShas[remote.caSha], packet, remote))
    || (remote.caName in ca.caNames && PeerMatches(ca.caNames[remote.caName], packet, remote))
  }

  function PortKey(packet: Packet, incoming: bool): int {
    if packet.fragment then PORT_FRAGMENT else if incoming then packet.localPort else packet.remotePort
  }

  predicate EntryMatches(table: PortTable, port: int, packet: Packet, remote: PeerIdentity) {
    port in table && CaMatches(table[port], packet, remote)
  }

  predicate PortTableMatches(table: PortTable, packet: Packet, incoming: bool, remote: PeerIdentity) {
    || EntryMatches(table, PortKey(packet, incoming), packet, remote)
    || EntryMatches(table, PORT_ANY, packet, remote)
  }

  predicate DirectionMatches(dir: Direction, packet: Packet, incoming: bool, remote: PeerIdentity) {
    PortTableMatches(dir.anyProto, packet, incoming, remote) ||
    match packet.protocol
    case Tcp => PortTableMatches(dir.tcp, packet, incoming, remote)
    case Udp => PortTableMatches(dir.udp, packet, incoming, remote)
    case Icmp => PortTableMatches(dir.icmp, packet, incoming, remote)
    case IcmpV6 => PortTableMatches(dir.icmp, packet, incoming, remote)
    case Any => false
    case Other(_) => false
  }

  predicate Matches(rules: RuleSet, packet: Packet, incoming: bool, remote: PeerIdentity) {
    DirectionMatches(if incoming then rules.inbound else rules.outbound, packet, incoming, remote)
  }
}

/** Compiling rules into the index, one rule at a time. */
module RuleBuilder {
  import opened Optional
  import opened Bits
  import opened Net
  import opened FirewallPacket
  import opened RuleTree

  datatype PortSpec = AnyPort | Fragment | Single(port: u16) | Range(first: u16, last: u16)
  datatype LocalCidrSpec = Unset | AnyLocal | Net(net: IpNet)
  datatype LocalCidrDefault = DefaultAny | DefaultNets(nets: seq<IpNet>)

  datatype Rule = Rule(
    incoming: bool,
    proto: Protocol,
    port: PortSpec,
    groups: seq<string>,
    host: Option<string>,
    cidr: Option<IpNet>,
    localCidr: LocalCidrSpec,
    caName: Option<string>,
    caSha: Option<string>)

  datatype RuleError = UnknownProtocol(proto: Protocol) | InvalidPortRange(first: u16, last: u16)
  datatype AddResult = Added | Rejected(error: RuleError)

  datatype Bounds = Bounds(first: int, last: int) | BadBounds(error: RuleError)

  function PortBounds(port: PortSpec): Bounds {
    match port
    case AnyPort => Bounds(PORT_ANY, PORT_ANY)
    case Fragment => Bounds(PORT_FRAGMENT, PORT_FRAGMENT)
    case Single(p) => Bounds(p, p)
    case Range(first, last) => if first > last then BadBounds(InvalidPortRange(first, last)) else Bounds(first, last)
  }

  predicate IsAny(r: Rule) {
    || (r.groups == [] && r.host.None? && r.cidr.None?)
    || "any" in r.groups
    || r.host == Some("any")
  }

  function MergeLocalCidr(lc: LocalCidr, default: LocalCidrDefault, spec: LocalCidrSpec): LocalCidr {
    match spec
    case AnyLocal => lc.(any := true)
    case Net(n) => lc.(nets := lc.nets + [n])
    case Unset =>
      match default
      case DefaultAny => lc.(any := true)
      case DefaultNets(nets) => lc.(nets := lc.nets + nets)
  }

  /** Merges into the first entry for exactly this prefix, or adds one at the end. */
  function MergeCidr(entries: seq<CidrEntry>, net: IpNet, default: LocalCidrDefault, spec: LocalCidrSpec)
    : seq<CidrEntry>
  {
    if entries == [] then [CidrEntry(net, MergeLocalCidr(NO_LOCAL, default, spec))]
    else if entries[0].net == net then
      [entries[0].(local := MergeLocalCidr(entries[0].local, default, spec))] + entries[1..]
    else [entries[0]] + MergeCidr(entries[1..], net, default, spec)
  }

  function AddToPeerRule(pr: PeerRule, default: LocalCidrDefault, r: Rule): PeerRule {
    if IsAny(r) then
      pr.(any := Some(MergeLocalCidr(if pr.any.Some? then pr.any.value else NO_LOCAL, default, r.localCidr)))
    else
      PeerRule(
        pr.any,
        if r.host.None? then pr.hosts
        else
          var h := r.host.value;
          pr.hosts[h := MergeLocalCidr(if h in pr.hosts then pr.hosts[h] else NO_LOCAL, default, r.localCidr)],
        if r.groups == [] then pr.groups
        else pr.groups + [GroupEntry(r.groups, MergeLocalCidr(NO_LOCAL, default, r.localCidr))],
        if r.cidr.None? then pr.cidrs else MergeCidr(pr.cidrs, r.cidr.value, default, r.localCidr))
  }

  function AddToPeerMap(m: map<string, PeerRule>, key: string, default: LocalCidrDefault, r: Rule)
    : map<string, PeerRule>
  {
    m[key := AddToPeerRule(if key in m then m[key] else NO_PEER, default, r)]
  }

  function AddToCaRule(ca: CaRule, default: LocalCidrDefault, r: Rule): CaRule {
    if r.caSha.None? && r.caName.None? then
      ca.(any := Some(AddToPeerRule(if ca.any.Some? then ca.any.value else NO_PEER, default, r)))
    else
      CaRule(
        ca.any,
        if r.caName.Some? then AddToPeerMap(ca.caNames, r.caName.value, default, r) else ca.caNames,
        if r.caSha.Some? then AddToPeerMap(ca.caShas, r.caSha.value, default, r) else ca.caShas)
  }

  function AddAtPort(table: PortTable, port: int, default: LocalCidrDefault, r: Rule): PortTable {
    table[port := AddToCaRule(if port in table then table[port] else NO_CA, default, r)]
  }

  /** The table after adding the rule at `count` ports from `first` on. */
  function AddAtPorts(table: PortTable, first: int, count: nat, default: LocalCidrDefault, r: Rule): PortTable {
    if count == 0 then table
    else AddAtPort(AddAtPorts(table, first, count - 1, default, r), first + count - 1, default, r)
  }

  function TableFor(dir: Direction, proto: Protocol): PortTable
    requires !proto.Other?
  {
    match proto
    case Any => dir.anyProto
    case Tcp => dir.tcp
    case Udp => dir.udp
    case Icmp => dir.icmp
    case IcmpV6 => dir.icmp
  }

  function WithTable(dir: Direction, proto: Protocol, table: PortTable): Direction
    requires !proto.Other?
  {
    match proto
    case Any => dir.(anyProto := table)
    case Tcp => dir.(tcp := table)
    case Udp => dir.(udp := table)
    case Icmp => dir.(icmp := table)
    case IcmpV6 => dir.(icmp := table)
  }

  /** An inverted range is reported even on an ICMP rule; otherwise ICMP rules apply to any port. */
  function Verdict(r: Rule): AddResult {
    match PortBounds(r.port)
    case BadBounds(error) => Rejected(error)
    case Bounds(_, _) => if r.proto.Other? then Rejected(UnknownProtocol(r.proto)) else Added
  }

  predicate IsIcmp(p: Protocol) { p.Icmp? || p.IcmpV6? }

  function EffectiveBounds(r: Rule): (b: Bounds)
    requires Verdict(r).Added?
    ensures b.Bounds? && b.first <= b.last
  {
    if IsIcmp(r.proto) then Bounds(PORT_ANY, PORT_ANY) else PortBounds(r.port)
  }

  function AddToDirection(dir: Direction, default: LocalCidrDefault, r: Rule): Direction
    requires Verdict(r).Added?
  {
    var b := EffectiveBounds(r);
    WithTable(dir, r.proto, AddAtPorts(TableFor(dir, r.proto), b.first, b.last - b.first + 1, default, r))
  }

  /** A rejected rule leaves the rules as they were. */
  function AddRule(rules: RuleSet, default: LocalCidrDefault, r: Rule): RuleSet {
    if Verdict(r).Rejected? then rules
    else if r.incoming then rules.(inbound := AddToDirection(rules.inbound, default, r))
    else rules.(outbound := AddToDirection(rules.outbound, default, r))
  }

  /** What a rule without a local network allows: anything, unless this host has unsafe networks
      and the option to allow any is off. */
  function DefaultLocal(assignedNetworks: seq<IpNet>, hasUnsafeNetworks: bool, defaultLocalCidrAny: bool)
    : LocalCidrDefault
  {
    if !hasUnsafeNetworks || defaultLocalCidrAny then DefaultAny else DefaultNets(assignedNetworks)
  }

  class RuleSetBuilder {
    var inbound: Direction
    var outbound: Direction
    const default: LocalCidrDefault

    constructor (assignedNetworks: seq<IpNet>, hasUnsafeNetworks: bool, defaultLocalCidrAny: bool)
      ensures Rules() == RuleSet(NO_DIRECTION, NO_DIRECTION)
      ensures default == DefaultLocal(assignedNetworks, hasUnsafeNetworks, defaultLocalCidrAny)
    {
      inbound, outbound := NO_DIRECTION, NO_DIRECTION;
      default := if !hasUnsafeNetworks || defaultLocalCidrAny then DefaultAny else DefaultNets(assignedNetworks);
    }

    function Rules(): RuleSet
      reads this
    {
      RuleSet(inbound, outbound)
    }

    method Add(r: Rule) returns (result: AddResult)
      modifies this
      ensures result == Verdict(r)
      ensures Rules() == AddRule(old(Rules()), default, r)
    {
      var bounds := PortBounds(r.port);
      if bounds.BadBounds? { return Rejected(bounds.error); }
      if r.proto.Other? { return Rejected(UnknownProtocol(r.proto)); }
      var first, last := bounds.first, bounds.last;
      if IsIcmp(r.proto) && r.port != AnyPort {
        first, last := PORT_ANY, PORT_ANY;
      }
      var dir := if r.incoming then inbound else outbound;
      var table := AddToTable(TableFor(dir, r.proto), first, last, r);
      hide AddAtPorts;
      if r.incoming {
        inbound := WithTable(inbound, r.proto, table);
      } else {
        outbound := WithTable(outbound, r.proto, table);
      }
      result := Added;
    }

    /** The loop over the rule's ports. */
    method AddToTable(initial: PortTable, first: int, last: int, r: Rule) returns (table: PortTable)
      requires first <= last
      ensures table == AddAtPorts(initial, first, last - first + 1, default, r)
    {
      hide AddToCaRule;
      table := initial;
      for p := first to last + 1
        invariant table == AddAtPorts(initial, first, p - first, default, r)
      {
        var ca := if p in table then table[p] else NO_CA;
        table := table[p := AddToCaRule(ca, default, r)];
      }
    }
  }
}

/** The flat meaning of one rule, and the proof that the index agrees with a list of rules. */
module RuleMeaning {
  import opened Optional
  import opened Bits
  import opened Net
  import opened FirewallPacket
  import opened RuleTree
  import opened RuleBuilder

  // The flat meaning of a rule names no function that builds or searches the index; only what
  // it means for a prefix to contain an address, `Net.ContainsIsPrefixMatch`, is shared.

  predicate ProtocolSelected(r: Rule, packet: Packet) {
    match r.proto
    case Any => true
    case Tcp => packet.protocol == Tcp
    case Udp => packet.protocol == Udp
    case Icmp => packet.protocol == Icmp || packet.protocol == IcmpV6
    case IcmpV6 => packet.protocol == Icmp || packet.protocol == IcmpV6
    case Other(_) => false
  }

  /** Port 0 is the any-port key, so a rule whose ports include 0 selects every packet,
      fragments too; an ICMP rule's port is ignored. */
  predicate PortSelected(r: Rule, packet: Packet, incoming: bool) {
    var port := if incoming then packet.localPort else packet.remotePort;
    r.proto == Icmp || r.proto == IcmpV6 ||
    match r.port
    case AnyPort => true
    case Fragment => packet.fragment
    case Single(p) => p == 0 || (!packet.fragment && port == p)
    case Range(first, last) => first == 0 || (!packet.fragment && first <= port <= last)
  }

  predicate CaSelected(r: Rule, remote: PeerIdentity) {
    || (r.caName.None? && r.caSha.None?)
    || r.caName == Some(remote.caName)
    || r.caSha == Some(remote.caSha)
  }

  /** Any peer: if the rule names no group, host or prefix at all, or the group or host "any".
      Otherwise a peer in every one of the groups named, or with the host name, or with its
      address in the prefix. */
  predicate PeerSelected(r: Rule, packet: Packet, remote: PeerIdentity) {
    || (r.groups == [] && r.host.None? && r.cidr.None?)
    || "any" in r.groups
    || r.host == Some("any")
    || (r.groups != [] && forall g :: g in r.groups ==> g in remote.groups)
    || r.host == Some(remote.name)
    || (r.cidr.Some? && Contains(r.cidr.value, packet.remoteAddr))
  }

  predicate LocalSelected(default: LocalCidrDefault, spec: LocalCidrSpec, packet: Packet) {
    match spec
    case AnyLocal => true
    case Net(n) => Contains(n, packet.localAddr)
    case Unset => default.DefaultAny? || exists n :: n in default.nets && Contains(n, packet.localAddr)
  }

  /** A rule is accepted unless its port range is inverted or its protocol unknown. */
  predicate Accepted(r: Rule) {
    !(r.port.Range? && r.port.first > r.port.last) && !r.proto.Other?
  }

  /** An inverted range is reported first, then an unknown protocol, each as it is. */
  lemma VerdictMeaning(r: Rule)
    ensures Verdict(r) == Added <==> Accepted(r)
    ensures forall first, last ::
              Verdict(r) == Rejected(InvalidPortRange(first, last)) <==> r.port == Range(first, last) && first > last
    ensures forall p ::
              Verdict(r) == Rejected(UnknownProtocol(p)) <==>
                r.proto == p && p.Other? && !(r.port.Range? && r.port.first > r.port.last)
  {
  }

  /** What the rule says about peers, whatever the port table it sits in. */
  predicate BodySelected(default: LocalCidrDefault, r: Rule, packet: Packet, remote: PeerIdentity) {
    PeerSelected(r, packet, remote) && LocalSelected(default, r.localCidr, packet)
  }

  /** The meaning of one rule on its own. */
  predicate Selects(default: LocalCidrDefault, r: Rule, packet: Packet, incoming: bool, remote: PeerIdentity) {
    && r.incoming == incoming
    && ProtocolSelected(r, packet)
    && PortSelected(r, packet, incoming)
    && CaSelected(r, remote)
    && BodySelected(default, r, packet, remote)
  }

  // ---- One rule, layer by layer ----

  lemma MergeLocalMeaning(lc: LocalCidr, default: LocalCidrDefault, spec: LocalCidrSpec, packet: Packet)
    ensures LocalMatches(MergeLocalCidr(lc, default, spec), packet)
            <==> LocalMatches(lc, packet) || LocalSelected(default, spec, packet)
  {
    match spec
    case AnyLocal =>
    case Net(n) => AnyContainsAppend(lc.nets, [n], packet.localAddr); assert n in [n];
    case Unset => if default.DefaultNets? { AnyContainsAppend(lc.nets, default.nets, packet.localAddr); }
  }

  lemma AnyContainsAppend(a: seq<IpNet>, b: seq<IpNet>, addr: IpAddr)
    ensures AnyContains(a + b, addr) <==> AnyContains(a, addr) || AnyContains(b, addr)
  {
    assert forall n :: n in a || n in b <==> n in a + b;
  }

  lemma {:induction false} GroupsAppend(entries: seq<GroupEntry>, e: GroupEntry, packet: Packet, remote: PeerIdentity)
    ensures GroupsMatch(entries + [e], packet, remote)
            <==> GroupsMatch(entries, packet, remote) || (HasAll(e.groups, remote) && LocalMatches(e.local, packet))
  {
    if entries == [] {
      assert ([] + [e])[1..] == [];
    } else {
      assert (entries + [e])[1..] == entries[1..] + [e];
      GroupsAppend(entries[1..], e, packet, remote);
    }
  }

  lemma {:induction false} MergeCidrMeaning(
      entries: seq<CidrEntry>, net: IpNet, default: LocalCidrDefault, spec: LocalCidrSpec, packet: Packet)
    ensures CidrsMatch(MergeCidr(entries, net, default, spec), packet)
            <==> || CidrsMatch(entries, packet)
                 || (Contains(net, packet.remoteAddr) && LocalSelected(default, spec, packet))
  {
    if entries == [] {
      MergeLocalMeaning(NO_LOCAL, default, spec, packet);
      assert MergeCidr(entries, net, default, spec)[1..] == [];
    } else if entries[0].net == net {
      MergeLocalMeaning(entries[0].local, default, spec, packet);
      assert MergeCidr(entries, net, default, spec)[1..] == entries[1..];
    } else {
      MergeCidrMeaning(entries[1..], net, default, spec, packet);
      assert MergeCidr(entries, net, default, spec)[1..] == MergeCidr(entries[1..], net, default, spec);
    }
  }

  lemma PeerRuleMeaning(pr: PeerRule, default: LocalCidrDefault, r: Rule, packet: Packet, remote: PeerIdentity)
    ensures PeerMatches(AddToPeerRule(pr, default, r), packet, remote)
            <==> PeerMatches(pr, packet, remote) || BodySelected(default, r, packet, remote)
  {
    MergeLocalMeaning(NO_LOCAL, default, r.localCidr, packet);
    if IsAny(r) {
      if pr.any.Some? { MergeLocalMeaning(pr.any.value, default, r.localCidr, packet); }
    } else {
      if r.groups != [] {
        GroupsAppend(pr.groups, GroupEntry(r.groups, MergeLocalCidr(NO_LOCAL, default, r.localCidr)), packet, remote);
      }
      if r.host.Some? && r.host.value in pr.hosts {
        MergeLocalMeaning(pr.hosts[r.host.value], default, r.localCidr, packet);
      }
      if r.cidr.Some? {
        MergeCidrMeaning(pr.cidrs, r.cidr.value, default, r.localCidr, packet);
      }
      hide LocalMatches, LocalSelected, HasAll, Contains, MergeCidr, GroupsMatch, CidrsMatch, MergeLocalCidr;
    }
  }

  lemma EmptyMatchesNothing(packet: Packet, remote: PeerIdentity)
    ensures !PeerMatches(NO_PEER, packet, remote) && !CaMatches(NO_CA, packet, remote)
  {
  }

  lemma CaRuleMeaning(ca: CaRule, default: LocalCidrDefault, r: Rule, packet: Packet, remote: PeerIdentity)
    ensures CaMatches(AddToCaRule(ca, default, r), packet, remote)
            <==> CaMatches(ca, packet, remote) || (CaSelected(r, remote) && BodySelected(default, r, packet, remote))
  {
    EmptyMatchesNothing(packet, remote);
    hide AddToPeerRule, BodySelected, PeerMatches;
    PeerRuleMeaning(NO_PEER, default, r, packet, remote);
    if ca.any.Some? { PeerRuleMeaning(ca.any.value, default, r, packet, remote); }
    if remote.caSha in ca.caShas { PeerRuleMeaning(ca.caShas[remote.caSha], default, r, packet, remote); }
    if remote.caName in ca.caNames { PeerRuleMeaning(ca.caNames[remote.caName], default, r, packet, remote); }
  }

  lemma {:induction false} PortsMeaning(
      table: PortTable, first: int, count: nat, default: LocalCidrDefault, r: Rule,
      port: int, packet: Packet, remote: PeerIdentity)
    ensures EntryMatches(AddAtPorts(table, first, count, default, r), port, packet, remote)
            <==> || EntryMatches(table, port, packet, remote)
                 || (first <= port < first + count && CaSelected(r, remote) && BodySelected(default, r, packet, remote))
  {
    if count > 0 {
      PortsMeaning(table, first, count - 1, default, r, port, packet, remote);
      var before := AddAtPorts(table, first, count - 1, default, r);
      if port == first + count - 1 {
        CaRuleMeaning(if port in before then before[port] else NO_CA, default, r, packet, remote);
        EmptyMatchesNothing(packet, remote);
      }
      hide CaMatches, AddToCaRule, BodySelected, CaSelected;
    }
  }

  lemma PortInBounds(r: Rule, packet: Packet, incoming: bool)
    requires Verdict(r).Added?
    ensures var b := EffectiveBounds(r);
            PortSelected(r, packet, incoming)
            <==> b.first <= PortKey(packet, incoming) <= b.last || b.first <= PORT_ANY <= b.last
  {
  }

  lemma TableMeaning(
      table: PortTable, default: LocalCidrDefault, r: Rule, packet: Packet, incoming: bool, remote: PeerIdentity)
    requires Verdict(r).Added?
    ensures var b := EffectiveBounds(r);
            PortTableMatches(AddAtPorts(table, b.first, b.last - b.first + 1, default, r), packet, incoming, remote)
            <==> || PortTableMatches(table, packet, incoming, remote)
                 || (PortSelected(r, packet, incoming) && CaSelected(r, remote)
                     && BodySelected(default, r, packet, remote))
  {
    hide EntryMatches, AddAtPorts, CaSelected, BodySelected;
    var b := EffectiveBounds(r);
    PortInBounds(r, packet, incoming);
    PortsMeaning(table, b.first, b.last - b.first + 1, default, r, PortKey(packet, incoming), packet, remote);
    PortsMeaning(table, b.first, b.last - b.first + 1, default, r, PORT_ANY, packet, remote);
    hide PortSelected, PortKey;
  }

  lemma ReplacedTable(
      dir: Direction, r: Rule, table: PortTable, selected: bool, packet: Packet, incoming: bool, remote: PeerIdentity)
    requires !r.proto.Other?
    requires PortTableMatches(table, packet, incoming, remote)
             <==> PortTableMatches(TableFor(dir, r.proto), packet, incoming, remote) || selected
    ensures DirectionMatches(WithTable(dir, r.proto, table), packet, incoming, remote)
            <==> DirectionMatches(dir, packet, incoming, remote) || (ProtocolSelected(r, packet) && selected)
  {
    hide PortTableMatches;
    match r.proto
    case Any =>
    case Tcp =>
    case Udp =>
    case _ =>
  }

  lemma DirectionMeaning(
      dir: Direction, default: LocalCidrDefault, r: Rule, packet: Packet, incoming: bool, remote: PeerIdentity)
    requires Verdict(r).Added?
    ensures DirectionMatches(AddToDirection(dir, default, r), packet, incoming, remote)
            <==> || DirectionMatches(dir, packet, incoming, remote)
                 || (ProtocolSelected(r, packet) && PortSelected(r, packet, incoming) && CaSelected(r, remote)
                     && BodySelected(default, r, packet, remote))
  {
    assert !r.proto.Other?;
    hide PortTableMatches, DirectionMatches, ProtocolSelected, WithTable, TableFor, AddAtPorts, Verdict, PortBounds;
    hide CaSelected, BodySelected, PortSelected, EffectiveBounds;
    TableMeaning(TableFor(dir, r.proto), default, r, packet, incoming, remote);
    var b := EffectiveBounds(r);
    var table := AddAtPorts(TableFor(dir, r.proto), b.first, b.last - b.first + 1, default, r);
    var selected :=
      PortSelected(r, packet, incoming) && CaSelected(r, remote) && BodySelected(default, r, packet, remote);
    ReplacedTable(dir, r, table, selected, packet, incoming, remote);
  }

  /** Adding a rule makes exactly the packets that rule selects match in addition; a rejected
      rule changes no answer. */
  lemma AddRuleMeaning(
      rules: RuleSet, default: LocalCidrDefault, r: Rule, packet: Packet, incoming: bool, remote: PeerIdentity)
    ensures Matches(AddRule(rules, default, r), packet, incoming, remote)
            <==> || Matches(rules, packet, incoming, remote)
                 || (Accepted(r) && Selects(default, r, packet, incoming, remote))
  {
    VerdictMeaning(r);
    hide DirectionMatches, AddToDirection, ProtocolSelected, PortSelected, CaSelected, BodySelected, Verdict, Accepted;
    if Verdict(r).Added? && r.incoming == incoming {
      DirectionMeaning(if incoming then rules.inbound else rules.outbound, default, r, packet, incoming, remote);
    }
  }

  // ---- Lists of rules ----

  /** The rules compiled from a list of calls, failed ones included. */
  function Compile(default: LocalCidrDefault, rules: seq<Rule>): RuleSet {
    if rules == [] then RuleSet(NO_DIRECTION, NO_DIRECTION)
    else AddRule(Compile(default, rules[..|rules| - 1]), default, rules[|rules| - 1])
  }

  predicate SomeRuleSelects(
    default: LocalCidrDefault, rules: seq<Rule>, packet: Packet, incoming: bool, remote: PeerIdentity)
  {
    exists r :: r in rules && Accepted(r) && Selects(default, r, packet, incoming, remote)
  }

  /** For every list of calls and every packet, direction and peer, the index answers yes
      exactly when some accepted rule selects the packet on its own. */
  lemma {:induction false} CompiledRulesMeanTheList(
      default: LocalCidrDefault, rules: seq<Rule>, packet: Packet, incoming: bool, remote: PeerIdentity)
    ensures Matches(Compile(default, rules), packet, incoming, remote)
            <==> SomeRuleSelects(default, rules, packet, incoming, remote)
  {
    if rules == [] {
    } else {
      hide Matches, Selects, AddRule, Accepted;
      var front, last := rules[..|rules| - 1], rules[|rules| - 1];
      CompiledRulesMeanTheList(default, front, packet, incoming, remote);
      AddRuleMeaning(Compile(default, front), default, last, packet, incoming, remote);
      assert rules == front + [last];
      assert forall r :: r in rules <==> r in front || r == last;
    }
  }

  /** Order and repetition of the calls do not matter, and more rules never match less. */
  lemma OnlyTheSetOfRulesMatters(
      default: LocalCidrDefault, rules: seq<Rule>, more: seq<Rule>,
      packet: Packet, incoming: bool, remote: PeerIdentity)
    requires forall r :: r in rules && Accepted(r) ==> r in more
    ensures Matches(Compile(default, rules), packet, incoming, remote)
            ==> Matches(Compile(default, more), packet, incoming, remote)
    ensures (forall r :: r in more && Accepted(r) ==> r in rules)
            ==> (Matches(Compile(default, rules), packet, incoming, remote)
                 <==> Matches(Compile(default, more), packet, incoming, remote))
  {
    hide Matches, Selects, Compile, Accepted;
    CompiledRulesMeanTheList(default, rules, packet, incoming, remote);
    CompiledRulesMeanTheList(default, more, packet, incoming, remote);
  }

  /** What a builder's three arguments mean for rules that name no local network: they match what
      they would match anyway, restricted to local addresses inside an assigned prefix if the host
      has unsafe networks and the option to allow any is off. */
  lemma DefaultRestrictsToAssigned(
      assignedNetworks: seq<IpNet>, hasUnsafeNetworks: bool, defaultLocalCidrAny: bool,
      rules: seq<Rule>, packet: Packet, incoming: bool, remote: PeerIdentity)
    requires forall r :: r in rules ==> r.localCidr.Unset?
    ensures var default := DefaultLocal(assignedNetworks, hasUnsafeNetworks, defaultLocalCidrAny);
            Matches(Compile(default, rules), packet, incoming, remote)
            <==> && Matches(Compile(DefaultAny, rules), packet, incoming, remote)
                 && (hasUnsafeNetworks && !defaultLocalCidrAny ==>
                       exists n :: n in assignedNetworks && Contains(n, packet.localAddr))
  {
    var default := DefaultLocal(assignedNetworks, hasUnsafeNetworks, defaultLocalCidrAny);
    CompiledRulesMeanTheList(default, rules, packet, incoming, remote);
    CompiledRulesMeanTheList(DefaultAny, rules, packet, incoming, remote);
    hide Matches, Compile, Accepted, PeerSelected, Contains, CaSelected, PortSelected, ProtocolSelected;
    forall r | r in rules
      ensures Selects(default, r, packet, incoming, remote)
              <==> && Selects(DefaultAny, r, packet, incoming, remote)
                   && (default.DefaultAny? || exists n :: n in assignedNetworks && Contains(n, packet.localAddr))
    {
      assert r.localCidr.Unset?;
    }
    hide Selects;
  }

  /** A later fragment has no ports: it is matched exactly by rules on fragments, on any port (which
      any range or port including 0 is), and on ICMP. */
  lemma FragmentRules(
      default: LocalCidrDefault, rules: seq<Rule>, packet: Packet, incoming: bool, remote: PeerIdentity)
    requires packet.fragment
    ensures Matches(Compile(default, rules), packet, incoming, remote)
            <==> exists r :: r in rules && Accepted(r) && r.incoming == incoming && ProtocolSelected(r, packet)
                             && CaSelected(r, remote) && BodySelected(default, r, packet, remote)
                             && (r.port in {AnyPort, Fragment, Single(0)} || (r.port.Range? && r.port.first == 0)
                                 || r.proto == Icmp || r.proto == IcmpV6)
  {
    CompiledRulesMeanTheList(default, rules, packet, incoming, remote);
    hide Matches, Compile, Accepted, ProtocolSelected, CaSelected, BodySelected;
    forall r
      ensures PortSelected(r, packet, incoming) <==>
                || r.port in {AnyPort, Fragment, Single(0)} || (r.port.Range? && r.port.first == 0)
                || r.proto == Icmp || r.proto == IcmpV6
    {
    }
    hide PortSelected;
  }
}
