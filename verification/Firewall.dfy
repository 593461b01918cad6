/** The stateful firewall: rules with a version, a connection table, and the decision on a packet. */
module Firewall {
  import opened Optional
  import opened Bits
  import opened Net
  import opened FirewallPacket
  import opened RuleTree
  import opened Conntrack

  datatype Options = Options(tcpTimeout: nat, udpTimeout: nat, defaultTimeout: nat)

  datatype DropReason = InvalidLocalIp | InvalidRemoteIp | NoMatchingRule
  datatype Verdict = Accept | Drop(reason: DropReason)

  datatype Config = Config(options: Options, routable: seq<IpNet>)

  function TimeoutFor(options: Options, protocol: Protocol): nat {
    match protocol
    case Tcp => options.tcpTimeout
    case Udp => options.udpTimeout
    case _ => options.defaultTimeout
  }

  /** Assigned networks count as host routes, unsafe networks with their whole prefix. */
  function RoutableNetworks(assignedNetworks: seq<IpNet>, unsafeNetworks: seq<IpNet>): seq<IpNet> {
    HostRoutes(assignedNetworks) + unsafeNetworks
  }

  function HostRoutes(nets: seq<IpNet>): seq<IpNet> {
    if nets == [] then [] else [IpNet(nets[0].addr, MaxPrefixLen(nets[0].addr))] + HostRoutes(nets[1..])
  }

  /** An assigned prefix makes its own address routable and nothing else in it. */
  lemma {:induction false} RoutableExactly(assignedNetworks: seq<IpNet>, unsafeNetworks: seq<IpNet>, a: IpAddr)
    ensures AnyContains(RoutableNetworks(assignedNetworks, unsafeNetworks), a)
            <==> || (exists n :: n in assignedNetworks && n.addr == a)
                 || (exists n :: n in unsafeNetworks && Contains(n, a))
  {
    var all := RoutableNetworks(assignedNetworks, unsafeNetworks);
    if assignedNetworks == [] {
      assert all == unsafeNetworks;
    } else {
      hide Contains;
      var own := IpNet(assignedNetworks[0].addr, MaxPrefixLen(assignedNetworks[0].addr));
      var rest := RoutableNetworks(assignedNetworks[1..], unsafeNetworks);
      RoutableExactly(assignedNetworks[1..], unsafeNetworks, a);
      HostRouteIsExact(assignedNetworks[0].addr, a);
      assert all == [own] + rest;
      assert forall n :: n in all <==> n == own || n in rest;
      assert forall n :: n in assignedNetworks <==> n == assignedNetworks[0] || n in assignedNetworks[1..];
    }
  }

  function NextVersion(v: u16): u16 {
    if v == 0xFFFF then 0 else v + 1
  }

  // ---- The parts of a decision ----

  /** The first locked section: an entry of the snapshot's version passes unseen, one of another
      version passes if the snapshot's rules match in its direction, else it is dropped. */
  function FirstSection(
    t: Table, options: Options, packet: Packet, version: u16, rules: RuleSet, remote: PeerIdentity, now: int)
    : (Table, bool)
  {
    var t1 := Purged(t, now);
    if packet !in t1.conns then (t1, false)
    else
      var e := t1.conns[packet];
      if e.rulesVersion == version || Matches(rules, packet, e.incoming, remote) then
        (Recorded(t1, packet, e.incoming, version, now, TimeoutFor(options, packet.protocol)), true)
      else (Removed(t1, packet), false)
  }

  /** The checks made without the lock, in their order. */
  function Checks(config: Config, rules: RuleSet, packet: Packet, incoming: bool, remote: PeerIdentity): Verdict {
    if !Owns(remote, packet.remoteAddr) then Drop(InvalidRemoteIp)
    else if !AnyContains(config.routable, packet.localAddr) then Drop(InvalidLocalIp)
    else if !Matches(rules, packet, incoming, remote) then Drop(NoMatchingRule)
    else Accept
  }

  datatype State = State(version: u16, rules: RuleSet, table: Table)

  /** The verdict on a packet of a flow not tracked, in the order of the checks: whose address it
      is, whether ours is routable, and the rules. */
  ghost predicate JudgedAsNew(
    verdict: Verdict, config: Config, rules: RuleSet, packet: Packet, incoming: bool, remote: PeerIdentity)
  {
    var owned := exists n :: (n in remote.vpnNetworks || n in remote.unsafeNetworks) && Contains(n, packet.remoteAddr);
    var routable := exists n :: n in config.routable && Contains(n, packet.localAddr);
    && (verdict == Drop(InvalidRemoteIp) <==> !owned)
    && (verdict == Drop(InvalidLocalIp) <==> owned && !routable)
    && (verdict == Drop(NoMatchingRule) <==> owned && routable && !Matches(rules, packet, incoming, remote))
    && (verdict == Accept <==> owned && routable && Matches(rules, packet, incoming, remote))
  }

  lemma ChecksJudge(config: Config, rules: RuleSet, packet: Packet, incoming: bool, remote: PeerIdentity)
    ensures JudgedAsNew(Checks(config, rules, packet, incoming, remote), config, rules, packet, incoming, remote)
  {
    hide Matches, Contains;
  }

  /** A packet whose flow the table does not know once expired flows are gone is judged as new. */
  lemma NewFlowVerdict(
      s: State, config: Config, packet: Packet, incoming: bool, remote: PeerIdentity, now: int)
    requires packet !in Purged(s.table, now).conns
    ensures var verdict := Evaluated(s, config, packet, incoming, remote, now).1;
            JudgedAsNew(verdict, config, s.rules, packet, incoming, remote)
  {
    ChecksJudge(config, s.rules, packet, incoming, remote);
    hide Purged, Checks, JudgedAsNew;
  }


  /** A whole decision with nothing in between. */
  function Evaluated(s: State, config: Config, packet: Packet, incoming: bool, remote: PeerIdentity, now: int)
    : (State, Verdict)
  {
    var (t1, passed) := FirstSection(s.table, config.options, packet, s.version, s.rules, remote, now);
    if passed then (s.(table := t1), Accept)
    else
      var verdict := Checks(config, s.rules, packet, incoming, remote);
      if verdict.Drop? then (s.(table := t1), verdict)
      else
        var timeout := TimeoutFor(config.options, packet.protocol);
        (s.(table := Recorded(t1, packet, incoming, s.version, now, timeout)), Accept)
  }

  function Reloaded(s: State, rules: RuleSet): State {
    State(NextVersion(s.version), rules, s.table)
  }

  class Firewall {
    var version: u16
    var rules: RuleSet
    const conntrack: Conntrack
    const options: Options
    const routable: seq<IpNet>

    ghost function Contents(): State
      reads this, conntrack
    {
      State(version, rules, conntrack.Contents())
    }

    function Settings(): Config {
      Config(options, routable)
    }

    constructor (rules: RuleSet, options: Options, assignedNetworks: seq<IpNet>, unsafeNetworks: seq<IpNet>)
      ensures fresh(conntrack)
      ensures Contents() == State(0, rules, EMPTY)
      ensures Settings() == Config(options, RoutableNetworks(assignedNetworks, unsafeNetworks))
    {
      version, this.rules, this.options := 0, rules, options;
      conntrack := new Conntrack();
      routable := RoutableNetworks(assignedNetworks, unsafeNetworks);
    }

    /** Tracked flows are left alone; they are checked again when their next packet comes. */
    method Reload(rules: RuleSet)
      modifies this
      ensures Contents() == Reloaded(old(Contents()), rules)
    {
      version := NextVersion(version);
      this.rules := rules;
    }

    method Evaluate(packet: Packet, incoming: bool, remote: PeerIdentity, now: int) returns (verdict: Verdict)
      modifies conntrack
      ensures (Contents(), verdict) == Evaluated(old(Contents()), Settings(), packet, incoming, remote, now)
      ensures packet !in Purged(old(Contents().table), now).conns ==>
                JudgedAsNew(verdict, Settings(), rules, packet, incoming, remote)
    {
      hide Purged, Matches, JudgedAsNew;
      ChecksJudge(Settings(), rules, packet, incoming, remote);
      var timeout := TimeoutFor(options, packet.protocol);
      var known := conntrack.Get(packet, now);
      if known.Some? {
        var (connIncoming, connVersion) := known.value;
        if connVersion == version {
          conntrack.Record(packet, connIncoming, version, now, timeout);
          return Accept;
        }
        if Matches(rules, packet, connIncoming, remote) {
          conntrack.Record(packet, connIncoming, version, now, timeout);
          return Accept;
        }
        conntrack.Remove(packet);
      }
      if !Owns(remote, packet.remoteAddr) { return Drop(InvalidRemoteIp); }
      if !AnyContains(routable, packet.localAddr) { return Drop(InvalidLocalIp); }
      if !Matches(rules, packet, incoming, remote) { return Drop(NoMatchingRule); }
      conntrack.Record(packet, incoming, version, now, timeout);
      verdict := Accept;
    }
  }
}
