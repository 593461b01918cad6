/** Evaluations one after another: how long a flow stays open, and what reloads do to it. */
module FirewallFlows {
  import opened Optional
  import opened Bits
  import opened Net
  import opened FirewallPacket
  import opened RuleTree
  import opened Conntrack
  import opened ConntrackRuns
  import opened Firewall
  import opened FirewallTimes
  import FirewallRuns
  import IpPacket
  import IpFlows

  /** One packet given to the firewall. */
  datatype Arrival = Arrival(packet: Packet, incoming: bool, remote: PeerIdentity, now: int)

  function Decide(s: State, config: Config, a: Arrival): (State, Verdict) {
    Evaluated(s, config, a.packet, a.incoming, a.remote, a.now)
  }

  function After(s: State, config: Config, arrivals: seq<Arrival>): State {
    if arrivals == [] then s
    else Decide(After(s, config, arrivals[..|arrivals| - 1]), config, arrivals[|arrivals| - 1]).0
  }

  // ---- An accepted flow stays open ----

  /** The flow is tracked under the current version, at least until `until`. */
  predicate OpenUntil(s: State, p: Packet, until: int) {
    && p in s.table.conns
    && s.table.conns[p].rulesVersion == s.version
    && s.table.conns[p].expires >= until
  }

  lemma {:induction false} PurgeKeepsLive(t: Table, p: Packet, now: int)
    requires p in t.conns && t.conns[p].expires > now
    ensures p in Purged(t, now).conns && Purged(t, now).conns[p] == t.conns[p]
    decreases DueCount(t.heap, now)
  {
    if t.heap != [] && t.heap[0].at <= now {
      PopDrains(t, now);
      PurgeKeepsLive(Pop(t, now), p, now);
    }
  }

  lemma DecisionKeepsOpen(s: State, config: Config, a: Arrival, p: Packet, until: int)
    requires OpenUntil(s, p, until) && a.now < until
    requires a.packet == p ==> until <= a.now + TimeoutFor(config.options, p.protocol)
    ensures OpenUntil(Decide(s, config, a).0, p, until)
    ensures a.packet == p ==> Decide(s, config, a).1 == Accept
  {
    PurgeKeepsLive(s.table, p, a.now);
    hide Purged, Matches, Checks;
  }

  lemma AcceptOpens(s: State, config: Config, a: Arrival)
    requires Decide(s, config, a).1 == Accept
    ensures OpenUntil(Decide(s, config, a).0, a.packet, a.now + TimeoutFor(config.options, a.packet.protocol))
  {
    hide Purged, Matches, Checks;
  }

  lemma {:induction false} RunKeepsOpen(
      s: State, config: Config, arrivals: seq<Arrival>, p: Packet, start: int, until: int)
    requires OpenUntil(s, p, until) && until <= start + TimeoutFor(config.options, p.protocol)
    requires forall a :: a in arrivals ==> start <= a.now < until
    ensures OpenUntil(After(s, config, arrivals), p, until)
  {
    if arrivals != [] {
      var front, last := arrivals[..|arrivals| - 1], arrivals[|arrivals| - 1];
      assert last in arrivals && forall a :: a in front ==> a in arrivals;
      RunKeepsOpen(s, config, front, p, start, until);
      DecisionKeepsOpen(After(s, config, front), config, last, p, until);
    }
  }

  /** How long a flow of this protocol stays open. */
  predicate IsTimeout(options: Options, protocol: Protocol, timeout: int) {
    && (protocol == Tcp ==> timeout == options.tcpTimeout)
    && (protocol == Udp ==> timeout == options.udpTimeout)
    && (protocol != Tcp && protocol != Udp ==> timeout == options.defaultTimeout)
  }

  /** Once a packet is accepted, every packet with the same key is accepted until the protocol's
      timeout has passed - in either direction, with any peer, whatever else arrives between. */
  lemma AcceptedFlowStaysOpen(
      s: State, config: Config, first: Arrival, between: seq<Arrival>, later: Arrival, timeout: int)
    requires Decide(s, config, first).1 == Accept
    requires later.packet == first.packet && IsTimeout(config.options, first.packet.protocol, timeout)
    requires first.now <= later.now < first.now + timeout
    requires forall a :: a in between ==> first.now <= a.now <= later.now
    ensures Decide(After(Decide(s, config, first).0, config, between), config, later).1 == Accept
  {
    var until := first.now + TimeoutFor(config.options, first.packet.protocol);
    AcceptOpens(s, config, first);
    RunKeepsOpen(Decide(s, config, first).0, config, between, first.packet, first.now, until);
    DecisionKeepsOpen(After(Decide(s, config, first).0, config, between), config, later, first.packet, until);
  }

  /** The same on the wire: after an outgoing packet is accepted, every incoming packet that
      answers it is accepted until the timeout, whatever options or extension headers either
      carries. */
  lemma RepliesPass(
      s: State, config: Config, request: IpFlows.Datagram, reply: IpFlows.Datagram,
      peer: PeerIdentity, replyPeer: PeerIdentity, sent: int, received: int, between: seq<Arrival>, timeout: int)
    requires IpFlows.Valid(request) && IpFlows.Valid(reply) && IpFlows.Answers(reply, request)
    requires IpPacket.ParseSpec(IpFlows.Wire(request), false).Some?
    requires var p := IpPacket.ParseSpec(IpFlows.Wire(request), false).value;
             && Decide(s, config, Arrival(p, false, peer, sent)).1 == Accept
             && IsTimeout(config.options, p.protocol, timeout) && sent <= received < sent + timeout
             && (forall a :: a in between ==> sent <= a.now <= received)
    ensures IpPacket.ParseSpec(IpFlows.Wire(reply), true).Some?
    ensures var p := IpPacket.ParseSpec(IpFlows.Wire(request), false).value;
            var q := IpPacket.ParseSpec(IpFlows.Wire(reply), true).value;
            var s1 := Decide(s, config, Arrival(p, false, peer, sent)).0;
            Decide(After(s1, config, between), config, Arrival(q, true, replyPeer, received)).1 == Accept
  {
    IpFlows.BothLegsShareOneKey(request, reply);
    hide IpFlows.Valid, IpFlows.Wire, IpFlows.Answers, IpPacket.ParseSpec;
    var p := IpPacket.ParseSpec(IpFlows.Wire(request), false).value;
    var later := Arrival(p, true, replyPeer, received);
    AcceptedFlowStaysOpen(s, config, Arrival(p, false, peer, sent), between, later, timeout);
  }

  // ---- Reloads ----

  datatype Input = Packet(arrival: Arrival) | Reload(rules: RuleSet)

  function Take(s: State, config: Config, input: Input): State {
    match input
    case Packet(a) => Decide(s, config, a).0
    case Reload(rules) => Reloaded(s, rules)
  }

  function AfterInputs(s: State, config: Config, inputs: seq<Input>): State {
    if inputs == [] then s else Take(AfterInputs(s, config, inputs[..|inputs| - 1]), config, inputs[|inputs| - 1])
  }

  function ReloadCount(inputs: seq<Input>): nat {
    if inputs == [] then 0 else ReloadCount(inputs[..|inputs| - 1]) + if inputs[|inputs| - 1].Reload? then 1 else 0
  }

  /** Packets of other flows, before `until`, leave this one alone; reloads do so always. */
  predicate Elsewhere(input: Input, p: FirewallPacket.Packet, until: int) {
    input.Packet? ==> input.arrival.packet != p && input.arrival.now < until
  }

  lemma TakeKeepsEntry(s: State, config: Config, input: Input, p: FirewallPacket.Packet)
    requires p in s.table.conns && Elsewhere(input, p, s.table.conns[p].expires)
    ensures var s' := Take(s, config, input);
            && s'.version == (if input.Reload? then NextVersion(s.version) else s.version)
            && p in s'.table.conns && s'.table.conns[p] == s.table.conns[p]
  {
    if input.Packet? { PurgeKeepsLive(s.table, p, input.arrival.now); }
    hide Purged, Matches, Checks;
  }

  lemma {:induction false} EntryAfterInputs(s: State, config: Config, inputs: seq<Input>, p: FirewallPacket.Packet)
    requires p in s.table.conns
    requires forall input :: input in inputs ==> Elsewhere(input, p, s.table.conns[p].expires)
    ensures var s' := AfterInputs(s, config, inputs);
            && s'.version == FirewallRuns.VersionOf(s.version + ReloadCount(inputs))
            && p in s'.table.conns && s'.table.conns[p] == s.table.conns[p]
  {
    hide FirewallRuns.VersionOf, NextVersion, Take, Elsewhere;
    if inputs == [] {
      SameVersion(s.version);
    } else {
      var front, last := inputs[..|inputs| - 1], inputs[|inputs| - 1];
      assert forall input :: input in front ==> input in inputs;
      EntryAfterInputs(s, config, front, p);
      FirewallRuns.NextVersionOf(s.version + ReloadCount(front));
      TakeKeepsEntry(AfterInputs(s, config, front), config, last, p);
    }
  }

  lemma SameVersion(v: u16)
    ensures FirewallRuns.VersionOf(v) == v
  {
  }

  /** A live flow that the rules in force no longer match is dropped at its next packet, whatever
      reloads and packets of other flows came before it - except when its entry's version has come
      round again: then the packet passes unseen. This is exactly when. */
  lemma RevokedFlowPassesExactlyOnWrap(s: State, config: Config, inputs: seq<Input>, a: Arrival)
    requires a.packet in s.table.conns && s.table.conns[a.packet].expires > a.now
    requires forall input :: input in inputs ==> Elsewhere(input, a.packet, s.table.conns[a.packet].expires)
    requires var rules := AfterInputs(s, config, inputs).rules;
             !Matches(rules, a.packet, true, a.remote) && !Matches(rules, a.packet, false, a.remote)
    ensures Decide(AfterInputs(s, config, inputs), config, a).1 == Accept <==>
            (s.version + ReloadCount(inputs) - s.table.conns[a.packet].rulesVersion) % TWO16 == 0
  {
    hide Purged, Matches, Decide, Elsewhere, AfterInputs, FirewallRuns.VersionOf;
    EntryAfterInputs(s, config, inputs, a.packet);
    RevokedVerdict(AfterInputs(s, config, inputs), config, a);
    WrapsTo(s.version + ReloadCount(inputs), s.table.conns[a.packet].rulesVersion);
  }

  /** A live flow that the rules do not match passes exactly by its version. */
  lemma RevokedVerdict(s: State, config: Config, a: Arrival)
    requires a.packet in s.table.conns && s.table.conns[a.packet].expires > a.now
    requires !Matches(s.rules, a.packet, true, a.remote) && !Matches(s.rules, a.packet, false, a.remote)
    ensures Decide(s, config, a).1 == Accept <==> s.table.conns[a.packet].rulesVersion == s.version
  {
    PurgeKeepsLive(s.table, a.packet, a.now);
    NoMatchIsNotAccepted(config, s.rules, a);
    hide Purged, Matches, Checks;
  }

  lemma NoMatchIsNotAccepted(config: Config, rules: RuleSet, a: Arrival)
    requires !Matches(rules, a.packet, a.incoming, a.remote)
    ensures Checks(config, rules, a.packet, a.incoming, a.remote) != Accept
  {
  }

  lemma WrapsTo(n: nat, v: u16)
    ensures FirewallRuns.VersionOf(n) == v <==> (n - v) % TWO16 == 0
  {
  }

  // ---- Exactly how long ----

  /** What a decision does to the connection table, as table operations. */
  function Operations(s: State, config: Config, a: Arrival): seq<Op> {
    var passed := FirstSection(s.table, config.options, a.packet, s.version, s.rules, a.remote, a.now).1;
    var checked := Checks(config, s.rules, a.packet, a.incoming, a.remote).Accept?;
    var timeout := TimeoutFor(config.options, a.packet.protocol);
    SectionOps(s.table, config.options, a.packet, s.version, s.rules, a.remote, a.now)
    + if !passed && checked then [Record(a.packet, a.incoming, s.version, a.now, timeout)] else []
  }

  /** The firewall and the table operations since the start. */
  datatype Traced = Traced(state: State, ops: seq<Op>)

  function Trace(rules: RuleSet, config: Config, inputs: seq<Input>): Traced {
    if inputs == [] then Traced(State(0, rules, EMPTY), [])
    else
      var before := Trace(rules, config, inputs[..|inputs| - 1]);
      match inputs[|inputs| - 1]
      case Packet(a) => Traced(Decide(before.state, config, a).0, before.ops + Operations(before.state, config, a))
      case Reload(newRules) => before.(state := Reloaded(before.state, newRules))
  }

  /** Packets arrive in order of time, none later than `until`. */
  predicate ArriveInOrder(inputs: seq<Input>, until: int) {
    inputs == [] ||
    var front, last := inputs[..|inputs| - 1], inputs[|inputs| - 1];
    if last.Reload? then ArriveInOrder(front, until)
    else last.arrival.now <= until && ArriveInOrder(front, last.arrival.now)
  }

  lemma TimelyAppend(ops: seq<Op>, more: seq<Op>, now: int)
    requires Timely(ops, now, 0)
    requires forall op :: op in more && !op.Remove? ==> op.now == now
    ensures Timely(ops + more, now, 0)
  {
  }

  lemma OperationsAreFaithful(s: State, config: Config, a: Arrival, ops: seq<Op>)
    requires s.table == ConntrackRuns.Run(ops)
    ensures Decide(s, config, a).0.table == ConntrackRuns.Run(ops + Operations(s, config, a))
  {
    SectionIsFaithful(ops, config.options, a.packet, s.version, s.rules, a.remote, a.now);
    hide Purged, FirstSection, SectionOps, Checks, ConntrackRuns.Run, Recorded;
    var section := SectionOps(s.table, config.options, a.packet, s.version, s.rules, a.remote, a.now);
    var last := Record(a.packet, a.incoming, s.version, a.now, TimeoutFor(config.options, a.packet.protocol));
    RunAppend(ops + section, last);
    assert ops + (section + [last]) == ops + section + [last];
    assert ops + (section + []) == ops + section;
  }

  lemma OperationsAreNow(s: State, config: Config, a: Arrival)
    ensures forall op :: op in Operations(s, config, a) && !op.Remove? ==> op.now == a.now
    ensures FixedTimeouts(Operations(s, config, a), TimeoutsOf(config))
  {
    hide Purged, FirstSection, Checks;
  }

  lemma {:induction false} TraceIsFaithful(rules: RuleSet, config: Config, inputs: seq<Input>, until: int)
    requires ArriveInOrder(inputs, until)
    ensures var t := Trace(rules, config, inputs);
            && t.state.table == ConntrackRuns.Run(t.ops)
            && Timely(t.ops, until, 0)
            && FixedTimeouts(t.ops, TimeoutsOf(config))
  {
    if inputs != [] {
      var front, last := inputs[..|inputs| - 1], inputs[|inputs| - 1];
      var before := Trace(rules, config, front);
      if last.Packet? {
        var a := last.arrival;
        TraceIsFaithful(rules, config, front, a.now);
        hide Operations, ConntrackRuns.Run, Decide;
        OperationsAreFaithful(before.state, config, a, before.ops);
        OperationsAreNow(before.state, config, a);
        TimelyAppend(before.ops, Operations(before.state, config, a), a.now);
        FixedTimeoutsAppend(before.ops, Operations(before.state, config, a), TimeoutsOf(config));
      } else {
        TraceIsFaithful(rules, config, front, until);
      }
    }
  }

  /** In every sequential run with times in order, reloads included: a packet finds its flow
      tracked exactly when the latest record of the flow, if not removed since, is still within its
      timeout, that configured for TCP, UDP or the rest. Then it passes if that record has the
      current version or the rules match in the record's direction. Otherwise the packet is judged
      as a new one. */
  lemma DecisionIsExact(rules: RuleSet, config: Config, inputs: seq<Input>, a: Arrival)
    requires ArriveInOrder(inputs, a.now)
    ensures var t := Trace(rules, config, inputs);
            var s, verdict := t.state, Decide(t.state, config, a).1;
            match Expected(t.ops, a.packet, a.now)
            case Some((incoming, version)) =>
              if version == s.version || Matches(s.rules, a.packet, incoming, a.remote) then verdict == Accept
              else JudgedAsNew(verdict, config, s.rules, a.packet, a.incoming, a.remote)
            case None => JudgedAsNew(verdict, config, s.rules, a.packet, a.incoming, a.remote)
    ensures forall op :: op in Trace(rules, config, inputs).ops && op.Record? ==>
              IsTimeout(config.options, op.p.protocol, op.timeout)
  {
    TraceIsFaithful(rules, config, inputs, a.now);
    var t := Trace(rules, config, inputs);
    GetIsExact(t.ops, a.packet, a.now, TimeoutsOf(config));
    ChecksJudge(config, t.state.rules, a.packet, a.incoming, a.remote);
    hide Purged, Matches, Checks, Trace, ConntrackRuns.Run, Expected, JudgedAsNew;
  }
}
