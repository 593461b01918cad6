/** Evaluations running at once, and the times they carry: each call takes its time before it gets
    the lock, so the connection table can see times out of order. */
module FirewallTimes {
  import opened Optional
  import opened Bits
  import opened Net
  import opened FirewallPacket
  import opened RuleTree
  import opened Conntrack
  import opened ConntrackRuns
  import opened Firewall
  import FirewallRuns

  function TimeoutsOf(config: Config): Packet -> nat {
    (p: Packet) => TimeoutFor(config.options, p.protocol)
  }

  /** What the first locked section does to the table, as table operations. */
  function SectionOps(
    t: Table, options: Options, packet: Packet, version: u16, rules: RuleSet, remote: PeerIdentity, now: int): seq<Op>
  {
    var t1 := Purged(t, now);
    [Get(packet, now)] +
    if packet !in t1.conns then []
    else if FirstSection(t, options, packet, version, rules, remote, now).1
    then [Record(packet, t1.conns[packet].incoming, version, now, TimeoutFor(options, packet.protocol))]
    else [Op.Remove(packet)]
  }

  lemma SectionIsFaithful(
      ops: seq<Op>, options: Options, packet: Packet, version: u16, rules: RuleSet, remote: PeerIdentity, now: int)
    ensures FirstSection(ConntrackRuns.Run(ops), options, packet, version, rules, remote, now).0
            == ConntrackRuns.Run(ops + SectionOps(ConntrackRuns.Run(ops), options, packet, version, rules, remote, now))
  {
    var t := ConntrackRuns.Run(ops);
    hide ConntrackRuns.Run, Purged, Matches, Recorded, Removed;
    var more := SectionOps(t, options, packet, version, rules, remote, now);
    RunAppend(ops, more[0]);
    if |more| == 2 {
      RunAppend(ops + [more[0]], more[1]);
      assert ops + more == ops + [more[0]] + [more[1]];
    } else {
      assert more == [more[0]];
    }
  }

  // ---- Interleavings ----

  function Operations(w: FirewallRuns.World, config: Config, a: FirewallRuns.Action): seq<Op> {
    match a
    case Lookup(id) =>
      if id !in w.calls || !w.calls[id].phase.Snapped? then []
      else
        var c := w.calls[id];
        SectionOps(w.fw.table, config.options, c.packet, c.version, c.rules, c.remote, c.now)
    case Finish(id) =>
      if id !in w.calls || !w.calls[id].phase.Passed? then []
      else
        var c := w.calls[id];
        [Record(c.packet, c.incoming, c.version, c.now, TimeoutFor(config.options, c.packet.protocol))]
    case _ => []
  }

  /** Everything done to the connection table in a run, in order. */
  function History(rules: RuleSet, config: Config, actions: seq<FirewallRuns.Action>): seq<Op> {
    if actions == [] then []
    else
      var front := actions[..|actions| - 1];
      History(rules, config, front)
      + Operations(FirewallRuns.Run(rules, config, front), config, actions[|actions| - 1])
  }

  lemma StepIsFaithful(w: FirewallRuns.World, config: Config, a: FirewallRuns.Action, ops: seq<Op>)
    requires FirewallRuns.Tracked(w) && w.fw.table == ConntrackRuns.Run(ops)
    ensures FirewallRuns.Do(w, config, a).fw.table == ConntrackRuns.Run(ops + Operations(w, config, a))
  {
    hide ConntrackRuns.Run, FirstSection, SectionOps, Purged, Checks;
    assert ops + [] == ops;
    match a
    case Lookup(id) =>
      if id in w.calls && w.calls[id].phase.Snapped? {
        var c := w.calls[id];
        SectionIsFaithful(ops, config.options, c.packet, c.version, c.rules, c.remote, c.now);
        FirewallRuns.LookupStep(w, config, id);
      }
    case Finish(id) =>
      if id in w.calls && w.calls[id].phase.Passed? { RunAppend(ops, Operations(w, config, a)[0]); }
    case _ =>
  }

  lemma OperationsTimeouts(w: FirewallRuns.World, config: Config, a: FirewallRuns.Action)
    ensures FixedTimeouts(Operations(w, config, a), TimeoutsOf(config))
  {
    hide FirstSection, Purged;
  }

  lemma FixedTimeoutsAppend(a: seq<Op>, b: seq<Op>, timeoutOf: Packet -> nat)
    requires FixedTimeouts(a, timeoutOf) && FixedTimeouts(b, timeoutOf)
    ensures FixedTimeouts(a + b, timeoutOf)
  {
  }

  lemma {:induction false} HistoryIsFaithful(rules: RuleSet, config: Config, actions: seq<FirewallRuns.Action>)
    ensures FirewallRuns.Run(rules, config, actions).fw.table == ConntrackRuns.Run(History(rules, config, actions))
    ensures FixedTimeouts(History(rules, config, actions), TimeoutsOf(config))
  {
    if actions != [] {
      var front, last := actions[..|actions| - 1], actions[|actions| - 1];
      HistoryIsFaithful(rules, config, front);
      StepIsFaithful(FirewallRuns.Run(rules, config, front), config, last, History(rules, config, front));
      hide FirewallRuns.Do, ConntrackRuns.Run, Operations, FixedTimeouts;
      OperationsTimeouts(FirewallRuns.Run(rules, config, front), config, last);
      FixedTimeoutsAppend(History(rules, config, front),
                          Operations(FirewallRuns.Run(rules, config, front), config, last), TimeoutsOf(config));
    }
  }

  /** In every interleaving of evaluations and reloads, for a call about to enter the first
      locked section: the table answers for its flow exactly what the flow's own records, removes
      and the times of all lookups so far make of it, and the call is accepted there exactly if
      that answer has the snapshot's version or the snapshot's rules match in its direction. */
  lemma FirstSectionDecides(rules: RuleSet, config: Config, actions: seq<FirewallRuns.Action>, id: nat)
    requires id in FirewallRuns.Run(rules, config, actions).calls
    requires FirewallRuns.Run(rules, config, actions).calls[id].phase.Snapped?
    ensures var w := FirewallRuns.Run(rules, config, actions);
            var c := w.calls[id];
            var known := Swept(FateOf(History(rules, config, actions), c.packet), c.now).entry;
            && Lookup(Purged(w.fw.table, c.now), c.packet)
               == (if known.Some? then Some((known.value.incoming, known.value.rulesVersion)) else None)
            && (|FirewallRuns.Do(w, config, FirewallRuns.Lookup(id)).log| == |w.log| + 1 <==>
                  && known.Some?
                  && (known.value.rulesVersion == c.version
                      || Matches(c.rules, c.packet, known.value.incoming, c.remote)))
  {
    var w, ops := FirewallRuns.Run(rules, config, actions), History(rules, config, actions);
    var c := w.calls[id];
    HistoryIsFaithful(rules, config, actions);
    RunIsFates(ops, c.packet);
    PurgeSweeps(w.fw.table, c.now, c.packet);
    FirewallRuns.LookupStep(w, config, id);
    hide FirewallRuns.Run, FirewallRuns.Do, ConntrackRuns.Run, History, Purged, Swept, FateOf, Matches, SlotTimes;
    assert FateIn(Purged(w.fw.table, c.now), c.packet).entry == Swept(FateOf(ops, c.packet), c.now).entry;
  }

  /** That answer differs from what the latest record or remove says exactly when a record within
      its timeout was evicted by some call with a later time, or one past its timeout has no due
      slot; and never by more than the calls' times go back. */
  lemma ConcurrentExpiry(
      rules: RuleSet, config: Config, actions: seq<FirewallRuns.Action>, packet: Packet, now: int, lag: nat)
    ensures var ops := History(rules, config, actions);
            var f := FateOf(ops, packet);
            var answer := Lookup(Purged(FirewallRuns.Run(rules, config, actions).fw.table, now), packet);
            match Latest(ops, packet)
            case None => answer.None?
            case Some(e) =>
              && (answer == Expected(ops, packet, now) <==>
                    if e.expires > now then f.entry.Some? else f.entry.Some? ==> Due(f.slots, now))
              && (answer.Some? ==> answer == Some((e.incoming, e.rulesVersion)))
              && (Timely(ops, now, lag) ==>
                    && (e.expires > now + lag ==> answer.Some?)
                    && (e.expires <= now - lag ==> answer.None?))
  {
    var ops := History(rules, config, actions);
    HistoryIsFaithful(rules, config, actions);
    LookupIsExactWhen(ops, packet, now);
    if Timely(ops, now, lag) { GetWithinLag(ops, packet, now, lag, TimeoutsOf(config)); }
    hide FirewallRuns.Run, ConntrackRuns.Run, History, Purged, FateOf, SlotTimes, Latest, Timely;
  }

  lemma RunStep(rules: RuleSet, config: Config, actions: seq<FirewallRuns.Action>, a: FirewallRuns.Action)
    ensures FirewallRuns.Run(rules, config, actions + [a])
            == FirewallRuns.Do(FirewallRuns.Run(rules, config, actions), config, a)
    ensures History(rules, config, actions + [a])
            == History(rules, config, actions) + Operations(FirewallRuns.Run(rules, config, actions), config, a)
  {
    assert (actions + [a])[..|actions|] == actions;
  }

  // ---- Times that go back ----

  /** The first half of two evaluations of one packet side by side: the clock does not go back
      between them, and neither finds the flow tracked. */
  function Overlapping(packet: Packet, incoming: bool, remote: PeerIdentity, early: int, late: int)
    : seq<FirewallRuns.Action>
  {
    Snapshots(packet, incoming, remote, early, late)
    + [FirewallRuns.Lookup(1)] + [FirewallRuns.Lookup(2)] + [FirewallRuns.Check(1)] + [FirewallRuns.Check(2)]
  }

  function Snapshots(packet: Packet, incoming: bool, remote: PeerIdentity, early: int, late: int)
    : seq<FirewallRuns.Action>
  {
    [FirewallRuns.Begin(1, packet, incoming, remote, early)] + [FirewallRuns.Begin(2, packet, incoming, remote, late)]
  }

  /** Nothing tracked yet, with these calls under way. */
  function Waiting(rules: RuleSet, calls: map<nat, FirewallRuns.Call>): FirewallRuns.World {
    FirewallRuns.Start(rules).(calls := calls)
  }

  lemma BeginWaiting(rules: RuleSet, config: Config, calls: map<nat, FirewallRuns.Call>, id: nat,
                     packet: Packet, incoming: bool, remote: PeerIdentity, now: int)
    requires id !in calls
    ensures var c := FirewallRuns.Call(packet, incoming, remote, now, 0, rules, 0, FirewallRuns.Snapped);
            var a := FirewallRuns.Begin(id, packet, incoming, remote, now);
            && FirewallRuns.Do(Waiting(rules, calls), config, a) == Waiting(rules, calls[id := c])
            && Operations(Waiting(rules, calls), config, a) == []
  {
  }

  lemma LookupWaiting(rules: RuleSet, config: Config, calls: map<nat, FirewallRuns.Call>, id: nat)
    requires id in calls && calls[id].phase.Snapped?
    ensures var a, c := FirewallRuns.Lookup(id), calls[id];
            && FirewallRuns.Do(Waiting(rules, calls), config, a)
               == Waiting(rules, calls[id := c.(phase := FirewallRuns.Unknown)])
            && Operations(Waiting(rules, calls), config, a) == [Get(c.packet, c.now)]
  {
    hide Matches;
    FirewallRuns.LookupStep(Waiting(rules, calls), config, id);
    hide FirewallRuns.Do;
  }

  lemma CheckWaiting(rules: RuleSet, config: Config, calls: map<nat, FirewallRuns.Call>, id: nat)
    requires id in calls && calls[id].phase.Unknown?
    requires Checks(config, calls[id].rules, calls[id].packet, calls[id].incoming, calls[id].remote).Accept?
    ensures var a, c := FirewallRuns.Check(id), calls[id];
            && FirewallRuns.Do(Waiting(rules, calls), config, a)
               == Waiting(rules, calls[id := c.(phase := FirewallRuns.Passed)])
            && Operations(Waiting(rules, calls), config, a) == []
  {
    hide Checks;
  }

  lemma BothSnap(rules: RuleSet, config: Config, packet: Packet, incoming: bool, remote: PeerIdentity,
                 early: int, late: int)
    ensures var run := Snapshots(packet, incoming, remote, early, late);
            var c := FirewallRuns.Call(packet, incoming, remote, early, 0, rules, 0, FirewallRuns.Snapped);
            && FirewallRuns.Run(rules, config, run) == Waiting(rules, map[1 := c, 2 := c.(now := late)])
            && History(rules, config, run) == []
  {
    var c := FirewallRuns.Call(packet, incoming, remote, early, 0, rules, 0, FirewallRuns.Snapped);
    var b1 := FirewallRuns.Begin(1, packet, incoming, remote, early);
    EmptyRun(rules, config);
    BeginWaiting(rules, config, map[], 1, packet, incoming, remote, early);
    RunStep(rules, config, [], b1);
    BeginWaiting(rules, config, map[1 := c], 2, packet, incoming, remote, late);
    RunStep(rules, config, [b1], FirewallRuns.Begin(2, packet, incoming, remote, late));
    hide FirewallRuns.Run, FirewallRuns.Do, History, Operations, Waiting;
    assert [] + [b1] == [b1];
  }

  lemma BothPass(rules: RuleSet, config: Config, packet: Packet, incoming: bool, remote: PeerIdentity,
                 early: int, late: int)
    requires Checks(config, rules, packet, incoming, remote).Accept?
    ensures var run := Overlapping(packet, incoming, remote, early, late);
            var c := FirewallRuns.Call(packet, incoming, remote, early, 0, rules, 0, FirewallRuns.Passed);
            && FirewallRuns.Run(rules, config, run) == Waiting(rules, map[1 := c, 2 := c.(now := late)])
            && History(rules, config, run) == [Get(packet, early), Get(packet, late)]
  {
    hide FirewallRuns.Run, FirewallRuns.Do, History, Operations, Checks, Waiting, Snapshots;
    var run := Snapshots(packet, incoming, remote, early, late);
    BothSnap(rules, config, packet, incoming, remote, early, late);
    var c := FirewallRuns.Call(packet, incoming, remote, early, 0, rules, 0, FirewallRuns.Snapped);
    var d := c.(phase := FirewallRuns.Unknown);
    var e := c.(phase := FirewallRuns.Passed);
    var c2, d2, e2 := c.(now := late), d.(now := late), e.(now := late);
    assert map[1 := c, 2 := c2][1 := d] == map[1 := d, 2 := c2];
    assert map[1 := d, 2 := c2][2 := d2] == map[1 := d, 2 := d2];
    assert map[1 := d, 2 := d2][1 := e] == map[1 := e, 2 := d2];
    assert map[1 := e, 2 := d2][2 := e2] == map[1 := e, 2 := e2];
    LookupWaiting(rules, config, map[1 := c, 2 := c2], 1);
    RunStep(rules, config, run, FirewallRuns.Lookup(1));
    LookupWaiting(rules, config, map[1 := d, 2 := c2], 2);
    RunStep(rules, config, run + [FirewallRuns.Lookup(1)], FirewallRuns.Lookup(2));
    var run4 := run + [FirewallRuns.Lookup(1)] + [FirewallRuns.Lookup(2)];
    CheckWaiting(rules, config, map[1 := d, 2 := d2], 1);
    RunStep(rules, config, run4, FirewallRuns.Check(1));
    CheckWaiting(rules, config, map[1 := e, 2 := d2], 2);
    RunStep(rules, config, run4 + [FirewallRuns.Check(1)], FirewallRuns.Check(2));
  }

  lemma FinishRecords(w: FirewallRuns.World, config: Config, id: nat)
    requires FirewallRuns.Tracked(w) && id in w.calls && w.calls[id].phase.Passed?
    ensures var w', c := FirewallRuns.Do(w, config, FirewallRuns.Finish(id)), w.calls[id];
            var timeout := TimeoutFor(config.options, c.packet.protocol);
            && w'.fw.table == Recorded(w.fw.table, c.packet, c.incoming, c.version, c.now, timeout)
            && w'.calls == w.calls - {id}
            && Operations(w, config, FirewallRuns.Finish(id))
               == [Record(c.packet, c.incoming, c.version, c.now, timeout)]
  {
    hide Recorded, FirstSection, Checks;
  }

  lemma LatestIsLast(ops: seq<Op>, op: Op)
    requires op.Record?
    ensures Latest(ops + [op], op.p) == Some(ConnEntry(op.now + op.timeout, op.incoming, op.version))
  {
  }

  /** A second record with an earlier time leaves the slot of the first. */
  lemma EarlierRecordLast(packet: Packet, incoming: bool, early: int, late: int, timeout: nat, now: int)
    ensures var t := Recorded(Recorded(EMPTY, packet, incoming, 0, late, timeout), packet, incoming, 0, early, timeout);
            packet in Purged(t, now).conns <==> early + timeout > now || late + timeout > now
  {
    var slot := Slot(late + timeout, packet);
    var t1 := Recorded(EMPTY, packet, incoming, 0, late, timeout);
    assert t1 == Table(map[packet := ConnEntry(late + timeout, incoming, 0)], [slot]);
    var t := Recorded(t1, packet, incoming, 0, early, timeout);
    assert t == Table(map[packet := ConnEntry(early + timeout, incoming, 0)], [slot]);
    assert SlotTimes([slot], packet) == {late + timeout} by { assert [slot][1..] == []; }
    PurgeKeeps(t, now, packet);
  }

  lemma EmptyRun(rules: RuleSet, config: Config)
    ensures FirewallRuns.Run(rules, config, []) == Waiting(rules, map[]) && History(rules, config, []) == []
  {
  }

  lemma WaitingIsEmpty(rules: RuleSet, calls: map<nat, FirewallRuns.Call>)
    ensures Waiting(rules, calls).fw.table == EMPTY && Waiting(rules, calls).calls == calls
  {
  }

  lemma FinishStep(rules: RuleSet, config: Config, front: seq<FirewallRuns.Action>, id: nat, c: FirewallRuns.Call)
    requires id in FirewallRuns.Run(rules, config, front).calls
    requires FirewallRuns.Run(rules, config, front).calls[id] == c && c.phase.Passed?
    ensures var w, run := FirewallRuns.Run(rules, config, front), front + [FirewallRuns.Finish(id)];
            var w', timeout := FirewallRuns.Run(rules, config, run), TimeoutFor(config.options, c.packet.protocol);
            && w'.fw.table == Recorded(w.fw.table, c.packet, c.incoming, c.version, c.now, timeout)
            && w'.calls == w.calls - {id}
            && Latest(History(rules, config, run), c.packet)
               == Some(ConnEntry(c.now + timeout, c.incoming, c.version))
  {
    RunStep(rules, config, front, FirewallRuns.Finish(id));
    hide FirewallRuns.Run, FirewallRuns.Do, History, Latest, Operations, Recorded;
    FinishRecords(FirewallRuns.Run(rules, config, front), config, id);
    var timeout := TimeoutFor(config.options, c.packet.protocol);
    LatestIsLast(History(rules, config, front), Record(c.packet, c.incoming, c.version, c.now, timeout));
  }

  /** The call that took its time first is the last to record: the flow's latest record then
      expires before the other one, and the table keeps the flow until the other one's expiry. For
      every later time the table is wrong about the flow exactly between the two. */
  lemma OverlappingCallsOutlive(rules: RuleSet, config: Config, packet: Packet, incoming: bool, remote: PeerIdentity,
                                early: int, late: int, now: int)
    requires early <= late
    requires Checks(config, rules, packet, incoming, remote).Accept?
    ensures var run := Overlapping(packet, incoming, remote, early, late)
                      + [FirewallRuns.Finish(2)] + [FirewallRuns.Finish(1)];
            var timeout := TimeoutFor(config.options, packet.protocol);
            var w := FirewallRuns.Run(rules, config, run);
            && Latest(History(rules, config, run), packet).Some?
            && Latest(History(rules, config, run), packet).value.expires == early + timeout
            && (packet in Purged(w.fw.table, now).conns <==> now < late + timeout)
  {
    var front := Overlapping(packet, incoming, remote, early, late);
    var run2 := front + [FirewallRuns.Finish(2)];
    var run := run2 + [FirewallRuns.Finish(1)];
    var timeout := TimeoutFor(config.options, packet.protocol);
    hide *;
    BothPass(rules, config, packet, incoming, remote, early, late);
    var c := FirewallRuns.Call(packet, incoming, remote, early, 0, rules, 0, FirewallRuns.Passed);
    WaitingIsEmpty(rules, map[1 := c, 2 := c.(now := late)]);
    FinishStep(rules, config, front, 2, c.(now := late));
    FinishStep(rules, config, run2, 1, c);
    EarlierRecordLast(packet, incoming, early, late, timeout, now);
  }
}
