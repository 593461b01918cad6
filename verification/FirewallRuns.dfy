/** Any number of evaluations running at once with reloads: each evaluation is a snapshot of the
    rules, a first locked section, the checks without the lock and a last locked record. */
module FirewallRuns {
  import opened Bits
  import opened Net
  import opened FirewallPacket
  import opened RuleTree
  import opened Conntrack
  import opened Firewall

  datatype Phase = Snapped | Unknown | Passed

  /** One evaluation under way. `epoch` says which ruleset its snapshot took. */
  datatype Call = Call(
    packet: Packet, incoming: bool, remote: PeerIdentity, now: int,
    version: u16, rules: RuleSet, epoch: nat, phase: Phase)

  /** How a packet came to be accepted: by the rules after all checks, by the rules for a
      tracked flow whose entry had another version, or by the version of its entry alone. */
  datatype Route = Admitted | Revalidated | FastPath

  /** One accepted packet. `source` is the event in which rules were last consulted for the
      flow, `admission` the one in which it was admitted. */
  datatype Event = Event(
    route: Route, packet: Packet, direction: bool, remote: PeerIdentity, epoch: nat, source: nat, admission: nat)

  /** Where the entry of a tracked flow comes from. */
  datatype Origin = Origin(source: nat, admission: nat)

  /** The firewall, the calls under way, and the history: every ruleset ever installed, every
      accepted packet, and the origin of every tracked flow. */
  datatype World = World(
    fw: State, calls: map<nat, Call>, history: seq<RuleSet>, log: seq<Event>, origin: map<Packet, Origin>)

  datatype Action =
    | Begin(id: nat, packet: Packet, incoming: bool, remote: PeerIdentity, now: int)
    | Lookup(id: nat)
    | Check(id: nat)
    | Finish(id: nat)
    | Reload(rules: RuleSet)

  function Start(rules: RuleSet): World {
    World(State(0, rules, EMPTY), map[], [rules], [], map[])
  }

  /** An accept in the first locked section. */
  function Accepted(w: World, c: Call, table: Table): World
    requires c.packet in Purged(w.fw.table, c.now).conns && c.packet in w.origin
  {
    var e := Purged(w.fw.table, c.now).conns[c.packet];
    var fast := e.rulesVersion == c.version;
    var o := w.origin[c.packet];
    var source := if fast then o.source else |w.log|;
    w.(fw := w.fw.(table := table),
       log := w.log + [Event(if fast then FastPath else Revalidated, c.packet, e.incoming, c.remote, c.epoch,
                             source, o.admission)],
       origin := w.origin[c.packet := Origin(source, o.admission)])
  }

  /** The final record of a packet that passed all checks. */
  function AdmittedBy(w: World, config: Config, c: Call): World {
    var i := |w.log|;
    w.(fw := w.fw.(table := Recorded(w.fw.table, c.packet, c.incoming, c.version, c.now,
                                     TimeoutFor(config.options, c.packet.protocol))),
       log := w.log + [Event(Admitted, c.packet, c.incoming, c.remote, c.epoch, i, i)],
       origin := w.origin[c.packet := Origin(i, i)])
  }

  /** One atomic step; a step that is not enabled changes nothing. */
  function Do(w: World, config: Config, a: Action): World
    requires Tracked(w)
  {
    match a
    case Begin(id, packet, incoming, remote, now) =>
      if id in w.calls then w
      else
        var c := Call(packet, incoming, remote, now, w.fw.version, w.fw.rules, |w.history| - 1, Snapped);
        w.(calls := w.calls[id := c])
    case Lookup(id) =>
      if id !in w.calls || !w.calls[id].phase.Snapped? then w
      else
        var c := w.calls[id];
        var (table, passed) := FirstSection(w.fw.table, config.options, c.packet, c.version, c.rules, c.remote, c.now);
        FirstSectionTable(w.fw.table, config.options, c.packet, c.version, c.rules, c.remote, c.now);
        if passed then Accepted(w, c, table).(calls := w.calls - {id})
        else w.(fw := w.fw.(table := table), calls := w.calls[id := c.(phase := Unknown)])
    case Check(id) =>
      if id !in w.calls || !w.calls[id].phase.Unknown? then w
      else
        var c := w.calls[id];
        if Checks(config, c.rules, c.packet, c.incoming, c.remote).Accept?
        then w.(calls := w.calls[id := c.(phase := Passed)])
        else w.(calls := w.calls - {id})
    case Finish(id) =>
      if id !in w.calls || !w.calls[id].phase.Passed? then w
      else
        AdmittedBy(w, config, w.calls[id]).(calls := w.calls - {id})
    case Reload(rules) =>
      w.(fw := Reloaded(w.fw, rules), history := w.history + [rules])
  }

  /** Every tracked flow has a recorded origin, and some ruleset is installed. */
  predicate Tracked(w: World) {
    w.history != [] && forall p :: p in w.fw.table.conns ==> p in w.origin
  }

  lemma {:induction false} PurgedIsPart(t: Table, now: int)
    ensures forall p :: p in Purged(t, now).conns ==> p in t.conns && Purged(t, now).conns[p] == t.conns[p]
    decreases DueCount(t.heap, now)
  {
    if t.heap != [] && t.heap[0].at <= now {
      PopDrains(t, now);
      PurgedIsPart(Pop(t, now), now);
    }
  }

  /** What the first locked section does to the table, whether it accepts or not. */
  lemma FirstSectionTable(
      t: Table, options: Options, packet: Packet, version: u16, rules: RuleSet, remote: PeerIdentity, now: int)
    ensures var (t', passed) := FirstSection(t, options, packet, version, rules, remote, now);
            && (passed ==> packet in t.conns && packet in t'.conns && packet in Purged(t, now).conns
                           && Purged(t, now).conns[packet] == t.conns[packet]
                           && t'.conns[packet].incoming == t.conns[packet].incoming
                           && t'.conns[packet].rulesVersion == version
                           && (t.conns[packet].rulesVersion == version
                               || Matches(rules, packet, t.conns[packet].incoming, remote)))
            && (!passed ==> packet !in t'.conns)
            && forall p :: p in t'.conns && p != packet ==> p in t.conns && t'.conns[p] == t.conns[p]
  {
    PurgedIsPart(t, now);
    hide Purged, Matches;
  }

  // ---- The invariant ----

  /** The version number after `n` reloads. */
  function VersionOf(n: nat): u16 {
    n % TWO16
  }

  lemma NextVersionOf(n: nat)
    ensures NextVersion(VersionOf(n)) == VersionOf(n + 1)
  {
  }

  /** Versions tell rulesets apart as long as fewer than 2^16 reloads lie between them. */
  lemma VersionsDistinguish(m: nat, n: nat)
    requires VersionOf(m) == VersionOf(n) && -TWO16 < m - n < TWO16
    ensures m == n
  {
  }

  /** The rules of that time matched the flow in this direction for the peer of event `i`. */
  predicate RulesMatched(w: World, i: nat, packet: Packet, direction: bool, version: u16) {
    && i < |w.log|
    && var e := w.log[i];
       && e.packet == packet && e.direction == direction
       && e.epoch < |w.history| && VersionOf(e.epoch) == version
       && Matches(w.history[e.epoch], packet, direction, e.remote)
  }

  /** Our address is routable and the remote one lies in a network of the peer. */
  ghost predicate Legitimate(config: Config, packet: Packet, remote: PeerIdentity) {
    && (exists n :: (n in remote.vpnNetworks || n in remote.unsafeNetworks) && Contains(n, packet.remoteAddr))
    && (exists n :: n in config.routable && Contains(n, packet.localAddr))
  }

  lemma AcceptedIsLegitimate(config: Config, c: Call)
    requires Checks(config, c.rules, c.packet, c.incoming, c.remote).Accept?
    ensures Legitimate(config, c.packet, c.remote) && Matches(c.rules, c.packet, c.incoming, c.remote)
  {
    hide Matches, Contains;
  }

  /** Event `i` admitted the flow in this direction, legitimately. */
  ghost predicate WasAdmitted(w: World, config: Config, i: nat, packet: Packet, direction: bool) {
    && i < |w.log|
    && var e := w.log[i];
       && e.route == Admitted && e.packet == packet && e.direction == direction
       && Legitimate(config, packet, e.remote)
  }

  ghost predicate EntrySound(w: World, config: Config, p: Packet)
    requires p in w.fw.table.conns && p in w.origin
  {
    var e, o := w.fw.table.conns[p], w.origin[p];
    && RulesMatched(w, o.source, p, e.incoming, e.rulesVersion)
    && WasAdmitted(w, config, o.admission, p, e.incoming)
  }

  predicate CallSound(w: World, config: Config, c: Call) {
    && c.epoch < |w.history| && c.rules == w.history[c.epoch] && c.version == VersionOf(c.epoch)
    && (c.phase.Passed? ==> Checks(config, c.rules, c.packet, c.incoming, c.remote).Accept?)
  }

  ghost predicate EventSound(w: World, config: Config, i: nat)
    requires i < |w.log|
  {
    var e := w.log[i];
    && e.epoch < |w.history|
    && RulesMatched(w, e.source, e.packet, e.direction, VersionOf(e.epoch))
    && (if e.route == FastPath then e.source < i else e.source == i)
    && WasAdmitted(w, config, e.admission, e.packet, e.direction)
    && (if e.route == Admitted then e.admission == i else e.admission < i)
  }

  ghost predicate Invariant(w: World, config: Config) {
    && Tracked(w)
    && w.history != [] && w.fw.rules == w.history[|w.history| - 1] && w.fw.version == VersionOf(|w.history| - 1)
    && (forall p :: p in w.fw.table.conns ==> EntrySound(w, config, p))
    && (forall id :: id in w.calls ==> CallSound(w, config, w.calls[id]))
    && (forall i :: 0 <= i < |w.log| ==> EventSound(w, config, i))
  }

  /** What is on record stays true as the record grows. */
  ghost predicate Grows(w: World, w': World) {
    w.log <= w'.log && w.history <= w'.history
  }

  lemma MatchedStays(w: World, w': World, i: nat, packet: Packet, direction: bool, version: u16)
    requires Grows(w, w') && RulesMatched(w, i, packet, direction, version)
    ensures RulesMatched(w', i, packet, direction, version)
  {
    hide Matches;
    assert w'.log[i] == w.log[i] && w'.history[w.log[i].epoch] == w.history[w.log[i].epoch];
  }

  lemma AdmittedStays(w: World, w': World, config: Config, i: nat, packet: Packet, direction: bool)
    requires Grows(w, w') && WasAdmitted(w, config, i, packet, direction)
    ensures WasAdmitted(w', config, i, packet, direction)
  {
    hide Legitimate;
    assert w'.log[i] == w.log[i];
  }

  lemma EntryStays(w: World, w': World, config: Config, p: Packet)
    requires Grows(w, w')
    requires p in w.fw.table.conns && p in w.origin && EntrySound(w, config, p)
    requires p in w'.fw.table.conns && p in w'.origin
    requires w'.fw.table.conns[p] == w.fw.table.conns[p] && w'.origin[p] == w.origin[p]
    ensures EntrySound(w', config, p)
  {
    var e, o := w.fw.table.conns[p], w.origin[p];
    MatchedStays(w, w', o.source, p, e.incoming, e.rulesVersion);
    AdmittedStays(w, w', config, o.admission, p, e.incoming);
    hide RulesMatched, WasAdmitted;
  }

  lemma EventStays(w: World, w': World, config: Config, i: nat)
    requires Grows(w, w') && i < |w.log| && EventSound(w, config, i)
    ensures EventSound(w', config, i)
  {
    var e := w.log[i];
    MatchedStays(w, w', e.source, e.packet, e.direction, VersionOf(e.epoch));
    AdmittedStays(w, w', config, e.admission, e.packet, e.direction);
    hide RulesMatched, WasAdmitted;
    assert w'.log[i] == e;
  }

  lemma CallStays(w: World, w': World, config: Config, c: Call)
    requires Grows(w, w') && CallSound(w, config, c)
    ensures CallSound(w', config, c)
  {
    hide Checks;
    assert w'.history[c.epoch] == w.history[c.epoch];
  }

  /** A step that touches the given flows only: everything else it finds sound stays sound. */
  lemma OnlyTouched(w: World, w': World, config: Config, touched: set<Packet>)
    requires Invariant(w, config) && Grows(w, w')
    requires w'.fw.rules == w'.history[|w'.history| - 1] && w'.fw.version == VersionOf(|w'.history| - 1)
    requires forall q :: q in w'.fw.table.conns && q !in touched ==>
               q in w.fw.table.conns && w'.fw.table.conns[q] == w.fw.table.conns[q]
               && q in w'.origin && w'.origin[q] == w.origin[q]
    requires forall p :: p in w'.fw.table.conns && p in touched ==> p in w'.origin && EntrySound(w', config, p)
    requires forall id :: id in w'.calls ==>
               CallSound(w', config, w'.calls[id]) || (id in w.calls && w'.calls[id] == w.calls[id])
    requires forall i :: |w.log| <= i < |w'.log| ==> EventSound(w', config, i)
    ensures Invariant(w', config)
  {
    hide EntrySound, EventSound, CallSound;
    forall q | q in w'.fw.table.conns ensures EntrySound(w', config, q) {
      if q !in touched { EntryStays(w, w', config, q); }
    }
    forall i | 0 <= i < |w'.log| ensures EventSound(w', config, i) {
      if i < |w.log| { EventStays(w, w', config, i); }
    }
    forall id | id in w'.calls ensures CallSound(w', config, w'.calls[id]) {
      if id in w.calls && w'.calls[id] == w.calls[id] { CallStays(w, w', config, w.calls[id]); }
    }
  }

  lemma RulesAreCurrent(w: World, config: Config)
    requires Invariant(w, config)
    ensures Tracked(w)
    ensures w.history != [] && w.fw.rules == w.history[|w.history| - 1] && w.fw.version == VersionOf(|w.history| - 1)
  {
  }

  lemma AcceptedShape(w: World, c: Call, table: Table)
    requires c.packet in Purged(w.fw.table, c.now).conns && c.packet in w.origin
    ensures var w' := Accepted(w, c, table);
            && w'.fw == w.fw.(table := table) && w'.history == w.history && w'.calls == w.calls
            && |w'.log| == |w.log| + 1
            && w'.origin == w.origin[c.packet := w'.origin[c.packet]]
  {
    hide Purged;
  }

  lemma AcceptingKeepsInvariant(w: World, config: Config, id: nat, c: Call, table: Table)
    requires Invariant(w, config) && CallSound(w, config, c)
    requires c.packet in w.fw.table.conns && c.packet in Purged(w.fw.table, c.now).conns
    requires Purged(w.fw.table, c.now).conns[c.packet] == w.fw.table.conns[c.packet]
    requires w.fw.table.conns[c.packet].rulesVersion == c.version
             || Matches(c.rules, c.packet, w.fw.table.conns[c.packet].incoming, c.remote)
    requires c.packet in table.conns && table.conns[c.packet].rulesVersion == c.version
             && table.conns[c.packet].incoming == w.fw.table.conns[c.packet].incoming
    requires forall p :: p in table.conns && p != c.packet ==>
               p in w.fw.table.conns && table.conns[p] == w.fw.table.conns[p]
    ensures Invariant(Accepted(w, c, table).(calls := w.calls - {id}), config)
  {
    hide Invariant, Purged, Matches, EntrySound, EventSound, CallSound;
    RulesAreCurrent(w, config);
    var w1 := Accepted(w, c, table);
    var w' := w1.(calls := w.calls - {id});
    AcceptedIsSound(w, config, c, table);
    SameRecord(w', w1, config);
    AcceptedShape(w, c, table);
    hide Accepted;
    OnlyTouched(w, w', config, {c.packet});
  }

  lemma MissingKeepsInvariant(w: World, config: Config, id: nat, c: Call, table: Table)
    requires Invariant(w, config) && CallSound(w, config, c)
    requires c.packet !in table.conns
    requires forall p :: p in table.conns && p != c.packet ==>
               p in w.fw.table.conns && table.conns[p] == w.fw.table.conns[p]
    ensures Invariant(w.(fw := w.fw.(table := table), calls := w.calls[id := c.(phase := Unknown)]), config)
  {
    var w' := w.(fw := w.fw.(table := table), calls := w.calls[id := c.(phase := Unknown)]);
    hide Invariant, Checks, Matches, EntrySound, EventSound;
    RulesAreCurrent(w, config);
    assert CallSound(w', config, c.(phase := Unknown));
    hide CallSound;
    OnlyTouched(w, w', config, {c.packet});
  }

  /** What the first locked section makes of the whole state. */
  lemma LookupStep(w: World, config: Config, id: nat)
    requires Tracked(w) && id in w.calls && w.calls[id].phase.Snapped?
    ensures var c := w.calls[id];
            var (table, passed) :=
              FirstSection(w.fw.table, config.options, c.packet, c.version, c.rules, c.remote, c.now);
            && (passed ==>
                  && c.packet in Purged(w.fw.table, c.now).conns && c.packet in w.origin
                  && Do(w, config, Lookup(id)) == Accepted(w, c, table).(calls := w.calls - {id}))
            && (!passed ==>
                  Do(w, config, Lookup(id))
                  == w.(fw := w.fw.(table := table), calls := w.calls[id := c.(phase := Unknown)]))
  {
    var c := w.calls[id];
    FirstSectionTable(w.fw.table, config.options, c.packet, c.version, c.rules, c.remote, c.now);
    hide FirstSection, Purged, Matches, Checks, Accepted, AdmittedBy;
  }

  lemma LookupKeepsInvariant(w: World, config: Config, id: nat)
    requires Invariant(w, config)
    ensures Invariant(Do(w, config, Lookup(id)), config)
  {
    hide EntrySound, EventSound, CallSound, Accepted, AdmittedBy, FirstSection, Purged, Matches, Checks;
    if id in w.calls && w.calls[id].phase.Snapped? {
      var c := w.calls[id];
      assert CallSound(w, config, c);
      LookupStep(w, config, id);
      FirstSectionTable(w.fw.table, config.options, c.packet, c.version, c.rules, c.remote, c.now);
      var (table, passed) := FirstSection(w.fw.table, config.options, c.packet, c.version, c.rules, c.remote, c.now);
      hide Do;
      if passed {
        AcceptingKeepsInvariant(w, config, id, c, table);
      } else {
        MissingKeepsInvariant(w, config, id, c, table);
      }
    }
  }

  /** The predicates on flows and events depend on the log, the history, the table and origins. */
  lemma SameRecord(w: World, w': World, config: Config)
    requires w.log == w'.log && w.history == w'.history && w.fw == w'.fw && w.origin == w'.origin
    ensures forall i: nat :: i < |w.log| ==> EventSound(w, config, i) == EventSound(w', config, i)
    ensures forall p :: p in w.fw.table.conns && p in w.origin ==> EntrySound(w, config, p) == EntrySound(w', config, p)
  {
    hide Matches, Legitimate;
  }

  /** The event of an accept in the first locked section, and the flow's refreshed entry. */
  lemma AcceptedIsSound(w: World, config: Config, c: Call, table: Table)
    requires Invariant(w, config) && CallSound(w, config, c)
    requires c.packet in w.fw.table.conns && c.packet in Purged(w.fw.table, c.now).conns
    requires Purged(w.fw.table, c.now).conns[c.packet] == w.fw.table.conns[c.packet]
    requires w.fw.table.conns[c.packet].rulesVersion == c.version
             || Matches(c.rules, c.packet, w.fw.table.conns[c.packet].incoming, c.remote)
    requires c.packet in table.conns && table.conns[c.packet].rulesVersion == c.version
             && table.conns[c.packet].incoming == w.fw.table.conns[c.packet].incoming
    ensures var w' := Accepted(w, c, table);
            && EventSound(w', config, |w.log|)
            && c.packet in w'.origin && EntrySound(w', config, c.packet)
            && Grows(w, w')
  {
    hide Purged, Matches, Legitimate, Checks;
    var w', e, o := Accepted(w, c, table), w.fw.table.conns[c.packet], w.origin[c.packet];
    assert EntrySound(w, config, c.packet);
    AdmittedStays(w, w', config, o.admission, c.packet, e.incoming);
    if e.rulesVersion == c.version {
      MatchedStays(w, w', o.source, c.packet, e.incoming, c.version);
    }
  }

  lemma AdmittedIsSound(w: World, config: Config, c: Call)
    requires CallSound(w, config, c) && c.phase.Passed?
    ensures var w' := AdmittedBy(w, config, c);
            && EventSound(w', config, |w.log|)
            && c.packet in w'.origin && EntrySound(w', config, c.packet)
            && Grows(w, w')
  {
    AcceptedIsLegitimate(config, c);
    hide Matches, Legitimate, Checks;
    var w', i := AdmittedBy(w, config, c), |w.log|;
    assert w'.log[i] == Event(Admitted, c.packet, c.incoming, c.remote, c.epoch, i, i);
    assert RulesMatched(w', i, c.packet, c.incoming, c.version);
    assert WasAdmitted(w', config, i, c.packet, c.incoming);
  }

  lemma AdmittingKeepsInvariant(w: World, config: Config, id: nat, c: Call)
    requires Invariant(w, config) && CallSound(w, config, c) && c.phase.Passed?
    ensures Invariant(AdmittedBy(w, config, c).(calls := w.calls - {id}), config)
  {
    hide Invariant, Checks, EventSound, EntrySound, CallSound, AdmittedBy;
    RulesAreCurrent(w, config);
    var w1 := AdmittedBy(w, config, c);
    var w' := w1.(calls := w.calls - {id});
    AdmittedShape(w, config, c);
    AdmittedIsSound(w, config, c);
    SameRecord(w', w1, config);
    OnlyTouched(w, w', config, {c.packet});
  }

  lemma FinishKeepsInvariant(w: World, config: Config, id: nat)
    requires Invariant(w, config)
    ensures Invariant(Do(w, config, Finish(id)), config)
  {
    hide CallSound, EventSound, EntrySound, AdmittedBy, FirstSection, Accepted, Checks;
    if id in w.calls && w.calls[id].phase.Passed? {
      assert CallSound(w, config, w.calls[id]);
      AdmittingKeepsInvariant(w, config, id, w.calls[id]);
    }
  }

  lemma AdmittedShape(w: World, config: Config, c: Call)
    ensures var w' := AdmittedBy(w, config, c);
            && w'.fw.rules == w.fw.rules && w'.fw.version == w.fw.version && w'.history == w.history
            && w'.calls == w.calls && |w'.log| == |w.log| + 1 && c.packet in w'.fw.table.conns
            && (forall p :: p in w'.fw.table.conns && p != c.packet ==>
                  p in w.fw.table.conns && w'.fw.table.conns[p] == w.fw.table.conns[p])
            && w'.origin == w.origin[c.packet := Origin(|w.log|, |w.log|)]
  {
    hide Push;
  }

  lemma ReloadKeepsInvariant(w: World, config: Config, rules: RuleSet)
    requires Invariant(w, config)
    ensures Invariant(Do(w, config, Reload(rules)), config)
  {
    RulesAreCurrent(w, config);
    NextVersionOf(|w.history| - 1);
    hide Invariant, EntrySound, EventSound, CallSound, NextVersion, VersionOf;
    OnlyTouched(w, Do(w, config, Reload(rules)), config, {});
  }

  lemma SoundCallsKeepInvariant(w: World, config: Config, calls: map<nat, Call>)
    requires Invariant(w, config)
    requires forall id :: id in calls ==> CallSound(w, config, calls[id])
    ensures Invariant(w.(calls := calls), config)
  {
    var w' := w.(calls := calls);
    SameRecord(w', w, config);
    hide EntrySound, EventSound, Checks;
    forall id | id in calls ensures CallSound(w', config, calls[id]) { assert CallSound(w, config, calls[id]); }
  }

  /** Taking a snapshot, and checking without the lock, change only the call itself. */
  lemma CallStepKeepsInvariant(w: World, config: Config, a: Action)
    requires Invariant(w, config)
    requires a.Begin? || a.Check?
    ensures Invariant(Do(w, config, a), config)
  {
    RulesAreCurrent(w, config);
    assert forall id :: id in w.calls ==> CallSound(w, config, w.calls[id]);
    hide Invariant, EntrySound, EventSound, Checks, FirstSection, Accepted, AdmittedBy;
    SoundCallsKeepInvariant(w, config, Do(w, config, a).calls);
    assert Do(w, config, a) == w.(calls := Do(w, config, a).calls);
  }

  lemma StepKeepsInvariant(w: World, config: Config, a: Action)
    requires Invariant(w, config)
    ensures Invariant(Do(w, config, a), config)
  {
    match a
    case Lookup(id) => LookupKeepsInvariant(w, config, id);
    case Finish(id) => FinishKeepsInvariant(w, config, id);
    case Reload(rules) => ReloadKeepsInvariant(w, config, rules);
    case _ => CallStepKeepsInvariant(w, config, a);
  }

  function Run(rules: RuleSet, config: Config, actions: seq<Action>): (w: World)
    ensures Tracked(w)
  {
    if actions == [] then Start(rules)
    else
      var w := Run(rules, config, actions[..|actions| - 1]);
      StepKeepsTracked(w, config, actions[|actions| - 1]);
      Do(w, config, actions[|actions| - 1])
  }

  lemma StepKeepsTracked(w: World, config: Config, a: Action)
    requires Tracked(w)
    ensures Tracked(Do(w, config, a))
  {
    if a.Lookup? && a.id in w.calls && w.calls[a.id].phase.Snapped? {
      var c := w.calls[a.id];
      FirstSectionTable(w.fw.table, config.options, c.packet, c.version, c.rules, c.remote, c.now);
      hide FirstSection, Purged;
    }
  }

  lemma {:induction false} RunInvariant(rules: RuleSet, config: Config, actions: seq<Action>)
    ensures Invariant(Run(rules, config, actions), config)
  {
    if actions != [] {
      RunInvariant(rules, config, actions[..|actions| - 1]);
      StepKeepsInvariant(Run(rules, config, actions[..|actions| - 1]), config, actions[|actions| - 1]);
    }
  }

  /** In every interleaving of evaluations and reloads, for every packet ever accepted: its local
      address is routable; its flow was admitted, by this packet itself or by an earlier one, whose
      peer owned the remote address; and the ruleset of the accepting call's own snapshot matched
      the packet, in the direction of that admission, for a peer presented with this packet or an
      earlier one of the flow - provided fewer than 2^16 reloads separate that earlier match's
      ruleset from the snapshot. A packet that did not take the fast path was matched for its own
      peer, without proviso. */
  lemma AcceptsAreJustified(rules: RuleSet, config: Config, actions: seq<Action>, i: nat)
    requires i < |Run(rules, config, actions).log|
    ensures var w := Run(rules, config, actions);
            var e := w.log[i];
            && (exists n :: n in config.routable && Contains(n, e.packet.localAddr))
            && e.source <= i && e.admission <= i && e.epoch < |w.history|
            && (e.source == i <==> e.route != FastPath) && (e.admission == i <==> e.route == Admitted)
            && WasAdmitted(w, config, e.admission, e.packet, e.direction)
            && w.log[e.source].packet == e.packet && w.log[e.source].direction == e.direction
            && VersionOf(w.log[e.source].epoch) == VersionOf(e.epoch)
            && (-TWO16 < w.log[e.source].epoch - e.epoch < TWO16
                ==> Matches(w.history[e.epoch], e.packet, e.direction, w.log[e.source].remote))
            && (e.route != FastPath ==> Matches(w.history[e.epoch], e.packet, e.direction, e.remote))
  {
    RunInvariant(rules, config, actions);
    var w := Run(rules, config, actions);
    hide Run, Matches, AnyContains, Owns;
    assert EventSound(w, config, i);
    var e := w.log[i];
    if -TWO16 < w.log[e.source].epoch - e.epoch < TWO16 {
      VersionsDistinguish(w.log[e.source].epoch, e.epoch);
    }
  }

  /** Four steps of one call with nothing in between are one whole evaluation. */
  lemma StepsMakeEvaluation(
      w: World, config: Config, id: nat, packet: Packet, incoming: bool, remote: PeerIdentity, now: int)
    requires Tracked(w) && id !in w.calls
    ensures var w1 := Do(w, config, Begin(id, packet, incoming, remote, now));
            Tracked(w1) &&
            var w2 := Do(w1, config, Lookup(id));
            Tracked(w2) &&
            var w3 := Do(w2, config, Check(id));
            Tracked(w3) &&
            var w4 := Do(w3, config, Finish(id));
            var (fw, verdict) := Evaluated(w.fw, config, packet, incoming, remote, now);
            && w4.fw == fw && w4.calls == w.calls
            && (verdict.Accept? <==> |w4.log| == |w.log| + 1) && (verdict.Drop? <==> w4.log == w.log)
  {
    hide FirstSection, Checks, Purged, Recorded;
    var w1 := Do(w, config, Begin(id, packet, incoming, remote, now));
    StepKeepsTracked(w, config, Begin(id, packet, incoming, remote, now));
    var w2 := Do(w1, config, Lookup(id));
    StepKeepsTracked(w1, config, Lookup(id));
    var w3 := Do(w2, config, Check(id));
    StepKeepsTracked(w2, config, Check(id));
  }
}
