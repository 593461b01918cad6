/** The connection table: flows that already passed the rules, with lazily deleted expiries. */
module Conntrack {
  import opened Optional
  import opened Bits
  import opened FirewallPacket

  datatype ConnEntry = ConnEntry(expires: int, incoming: bool, rulesVersion: u16)

  /** A heap slot: look at this flow again at this time. */
  datatype Slot = Slot(at: int, packet: Packet)

  /** The table as a value. The heap is kept as the sequence of its slots in popping order. */
  datatype Table = Table(conns: map<Packet, ConnEntry>, heap: seq<Slot>)

  const EMPTY := Table(map[], [])

  function Push(heap: seq<Slot>, slot: Slot): (h: seq<Slot>)
    ensures |h| == |heap| + 1
  {
    if heap == [] || slot.at < heap[0].at then [slot] + heap else [heap[0]] + Push(heap[1..], slot)
  }

  /** How many slots are due at `now`. */
  function DueCount(heap: seq<Slot>, now: int): nat {
    if heap == [] then 0 else (if heap[0].at <= now then 1 else 0) + DueCount(heap[1..], now)
  }

  lemma {:induction false} DueCountPush(heap: seq<Slot>, slot: Slot, now: int)
    ensures DueCount(Push(heap, slot), now) == DueCount(heap, now) + if slot.at <= now then 1 else 0
  {
    if heap == [] || slot.at < heap[0].at {
      assert ([slot] + heap)[1..] == heap;
    } else {
      DueCountPush(heap[1..], slot, now);
      assert ([heap[0]] + Push(heap[1..], slot))[1..] == Push(heap[1..], slot);
    }
  }

  /** What popping a due slot does: evict the flow if it expired, reschedule it if it was
      refreshed, discard the slot if the flow is gone. */
  function Pop(t: Table, now: int): Table
    requires t.heap != []
  {
    var p, rest := t.heap[0].packet, t.heap[1..];
    if p !in t.conns then Table(t.conns, rest)
    else if t.conns[p].expires <= now then Table(t.conns - {p}, rest)
    else Table(t.conns, Push(rest, Slot(t.conns[p].expires, p)))
  }

  /** Every turn of the purge leaves fewer due slots, even when it pushes one back. */
  lemma PopDrains(t: Table, now: int)
    requires t.heap != [] && t.heap[0].at <= now
    ensures DueCount(Pop(t, now).heap, now) < DueCount(t.heap, now)
  {
    var p := t.heap[0].packet;
    if p in t.conns && t.conns[p].expires > now {
      DueCountPush(t.heap[1..], Slot(t.conns[p].expires, p), now);
    }
  }

  function Purged(t: Table, now: int): Table
    decreases DueCount(t.heap, now)
  {
    if t.heap == [] || t.heap[0].at > now then t
    else
      PopDrains(t, now);
      Purged(Pop(t, now), now)
  }

  function Lookup(t: Table, p: Packet): Option<(bool, u16)> {
    if p in t.conns then Some((t.conns[p].incoming, t.conns[p].rulesVersion)) else None
  }

  function Recorded(t: Table, p: Packet, incoming: bool, version: u16, now: int, timeout: nat): Table {
    Table(t.conns[p := ConnEntry(now + timeout, incoming, version)],
          if p in t.conns then t.heap else Push(t.heap, Slot(now + timeout, p)))
  }

  function Removed(t: Table, p: Packet): Table {
    Table(t.conns - {p}, t.heap)
  }

  class Conntrack {
    var conns: map<Packet, ConnEntry>
    var heap: seq<Slot>

    ghost function Contents(): Table
      reads this
    {
      Table(conns, heap)
    }

    constructor ()
      ensures Contents() == EMPTY
    {
      conns, heap := map[], [];
    }

    method PurgeExpired(now: int)
      modifies this
      ensures Contents() == Purged(old(Contents()), now)
    {
      while heap != [] && heap[0].at <= now
        invariant Purged(Contents(), now) == Purged(old(Contents()), now)
        decreases DueCount(heap, now)
      {
        PopDrains(Contents(), now);
        var packet := heap[0].packet;
        heap := heap[1..];
        if packet in conns {
          var entry := conns[packet];
          if entry.expires <= now {
            conns := conns - {packet};
          } else {
            heap := Push(heap, Slot(entry.expires, packet));
          }
        }
      }
    }

    method Get(packet: Packet, now: int) returns (r: Option<(bool, u16)>)
      modifies this
      ensures Contents() == Purged(old(Contents()), now)
      ensures r == Lookup(Contents(), packet)
    {
      PurgeExpired(now);
      if packet in conns {
        r := Some((conns[packet].incoming, conns[packet].rulesVersion));
      } else {
        r := None;
      }
    }

    method Record(packet: Packet, incoming: bool, version: u16, now: int, timeout: nat)
      modifies this
      ensures Contents() == Recorded(old(Contents()), packet, incoming, version, now, timeout)
    {
      var expires := now + timeout;
      var isNew := packet !in conns;
      conns := conns[packet := ConnEntry(expires, incoming, version)];
      if isNew {
        heap := Push(heap, Slot(expires, packet));
      }
    }

    method Remove(packet: Packet)
      modifies this
      ensures Contents() == Removed(old(Contents()), packet)
    {
      conns := conns - {packet};
    }
  }
}

/** Runs of the connection table against the plain history of what was done to it. */
module ConntrackRuns {
  import opened Optional
  import opened Bits
  import opened FirewallPacket
  import opened Conntrack

  datatype Op =
    | Record(p: Packet, incoming: bool, version: u16, now: int, timeout: nat)
    | Get(p: Packet, now: int)
    | Remove(p: Packet)
    | Purge(now: int)

  function Apply(t: Table, op: Op): Table {
    match op
    case Record(p, incoming, version, now, timeout) => Recorded(t, p, incoming, version, now, timeout)
    case Get(_, now) => Purged(t, now)
    case Remove(p) => Removed(t, p)
    case Purge(now) => Purged(t, now)
  }

  function Run(ops: seq<Op>): Table {
    if ops == [] then EMPTY else Apply(Run(ops[..|ops| - 1]), ops[|ops| - 1])
  }

  /** No operation's time is more than `lag` behind that of an earlier one, and none is more
      than `lag` after `until`. With `lag` 0, times never decrease. */
  ghost predicate Timely(ops: seq<Op>, until: int, lag: nat) {
    && (forall i, j :: 0 <= i < j < |ops| && !ops[i].Remove? && !ops[j].Remove? ==> ops[i].now <= ops[j].now + lag)
    && (forall op :: op in ops && !op.Remove? ==> op.now <= until + lag)
  }

  /** Every record of a flow uses the same timeout: it depends on the packet alone. */
  ghost predicate FixedTimeouts(ops: seq<Op>, timeoutOf: Packet -> nat) {
    forall op :: op in ops && op.Record? ==> op.timeout == timeoutOf(op.p)
  }

  /** The entry made by the latest record of `p`, unless a remove of `p` came after it. */
  function Latest(ops: seq<Op>, p: Packet): Option<ConnEntry> {
    if ops == [] then None
    else
      var last := ops[|ops| - 1];
      if last.Record? && last.p == p then Some(ConnEntry(last.now + last.timeout, last.incoming, last.version))
      else if last.Remove? && last.p == p then None
      else Latest(ops[..|ops| - 1], p)
  }

  /** What a plain map from flows to expiries would answer at `now`. */
  function Expected(ops: seq<Op>, p: Packet, now: int): Option<(bool, u16)> {
    match Latest(ops, p)
    case Some(e) => if e.expires > now then Some((e.incoming, e.rulesVersion)) else None
    case None => None
  }

  lemma RunAppend(ops: seq<Op>, op: Op)
    ensures Run(ops + [op]) == Apply(Run(ops), op)
  {
    assert (ops + [op])[..|ops|] == ops;
  }

  // ---- One flow at a time ----

  predicate Sorted(heap: seq<Slot>) {
    forall i, j :: 0 <= i < j < |heap| ==> heap[i].at <= heap[j].at
  }

  /** When the heap holds a slot for `p`. */
  function SlotTimes(heap: seq<Slot>, p: Packet): set<int> {
    if heap == [] then {} else (if heap[0].packet == p then {heap[0].at} else {}) + SlotTimes(heap[1..], p)
  }

  predicate Due(slots: set<int>, now: int) {
    exists s :: s in slots && s <= now
  }

  /** All that one flow's future depends on: its entry and the times of its slots. */
  datatype Fate = Fate(entry: Option<ConnEntry>, slots: set<int>)

  function FateIn(t: Table, p: Packet): Fate {
    Fate(if p in t.conns then Some(t.conns[p]) else None, SlotTimes(t.heap, p))
  }

  /** What a purge does to one flow: a due slot evicts an expired entry and reschedules a live
      one; without a due slot nothing is looked at. */
  function Swept(f: Fate, now: int): Fate {
    var later := set s | s in f.slots && s > now;
    if !Due(f.slots, now) then f
    else if f.entry.Some? && f.entry.value.expires > now then Fate(f.entry, later + {f.entry.value.expires})
    else Fate(None, later)
  }

  /** What one operation does to the flow of `p`. */
  function Next(f: Fate, op: Op, p: Packet): Fate {
    match op
    case Record(q, incoming, version, now, timeout) =>
      if q != p then f
      else
        var e := ConnEntry(now + timeout, incoming, version);
        Fate(Some(e), f.slots + if f.entry.Some? then {} else {e.expires})
    case Get(_, now) => Swept(f, now)
    case Remove(q) => if q != p then f else f.(entry := None)
    case Purge(now) => Swept(f, now)
  }

  /** The fate of one flow after a run: only its own records and removes and the times of the
      purges count, whatever the other flows do. */
  function FateOf(ops: seq<Op>, p: Packet): Fate {
    if ops == [] then Fate(None, {}) else Next(FateOf(ops[..|ops| - 1], p), ops[|ops| - 1], p)
  }

  lemma {:induction false} SortedPush(heap: seq<Slot>, slot: Slot)
    requires Sorted(heap)
    ensures Sorted(Push(heap, slot))
    ensures forall s :: s in Push(heap, slot) ==> s in heap || s == slot
  {
    if heap != [] && slot.at >= heap[0].at {
      var rest := Push(heap[1..], slot);
      SortedPush(heap[1..], slot);
      assert forall j :: 0 <= j < |rest| ==> rest[j] in rest && heap[0].at <= rest[j].at;
    }
  }

  lemma {:induction false} SlotTimesPush(heap: seq<Slot>, slot: Slot, p: Packet)
    ensures SlotTimes(Push(heap, slot), p) == SlotTimes(heap, p) + if slot.packet == p then {slot.at} else {}
  {
    if heap == [] || slot.at < heap[0].at {
      assert ([slot] + heap)[1..] == heap;
    } else {
      SlotTimesPush(heap[1..], slot, p);
      assert ([heap[0]] + Push(heap[1..], slot))[1..] == Push(heap[1..], slot);
    }
  }

  lemma {:induction false} SlotsAreNotBefore(heap: seq<Slot>, p: Packet, start: int)
    requires forall s :: s in heap ==> s.at > start
    ensures !Due(SlotTimes(heap, p), start)
  {
    if heap != [] {
      assert heap[0] in heap && forall s :: s in heap[1..] ==> s in heap;
      SlotsAreNotBefore(heap[1..], p, start);
    }
  }

  lemma SweepEvicted(f: Fate, due: int, now: int)
    requires due <= now && (f.entry.None? || f.entry.value.expires <= now)
    ensures Swept(f.(slots := f.slots + {due}), now) == Swept(f.(entry := None), now)
  {
    assert due in f.slots + {due};
    assert (set s | s in f.slots + {due} && s > now) == set s | s in f.slots && s > now;
    if !Due(f.slots, now) { assert f.slots == set s | s in f.slots && s > now; }
  }

  lemma SweepRescheduled(f: Fate, due: int, now: int)
    requires due <= now && f.entry.Some? && f.entry.value.expires > now
    ensures Swept(f.(slots := f.slots + {due}), now) == Swept(f.(slots := f.slots + {f.entry.value.expires}), now)
  {
    var e := f.entry.value.expires;
    assert due in f.slots + {due};
    assert (set s | s in f.slots + {due} && s > now) == set s | s in f.slots && s > now;
    assert (set s | s in f.slots + {e} && s > now) == (set s | s in f.slots && s > now) + {e};
    if !Due(f.slots, now) { assert f.slots == set s | s in f.slots && s > now; }
    assert Due(f.slots + {e}, now) == Due(f.slots, now) by {
      if Due(f.slots, now) {
        var s :| s in f.slots && s <= now;
        assert s in f.slots + {e};
      }
    }
  }

  /** Popping a due slot does not change what a sweep makes of a flow. */
  lemma PopThenSweep(t: Table, now: int, p: Packet)
    requires t.heap != [] && t.heap[0].at <= now
    ensures Swept(FateIn(Pop(t, now), p), now) == Swept(FateIn(t, p), now)
  {
    hide Swept, Push;
    var s, rest := t.heap[0], t.heap[1..];
    var again := s.packet in t.conns && t.conns[s.packet].expires > now;
    if again { SlotTimesPush(rest, Slot(t.conns[s.packet].expires, s.packet), p); }
    var f := FateIn(t, p).(slots := SlotTimes(rest, p));
    if s.packet != p {
      assert FateIn(Pop(t, now), p) == FateIn(t, p) == f;
    } else {
      assert FateIn(t, p) == f.(slots := f.slots + {s.at});
      if again { SweepRescheduled(f, s.at, now); } else { SweepEvicted(f, s.at, now); }
    }
  }

  lemma PopKeepsSorted(t: Table, now: int)
    requires Sorted(t.heap) && t.heap != []
    ensures Sorted(Pop(t, now).heap)
  {
    var p := t.heap[0].packet;
    if p in t.conns && t.conns[p].expires > now { SortedPush(t.heap[1..], Slot(t.conns[p].expires, p)); }
  }

  lemma {:induction false} PurgeKeepsSorted(t: Table, now: int)
    requires Sorted(t.heap)
    ensures Sorted(Purged(t, now).heap)
    decreases DueCount(t.heap, now)
  {
    if t.heap != [] && t.heap[0].at <= now {
      PopDrains(t, now);
      PopKeepsSorted(t, now);
      PurgeKeepsSorted(Pop(t, now), now);
    }
  }

  /** A purge sweeps every flow, each on its own. */
  lemma {:induction false} PurgeSweeps(t: Table, now: int, p: Packet)
    requires Sorted(t.heap)
    ensures FateIn(Purged(t, now), p) == Swept(FateIn(t, p), now)
    decreases DueCount(t.heap, now)
  {
    if t.heap == [] || t.heap[0].at > now {
      SlotsAreNotBefore(t.heap, p, now);
    } else {
      PopDrains(t, now);
      PopKeepsSorted(t, now);
      PopThenSweep(t, now, p);
      PurgeSweeps(Pop(t, now), now, p);
    }
  }

  /** Whatever the times: a purge keeps a flow exactly if it has not expired, or none of its
      slots is due. */
  lemma PurgeKeeps(t: Table, now: int, p: Packet)
    requires Sorted(t.heap)
    ensures p in Purged(t, now).conns
            <==> p in t.conns && (t.conns[p].expires > now || !Due(SlotTimes(t.heap, p), now))
    ensures p in Purged(t, now).conns ==> Purged(t, now).conns[p] == t.conns[p]
  {
    PurgeSweeps(t, now, p);
    hide Purged, SlotTimes;
    assert FateIn(Purged(t, now), p).entry == Swept(FateIn(t, p), now).entry;
  }

  /** Every tracked flow has a slot no later than its expiry. */
  ghost predicate Covered(t: Table) {
    Sorted(t.heap) && forall p :: p in t.conns ==> Due(SlotTimes(t.heap, p), t.conns[p].expires)
  }

  /** Then purging removes exactly the flows whose expiry is at or before `now`. */
  lemma PurgeIsExact(t: Table, now: int)
    requires Covered(t)
    ensures Covered(Purged(t, now))
    ensures forall p :: p in Purged(t, now).conns <==> p in t.conns && t.conns[p].expires > now
    ensures forall p :: p in Purged(t, now).conns ==> Purged(t, now).conns[p] == t.conns[p]
  {
    var t' := Purged(t, now);
    hide Purged, SlotTimes, Sorted;
    PurgeKeepsSorted(t, now);
    forall p
      ensures p in t'.conns <==> p in t.conns && t.conns[p].expires > now
      ensures p in t'.conns ==> t'.conns[p] == t.conns[p] && Due(SlotTimes(t'.heap, p), t'.conns[p].expires)
    {
      PurgeKeeps(t, now, p);
      PurgeSweeps(t, now, p);
      assert SlotTimes(t'.heap, p) == Swept(FateIn(t, p), now).slots;
    }
  }

  // ---- Runs ----

  lemma RecordFate(t: Table, op: Op, p: Packet)
    requires Sorted(t.heap) && op.Record?
    ensures Sorted(Apply(t, op).heap)
    ensures FateIn(Apply(t, op), p) == Next(FateIn(t, p), op, p)
  {
    var slot := Slot(op.now + op.timeout, op.p);
    if op.p !in t.conns {
      SortedPush(t.heap, slot);
      SlotTimesPush(t.heap, slot, p);
    }
    hide Push, SlotTimes, Sorted, Swept, Purged;
  }

  lemma ApplyFate(t: Table, op: Op, p: Packet)
    requires Sorted(t.heap)
    ensures Sorted(Apply(t, op).heap)
    ensures FateIn(Apply(t, op), p) == Next(FateIn(t, p), op, p)
  {
    hide Push, SlotTimes, Sorted, Swept, Purged, Recorded;
    match op
    case Record(_, _, _, _, _) => RecordFate(t, op, p);
    case Remove(_) =>
    case _ => PurgeSweeps(t, op.now, p); PurgeKeepsSorted(t, op.now);
  }

  /** In every run, with any times and timeouts, the table and its shared heap do to each flow
      what the flow's own history says. */
  lemma {:induction false} RunIsFates(ops: seq<Op>, p: Packet)
    ensures Sorted(Run(ops).heap)
    ensures FateIn(Run(ops), p) == FateOf(ops, p)
  {
    if ops != [] {
      var front, op := ops[..|ops| - 1], ops[|ops| - 1];
      RunIsFates(front, p);
      ApplyFate(Run(front), op, p);
      hide Next, Apply, SlotTimes;
    }
  }

  /** With any times: a tracked flow carries its latest record and nothing older. */
  lemma {:induction false} TrackedIsLatest(ops: seq<Op>, p: Packet)
    ensures FateOf(ops, p).entry.Some? ==> Latest(ops, p) == FateOf(ops, p).entry
  {
    if ops != [] { TrackedIsLatest(ops[..|ops| - 1], p); }
  }

  /** With any times and timeouts, a lookup answers as the latest record or remove says exactly
      when no purge evicted a record that is still within its timeout, and a record past its
      timeout, if still tracked, has a slot that is due. Both can be read off the flow's own
      history; an answer, right or stale, is never about an older record. */
  lemma LookupIsExactWhen(ops: seq<Op>, p: Packet, now: int)
    ensures Lookup(Apply(Run(ops), Get(p, now)), p) == Expected(ops, p, now) <==>
            match Latest(ops, p)
            case None => true
            case Some(e) =>
              if e.expires > now then p in Run(ops).conns
              else p in Run(ops).conns ==> Due(SlotTimes(Run(ops).heap, p), now)
    ensures p in Run(ops).conns <==> FateOf(ops, p).entry.Some?
    ensures SlotTimes(Run(ops).heap, p) == FateOf(ops, p).slots
    ensures Lookup(Apply(Run(ops), Get(p, now)), p).Some? ==>
              && Latest(ops, p).Some?
              && var e := Latest(ops, p).value;
                 Lookup(Apply(Run(ops), Get(p, now)), p) == Some((e.incoming, e.rulesVersion))
  {
    RunIsFates(ops, p);
    TrackedIsLatest(ops, p);
    PurgeKeeps(Run(ops), now, p);
    hide Run, Purged, FateOf, Latest, SlotTimes;
  }

  /** When a refresh carries an earlier time than the record before it, the flow outlives its
      latest expiry up to the first one: there, and only there, the lookup is wrong. */
  lemma EarlierRefreshOutlives(
      p: Packet, incoming: bool, first: u16, second: u16, late: int, early: int, timeout: nat, now: int)
    requires early <= late
    ensures var ops := [Record(p, incoming, first, late, timeout), Record(p, incoming, second, early, timeout)];
            Lookup(Apply(Run(ops), Get(p, now)), p) == Expected(ops, p, now) <==>
              !(early + timeout <= now < late + timeout)
  {
    var r1, r2 := Record(p, incoming, first, late, timeout), Record(p, incoming, second, early, timeout);
    var ops := [r1, r2];
    assert ops[..1] == [r1] && [r1][..0] == [];
    assert FateOf([r1], p) == Fate(Some(ConnEntry(late + timeout, incoming, first)), {late + timeout});
    assert FateOf(ops, p) == Fate(Some(ConnEntry(early + timeout, incoming, second)), {late + timeout});
    LookupIsExactWhen(ops, p, now);
  }

  // ---- Times that are nearly in order ----

  lemma TimelyFront(ops: seq<Op>, until: int, lag: nat)
    requires Timely(ops, until, lag) && ops != []
    ensures var front, last := ops[..|ops| - 1], ops[|ops| - 1];
            && Timely(front, until, lag)
            && (!last.Remove? ==> Timely(front, last.now, lag) && last.now <= until + lag)
  {
    var front, last := ops[..|ops| - 1], ops[|ops| - 1];
    assert ops == front + [last] && last in ops;
  }

  lemma FixedTimeoutsFront(ops: seq<Op>, timeoutOf: Packet -> nat)
    requires FixedTimeouts(ops, timeoutOf) && ops != []
    ensures FixedTimeouts(ops[..|ops| - 1], timeoutOf)
    ensures var last := ops[|ops| - 1]; last.Record? ==> last.timeout == timeoutOf(last.p)
  {
    assert ops[|ops| - 1] in ops;
  }

  /** No slot lies further ahead than a timeout from the latest time. */
  lemma {:induction false} SlotsAreBounded(ops: seq<Op>, p: Packet, until: int, lag: nat, timeoutOf: Packet -> nat)
    requires Timely(ops, until, lag) && FixedTimeouts(ops, timeoutOf)
    ensures forall s :: s in FateOf(ops, p).slots ==> s <= until + lag + timeoutOf(p)
    ensures FateOf(ops, p).entry.Some? ==> FateOf(ops, p).entry.value.expires <= until + lag + timeoutOf(p)
  {
    if ops != [] {
      var front, op := ops[..|ops| - 1], ops[|ops| - 1];
      TimelyFront(ops, until, lag);
      FixedTimeoutsFront(ops, timeoutOf);
      hide Timely, FixedTimeouts;
      SlotsAreBounded(front, p, until, lag, timeoutOf);
    }
  }

  lemma NextKeepsCovered(f: Fate, op: Op, p: Packet, lag: nat)
    requires f.entry.Some? ==> Due(f.slots, f.entry.value.expires + lag)
    requires op.Record? && op.p == p && f.entry.Some? ==>
               forall s :: s in f.slots ==> s <= op.now + op.timeout + lag
    ensures var f' := Next(f, op, p); f'.entry.Some? ==> Due(f'.slots, f'.entry.value.expires + lag)
  {
    var f' := Next(f, op, p);
    if f'.entry.Some? {
      var e := f'.entry.value.expires;
      if f.entry.Some? {
        var s :| s in f.slots && s <= f.entry.value.expires + lag;
        assert s in f'.slots || e in f'.slots;
      } else {
        assert e in f'.slots;
      }
    }
  }

  /** Every tracked flow has a slot no later than `lag` after its expiry. */
  lemma {:induction false} CoveredWithinLag(ops: seq<Op>, p: Packet, until: int, lag: nat, timeoutOf: Packet -> nat)
    requires Timely(ops, until, lag) && FixedTimeouts(ops, timeoutOf)
    ensures var f := FateOf(ops, p); f.entry.Some? ==> Due(f.slots, f.entry.value.expires + lag)
  {
    if ops != [] {
      var front, op := ops[..|ops| - 1], ops[|ops| - 1];
      TimelyFront(ops, until, lag);
      FixedTimeoutsFront(ops, timeoutOf);
      hide Timely, FixedTimeouts, Next, Due;
      CoveredWithinLag(front, p, until, lag, timeoutOf);
      if op.Record? { SlotsAreBounded(front, p, op.now, lag, timeoutOf); }
      NextKeepsCovered(FateOf(front, p), op, p, lag);
    }
  }

  /** A record that outlasts every purge so far is still tracked. */
  lemma {:induction false} LatestIsTracked(ops: seq<Op>, p: Packet, until: int, lag: nat)
    requires Timely(ops, until, lag)
    requires Latest(ops, p).Some? && Latest(ops, p).value.expires > until + lag
    ensures FateOf(ops, p).entry == Latest(ops, p)
  {
    var front, op := ops[..|ops| - 1], ops[|ops| - 1];
    TimelyFront(ops, until, lag);
    hide Timely;
    if Latest(ops, p) == Latest(front, p) && front != [] { LatestIsTracked(front, p, until, lag); }
  }

  /** Expiry is exact up to how far times go back: when no time is more than `lag` behind an
      earlier one, a lookup knows a flow that has more than `lag` left and has forgotten one that
      is past its expiry by `lag`; whatever it answers is the latest record. */
  lemma GetWithinLag(ops: seq<Op>, p: Packet, now: int, lag: nat, timeoutOf: Packet -> nat)
    requires Timely(ops, now, lag) && FixedTimeouts(ops, timeoutOf)
    ensures var r := Lookup(Apply(Run(ops), Get(p, now)), p);
            match Latest(ops, p)
            case None => r.None?
            case Some(e) =>
              && (e.expires > now + lag ==> r.Some?)
              && (e.expires <= now - lag ==> r.None?)
              && (r.Some? ==> r == Some((e.incoming, e.rulesVersion)))
  {
    RunIsFates(ops, p);
    TrackedIsLatest(ops, p);
    PurgeKeeps(Run(ops), now, p);
    CoveredWithinLag(ops, p, now, lag, timeoutOf);
    if Latest(ops, p).Some? && Latest(ops, p).value.expires > now + lag { LatestIsTracked(ops, p, now, lag); }
    hide Run, Purged, FateOf, Latest, SlotTimes, Timely;
  }

  /** After any run with nondecreasing times and a fixed timeout per flow, a lookup answers
      exactly what the latest record or remove of that flow says, and every tracked flow has a
      slot no later than its expiry. */
  lemma GetIsExact(ops: seq<Op>, p: Packet, now: int, timeoutOf: Packet -> nat)
    requires Timely(ops, now, 0) && FixedTimeouts(ops, timeoutOf)
    ensures Lookup(Apply(Run(ops), Get(p, now)), p) == Expected(ops, p, now)
    ensures Covered(Run(ops))
  {
    GetWithinLag(ops, p, now, 0, timeoutOf);
    hide Run, Purged, Latest, Timely, SlotTimes, Due;
    RunIsFates(ops, p);
    forall q | q in Run(ops).conns ensures Due(SlotTimes(Run(ops).heap, q), Run(ops).conns[q].expires) {
      RunIsFates(ops, q);
      CoveredWithinLag(ops, q, now, 0, timeoutOf);
    }
  }

  // ---- Heap size ----

  function Packets(heap: seq<Slot>): set<Packet> {
    if heap == [] then {} else {heap[0].packet} + Packets(heap[1..])
  }

  lemma {:induction false} PacketsPush(heap: seq<Slot>, slot: Slot)
    ensures Packets(Push(heap, slot)) == Packets(heap) + {slot.packet}
  {
    if heap == [] || slot.at < heap[0].at {
      assert ([slot] + heap)[1..] == heap;
    } else {
      PacketsPush(heap[1..], slot);
      assert ([heap[0]] + Push(heap[1..], slot))[1..] == Push(heap[1..], slot);
    }
  }

  lemma {:induction false} PacketsBound(heap: seq<Slot>)
    ensures |Packets(heap)| <= |heap|
  {
    if heap != [] { PacketsBound(heap[1..]); }
  }

  lemma {:induction false} SubsetIsSmaller(a: set<Packet>, b: set<Packet>)
    requires a <= b
    ensures |a| <= |b|
  {
    if a != {} {
      var p :| p in a;
      SubsetIsSmaller(a - {p}, b - {p});
    }
  }

  /** How many slots there are beyond one per tracked flow. */
  function Excess(t: Table): int {
    |t.heap| - |t.conns|
  }

  lemma {:induction false} PurgeShrinksExcess(t: Table, now: int)
    requires Slotted(t)
    ensures Slotted(Purged(t, now))
    ensures Excess(Purged(t, now)) <= Excess(t)
    decreases DueCount(t.heap, now)
  {
    if t.heap != [] && t.heap[0].at <= now {
      var p := t.heap[0].packet;
      if p in t.conns && t.conns[p].expires > now {
        PacketsPush(t.heap[1..], Slot(t.conns[p].expires, p));
      }
      if p in t.conns { RemoveShrinks(t.conns, p); }
      PopDrains(t, now);
      PurgeShrinksExcess(Pop(t, now), now);
    }
  }

  lemma RemoveShrinks(m: map<Packet, ConnEntry>, p: Packet)
    ensures |m - {p}| == |m| - if p in m then 1 else 0
  {
    assert (m - {p}).Keys == m.Keys - {p};
    assert |m.Keys - {p}| == |m.Keys| - if p in m.Keys then 1 else 0;
  }

  lemma InsertGrows(m: map<Packet, ConnEntry>, p: Packet, e: ConnEntry)
    ensures |m[p := e]| == |m| + if p in m then 0 else 1
  {
    assert m[p := e].Keys == m.Keys + {p};
    assert |m.Keys + {p}| == |m.Keys| + if p in m.Keys then 0 else 1;
  }

  /** How many removes in the run took a tracked flow out. */
  function EffectiveRemoves(ops: seq<Op>): nat {
    if ops == [] then 0
    else
      var front, last := ops[..|ops| - 1], ops[|ops| - 1];
      EffectiveRemoves(front) + if last.Remove? && last.p in Run(front).conns then 1 else 0
  }

  /** At least one slot per tracked flow. */
  predicate Slotted(t: Table) {
    t.conns.Keys <= Packets(t.heap)
  }

  lemma RecordKeepsExcess(t: Table, p: Packet, incoming: bool, version: u16, now: int, timeout: nat)
    requires Slotted(t)
    ensures Slotted(Recorded(t, p, incoming, version, now, timeout))
    ensures Excess(Recorded(t, p, incoming, version, now, timeout)) == Excess(t)
  {
    PacketsPush(t.heap, Slot(now + timeout, p));
    InsertGrows(t.conns, p, ConnEntry(now + timeout, incoming, version));
    hide Packets;
  }

  lemma {:induction false} RunHeap(ops: seq<Op>)
    ensures Slotted(Run(ops))
    ensures Excess(Run(ops)) <= EffectiveRemoves(ops)
  {
    if ops != [] {
      var front, op := ops[..|ops| - 1], ops[|ops| - 1];
      var t := Run(front);
      RunHeap(front);
      match op
      case Record(p, incoming, version, now, timeout) =>
        RecordKeepsExcess(t, p, incoming, version, now, timeout);
        hide Recorded;
      case Remove(p) => RemoveShrinks(t.conns, p);
      case _ => PurgeShrinksExcess(t, op.now); hide Purged;
    }
  }

  /** In every run, whatever the times: at least one slot per tracked flow, and at most one
      more for each flow that was removed before it expired. Refreshes add none. */
  lemma HeapIsBounded(ops: seq<Op>)
    ensures |Run(ops).conns| <= |Run(ops).heap| <= |Run(ops).conns| + EffectiveRemoves(ops)
  {
    RunHeap(ops);
    SubsetIsSmaller(Run(ops).conns.Keys, Packets(Run(ops).heap));
    PacketsBound(Run(ops).heap);
  }
}
