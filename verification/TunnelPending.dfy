/** What becomes of a handshake once begun, in any run: the first datagram that claims to answer
    it decides, whoever sent it. */
module TunnelPending {
  import opened Optional
  import opened Bits
  import opened Bytes
  import opened Net
  import opened Header
  import opened Ideal
  import opened Handshake
  import opened Session
  import opened ReplaySpec
  import opened Tunnel
  import opened TunnelSteps
  import opened TunnelTheorems
  import Transport
  import DerSpec

  // ---- Continuing a run ----

  function RunFrom(w: World, trust: Trust, actions: seq<Action>): World
    decreases |actions|
  {
    if actions == [] then w else RunFrom(Do(w, trust, actions[0]), trust, actions[1..])
  }

  lemma {:induction false} RunFromKeeps(w: World, trust: Trust, actions: seq<Action>)
    requires Invariant(w, trust)
    ensures Invariant(RunFrom(w, trust, actions), trust) && Grows(w, RunFrom(w, trust, actions))
    decreases |actions|
  {
    hide Invariant, Grows, Do;
    if actions == [] {
      GrowsRefl(w);
    } else {
      StepKeeps(w, trust, actions[0]);
      RunFromKeeps(Do(w, trust, actions[0]), trust, actions[1..]);
      GrowsTrans(w, Do(w, trust, actions[0]), RunFrom(w, trust, actions));
    }
  }

  lemma {:induction false} RunFromAppend(w: World, trust: Trust, xs: seq<Action>, ys: seq<Action>)
    ensures RunFrom(w, trust, xs + ys) == RunFrom(RunFrom(w, trust, xs), trust, ys)
    decreases |xs|
  {
    hide Do;
    if xs == [] {
      assert xs + ys == ys;
    } else {
      assert (xs + ys)[1..] == xs[1..] + ys;
      RunFromAppend(Do(w, trust, xs[0]), trust, xs[1..], ys);
    }
  }

  lemma {:induction false} RunFromIsRun(
      configs: map<bytes, Config>, trust: Trust, before: seq<Action>, after: seq<Action>)
    ensures RunFrom(Run(configs, trust, before), trust, after) == Run(configs, trust, before + after)
    decreases |after|
  {
    hide Do;
    if after == [] {
      assert before + after == before;
    } else {
      var next := before + [after[0]];
      assert next[..|next| - 1] == before;
      assert next + after[1..] == before + after;
      RunFromIsRun(configs, trust, next, after[1..]);
    }
  }

  lemma HandshakeHeaderParses(remoteIndex: u32, counter: u64)
    ensures Parse(HandshakeHeader(remoteIndex, counter))
            == Parsed(Header(VERSION, HANDSHAKE, IX_PSK0, remoteIndex, counter))
  {
    var h := Header(VERSION, HANDSHAKE, IX_PSK0, remoteIndex, counter);
    assert Encoded(h) + [] == Encoded(h);
    ParseEncoded(h, []);
  }

  // ---- The fate of a handshake ----

  /** Node `n` has sent this first message under index `i` and waits for the answer. */
  predicate IsPending(w: World, n: bytes, i: u32, sent: Stage0) {
    Has(w, n, i) && At(w, n, i) == Handshaking(sent)
  }

  /** A delivery to `n` of any handshake datagram that names index `i`. */
  predicate Answers(w: World, a: Action, n: bytes, i: u32) {
    && a.Deliver? && a.node == n && n in w.nodes && a.packet in w.net
    && var r := Parse(a.packet.header);
       r.Parsed? && r.header.kind == HANDSHAKE && r.header.remoteIndex == i
  }

  /** The datagram opens for the message sent and carries a certificate that checks out. */
  predicate Passes(config: Config, trust: Trust, sent: Stage0, body: Noise, now: int) {
    var f := Finish(config.cipher, sent, body);
    f.Some? && CheckPeer(NewInner(config), trust, f.value.theirs.cert, f.value.keys.remoteStatic, now).Some?
  }

  /** That is: it answers this very first message under the node's cipher, carries details with a
      nonzero index, and a certificate admitted for its static key. */
  lemma PassesExactly(config: Config, trust: Trust, sent: Stage0, body: Noise, now: int)
    ensures Passes(config, trust, sent, body, now) <==>
              && body.Second? && body.cipher == config.cipher && body.transcript == sent
              && body.payload.Some? && body.payload.value.responderIndex != 0
              && exists cert, addr ::
                   Admits(NewInner(config), trust, body.payload.value.cert, body.staticKey, now, cert, addr)
  {
    hide Admits, CheckPeer;
    if body.Second? && body.payload.Some? {
      AdmitsIsCheck(NewInner(config), trust, body.payload.value.cert, body.staticKey, now);
      var checked := CheckPeer(NewInner(config), trust, body.payload.value.cert, body.staticKey, now);
      if checked.Some? {
        var (c, a) := checked.value;
        assert Admits(NewInner(config), trust, body.payload.value.cert, body.staticKey, now, c, a);
      }
    }
  }

  datatype Outcome = Waiting | Failed | Opened(key: Key)

  /** The first datagram that names the handshake's index decides; none has if it still waits. */
  function OutcomeOf(w: World, trust: Trust, actions: seq<Action>, n: bytes, i: u32, sent: Stage0): Outcome
    decreases |actions|
  {
    if actions == [] then Waiting
    else if Answers(w, actions[0], n, i) then
      var body := AsNoise(actions[0].packet.body);
      if Passes(w.nodes[n].config, trust, sent, body, actions[0].now) then Opened(KeyOf(body)) else Failed
    else OutcomeOf(Do(w, trust, actions[0]), trust, actions[1..], n, i, sent)
  }

  lemma {:induction false} OutcomeAppend(
      w: World, trust: Trust, xs: seq<Action>, ys: seq<Action>, n: bytes, i: u32, sent: Stage0)
    ensures OutcomeOf(w, trust, xs + ys, n, i, sent)
            == var first := OutcomeOf(w, trust, xs, n, i, sent);
               if first.Waiting? then OutcomeOf(RunFrom(w, trust, xs), trust, ys, n, i, sent) else first
    decreases |xs|
  {
    hide Do, Answers, Passes;
    if xs == [] {
      assert xs + ys == ys;
    } else {
      assert (xs + ys)[1..] == xs[1..] + ys;
      OutcomeAppend(Do(w, trust, xs[0]), trust, xs[1..], ys, n, i, sent);
    }
  }

  /** What a step may do to one entry: a handshake appears with an ephemeral key never seen
      before, and a tunnel begun here comes from the handshake with its ephemeral key. */
  predicate EntryStep(w: World, w': World, n: bytes, i: u32) {
    Has(w', n, i) ==>
      match At(w', n, i)
      case Handshaking(s) => if Has(w, n, i) then At(w, n, i) == At(w', n, i) else s.ephemeral !in w.seen
      case Established(t, _, _, _, _) =>
        t.sendKey.first ==>
          && Has(w, n, i)
          && match At(w, n, i)
             case Handshaking(s) => t.sendKey.initEphemeral == s.ephemeral
             case Established(t0, _, _, _, _) => t.sendKey == t0.sendKey
  }

  /** The entry of a pending handshake is left alone. */
  predicate Leaves(w: World, w': World, n: bytes, i: u32) {
    Has(w, n, i) && At(w, n, i).Handshaking? ==> Has(w', n, i) && At(w', n, i) == At(w, n, i)
  }

  lemma ConnectEntry(w: World, trust: Trust, m: bytes, addr: IpAddr, waiter: nat, index: u32, e: nat, n: bytes, i: u32)
    requires m in w.nodes && Free(w.nodes[m], index) && e !in w.seen
    ensures var w' := DoConnect(w, m, addr, waiter, index, e); EntryStep(w, w', n, i) && Leaves(w, w', n, i)
  {
    hide DerSpec.HandshakeBytes, HandshakeHeader;
  }

  lemma FirstEntry(w: World, trust: Trust, m: bytes, p: Packet, from: nat, index: u32, e: nat, now: int,
                   n: bytes, i: u32)
    requires m in w.nodes && Free(w.nodes[m], index)
    ensures var w' := DoFirst(w, trust, m, p, from, index, e, now); EntryStep(w, w', n, i) && Leaves(w, w', n, i)
  {
    hide HandleFirst, CheckPeer;
    var inner, body := w.nodes[m], AsNoise(p.body);
    FirstEither(inner, trust, body, from, index, e, now);
    if HandleFirst(inner, trust, body, from, index, e, now).1.Some? {
      FirstAnswer(inner, trust, body, from, index, e, now);
    }
  }

  lemma SecondEntry(w: World, trust: Trust, m: bytes, p: Packet, index: u32, from: nat, now: int, n: bytes, i: u32)
    requires m in w.nodes
    ensures var w' := DoSecond(w, trust, m, p, index, from, now);
            EntryStep(w, w', n, i) && (m != n || index != i ==> Leaves(w, w', n, i))
  {
    hide CheckPeer;
  }

  lemma DataEntry(w: World, m: bytes, p: Packet, h: Header, n: bytes, i: u32)
    requires m in w.nodes
    ensures var w' := DoData(w, m, p, h); EntryStep(w, w', n, i) && Leaves(w, w', n, i)
  {
    hide Open, Fresh, Accept, Transport.Nonce;
  }

  lemma SendEntry(w: World, m: bytes, addr: IpAddr, kind: u8, payload: bytes, n: bytes, i: u32)
    requires m in w.nodes
    ensures var w' := DoSend(w, m, addr, kind, payload); EntryStep(w, w', n, i) && Leaves(w, w', n, i)
  {
    hide Transport.Nonce, Encoded;
  }

  /** Only an answer moves a pending handshake. */
  lemma EntryOfStep(w: World, trust: Trust, a: Action, n: bytes, i: u32)
    ensures EntryStep(w, Do(w, trust, a), n, i)
    ensures i != 0 && !Answers(w, a, n, i) ==> Leaves(w, Do(w, trust, a), n, i)
  {
    hide DoConnect, DoFirst, DoSecond, DoData, DoSend, EntryStep, Leaves, Forgeable;
    SameEntry(w, DoInject(w, if a.Inject? then a.packet else Packet([], Enc(Junk([])))), n, i);
    SameEntry(w, w, n, i);
    if Enabled(w, a) {
      match a
      case Connect(m, addr, waiter, index, e) => ConnectEntry(w, trust, m, addr, waiter, index, e, n, i);
      case Deliver(m, p, from, index, e, now) =>
        var r := Parse(p.header);
        if r.Parsed? {
          if Draws(p) { FirstEntry(w, trust, m, p, from, index, e, now, n, i); }
          SecondEntry(w, trust, m, p, r.header.remoteIndex, from, now, n, i);
          DataEntry(w, m, p, r.header, n, i);
        }
      case Send(m, addr, kind, payload) => SendEntry(w, m, addr, kind, payload, n, i);
      case Inject(_) =>
    }
  }

  lemma SameEntry(w: World, w': World, n: bytes, i: u32)
    requires w'.nodes == w.nodes
    ensures EntryStep(w, w', n, i) && Leaves(w, w', n, i)
  {
  }

  lemma PendingStep(w: World, trust: Trust, a: Action, n: bytes, i: u32, sent: Stage0)
    requires IsPending(w, n, i, sent) && i != 0 && !Answers(w, a, n, i)
    ensures IsPending(Do(w, trust, a), n, i, sent)
  {
    hide Do, Answers, EntryStep;
    EntryOfStep(w, trust, a, n, i);
  }

  /** No handshake of `n` under `i` waits with this ephemeral key, and none ever will. */
  predicate Spent(w: World, n: bytes, i: u32, e: nat) {
    n in w.nodes && e in w.seen && (Has(w, n, i) && At(w, n, i).Handshaking? ==> At(w, n, i).sent.ephemeral != e)
  }

  predicate BegunWith(w: World, n: bytes, i: u32, e: nat) {
    BegunHere(w, n, i) && At(w, n, i).transport.sendKey.initEphemeral == e
  }

  /** Only tunnels that were there before have that ephemeral key. */
  lemma SpentStep(w: World, trust: Trust, a: Action, n: bytes, i: u32, e: nat)
    requires Spent(w, n, i, e) && Invariant(w, trust)
    ensures Spent(Do(w, trust, a), n, i, e)
    ensures BegunWith(Do(w, trust, a), n, i, e) ==>
              BegunWith(w, n, i, e)
              && At(Do(w, trust, a), n, i).transport.sendKey == At(w, n, i).transport.sendKey
  {
    hide Do, Invariant, Answers, Leaves;
    EntryOfStep(w, trust, a, n, i);
    StepKeeps(w, trust, a);
    SeenStays(w, Do(w, trust, a), n, e);
    hide Grows;
  }

  lemma SeenStays(w: World, w': World, n: bytes, e: nat)
    requires Grows(w, w') && n in w.nodes && e in w.seen
    ensures n in w'.nodes && e in w'.seen
  {
  }

  lemma {:induction false} SpentRun(w: World, trust: Trust, actions: seq<Action>, n: bytes, i: u32, e: nat)
    requires Spent(w, n, i, e) && Invariant(w, trust)
    ensures Spent(RunFrom(w, trust, actions), n, i, e)
    ensures BegunWith(RunFrom(w, trust, actions), n, i, e) ==>
              BegunWith(w, n, i, e)
              && At(RunFrom(w, trust, actions), n, i).transport.sendKey == At(w, n, i).transport.sendKey
    decreases |actions|
  {
    hide Do, Invariant, Grows, Spent;
    if actions != [] {
      SpentStep(w, trust, actions[0], n, i, e);
      StepKeeps(w, trust, actions[0]);
      SpentRun(Do(w, trust, actions[0]), trust, actions[1..], n, i, e);
    }
  }

  /** The address table of `n` leads from `a` to `i`. */
  predicate Leads(w: World, n: bytes, a: IpAddr, i: u32) {
    n in w.nodes && a in w.nodes[n].indexByAddr && w.nodes[n].indexByAddr[a] == i
  }

  /** The answer that decides: it opens the handshake into a tunnel, or ends it. */
  lemma AnswerDecides(w: World, trust: Trust, a: Action, n: bytes, i: u32, sent: Stage0)
    requires IsPending(w, n, i, sent) && i != 0 && Answers(w, a, n, i)
    ensures var w' := Do(w, trust, a);
            var body := AsNoise(a.packet.body);
            if Passes(w.nodes[n].config, trust, sent, body, a.now)
            then
              && body.Second? && BegunWith(w', n, i, sent.ephemeral) && At(w', n, i).transport.sendKey == KeyOf(body)
              && Leads(w', n, At(w', n, i).vpnAddr, i)
            else !Has(w', n, i)
  {
    hide Parse, CheckPeer;
    var body := AsNoise(a.packet.body);
    var f := Finish(w.nodes[n].config.cipher, sent, body);
    if f.Some? {
      var certBytes, remoteStatic := f.value.theirs.cert, f.value.keys.remoteStatic;
      CheckPeerIgnoresTables(w.nodes[n], NewInner(w.nodes[n].config), trust, certBytes, remoteStatic, a.now);
    }
  }

  lemma PendingIsSeen(w: World, w': World, trust: Trust, n: bytes, i: u32, sent: Stage0)
    requires Invariant(w, trust) && IsPending(w, n, i, sent) && Grows(w, w') && !Has(w', n, i)
    ensures Spent(w', n, i, sent.ephemeral)
  {
    hide Invariant, KeysOk, IdentityOk;
    PeerFact(w, trust, n, i);
    NodeFact(w, trust, n);
    SeenStays(w, w', n, sent.ephemeral);
  }

  /** The node has neither this handshake nor a tunnel from it, under any index. */
  ghost predicate Abandoned(w: World, n: bytes, sent: Stage0) {
    forall j :: !BegunWith(w, n, j, sent.ephemeral) && !IsPending(w, n, j, sent)
  }

  /** A handshake is begun under one index only. */
  lemma OneIndexPerHandshake(w: World, w': World, trust: Trust, n: bytes, i: u32, sent: Stage0)
    requires Invariant(w, trust) && IsPending(w, n, i, sent) && Grows(w, w') && Invariant(w', trust)
    requires Spent(w', n, i, sent.ephemeral) && !BegunWith(w', n, i, sent.ephemeral)
    ensures Abandoned(w', n, sent)
  {
    hide Invariant, IdentityOk;
    PeerFact(w, trust, n, i);
    forall j ensures !BegunWith(w', n, j, sent.ephemeral) && !IsPending(w', n, j, sent) {
      if Has(w', n, j) { PeerFact(w', trust, n, j); }
    }
  }

  /** What becomes of a handshake over any actions whatever: it waits as long as nobody has
      delivered a handshake datagram under its index. The first such datagram decides for good:
      if it opens and its certificate checks out the handshake is that tunnel from then on, and
      otherwise the node never has a tunnel from this handshake, under any index. */
  lemma {:induction false} HandshakeOutcome(
      w: World, trust: Trust, actions: seq<Action>, n: bytes, i: u32, sent: Stage0)
    requires Invariant(w, trust) && IsPending(w, n, i, sent)
    ensures var w' := RunFrom(w, trust, actions);
            match OutcomeOf(w, trust, actions, n, i, sent)
            case Waiting => IsPending(w', n, i, sent)
            case Opened(k) => BegunWith(w', n, i, sent.ephemeral) && At(w', n, i).transport.sendKey == k
            case Failed => Abandoned(w', n, sent)
    decreases |actions|
  {
    hide Do, Invariant, Grows, Answers, Passes, PendingOk, KeysOk, IdentityOk, KeyOf, Abandoned;
    PeerFact(w, trust, n, i);
    if actions != [] {
      var a, rest := actions[0], actions[1..];
      var w1 := Do(w, trust, a);
      StepKeeps(w, trust, a);
      if Answers(w, a, n, i) {
        AnswerDecides(w, trust, a, n, i, sent);
        RunFromKeeps(w1, trust, rest);
        RunFromKeeps(w, trust, actions);
        if Has(w1, n, i) {
          TunnelStays(w1, RunFrom(w1, trust, rest), n, i);
        } else {
          PendingIsSeen(w, w1, trust, n, i, sent);
          SpentRun(w1, trust, rest, n, i, sent.ephemeral);
          OneIndexPerHandshake(w, RunFrom(w, trust, actions), trust, n, i, sent);
        }
      } else {
        PendingStep(w, trust, a, n, i, sent);
        HandshakeOutcome(w1, trust, rest, n, i, sent);
      }
    }
  }

  /** The same for any point of any run from the start. */
  lemma OutcomeInRun(configs: map<bytes, Config>, trust: Trust, before: seq<Action>, after: seq<Action>,
                     n: bytes, i: u32, sent: Stage0)
    requires Named(configs) && IsPending(Run(configs, trust, before), n, i, sent)
    ensures var w' := Run(configs, trust, before + after);
            match OutcomeOf(Run(configs, trust, before), trust, after, n, i, sent)
            case Waiting => IsPending(w', n, i, sent)
            case Opened(k) => BegunWith(w', n, i, sent.ephemeral) && At(w', n, i).transport.sendKey == k
            case Failed => Abandoned(w', n, sent)
  {
    hide Run, Invariant, OutcomeOf, Abandoned, BegunWith, RunFrom, IsPending;
    RunInvariant(configs, trust, before);
    RunFromIsRun(configs, trust, before, after);
    HandshakeOutcome(Run(configs, trust, before), trust, after, n, i, sent);
  }

  /** Anyone who has seen the first message, which travels in the clear, can end the handshake: one
      datagram with its index and a body that does not open is enough, and any bytes will do for
      that. The genuine answer, or anything else that comes later, makes no tunnel of it. */
  lemma ForgedAnswerAborts(w: World, trust: Trust, n: bytes, i: u32, sent: Stage0, body: Body, counter: u64,
                           from: nat, index: u32, e: nat, now: int, later: seq<Action>)
    requires Invariant(w, trust) && IsPending(w, n, i, sent)
    requires Forgeable(w, body) && !Passes(w.nodes[n].config, trust, sent, AsNoise(body), now)
    ensures var forged := Packet(HandshakeHeader(i, counter), body);
            Abandoned(RunFrom(w, trust, [Inject(forged), Deliver(n, forged, from, index, e, now)] + later), n, sent)
  {
    hide Invariant, Abandoned, HandshakeHeader, Parse, Passes, Forgeable;
    var forged := Packet(HandshakeHeader(i, counter), body);
    var first, second := Inject(forged), Deliver(n, forged, from, index, e, now);
    HandshakeHeaderParses(i, counter);
    var actions := [first, second] + later;
    assert actions[0] == first && actions[1..] == [second] + later && ([second] + later)[0] == second;
    assert Answers(Do(w, trust, first), second, n, i);
    assert OutcomeOf(w, trust, actions, n, i, sent) == Failed;
    HandshakeOutcome(w, trust, actions, n, i, sent);
  }

  /** Bytes that nobody made as a handshake message are always such a body. */
  lemma GarbageNeverPasses(w: World, config: Config, trust: Trust, sent: Stage0, now: int)
    ensures Forgeable(w, Hs(Garbage)) && !Passes(config, trust, sent, Garbage, now)
  {
  }
}
