/** What a network that does deliver gets: handshakes complete and data arrives. */
module TunnelProgress {
  import opened Optional
  import opened Bits
  import opened Bytes
  import opened Net
  import opened Header
  import opened Ideal
  import opened Handshake
  import opened Session
  import opened ReplaySpec
  import opened Tunnel
  import opened TunnelSteps
  import opened TunnelTheorems
  import opened TunnelPending
  import Transport
  import DerSpec
  import DerProofs

  /** Node `b` would accept the host certificate of node `a` at this time. */
  predicate Accepts(trust: Trust, b: Config, a: Config, now: int) {
    trust.verify(a.hostCert, b.caCert, now) && a.hostCert.details.networks != []
  }

  function AddressOf(c: Config): IpAddr
    requires c.hostCert.details.networks != []
  {
    c.hostCert.details.networks[0].addr
  }

  /** The certificate a node sends checks out as that very certificate. */
  lemma OwnCertificateChecksOut(inner: Inner, trust: Trust, sender: Config, now: int)
    requires WellFormed(sender) && Accepts(trust, inner.config, sender, now)
    ensures CheckPeer(inner, trust, DerSpec.HandshakeBytes(sender.hostCert), sender.staticKey, now)
            == Some((sender.hostCert, AddressOf(sender)))
  {
    hide DerSpec.Recombine, DerSpec.HandshakeBytes, DerSpec.AfterDetails, DerProofs.Consistent;
    DerProofs.ConsistentRecombines(sender.hostCert);
  }

  /** The first message of node `n`, and the answer of node `m` to it. */
  function FirstPacket(w: World, n: bytes, i: u32, e: nat): Packet
    requires n in w.nodes
  {
    Packet(HandshakeHeader(0, 1), Hs(First(FirstMessage(w, n, i, e))))
  }

  function FirstMessage(w: World, n: bytes, i: u32, e: nat): Stage0
    requires n in w.nodes
  {
    var c := w.nodes[n].config;
    Handshake.Start(e, c.staticKey, DerSpec.HandshakeBytes(c.hostCert), i)
  }

  function SecondPacket(w: World, n: bytes, i: u32, e: nat, m: bytes, j: u32, f: nat): Packet
    requires n in w.nodes && m in w.nodes
  {
    var c := w.nodes[m].config;
    Packet(HandshakeHeader(i, 2),
           Hs(Second(c.cipher, FirstMessage(w, n, i, e), f, c.staticKey,
                     Some(Details(DerSpec.HandshakeBytes(c.hostCert), i, j)))))
  }

  lemma FirstIsAnswered(inner: Inner, trust: Trust, sender: Config, i: u32, e: nat, j: u32, f: nat, from: nat, now: int)
    requires WellFormed(sender) && Accepts(trust, inner.config, sender, now) && i != 0
    ensures var first := Handshake.Start(e, sender.staticKey, DerSpec.HandshakeBytes(sender.hostCert), i);
            var keys := Split(false, first, f, inner.config.staticKey);
            HandleFirst(inner, trust, First(first), from, j, f, now)
            == (WithTunnel(inner, j, keys, from, sender.hostCert, AddressOf(sender), i),
                Some(Packet(HandshakeHeader(i, 2),
                     Hs(Second(inner.config.cipher, first, f, inner.config.staticKey,
                               Some(Details(DerSpec.HandshakeBytes(inner.config.hostCert), i, j)))))))
  {
    hide DerSpec.HandshakeBytes, CheckPeer, HandshakeHeader;
    OwnCertificateChecksOut(inner, trust, sender, now);
    hide WellFormed, Accepts, AddressOf, WithTunnel;
  }

  lemma AnswerFinishes(cipher: Cipher, sent: Stage0, f: nat, staticKey: bytes, cert: bytes, i: u32, j: u32)
    requires j != 0
    ensures Finish(cipher, sent, Second(cipher, sent, f, staticKey, Some(Details(cert, i, j))))
            == Some(Finished(Details(cert, i, j), Split(true, sent, f, staticKey)))
    ensures Split(true, sent, f, staticKey).remoteStatic == staticKey
  {
  }

  /** The key that the initiator sends with when this answer opens its handshake. */
  function AnswerKey(w: World, n: bytes, i: u32, e: nat, m: bytes, f: nat): Key
    requires n in w.nodes
  {
    Split(true, FirstMessage(w, n, i, e), f, m).sendKey
  }

  /** Every delivery of a first message is answered, whatever the node has done before: it holds a
      tunnel for the sender at once and its address table leads there. */
  lemma AnswerStep(
      w: World, w1: World, trust: Trust, n: bytes, m: bytes, i: u32, j: u32, e: nat, f: nat, from: nat,
      now: int)
    requires n in w.nodes && m in w.nodes && w.nodes[n].config.staticKey == n && w.nodes[m].config.staticKey == m
    requires WellFormed(w.nodes[n].config) && Accepts(trust, w.nodes[m].config, w.nodes[n].config, now) && i != 0
    requires FirstPacket(w, n, i, e) in w1.net && f !in w1.seen
    requires m in w1.nodes && w1.nodes[m].config == w.nodes[m].config && Free(w1.nodes[m], j)
    ensures var w2 := Do(w1, trust, Deliver(m, FirstPacket(w, n, i, e), from, j, f, now));
            var b := AddressOf(w.nodes[n].config);
            && SecondPacket(w, n, i, e, m, j, f) in w2.net
            && IsTunnel(w2, m, j) && At(w2, m, j).remoteIndex == i
            && At(w2, m, j).transport.sendKey == Mirror(AnswerKey(w, n, i, e, m, f))
            && At(w2, m, j).cert == w.nodes[n].config.hostCert
            && b in w2.nodes[m].indexByAddr && w2.nodes[m].indexByAddr[b] == j
  {
    hide DerSpec.HandshakeBytes, HandshakeHeader, HandleFirst, HandleSecond, Receive, WellFormed;
    hide Accepts, AddressOf, Parse;
    HandshakeHeaderParses(0, 1);
    FirstIsAnswered(w1.nodes[m], trust, w.nodes[n].config, i, e, j, f, from, now);
    var c, d := w.nodes[n].config, w.nodes[m].config;
    if j != 0 {
      EndsAgree(c.cipher, e, n, DerSpec.HandshakeBytes(c.hostCert), i, f, m, DerSpec.HandshakeBytes(d.hostCert), j);
    }
  }

  // ---- Completing ----

  /** The answer of a node whose certificate is accepted opens the handshake. */
  lemma AnswerPasses(w: World, trust: Trust, n: bytes, m: bytes, i: u32, j: u32, e: nat, f: nat, now: int)
    requires n in w.nodes && m in w.nodes && w.nodes[n].config.staticKey == n && w.nodes[m].config.staticKey == m
    requires w.nodes[n].config.cipher == w.nodes[m].config.cipher && j != 0
    requires WellFormed(w.nodes[m].config) && Accepts(trust, w.nodes[n].config, w.nodes[m].config, now)
    ensures var p := SecondPacket(w, n, i, e, m, j, f);
            && Passes(w.nodes[n].config, trust, FirstMessage(w, n, i, e), AsNoise(p.body), now)
            && KeyOf(AsNoise(p.body)) == AnswerKey(w, n, i, e, m, f)
            && Parse(p.header) == Parsed(Header(VERSION, HANDSHAKE, IX_PSK0, i, 2))
  {
    hide DerSpec.HandshakeBytes, CheckPeer, WellFormed, Accepts, Finish, Parse, HandshakeHeader;
    var c, d := w.nodes[n].config, w.nodes[m].config;
    HandshakeHeaderParses(i, 2);
    AnswerFinishes(c.cipher, FirstMessage(w, n, i, e), f, m, DerSpec.HandshakeBytes(d.hostCert), i, j);
    OwnCertificateChecksOut(NewInner(c), trust, d, now);
  }

  lemma ConnectMakesPending(w: World, trust: Trust, n: bytes, a: IpAddr, waiter: nat, i: u32, e: nat)
    requires n in w.nodes && Free(w.nodes[n], i) && e !in w.seen
    ensures var w1 := Do(w, trust, Connect(n, a, waiter, i, e));
            && IsPending(w1, n, i, FirstMessage(w, n, i, e)) && FirstPacket(w, n, i, e) in w1.net
            && a in w1.nodes[n].connected
  {
    hide DerSpec.HandshakeBytes, HandshakeHeader;
  }

  /** Someone still waits for a connect to `a`, or one has succeeded; and if a tunnel for that
      address was begun under `i`, one has. */
  predicate ConnectKept(w: World, n: bytes, i: u32, a: IpAddr) {
    && n in w.nodes
    && (a in w.nodes[n].connected || (n, a) in w.completed)
    && (BegunHere(w, n, i) && At(w, n, i).vpnAddr == a ==> (n, a) in w.completed)
  }

  lemma KeptByConnect(w: World, m: bytes, addr: IpAddr, waiter: nat, index: u32, e: nat, n: bytes, i: u32, a: IpAddr)
    requires m in w.nodes && ConnectKept(w, n, i, a)
    ensures ConnectKept(DoConnect(w, m, addr, waiter, index, e), n, i, a)
  {
    hide DerSpec.HandshakeBytes, HandshakeHeader;
  }

  lemma KeptByFirst(w: World, trust: Trust, m: bytes, p: Packet, from: nat, index: u32, e: nat, now: int,
                    n: bytes, i: u32, a: IpAddr)
    requires m in w.nodes && ConnectKept(w, n, i, a)
    ensures ConnectKept(DoFirst(w, trust, m, p, from, index, e, now), n, i, a)
  {
    hide CheckPeer, HandshakeHeader, DerSpec.HandshakeBytes;
  }

  lemma KeptBySecond(w: World, trust: Trust, m: bytes, p: Packet, index: u32, from: nat, now: int,
                     n: bytes, i: u32, a: IpAddr)
    requires m in w.nodes && ConnectKept(w, n, i, a)
    ensures ConnectKept(DoSecond(w, trust, m, p, index, from, now), n, i, a)
  {
    hide CheckPeer;
  }

  lemma KeptByData(w: World, m: bytes, p: Packet, h: Header, n: bytes, i: u32, a: IpAddr)
    requires m in w.nodes && ConnectKept(w, n, i, a)
    ensures ConnectKept(DoData(w, m, p, h), n, i, a)
  {
    hide Open, Fresh, Accept, Transport.Nonce;
  }

  lemma KeptBySend(w: World, m: bytes, addr: IpAddr, kind: u8, payload: bytes, n: bytes, i: u32, a: IpAddr)
    requires m in w.nodes && ConnectKept(w, n, i, a)
    ensures ConnectKept(DoSend(w, m, addr, kind, payload), n, i, a)
  {
    hide Transport.Nonce, Encoded;
  }

  lemma ConnectKeptStep(w: World, trust: Trust, x: Action, n: bytes, i: u32, a: IpAddr)
    requires ConnectKept(w, n, i, a)
    ensures ConnectKept(Do(w, trust, x), n, i, a)
  {
    if x.Inject? { assert ConnectKept(DoInject(w, x.packet), n, i, a); }
    hide DoConnect, DoFirst, DoSecond, DoData, DoSend, DoInject, ConnectKept, Forgeable, Parse;
    if Enabled(w, x) {
      match x
      case Connect(m, addr, waiter, index, e) => KeptByConnect(w, m, addr, waiter, index, e, n, i, a);
      case Deliver(m, p, from, index, e, now) =>
        var r := Parse(p.header);
        if r.Parsed? {
          KeptByFirst(w, trust, m, p, from, index, e, now, n, i, a);
          KeptBySecond(w, trust, m, p, r.header.remoteIndex, from, now, n, i, a);
          KeptByData(w, m, p, r.header, n, i, a);
        }
      case Send(m, addr, kind, payload) => KeptBySend(w, m, addr, kind, payload, n, i, a);
      case Inject(_) =>
    }
  }

  lemma {:induction false} ConnectKeptRun(w: World, trust: Trust, actions: seq<Action>, n: bytes, i: u32, a: IpAddr)
    requires ConnectKept(w, n, i, a)
    ensures ConnectKept(RunFrom(w, trust, actions), n, i, a)
    decreases |actions|
  {
    hide Do, ConnectKept;
    if actions != [] {
      ConnectKeptStep(w, trust, actions[0], n, i, a);
      ConnectKeptRun(Do(w, trust, actions[0]), trust, actions[1..], n, i, a);
    }
  }

  /** The ends of a tunnel begun between nodes meet, and hold each other's exact certificates. */
  lemma BegunIsExact(w: World, trust: Trust, n: bytes, i: u32)
    requires Invariant(w, trust) && BegunHere(w, n, i)
    requires var m := PeerStatic(At(w, n, i).transport.sendKey);
             m in w.nodes && WellFormed(w.nodes[n].config) && WellFormed(w.nodes[m].config)
    ensures var p, m := At(w, n, i), PeerStatic(At(w, n, i).transport.sendKey);
            && p.cert == w.nodes[m].config.hostCert && p.cert.publicKey == m && EndsMeet(w, n, i)
            && At(w, m, p.remoteIndex).cert == w.nodes[n].config.hostCert
  {
    hide Invariant, Verified, DerSpec.HandshakeBytes, DerSpec.Recombine, DerProofs.Consistent, DerSpec.AfterDetails;
    var m := PeerStatic(At(w, n, i).transport.sendKey);
    PeerFact(w, trust, n, i);
    NodeFact(w, trust, m);
    MirrorFact(w, trust, n, i);
    BegunEndsMeet(w, trust, n, i);
    DerProofs.ConsistentRecombines(w.nodes[n].config.hostCert);
    DerProofs.ConsistentRecombines(w.nodes[m].config.hostCert);
  }

  /** Two nodes that would accept each other: the first of `n` arriving at `m` at one time, the
      answer arriving back at another. */
  ghost predicate CanTalk(w: World, trust: Trust, n: bytes, m: bytes, now: int, later: int) {
    && n in w.nodes && m in w.nodes
    && w.nodes[n].config.cipher == w.nodes[m].config.cipher
    && WellFormed(w.nodes[n].config) && WellFormed(w.nodes[m].config)
    && Accepts(trust, w.nodes[m].config, w.nodes[n].config, now)
    && Accepts(trust, w.nodes[n].config, w.nodes[m].config, later)
  }

  lemma PacketAndConfigStay(w: World, w': World, p: Packet, n: bytes)
    requires Grows(w, w') && n in w.nodes
    ensures p in w.net ==> p in w'.net
    ensures n in w'.nodes && w'.nodes[n].config == w.nodes[n].config
  {
  }

  /** A delivery of the first message at `m`, and one of the answer it made at `n`. */
  function FirstArrives(w: World, n: bytes, i: u32, e: nat, m: bytes, from: nat, j: u32, f: nat, now: int): Action
    requires n in w.nodes
  {
    Deliver(m, FirstPacket(w, n, i, e), from, j, f, now)
  }

  /** What the answer of `m` leaves behind, whatever happens after it: the answer stays on the
      network and `m` holds its end. */
  lemma AnswerRemains(w: World, wx: World, trust: Trust, n: bytes, m: bytes, i: u32, e: nat,
                      from: nat, j: u32, f: nat, now: int, later: int, ys: seq<Action>)
    requires Invariant(w, trust) && CanTalk(w, trust, n, m, now, later) && i != 0
    requires Invariant(wx, trust) && Grows(w, wx) && FirstPacket(w, n, i, e) in wx.net
    requires m in wx.nodes && Free(wx.nodes[m], j) && f !in wx.seen
    ensures var wy := RunFrom(wx, trust, [FirstArrives(w, n, i, e, m, from, j, f, now)] + ys);
            && Invariant(wy, trust) && Grows(w, wy)
            && SecondPacket(w, n, i, e, m, j, f) in wy.net
            && n in wy.nodes && wy.nodes[n].config == w.nodes[n].config
            && IsTunnel(wy, m, j) && At(wy, m, j).transport.sendKey == Mirror(AnswerKey(w, n, i, e, m, f))
  {
    hide Invariant, Grows, Do, WellFormed, Accepts, FirstPacket, SecondPacket, AnswerKey, AddressOf;
    var x := FirstArrives(w, n, i, e, m, from, j, f, now);
    NodeFact(w, trust, n);
    NodeFact(w, trust, m);
    PacketAndConfigStay(w, wx, FirstPacket(w, n, i, e), m);
    AnswerStep(w, wx, trust, n, m, i, j, e, f, from, now);
    var w2 := Do(wx, trust, x);
    StepKeeps(wx, trust, x);
    assert ([x] + ys)[1..] == ys;
    RunFromKeeps(w2, trust, ys);
    var wy := RunFrom(w2, trust, ys);
    PacketAndConfigStay(w2, wy, SecondPacket(w, n, i, e, m, j, f), m);
    TunnelStays(w2, wy, m, j);
    GrowsTrans(wx, w2, wy);
    GrowsTrans(w, wx, wy);
    PacketAndConfigStay(w, wy, FirstPacket(w, n, i, e), n);
  }

  /** The answer arriving at a node that still waits opens the handshake. */
  lemma AnswerOpens(w: World, wy: World, trust: Trust, n: bytes, m: bytes, i: u32, e: nat, j: u32, f: nat,
                    now: int, later: int, x: Action)
    requires Invariant(w, trust) && CanTalk(w, trust, n, m, now, later) && j != 0
    requires x.Deliver? && x.node == n && x.packet == SecondPacket(w, n, i, e, m, j, f) && x.now == later
    requires n in wy.nodes && wy.nodes[n].config == w.nodes[n].config && x.packet in wy.net
    ensures OutcomeOf(wy, trust, [x], n, i, FirstMessage(w, n, i, e)) == Opened(AnswerKey(w, n, i, e, m, f))
  {
    hide Invariant, WellFormed, Accepts, Do, SecondPacket, FirstMessage, AnswerKey, Passes, Parse;
    NodeFact(w, trust, n);
    NodeFact(w, trust, m);
    AnswerPasses(w, trust, n, m, i, j, e, f, later);
  }

  /** So the handshake is the tunnel offered exactly if nothing decided it otherwise before. */
  lemma AnswerInRun(w: World, w1: World, trust: Trust, n: bytes, m: bytes, i: u32, e: nat, j: u32, f: nat,
                    now: int, between: seq<Action>, x: Action)
    requires Invariant(w, trust) && x.Deliver? && CanTalk(w, trust, n, m, now, x.now) && j != 0
    requires x.node == n && x.packet == SecondPacket(w, n, i, e, m, j, f)
    requires Invariant(w1, trust) && IsPending(w1, n, i, FirstMessage(w, n, i, e))
    requires var wy := RunFrom(w1, trust, between);
             n in wy.nodes && wy.nodes[n].config == w.nodes[n].config && x.packet in wy.net
    ensures var before := OutcomeOf(w1, trust, between, n, i, FirstMessage(w, n, i, e));
            var key := AnswerKey(w, n, i, e, m, f);
            var end := RunFrom(w1, trust, between + [x]);
            && (BegunHere(end, n, i) && At(end, n, i).transport.sendKey == key
                <==> before == Waiting || before == Opened(key))
            && (before == Waiting ==> Leads(end, n, At(end, n, i).vpnAddr, i))
  {
    assert n in w.nodes;
    hide Invariant, Grows, Do, CanTalk, SecondPacket, FirstMessage, OutcomeOf, RunFrom;
    AnswerOpens(w, RunFrom(w1, trust, between), trust, n, m, i, e, j, f, now, x.now, x);
    OutcomeAppend(w1, trust, between, [x], n, i, FirstMessage(w, n, i, e));
    HandshakeOutcome(w1, trust, between + [x], n, i, FirstMessage(w, n, i, e));
    KeyEphemeral(w, n, i, e, m, f);
    hide AnswerKey;
    var end, sent := RunFrom(w1, trust, between + [x]), FirstMessage(w, n, i, e);
    assert Abandoned(end, n, sent) ==> !BegunWith(end, n, i, sent.ephemeral);
    if OutcomeOf(w1, trust, between, n, i, sent) == Waiting {
      HandshakeOutcome(w1, trust, between, n, i, sent);
      RunFromAppend(w1, trust, between, [x]);
      AnswerLeads(RunFrom(w1, trust, between), trust, x, n, i, sent);
    }
  }

  lemma AnswerLeads(w: World, trust: Trust, x: Action, n: bytes, i: u32, sent: Stage0)
    requires IsPending(w, n, i, sent) && i != 0 && OutcomeOf(w, trust, [x], n, i, sent).Opened?
    ensures var end := RunFrom(w, trust, [x]); IsTunnel(end, n, i) && Leads(end, n, At(end, n, i).vpnAddr, i)
  {
    hide Do, Passes;
    AnswerDecides(w, trust, x, n, i, sent);
  }

  lemma KeyEphemeral(w: World, n: bytes, i: u32, e: nat, m: bytes, f: nat)
    requires n in w.nodes
    ensures var k := AnswerKey(w, n, i, e, m, f);
            && k.initEphemeral == FirstMessage(w, n, i, e).ephemeral && PeerStatic(k) == m && k.first
  {
    hide DerSpec.HandshakeBytes;
  }

  /** Both ends of a finished handshake. */
  predicate Completed(w: World, n: bytes, m: bytes, i: u32, j: u32, a: IpAddr) {
    && IsTunnel(w, n, i) && IsTunnel(w, m, j) && EndsMeet(w, n, i)
    && var p, q := At(w, n, i), At(w, m, j);
       && p.remoteIndex == j && q.remoteIndex == i
       && p.cert == w.nodes[m].config.hostCert && q.cert == w.nodes[n].config.hostCert
       && OtherEnd(p, q, j) && OtherEnd(q, p, i)
       && (p.vpnAddr == a ==> (n, a) in w.completed)
  }

  /** A begun tunnel and an answered one with mirrored keys are each other's exact ends. */
  lemma MirroredKeysComplete(w: World, trust: Trust, n: bytes, m: bytes, i: u32, j: u32, a: IpAddr)
    requires Invariant(w, trust) && BegunHere(w, n, i) && IsTunnel(w, m, j) && ConnectKept(w, n, i, a)
    requires PeerStatic(At(w, n, i).transport.sendKey) == m
    requires At(w, m, j).transport.sendKey == Mirror(At(w, n, i).transport.sendKey)
    requires WellFormed(w.nodes[n].config) && WellFormed(w.nodes[m].config)
    ensures Completed(w, n, m, i, j, a)
  {
    hide Invariant, WellFormed, IdentityOk;
    BegunIsExact(w, trust, n, i);
    PeerFact(w, trust, n, i);
    HolderOfTunnel(w, trust, m, j);
    HolderOfTunnel(w, trust, m, At(w, n, i).remoteIndex);
    PeerFact(w, trust, m, At(w, n, i).remoteIndex);
  }

  /** The last step of the run, put together. */
  lemma AnswerLast(w: World, w1: World, trust: Trust, n: bytes, m: bytes, i: u32, e: nat, j: u32, f: nat,
                   now: int, later: int, between: seq<Action>, x: Action, a: IpAddr)
    requires CanTalk(w, trust, n, m, now, later) && Grows(w, RunFrom(w1, trust, between))
    requires var wy := RunFrom(w1, trust, between);
             && Invariant(wy, trust) && IsTunnel(wy, m, j)
             && At(wy, m, j).transport.sendKey == Mirror(AnswerKey(w, n, i, e, m, f))
    requires ConnectKept(RunFrom(w1, trust, between + [x]), n, i, a)
    ensures var end := RunFrom(w1, trust, between + [x]);
            BegunHere(end, n, i) && At(end, n, i).transport.sendKey == AnswerKey(w, n, i, e, m, f)
            ==> Completed(end, n, m, i, j, a)
  {
    hide Invariant, Grows, Do, AnswerKey, WellFormed, Accepts, ConnectKept, Completed;
    var wy, end := RunFrom(w1, trust, between), RunFrom(w1, trust, between + [x]);
    RunFromAppend(w1, trust, between, [x]);
    hide RunFrom;
    RunFromKeeps(wy, trust, [x]);
    GrowsTrans(w, wy, end);
    PacketAndConfigStay(w, end, Packet([], Hs(Garbage)), n);
    PacketAndConfigStay(w, end, Packet([], Hs(Garbage)), m);
    TunnelStays(wy, end, m, j);
    KeyEphemeral(w, n, i, e, m, f);
    if BegunHere(end, n, i) && At(end, n, i).transport.sendKey == AnswerKey(w, n, i, e, m, f) {
      MirroredKeysComplete(end, trust, n, m, i, j, a);
    }
  }

  lemma StartsKept(w: World, n: bytes, i: u32, a: IpAddr, sent: Stage0)
    requires IsPending(w, n, i, sent) && a in w.nodes[n].connected
    ensures ConnectKept(w, n, i, a)
  {
  }

  /** Node `n` connects to `a` and sends its first message; `xs` happens; the message arrives at
      `m`; `ys` happens; the answer of `m` arrives at `n`. Here `xs` and `ys` are any actions
      whatever. The handshake is then the tunnel that `m` offered exactly if nothing had decided it
      before, or that very tunnel had opened already. If so both ends hold each other's exact
      certificates, address each other and have mirrored keys, and if `a` is the address that `m`
      turned out to have, a connect to `a` has succeeded. */
  lemma HandshakeCompletes(w: World, trust: Trust, n: bytes, m: bytes, a: IpAddr, waiter: nat, i: u32, e: nat,
                           xs: seq<Action>, from: nat, j: u32, f: nat, now: int,
                           ys: seq<Action>, x: Action)
    requires Invariant(w, trust) && x.Deliver? && CanTalk(w, trust, n, m, now, x.now)
    requires Free(w.nodes[n], i) && e !in w.seen
    requires x.node == n && x.packet == SecondPacket(w, n, i, e, m, j, f)
    requires var wx := RunFrom(Do(w, trust, Connect(n, a, waiter, i, e)), trust, xs);
             m in wx.nodes && Free(wx.nodes[m], j) && f !in wx.seen
    ensures var w1 := Do(w, trust, Connect(n, a, waiter, i, e));
            var between := xs + ([FirstArrives(w, n, i, e, m, from, j, f, now)] + ys);
            var before := OutcomeOf(w1, trust, between, n, i, FirstMessage(w, n, i, e));
            var key := AnswerKey(w, n, i, e, m, f);
            var end := RunFrom(w1, trust, between + [x]);
            && (BegunHere(end, n, i) && At(end, n, i).transport.sendKey == key
                <==> before == Waiting || before == Opened(key))
            && (before == Waiting || before == Opened(key) ==> Completed(end, n, m, i, j, a))
            && (before == Waiting ==> Leads(end, n, At(end, n, i).vpnAddr, i))
  {
    hide Invariant, Grows, Do, FirstPacket, SecondPacket, FirstMessage, AnswerKey, OutcomeOf, WellFormed, Accepts;
    hide ConnectKept, Completed, RunFrom;
    var connect := Connect(n, a, waiter, i, e);
    var w1 := Do(w, trust, connect);
    var tail := [FirstArrives(w, n, i, e, m, from, j, f, now)] + ys;
    StepKeeps(w, trust, connect);
    ConnectMakesPending(w, trust, n, a, waiter, i, e);
    RunFromKeeps(w1, trust, xs);
    var wx := RunFrom(w1, trust, xs);
    GrowsTrans(w, w1, wx);
    PacketAndConfigStay(w1, wx, FirstPacket(w, n, i, e), n);
    AnswerRemains(w, wx, trust, n, m, i, e, from, j, f, now, x.now, ys);
    RunFromAppend(w1, trust, xs, tail);
    hide CanTalk;
    AnswerInRun(w, w1, trust, n, m, i, e, j, f, now, xs + tail, x);
    StartsKept(w1, n, i, a, FirstMessage(w, n, i, e));
    ConnectKeptRun(w1, trust, xs + tail + [x], n, i, a);
    AnswerLast(w, w1, trust, n, m, i, e, j, f, now, x.now, xs + tail, x, a);
  }

  // ---- A replayed first message ----

  /** A first message on the network whose handshake does not wait any more. */
  lemma DecidedIsSpent(w: World, trust: Trust, n: bytes, i: u32, e: nat)
    requires Invariant(w, trust) && n in w.nodes
    requires FirstPacket(w, n, i, e) in w.net && !IsPending(w, n, i, FirstMessage(w, n, i, e))
    ensures Spent(w, n, i, e)
  {
    hide Invariant, KeysOk, IdentityOk, DerSpec.HandshakeBytes, HandshakeHeader;
    NodeFact(w, trust, n);
    PacketFact(w, trust, FirstPacket(w, n, i, e));
    if Has(w, n, i) { PeerFact(w, trust, n, i); }
  }

  /** No tunnel of `n` ever holds the keys of an answer whose ephemeral key came after. */
  lemma AnswerKeyStaysUnknown(w: World, end: World, trust: Trust, n: bytes, m: bytes, i: u32, e: nat, f: nat)
    requires Invariant(w, trust) && Invariant(end, trust) && n in w.nodes && f !in w.seen
    requires BegunWith(end, n, i, e) ==>
               BegunWith(w, n, i, e) && At(end, n, i).transport.sendKey == At(w, n, i).transport.sendKey
    requires IsTunnel(end, n, i)
    ensures At(end, n, i).transport.recvKey != Mirror(AnswerKey(w, n, i, e, m, f))
  {
    hide Invariant, IdentityOk, DerSpec.HandshakeBytes;
    PeerFact(end, trust, n, i);
    if BegunWith(end, n, i, e) { PeerFact(w, trust, n, i); }
  }

  /** A first message arrives at `m` once more, after its handshake has been decided. The node
      answers it with a new tunnel, and its address table leads there; but in every later state no
      entry under the index it addresses holds its keys, so its ends never meet. A tunnel of the
      initiator that was there keeps its other end. */
  lemma ReplayedFirstMessageStrands(w: World, trust: Trust, n: bytes, m: bytes, i: u32, e: nat,
                                    from: nat, j: u32, f: nat, now: int, more: seq<Action>)
    requires Invariant(w, trust) && n in w.nodes && m in w.nodes && i != 0
    requires WellFormed(w.nodes[n].config) && Accepts(trust, w.nodes[m].config, w.nodes[n].config, now)
    requires FirstPacket(w, n, i, e) in w.net && !IsPending(w, n, i, FirstMessage(w, n, i, e))
    requires Free(w.nodes[m], j) && f !in w.seen
    ensures var x := FirstArrives(w, n, i, e, m, from, j, f, now);
            var w', end := Do(w, trust, x), RunFrom(w, trust, [x] + more);
            && IsTunnel(w', m, j) && Leads(w', m, AddressOf(w.nodes[n].config), j)
            && IsTunnel(end, m, j) && At(end, m, j).remoteIndex == i
            && (IsTunnel(end, n, i) ==> At(end, n, i).transport.recvKey != At(end, m, j).transport.sendKey)
            && !EndsMeet(end, m, j)
            && (BegunHere(w, n, i) && At(w, n, i).cert.publicKey in w.nodes ==>
                  IsTunnel(end, n, i) && EndsMeet(end, n, i))
  {
    assert w.nodes[n].config.hostCert.publicKey == w.nodes[n].config.staticKey;
    hide Invariant, Grows, Do, WellFormed, Accepts, FirstPacket, SecondPacket, AnswerKey, AddressOf, EndsMeet;
    hide FirstMessage, KeysOk, IdentityOk, Spent, BegunWith;
    var x := FirstArrives(w, n, i, e, m, from, j, f, now);
    var w' := Do(w, trust, x);
    NodeFact(w, trust, n);
    NodeFact(w, trust, m);
    AnswerStep(w, w, trust, n, m, i, j, e, f, from, now);
    StepKeeps(w, trust, x);
    assert ([x] + more)[1..] == more;
    RunFromKeeps(w', trust, more);
    var end := RunFrom(w', trust, more);
    DecidedIsSpent(w, trust, n, i, e);
    SpentRun(w, trust, [x] + more, n, i, e);
    hide RunFrom;
    TunnelStays(w', end, m, j);
    if IsTunnel(end, n, i) { AnswerKeyStaysUnknown(w, end, trust, n, m, i, e, f); }
    KeysDoNotMeet(end, m, j, n, i);
    if BegunHere(w, n, i) && At(w, n, i).cert.publicKey in w.nodes {
      GrowsTrans(w, w', end);
      BegunStaysMet(w, end, trust, n, i);
    }
  }

  lemma KeysDoNotMeet(w: World, m: bytes, j: u32, n: bytes, i: u32)
    requires IsTunnel(w, m, j) && At(w, m, j).remoteIndex == i && At(w, m, j).cert.publicKey == n
    requires IsTunnel(w, n, i) ==> At(w, n, i).transport.recvKey != At(w, m, j).transport.sendKey
    ensures !EndsMeet(w, m, j)
  {
  }

  lemma BegunStaysMet(w: World, w': World, trust: Trust, n: bytes, i: u32)
    requires Grows(w, w') && Invariant(w', trust)
    requires BegunHere(w, n, i) && At(w, n, i).cert.publicKey in w.nodes
    ensures IsTunnel(w', n, i) && EndsMeet(w', n, i)
  {
    hide Invariant;
    TunnelStays(w, w', n, i);
    BegunEndsMeet(w', trust, n, i);
  }

  /** What is sent into a tunnel whose keys the entry it addresses does not hold is lost. */
  lemma StrandedSendsAreLost(w: World, trust: Trust, m: bytes, j: u32, n: bytes, i: u32, addr: IpAddr,
                             payload: bytes, from: nat, index: u32, e: nat, now: int)
    requires n in w.nodes && IsTunnel(w, m, j) && Leads(w, m, addr, j) && At(w, m, j).remoteIndex == i
    requires IsTunnel(w, n, i) ==> At(w, n, i).transport.recvKey != At(w, m, j).transport.sendKey
    ensures var packet := Sending(w.nodes[m], addr, MESSAGE, payload).1;
            packet.Some? && Handle(w.nodes[n], trust, packet.value, from, index, e, now).data == None
  {
    hide Handle, Sending;
    PacketReachesPeer(w.nodes[m], w.nodes[n], trust, addr, payload, from, index, e, now);
  }
}
