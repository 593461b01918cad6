/** Whose identity a node reports for the packets it delivers: the inbox names only the address,
    and the identity is looked up by that address. */
module TunnelIdentity {
  import opened Optional
  import opened Bits
  import opened Bytes
  import opened Net
  import opened Header
  import opened Ideal
  import opened Handshake
  import opened Session
  import opened ReplaySpec
  import opened Tunnel
  import opened TunnelSteps
  import opened TunnelTheorems
  import opened TunnelPending
  import Transport
  import DerSpec

  /** A tunnel for address `a` that is there in `w'` and was not in `w`. */
  predicate Newer(w: World, w': World, n: bytes, a: IpAddr, k: u32) {
    IsTunnel(w', n, k) && At(w', n, k).vpnAddr == a && !IsTunnel(w, n, k)
  }

  /** A new tunnel takes over its address; without one the address table stays as it was. */
  ghost predicate TakesOver(w: World, w': World, n: bytes, a: IpAddr) {
    && (forall k :: Newer(w, w', n, a, k) ==> Leads(w', n, a, k))
    && ((forall k :: !Newer(w, w', n, a, k)) ==> forall k :: Leads(w', n, a, k) <==> Leads(w, n, a, k))
  }

  lemma ConnectTakes(w: World, m: bytes, addr: IpAddr, waiter: nat, index: u32, e: nat, n: bytes, a: IpAddr)
    requires m in w.nodes
    ensures TakesOver(w, DoConnect(w, m, addr, waiter, index, e), n, a)
  {
    hide DerSpec.HandshakeBytes, HandshakeHeader;
  }

  /** A new tunnel at one node that enters its address in the table. */
  lemma OpeningTakes(w: World, w': World, m: bytes, index: u32, n: bytes, a: IpAddr)
    requires m in w.nodes && !IsTunnel(w, m, index) && IsTunnel(w', m, index)
    requires w'.nodes == w.nodes[m := w'.nodes[m]]
    requires w'.nodes[m].peers == w.nodes[m].peers[index := At(w', m, index)]
    requires w'.nodes[m].indexByAddr == w.nodes[m].indexByAddr[At(w', m, index).vpnAddr := index]
    ensures TakesOver(w, w', n, a)
  {
    if m == n && At(w', n, index).vpnAddr == a { assert Newer(w, w', n, a, index); }
  }

  lemma FirstTakes(w: World, trust: Trust, m: bytes, p: Packet, from: nat, index: u32, e: nat, now: int,
                   n: bytes, a: IpAddr)
    requires m in w.nodes && Free(w.nodes[m], index)
    ensures TakesOver(w, DoFirst(w, trust, m, p, from, index, e, now), n, a)
  {
    hide HandleFirst, CheckPeer, HandshakeHeader, DerSpec.HandshakeBytes, TakesOver;
    var inner, body := w.nodes[m], AsNoise(p.body);
    var w' := DoFirst(w, trust, m, p, from, index, e, now);
    FirstEither(inner, trust, body, from, index, e, now);
    if HandleFirst(inner, trust, body, from, index, e, now).1.Some? {
      FirstAnswer(inner, trust, body, from, index, e, now);
      OpeningTakes(w, w', m, index, n, a);
    } else {
      assert w.nodes[m := w.nodes[m]] == w.nodes;
      SameTakes(w, w', n, a);
    }
  }

  lemma SecondTakes(w: World, trust: Trust, m: bytes, p: Packet, index: u32, from: nat, now: int, n: bytes, a: IpAddr)
    requires m in w.nodes
    ensures TakesOver(w, DoSecond(w, trust, m, p, index, from, now), n, a)
  {
    hide CheckPeer, Finish;
    var w' := DoSecond(w, trust, m, p, index, from, now);
    if m == n && IsTunnel(w', n, index) && !IsTunnel(w, n, index) && At(w', n, index).vpnAddr == a {
      assert Newer(w, w', n, a, index);
    }
  }

  lemma DataTakes(w: World, m: bytes, p: Packet, h: Header, n: bytes, a: IpAddr)
    requires m in w.nodes
    ensures TakesOver(w, DoData(w, m, p, h), n, a)
  {
    hide Transport.Receive;
  }

  lemma SendTakes(w: World, m: bytes, addr: IpAddr, kind: u8, payload: bytes, n: bytes, a: IpAddr)
    requires m in w.nodes
    ensures TakesOver(w, DoSend(w, m, addr, kind, payload), n, a)
  {
    hide Transport.Nonce, Encoded;
  }

  lemma SameTakes(w: World, w': World, n: bytes, a: IpAddr)
    requires w'.nodes == w.nodes
    ensures TakesOver(w, w', n, a)
  {
  }

  lemma StepTakesOver(w: World, trust: Trust, x: Action, n: bytes, a: IpAddr)
    ensures TakesOver(w, Do(w, trust, x), n, a)
  {
    SameTakes(w, DoInject(w, if x.Inject? then x.packet else Packet([], Enc(Junk([])))), n, a);
    SameTakes(w, w, n, a);
    hide DoConnect, DoFirst, DoSecond, DoData, DoSend, DoInject, TakesOver, Forgeable, Parse;
    if Enabled(w, x) {
      match x
      case Connect(m, addr, waiter, index, e) => ConnectTakes(w, m, addr, waiter, index, e, n, a);
      case Deliver(m, p, from, index, e, now) =>
        var r := Parse(p.header);
        if r.Parsed? {
          if Draws(p) { FirstTakes(w, trust, m, p, from, index, e, now, n, a); }
          SecondTakes(w, trust, m, p, r.header.remoteIndex, from, now, n, a);
          DataTakes(w, m, p, r.header, n, a);
        }
      case Send(m, addr, kind, payload) => SendTakes(w, m, addr, kind, payload, n, a);
      case Inject(_) =>
    }
  }

  /** The index of the tunnel for `a` that node `n` established last. */
  ghost function Newest(
    configs: map<bytes, Config>, trust: Trust, actions: seq<Action>, n: bytes, a: IpAddr): Option<u32>
  {
    if actions == [] then None
    else
      var front := actions[..|actions| - 1];
      var w, w' := Run(configs, trust, front), Run(configs, trust, actions);
      if k :| Newer(w, w', n, a, k) then Some(k) else Newest(configs, trust, front, n, a)
  }

  /** In every run the address table leads to the tunnel established last for each address. */
  lemma {:induction false} TableLeadsToNewest(
      configs: map<bytes, Config>, trust: Trust, actions: seq<Action>, n: bytes, a: IpAddr, k: u32)
    ensures Leads(Run(configs, trust, actions), n, a, k) <==> Newest(configs, trust, actions, n, a) == Some(k)
  {
    if actions != [] {
      hide Do, Leads, Newer, TakesOver;
      var front, last := actions[..|actions| - 1], actions[|actions| - 1];
      var w, w' := Run(configs, trust, front), Run(configs, trust, actions);
      StepTakesOver(w, trust, last, n, a);
      hide Run;
      TableLeadsToNewest(configs, trust, front, n, a, k);
      if i :| Newer(w, w', n, a, i) {
        NewLeads(w, w', n, a);
        LeadsOnce(w', n, a);
      } else {
        OldLeads(w, w', n, a, k);
      }
    }
  }

  lemma NewLeads(w: World, w': World, n: bytes, a: IpAddr)
    requires TakesOver(w, w', n, a)
    ensures forall k :: Newer(w, w', n, a, k) ==> Leads(w', n, a, k)
  {
  }

  lemma OldLeads(w: World, w': World, n: bytes, a: IpAddr, k: u32)
    requires TakesOver(w, w', n, a) && forall i :: !Newer(w, w', n, a, i)
    ensures Leads(w', n, a, k) <==> Leads(w, n, a, k)
  {
  }

  lemma LeadsOnce(w: World, n: bytes, a: IpAddr)
    ensures forall i, k :: Leads(w, n, a, i) && Leads(w, n, a, k) ==> i == k
  {
  }

  lemma {:induction false} TunnelHasNewest(
      configs: map<bytes, Config>, trust: Trust, actions: seq<Action>, n: bytes, i: u32)
    requires Named(configs) && IsTunnel(Run(configs, trust, actions), n, i)
    ensures Newest(configs, trust, actions, n, At(Run(configs, trust, actions), n, i).vpnAddr).Some?
  {
    hide Do, Invariant, Grows;
    if actions != [] {
      var front, last := actions[..|actions| - 1], actions[|actions| - 1];
      var w, w' := Run(configs, trust, front), Run(configs, trust, actions);
      if IsTunnel(w, n, i) {
        RunInvariant(configs, trust, front);
        StepKeeps(w, trust, last);
        TunnelStays(w, w', n, i);
        TunnelHasNewest(configs, trust, front, n, i);
      } else {
        assert Newer(w, w', n, At(w', n, i).vpnAddr, i);
      }
    }
  }

  /** What is looked up for an address is the tunnel that the table leads to. */
  lemma PeerInfoLeads(w: World, n: bytes, a: IpAddr, k: u32)
    requires Leads(w, n, a, k) && IsTunnel(w, n, k)
    ensures PeerInfo(w.nodes[n], a) == Some(At(w, n, k).cert.details)
  {
  }

  /** In every run, for whatever a tunnel delivered: the identity looked up for its address is a
      verified one that names the address first, that of the tunnel established last for the
      address. So it is the delivering tunnel's own exactly if that tunnel is the newest for the
      address, or the newest one carries the same details. */
  lemma DeliveredIdentity(configs: map<bytes, Config>, trust: Trust, actions: seq<Action>, d: Delivered)
    requires Named(configs) && d in Run(configs, trust, actions).delivered
    ensures var w, n := Run(configs, trust, actions), d.place.node;
            && n in configs && IsTunnel(w, n, d.place.index)
            && var p := At(w, n, d.place.index);
               && Newest(configs, trust, actions, n, p.vpnAddr).Some?
               && var k := Newest(configs, trust, actions, n, p.vpnAddr).value;
                  && IsTunnel(w, n, k)
                  && var q := At(w, n, k);
                     && q.vpnAddr == p.vpnAddr && Verified(trust, q.cert, configs[n].caCert)
                     && q.cert.details.networks != [] && q.cert.details.networks[0].addr == p.vpnAddr
                     && PeerInfo(w.nodes[n], p.vpnAddr) == Some(q.cert.details)
                     && (PeerInfo(w.nodes[n], p.vpnAddr) == Some(p.cert.details)
                         <==> k == d.place.index || q.cert.details == p.cert.details)
  {
    hide Run, Invariant, Newest, PeerInfo, Verified, DeliveredOk;
    var w, n := Run(configs, trust, actions), d.place.node;
    RunInvariant(configs, trust, actions);
    DeliveredFact(w, trust, d);
    DeliveredIsTunnel(w, d);
    var a := At(w, n, d.place.index).vpnAddr;
    TunnelHasNewest(configs, trust, actions, n, d.place.index);
    var k := Newest(configs, trust, actions, n, a).value;
    TableLeadsToNewest(configs, trust, actions, n, a, k);
    ConfigsStay(configs, trust, actions);
    AddressesLeadToVerifiedTunnels(configs, trust, actions, n, a);
    PeerInfoLeads(w, n, a, k);
  }

  lemma DeliveredIsTunnel(w: World, d: Delivered)
    requires DeliveredOk(w, d)
    ensures IsTunnel(w, d.place.node, d.place.index)
  {
  }

  /** A first message whose certificate checks out for `addr` is answered with a tunnel for it. */
  lemma FirstOpens(inner: Inner, trust: Trust, msg: Stage0, from: nat, j: u32, e: nat, now: int,
                   cert: DerSpec.Certificate, addr: IpAddr)
    requires msg.payload.Some? && msg.payload.value.initiatorIndex != 0
    requires CheckPeer(inner, trust, msg.payload.value.cert, msg.staticKey, now) == Some((cert, addr))
    ensures var (inner', reply) := HandleFirst(inner, trust, First(msg), from, j, e, now);
            && reply.Some?
            && j in inner'.peers && inner'.peers[j].Established? && inner'.peers[j].cert == cert
            && inner' == inner.(peers := inner.peers[j := inner'.peers[j]],
                                indexByAddr := inner.indexByAddr[addr := j])
  {
    hide CheckPeer, HandshakeHeader, DerSpec.HandshakeBytes;
  }

  lemma TwoSteps(w: World, trust: Trust, x: Action, y: Action)
    ensures RunFrom(w, trust, [x, y]) == Do(Do(w, trust, x), trust, y)
  {
    hide Do;
    assert [x, y][1..] == [y] && [y][1..] == [];
    assert RunFrom(w, trust, [x, y]) == RunFrom(Do(w, trust, x), trust, [y]);
    assert RunFrom(Do(w, trust, x), trust, [y]) == RunFrom(Do(Do(w, trust, x), trust, y), trust, []);
  }

  /** It need not be: anyone who holds another certificate that checks out for the same address can
      open a newer tunnel with it. The older tunnel goes on delivering what it delivered before,
      under the address for which the newer certificate is now looked up. */
  lemma NewerTunnelAnswers(w: World, trust: Trust, n: bytes, i: u32, msg: Stage0, counter: u64, from: nat,
                           j: u32, e: nat, now: int, p: Packet, cert: DerSpec.Certificate)
    requires IsTunnel(w, n, i) && Free(w.nodes[n], j) && e !in w.seen && e != msg.ephemeral
    requires msg.payload.Some? && msg.payload.value.initiatorIndex != 0
    requires CheckPeer(w.nodes[n], trust, msg.payload.value.cert, msg.staticKey, now)
             == Some((cert, At(w, n, i).vpnAddr))
    requires Parse(p.header).Parsed? && Parse(p.header).header.kind == MESSAGE
    requires Parse(p.header).header.remoteIndex == i
    ensures var first := Packet(HandshakeHeader(0, counter), Hs(First(msg)));
            var w2 := RunFrom(w, trust, [Inject(first), Deliver(n, first, from, j, e, now)]);
            && IsTunnel(w2, n, i) && At(w2, n, i) == At(w, n, i)
            && Handle(w2.nodes[n], trust, p, from, j, e, now).data == Handle(w.nodes[n], trust, p, from, j, e, now).data
            && PeerInfo(Handle(w2.nodes[n], trust, p, from, j, e, now).inner, At(w, n, i).vpnAddr) == Some(cert.details)
  {
    hide CheckPeer, HandshakeHeader, HandleFirst, Parse, Receive, PeerInfo, Ephemerals;
    var first := Packet(HandshakeHeader(0, counter), Hs(First(msg)));
    var x, y := Inject(first), Deliver(n, first, from, j, e, now);
    HandshakeHeaderParses(0, counter);
    TwoSteps(w, trust, x, y);
    FirstOpens(w.nodes[n], trust, msg, from, j, e, now, cert, At(w, n, i).vpnAddr);
    assert Ephemerals(first.body) == {msg.ephemeral} by { EphemeralOfFirst(first, msg); }
    var w2 := Do(Do(w, trust, x), trust, y);
    assert w2.nodes[n] == HandleFirst(w.nodes[n], trust, First(msg), from, j, e, now).0;
    SameData(w.nodes[n], w2.nodes[n], i, Parse(p.header).header.counter, p.header, AsBox(p.body));
    var inner := Handle(w2.nodes[n], trust, p, from, j, e, now).inner;
    NewestAnswers(inner, j, At(w, n, i).vpnAddr, cert);
  }

  lemma EphemeralOfFirst(p: Packet, msg: Stage0)
    requires p.body == Hs(First(msg))
    ensures Ephemerals(p.body) == {msg.ephemeral}
  {
  }

  /** Receiving under an index depends on its entry alone, and moves no other. */
  lemma SameData(a: Inner, b: Inner, i: u32, counter: u64, header: bytes, box: Box)
    requires i in a.peers && i in b.peers && a.peers[i] == b.peers[i]
    ensures Receive(a, i, counter, header, box).1 == Receive(b, i, counter, header, box).1
    ensures var b' := Receive(b, i, counter, header, box).0;
            && b'.indexByAddr == b.indexByAddr
            && forall k :: k in b.peers && k != i ==> k in b'.peers && b'.peers[k] == b.peers[k]
  {
    hide Transport.Receive;
  }

  lemma NewestAnswers(inner: Inner, j: u32, a: IpAddr, cert: DerSpec.Certificate)
    requires j in inner.peers && inner.peers[j].Established? && inner.peers[j].cert == cert
    requires a in inner.indexByAddr && inner.indexByAddr[a] == j
    ensures PeerInfo(inner, a) == Some(cert.details)
  {
  }
}
