/** What holds in every run of the nodes, whatever the network and outsiders do. */
module TunnelTheorems {
  import opened Optional
  import opened Bits
  import opened Bytes
  import opened Net
  import opened Header
  import opened Ideal
  import opened Handshake
  import opened Session
  import opened ReplaySpec
  import opened Tunnel
  import opened TunnelSteps
  import Transport
  import DerSpec
  import DerProofs

  // ---- Runs only grow ----

  lemma GrowsTrans(a: World, b: World, c: World)
    requires Grows(a, b) && Grows(b, c)
    ensures Grows(a, c)
  {
    RecordsTrans(a, b, c);
    hide RecordsGrow;
  }

  lemma RecordsTrans(a: World, b: World, c: World)
    requires RecordsGrow(a, b) && RecordsGrow(b, c)
    ensures RecordsGrow(a, c)
  {
  }

  lemma {:induction false} RunGrows(configs: map<bytes, Config>, trust: Trust, actions: seq<Action>, more: seq<Action>)
    requires Named(configs)
    ensures Grows(Run(configs, trust, actions), Run(configs, trust, actions + more))
  {
    hide Grows, Do, Invariant;
    if more == [] {
      assert actions + more == actions;
      GrowsRefl(Run(configs, trust, actions));
    } else {
      var front, last := more[..|more| - 1], more[|more| - 1];
      assert (actions + more)[..|actions + more| - 1] == actions + front;
      var mid := Run(configs, trust, actions + front);
      RunGrows(configs, trust, actions, front);
      RunInvariant(configs, trust, actions + front);
      StepKeeps(mid, trust, last);
      GrowsTrans(Run(configs, trust, actions), mid, Run(configs, trust, actions + more));
    }
  }

  // ---- Tunnels ----

  /** A host certificate that was itself decoded or recombined, for the key the node holds. */
  ghost predicate WellFormed(config: Config) {
    && DerProofs.Consistent(config.hostCert)
    && config.hostCert.publicKey == config.staticKey && config.hostCert.curve == DerSpec.Curve25519
    && |config.hostCert.rawDetails + DerSpec.AfterDetails(config.hostCert)| < TWO64
  }

  /** In every run: when a node's handshake has become a tunnel with a peer running this code,
      the peer holds its end from then on, under the index the node addresses; that end
      addresses the node's own index, holds the same keys with the directions swapped and the
      same cipher; and each end holds exactly the other's host certificate. */
  lemma InitiatedTunnelsAreMirrored(
      configs: map<bytes, Config>, trust: Trust, actions: seq<Action>, more: seq<Action>, n: bytes, i: u32)
    requires Named(configs)
    requires BegunHere(Run(configs, trust, actions), n, i)
    requires At(Run(configs, trust, actions), n, i).cert.publicKey in configs
    ensures var w := Run(configs, trust, actions + more);
            && IsTunnel(w, n, i) && SameTunnel(At(Run(configs, trust, actions), n, i), At(w, n, i))
            && var p := At(w, n, i);
               var m := p.cert.publicKey;
               && IsTunnel(w, m, p.remoteIndex)
               && var q := At(w, m, p.remoteIndex);
                  && q.remoteIndex == i
                  && q.transport.sendKey == p.transport.recvKey && q.transport.recvKey == p.transport.sendKey
                  && q.transport.cipher == p.transport.cipher
                  && (n in configs && m in configs && WellFormed(configs[n]) && WellFormed(configs[m])
                      ==> p.cert == configs[m].hostCert && q.cert == configs[n].hostCert)
  {
    hide Invariant, Grows, DerProofs.Consistent, DerSpec.AfterDetails, DerSpec.HandshakeBytes, DerSpec.Recombine, Run;
    var w0, w := Run(configs, trust, actions), Run(configs, trust, actions + more);
    RunInvariant(configs, trust, actions);
    RunGrows(configs, trust, actions, more);
    RunInvariant(configs, trust, actions + more);
    ConfigsStay(configs, trust, actions + more);
    TunnelStays(w0, w, n, i);
    MirrorFact(w, trust, n, i);
    var p := At(w, n, i);
    PeerFact(w, trust, n, i);
    PeerFact(w, trust, p.cert.publicKey, p.remoteIndex);
    hide Verified;
    if n in configs && p.cert.publicKey in configs && WellFormed(configs[n]) && WellFormed(configs[p.cert.publicKey]) {
      DerProofs.ConsistentRecombines(configs[n].hostCert);
      DerProofs.ConsistentRecombines(configs[p.cert.publicKey].hostCert);
    }
  }

  lemma MirrorFact(w: World, trust: Trust, n: bytes, i: u32)
    requires Invariant(w, trust) && BegunHere(w, n, i) && At(w, n, i).cert.publicKey in w.nodes
    ensures At(w, n, i).cert.publicKey == PeerStatic(At(w, n, i).transport.sendKey)
    ensures MirroredBy(w, n, i)
  {
    hide MirroredBy, AddrsOk, NetOk, HoldersOk, AllSentOk, AllDeliveredOk, CompletedOk, PeersOk, Verified;
    PeerFact(w, trust, n, i);
  }

  lemma TunnelStays(w: World, w': World, n: bytes, i: u32)
    requires Grows(w, w') && IsTunnel(w, n, i)
    ensures IsTunnel(w', n, i) && SameTunnel(At(w, n, i), At(w', n, i))
  {
  }

  lemma {:induction false} ConfigsStay(configs: map<bytes, Config>, trust: Trust, actions: seq<Action>)
    requires Named(configs)
    ensures Run(configs, trust, actions).nodes.Keys == configs.Keys
    ensures forall n :: n in configs ==> Run(configs, trust, actions).nodes[n].config == configs[n]
  {
    hide Grows, Do, Invariant, RecordsGrow;
    RunGrows(configs, trust, [], actions);
    assert [] + actions == actions;
    StartAndGrow(configs, Run(configs, trust, actions));
  }

  lemma StartAndGrow(configs: map<bytes, Config>, w: World)
    requires Grows(Tunnel.Start(configs), w)
    ensures w.nodes.Keys == configs.Keys
    ensures forall n :: n in configs ==> w.nodes[n].config == configs[n]
  {
  }

  /** No node ever stores an entry, handshake or tunnel, under index 0, and no tunnel ever
      addresses it at its peer. */
  lemma IndexZeroIsNeverUsed(configs: map<bytes, Config>, trust: Trust, actions: seq<Action>, n: bytes, i: u32)
    requires Named(configs)
    ensures !Has(Run(configs, trust, actions), n, 0)
    ensures IsTunnel(Run(configs, trust, actions), n, i) ==> At(Run(configs, trust, actions), n, i).remoteIndex != 0
  {
    hide Invariant, Run, PendingOk, KeysOk, Verified;
    RunInvariant(configs, trust, actions);
    if Has(Run(configs, trust, actions), n, 0) { PeerFact(Run(configs, trust, actions), trust, n, 0); }
    if Has(Run(configs, trust, actions), n, i) { PeerFact(Run(configs, trust, actions), trust, n, i); }
  }

  /** In every run a tunnel, once there, stays for good: same keys, same address, same
      certificate, same peer index. */
  lemma TunnelsAreForever(
      configs: map<bytes, Config>, trust: Trust, actions: seq<Action>, more: seq<Action>, n: bytes, i: u32)
    requires Named(configs) && IsTunnel(Run(configs, trust, actions), n, i)
    ensures var w := Run(configs, trust, actions + more);
            IsTunnel(w, n, i) && SameTunnel(At(Run(configs, trust, actions), n, i), At(w, n, i)) && !Has(w, n, 0)
  {
    hide Invariant, Grows, Run;
    RunGrows(configs, trust, actions, more);
    TunnelStays(Run(configs, trust, actions), Run(configs, trust, actions + more), n, i);
    IndexZeroIsNeverUsed(configs, trust, actions + more, n, i);
  }

  /** In every run, whatever address a node can send to leads to a tunnel for that address, whose
      certificate was verified, names that address first, and is for the key of the handshake;
      packets for it carry a peer index that is not 0. */
  lemma AddressesLeadToVerifiedTunnels(
      configs: map<bytes, Config>, trust: Trust, actions: seq<Action>, n: bytes, a: IpAddr)
    requires Named(configs) && n in configs
    requires n in Run(configs, trust, actions).nodes && a in Run(configs, trust, actions).nodes[n].indexByAddr
    ensures var w := Run(configs, trust, actions);
            var i := w.nodes[n].indexByAddr[a];
            && i != 0 && IsTunnel(w, n, i)
            && var p := At(w, n, i);
               && p.vpnAddr == a
               && Verified(trust, p.cert, configs[n].caCert)
               && p.cert.details.networks != [] && p.cert.details.networks[0].addr == a
               && p.cert.publicKey == PeerStatic(p.transport.sendKey)
               && p.remoteIndex != 0
  {
    hide Invariant, Grows, Run, KeysOk, Verified;
    RunInvariant(configs, trust, actions);
    ConfigsStay(configs, trust, actions);
    AddrFact(Run(configs, trust, actions), trust, n, a);
    PeerFact(Run(configs, trust, actions), trust, n, Run(configs, trust, actions).nodes[n].indexByAddr[a]);
  }

  /** After a connect to an address succeeded, the peer's identity is known from then on. */
  lemma ConnectedPeersAreKnown(
      configs: map<bytes, Config>, trust: Trust, actions: seq<Action>, more: seq<Action>, n: bytes, a: IpAddr)
    requires Named(configs) && (n, a) in Run(configs, trust, actions).completed
    ensures var w := Run(configs, trust, actions + more);
            && n in w.nodes && PeerInfo(w.nodes[n], a).Some?
            && PeerInfo(w.nodes[n], a).value.networks != [] && PeerInfo(w.nodes[n], a).value.networks[0].addr == a
  {
    hide Grows, Run, KeysOk, Verified, PeersOk, AddrsOk, NetOk, HoldersOk, AllSentOk, AllDeliveredOk, MirrorsOk;
    var w := Run(configs, trust, actions + more);
    RunGrows(configs, trust, actions, more);
    RunInvariant(configs, trust, actions + more);
    CompletedStays(Run(configs, trust, actions), w, n, a);
    AddrFact(w, trust, n, a);
    PeerFact(w, trust, n, w.nodes[n].indexByAddr[a]);
  }

  lemma CompletedStays(w: World, w': World, n: bytes, a: IpAddr)
    requires Grows(w, w') && (n, a) in w.completed && CompletedOk(w')
    ensures n in w'.nodes && a in w'.nodes[n].indexByAddr
  {
    assert (n, a) in w'.completed;
  }

  // ---- Delivery ----

  /** The payloads delivered from one tunnel, in order. */
  function DeliveredAt(log: seq<Delivered>, place: Place): seq<(bytes, bytes)> {
    if log == [] then []
    else
      var front, last := DeliveredAt(log[..|log| - 1], place), log[|log| - 1];
      if last.place == place then front + [(last.header, last.payload)] else front
  }

  /** The data payloads sent under one key, in order. */
  function DataSentUnder(log: seq<Sent>, cipher: Cipher, key: Key): seq<(bytes, bytes)> {
    if log == [] then []
    else
      var front, last := DataSentUnder(log[..|log| - 1], cipher, key), log[|log| - 1];
      if last.key == key && last.cipher == cipher && IsData(last.header) then front + [(last.header, last.payload)]
      else front
  }

  function Payloads(s: seq<(bytes, bytes)>): seq<bytes> {
    if s == [] then [] else [s[0].1] + Payloads(s[1..])
  }

  lemma {:induction false} PayloadsSplit(a: seq<(bytes, bytes)>, b: seq<(bytes, bytes)>)
    ensures Payloads(a + b) == Payloads(a) + Payloads(b)
  {
    if a == [] {
      assert a + b == b;
    } else {
      assert (a + b)[1..] == a[1..] + b;
      PayloadsSplit(a[1..], b);
    }
  }

  ghost predicate NoRepeats(s: seq<(bytes, bytes)>) {
    forall i, j :: 0 <= i < j < |s| ==> s[i] != s[j]
  }

  /** Distinct items, each found in a list, carry a sub-multiset of the list's payloads. */
  lemma {:induction false} DistinctItemsEmbed(a: seq<(bytes, bytes)>, b: seq<(bytes, bytes)>)
    requires NoRepeats(a) && forall x :: x in a ==> x in b
    ensures multiset(Payloads(a)) <= multiset(Payloads(b))
  {
    if a != [] {
      assert a[0] in b;
      var j :| 0 <= j < |b| && b[j] == a[0];
      var rest := b[..j] + b[j + 1..];
      assert b == b[..j] + ([b[j]] + b[j + 1..]);
      forall x | x in a[1..] ensures x in rest {
        assert x != a[0] && x in a && x in b;
        assert x in b[..j] || x in [b[j]] || x in b[j + 1..];
      }
      DistinctItemsEmbed(a[1..], rest);
      PayloadsSplit(b[..j], b[j + 1..]);
      PayloadsSplit(b[..j], [b[j]] + b[j + 1..]);
      PayloadsSplit([b[j]], b[j + 1..]);
      assert Payloads([b[j]]) == [b[j].1];
    }
  }

  lemma {:induction false} DeliveredAtItems(log: seq<Delivered>, place: Place)
    requires forall j, k :: 0 <= j < k < |log| && log[j].place == log[k].place ==>
               CounterIn(log[j]) != CounterIn(log[k])
    ensures NoRepeats(DeliveredAt(log, place))
    ensures forall x :: x in DeliveredAt(log, place) ==> Delivered(place, x.0, x.1) in log
  {
    if log != [] {
      var front, last := log[..|log| - 1], log[|log| - 1];
      DeliveredAtItems(front, place);
      forall x | x in DeliveredAt(front, place)
        ensures Delivered(place, x.0, x.1) in log
        ensures last.place == place ==> x != (last.header, last.payload)
      {
        var d := Delivered(place, x.0, x.1);
        var j :| 0 <= j < |front| && front[j] == d;
        assert log[j] == d;
      }
      hide CounterIn;
    }
  }

  lemma {:induction false} DataSentItems(log: seq<Sent>, cipher: Cipher, key: Key, header: bytes, payload: bytes)
    ensures Sent(cipher, key, header, payload) in log && IsData(header) ==>
              (header, payload) in DataSentUnder(log, cipher, key)
  {
    hide IsData;
    if log != [] {
      var front, last := log[..|log| - 1], log[|log| - 1];
      DataSentItems(front, cipher, key, header, payload);
      assert log == front + [last];
    }
  }

  /** In every run: what a tunnel whose peer runs this code puts in the inbox is a sub-multiset
      of the data payloads sent under its receive key - each send is delivered at most once and
      lighthouse traffic never as data - and only the peer's end of the tunnel sends under it. */
  lemma DeliveredAtMostOnce(configs: map<bytes, Config>, trust: Trust, actions: seq<Action>, n: bytes, i: u32)
    requires Named(configs) && IsTunnel(Run(configs, trust, actions), n, i)
    requires At(Run(configs, trust, actions), n, i).cert.publicKey in configs
    ensures var w := Run(configs, trust, actions);
            var t := At(w, n, i).transport;
            && multiset(Payloads(DeliveredAt(w.delivered, Place(n, i))))
               <= multiset(Payloads(DataSentUnder(w.sent, t.cipher, t.recvKey)))
            && (forall s :: s in w.sent && s.key == t.recvKey ==>
                  && s.key in w.holder
                  && w.holder[s.key].node == At(w, n, i).cert.publicKey
                  && IsTunnel(w, w.holder[s.key].node, w.holder[s.key].index)
                  && At(w, w.holder[s.key].node, w.holder[s.key].index).transport.sendKey == t.recvKey)
            && (forall m, j :: IsTunnel(w, m, j) && At(w, m, j).transport.sendKey == t.recvKey ==>
                  t.recvKey in w.holder && w.holder[t.recvKey] == Place(m, j))
  {
    hide Run, Invariant, PeerOk, Verified, CounterIn, IsData, DeliveredAt, DataSentUnder, SentOk, HolderOk;
    var w := Run(configs, trust, actions);
    RunInvariant(configs, trust, actions);
    var t := At(w, n, i).transport;
    NotKnownOutside(w, trust, n, i);
    var place := Place(n, i);
    CountersDiffer(w, trust);
    DeliveredAtItems(w.delivered, place);
    forall x | x in DeliveredAt(w.delivered, place) ensures x in DataSentUnder(w.sent, t.cipher, t.recvKey) {
      DeliveredFact(w, trust, Delivered(place, x.0, x.1));
      DataSentItems(w.sent, t.cipher, t.recvKey, x.0, x.1);
    }
    DistinctItemsEmbed(DeliveredAt(w.delivered, place), DataSentUnder(w.sent, t.cipher, t.recvKey));
    forall s | s in w.sent && s.key == t.recvKey
      ensures s.key in w.holder && w.holder[s.key].node == At(w, n, i).cert.publicKey
      && IsTunnel(w, w.holder[s.key].node, w.holder[s.key].index)
      && At(w, w.holder[s.key].node, w.holder[s.key].index).transport.sendKey == t.recvKey
    {
      SenderIsPeer(w, trust, n, i, s);
    }
    forall m, j | IsTunnel(w, m, j) && At(w, m, j).transport.sendKey == t.recvKey
      ensures t.recvKey in w.holder && w.holder[t.recvKey] == Place(m, j)
    {
      HolderOfTunnel(w, trust, m, j);
    }
  }

  lemma CountersDiffer(w: World, trust: Trust)
    requires Invariant(w, trust)
    ensures forall j, k :: 0 <= j < k < |w.delivered| && w.delivered[j].place == w.delivered[k].place ==>
              CounterIn(w.delivered[j]) != CounterIn(w.delivered[k])
  {
    hide CounterIn, DeliveredOk, PeersOk, AddrsOk, NetOk, HoldersOk, AllSentOk, MirrorsOk, CompletedOk;
  }

  lemma HolderOfTunnel(w: World, trust: Trust, n: bytes, i: u32)
    requires Invariant(w, trust) && IsTunnel(w, n, i)
    ensures At(w, n, i).transport.sendKey in w.holder && w.holder[At(w, n, i).transport.sendKey] == Place(n, i)
  {
    hide Invariant, IdentityOk;
    PeerFact(w, trust, n, i);
  }

  /** A tunnel between two nodes uses keys that nobody else can know. */
  lemma NotKnownOutside(w: World, trust: Trust, n: bytes, i: u32)
    requires Invariant(w, trust) && IsTunnel(w, n, i) && At(w, n, i).cert.publicKey in w.nodes
    ensures !KnownOutside(w, At(w, n, i).transport.recvKey) && !KnownOutside(w, At(w, n, i).transport.sendKey)
  {
    hide Invariant, Verified;
    PeerFact(w, trust, n, i);
  }

  lemma SenderIsPeer(w: World, trust: Trust, n: bytes, i: u32, s: Sent)
    requires Invariant(w, trust) && IsTunnel(w, n, i) && s in w.sent && s.key == At(w, n, i).transport.recvKey
    ensures s.key in w.holder && w.holder[s.key].node == At(w, n, i).cert.publicKey
    ensures IsTunnel(w, w.holder[s.key].node, w.holder[s.key].index)
    ensures At(w, w.holder[s.key].node, w.holder[s.key].index).transport.sendKey == s.key
  {
    hide Invariant, Verified, Parse;
    SentFact(w, trust, s);
    PeerFact(w, trust, n, i);
    HolderFact(w, trust, s.key);
    PeerFact(w, trust, w.holder[s.key].node, w.holder[s.key].index);
  }

  lemma SentFact(w: World, trust: Trust, s: Sent)
    requires Invariant(w, trust) && s in w.sent
    ensures SentOk(w, s)
  {
    hide SentOk, PeersOk, AddrsOk, NetOk, HoldersOk, AllDeliveredOk, MirrorsOk, CompletedOk;
  }

  // ---- Reaching the peer ----

  /** `q` at (m, j) is the other end of `p`. */
  predicate OtherEnd(p: PeerState, q: PeerState, j: u32) {
    && p.Established? && q.Established?
    && p.remoteIndex == j && q.transport.recvKey == p.transport.sendKey && q.transport.cipher == p.transport.cipher
  }

  /** A data packet sent into a tunnel reaches the inbox of a node, with its payload unchanged,
      exactly if that node holds the other end under the index addressed and has not used up the
      packet's counter yet. */
  lemma PacketReachesPeer(a: Inner, b: Inner, trust: Trust, addr: IpAddr, payload: bytes,
                          from: nat, index: u32, ephemeral: nat, now: int)
    requires addr in a.indexByAddr && a.indexByAddr[addr] in a.peers && a.peers[a.indexByAddr[addr]].Established?
    ensures var p := a.peers[a.indexByAddr[addr]];
            var packet := Sending(a, addr, MESSAGE, payload).1;
            && packet.Some?
            && Handle(b, trust, packet.value, from, index, ephemeral, now).data
               == if p.remoteIndex in b.peers && OtherEnd(p, b.peers[p.remoteIndex], p.remoteIndex)
                     && Fresh(b.peers[p.remoteIndex].transport.window, Inc64(p.transport.sendCounter))
                  then Some((b.peers[p.remoteIndex].vpnAddr, payload)) else None
  {
    var p := a.peers[a.indexByAddr[addr]];
    Transport.SendOnWire(p.transport, p.remoteIndex, MESSAGE, payload);
    hide Parse, Encoded, Transport.Nonce, Fresh, Accept;
  }

  /** The peer holds the other end of the tunnel of `n` under `i`, and the tunnel is the other end
      of that one. */
  predicate EndsMeet(w: World, n: bytes, i: u32)
    requires IsTunnel(w, n, i)
  {
    var p := At(w, n, i);
    && IsTunnel(w, p.cert.publicKey, p.remoteIndex)
    && var q := At(w, p.cert.publicKey, p.remoteIndex);
       OtherEnd(p, q, p.remoteIndex) && OtherEnd(q, p, i)
  }

  lemma BegunEndsMeet(w: World, trust: Trust, n: bytes, i: u32)
    requires Invariant(w, trust) && BegunHere(w, n, i) && At(w, n, i).cert.publicKey in w.nodes
    ensures EndsMeet(w, n, i)
  {
    hide Invariant, Verified, DerSpec.HandshakeBytes, DerSpec.Recombine;
    MirrorFact(w, trust, n, i);
    PeerFact(w, trust, n, i);
    PeerFact(w, trust, At(w, n, i).cert.publicKey, At(w, n, i).remoteIndex);
  }

  /** If some node sends under the receive key of a tunnel that `n` answered, it is the peer's end
      and the two ends meet. */
  lemma AnsweredEndsMeet(w: World, trust: Trust, n: bytes, i: u32)
    requires Invariant(w, trust) && IsTunnel(w, n, i) && !BegunHere(w, n, i)
    requires At(w, n, i).transport.recvKey in w.holder
    ensures EndsMeet(w, n, i)
  {
    hide Invariant, Verified, DerSpec.HandshakeBytes, DerSpec.Recombine;
    var p := At(w, n, i);
    var place := w.holder[p.transport.recvKey];
    PeerFact(w, trust, n, i);
    HolderFact(w, trust, p.transport.recvKey);
    PeerFact(w, trust, place.node, place.index);
    MirrorFact(w, trust, place.node, place.index);
    PeerFact(w, trust, n, At(w, place.node, place.index).remoteIndex);
  }

  lemma MeetingEndSends(w: World, trust: Trust, n: bytes, i: u32)
    requires Invariant(w, trust) && IsTunnel(w, n, i) && EndsMeet(w, n, i)
    ensures At(w, n, i).transport.recvKey in w.holder
  {
    hide Invariant, Verified;
    var p := At(w, n, i);
    PeerFact(w, trust, n, i);
    PeerFact(w, trust, p.cert.publicKey, p.remoteIndex);
  }

  /** In every run, for every tunnel with a node. If it was begun here, the peer holds its other
      end. If it was answered here, that holds exactly when the peer completed this very handshake,
      that is, when some tunnel sends under this one's receive key. It need not: see
      `TunnelProgress.ReplayedFirstMessageStrands`. Once anything was delivered from the tunnel, it
      does. */
  lemma WhenEndsMeet(configs: map<bytes, Config>, trust: Trust, actions: seq<Action>, n: bytes, i: u32)
    requires Named(configs) && IsTunnel(Run(configs, trust, actions), n, i)
    requires At(Run(configs, trust, actions), n, i).cert.publicKey in configs
    ensures var w := Run(configs, trust, actions);
            && (BegunHere(w, n, i) ==> EndsMeet(w, n, i))
            && (EndsMeet(w, n, i) <==> At(w, n, i).transport.recvKey in w.holder)
            && ((exists d :: d in w.delivered && d.place == Place(n, i)) ==> EndsMeet(w, n, i))
  {
    hide Run, Invariant, EndsMeet, SentOk, DeliveredOk, KnownOutside;
    var w := Run(configs, trust, actions);
    RunInvariant(configs, trust, actions);
    ConfigsStay(configs, trust, actions);
    if BegunHere(w, n, i) {
      BegunEndsMeet(w, trust, n, i);
    } else if At(w, n, i).transport.recvKey in w.holder {
      AnsweredEndsMeet(w, trust, n, i);
    }
    if EndsMeet(w, n, i) { MeetingEndSends(w, trust, n, i); }
    if d :| d in w.delivered && d.place == Place(n, i) { DeliveredHasSender(w, trust, n, i, d); }
  }

  /** Ends that meet go on meeting. */
  lemma EndsStayMet(configs: map<bytes, Config>, trust: Trust, actions: seq<Action>, more: seq<Action>,
                    n: bytes, i: u32)
    requires Named(configs) && IsTunnel(Run(configs, trust, actions), n, i)
    requires EndsMeet(Run(configs, trust, actions), n, i)
    ensures IsTunnel(Run(configs, trust, actions + more), n, i) && EndsMeet(Run(configs, trust, actions + more), n, i)
  {
    hide Run, Grows;
    var w, w' := Run(configs, trust, actions), Run(configs, trust, actions + more);
    var p := At(w, n, i);
    RunGrows(configs, trust, actions, more);
    TunnelStays(w, w', n, i);
    TunnelStays(w, w', p.cert.publicKey, p.remoteIndex);
  }

  lemma DeliveredHasSender(w: World, trust: Trust, n: bytes, i: u32, d: Delivered)
    requires Invariant(w, trust) && IsTunnel(w, n, i) && At(w, n, i).cert.publicKey in w.nodes
    requires d in w.delivered && d.place == Place(n, i)
    ensures At(w, n, i).transport.recvKey in w.holder
  {
    hide Invariant, Parse, KnownOutside, IsData, CounterIn;
    NotKnownOutside(w, trust, n, i);
    DeliveredFact(w, trust, d);
    var t := At(w, n, i).transport;
    SentFact(w, trust, Sent(t.cipher, t.recvKey, d.header, d.payload));
  }
}
