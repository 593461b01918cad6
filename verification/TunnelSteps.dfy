/** Every step keeps the invariant and only lets the records grow. */
module TunnelSteps {
  import opened Optional
  import opened Bits
  import opened Bytes
  import opened Net
  import opened Header
  import opened Ideal
  import opened Handshake
  import opened Session
  import opened ReplaySpec
  import opened Tunnel
  import Transport
  import DerSpec

  /** Only the entry of node `n` under index `i` differs. */
  ghost predicate ChangesOnly(w: World, w': World, n: bytes, i: u32) {
    forall m, j :: (Has(w, m, j) || Has(w', m, j)) && !(m == n && j == i) ==>
      Has(w, m, j) && Has(w', m, j) && At(w, m, j) == At(w', m, j)
  }

  /** At one node, only the entry under index `i` differs; a tunnel there stays the same tunnel. */
  ghost predicate NodeStep(a: Inner, b: Inner, i: u32) {
    && a.config == b.config
    && (forall j :: j != i ==> (j in a.peers <==> j in b.peers))
    && (forall j :: j != i && j in a.peers ==> b.peers[j] == a.peers[j])
    && (i in a.peers && a.peers[i].Established? ==>
          i in b.peers && b.peers[i].Established? && SameTunnel(a.peers[i], b.peers[i]))
    && (forall addr :: addr in a.indexByAddr ==> addr in b.indexByAddr)
  }

  lemma SameRefl(p: PeerState)
    requires p.Established?
    ensures SameTunnel(p, p)
  {
  }

  /** Only node `n` differs, by one such step. */
  ghost predicate OneNode(w: World, w': World, n: bytes, i: u32) {
    && n in w.nodes && w'.nodes.Keys == w.nodes.Keys
    && (forall m :: m in w.nodes && m != n ==> w'.nodes[m] == w.nodes[m])
    && NodeStep(w.nodes[n], w'.nodes[n], i)
  }

  lemma OneNodeTunnels(w: World, w': World, n: bytes, i: u32, m: bytes, j: u32)
    requires OneNode(w, w', n, i) && IsTunnel(w, m, j)
    ensures IsTunnel(w', m, j) && SameTunnel(At(w, m, j), At(w', m, j))
  {
    hide SameTunnel;
    SameRefl(At(w, m, j));
  }

  lemma OneNodeChanges(w: World, w': World, n: bytes, i: u32)
    requires OneNode(w, w', n, i)
    ensures ChangesOnly(w, w', n, i)
  {
    hide SameTunnel;
  }

  lemma OneNodeFrame(w: World, w': World, n: bytes, i: u32)
    requires OneNode(w, w', n, i)
    ensures w.nodes.Keys == w'.nodes.Keys
    ensures forall m :: m in w.nodes ==> w'.nodes[m].config == w.nodes[m].config
    ensures forall m, a :: m in w.nodes && a in w.nodes[m].indexByAddr ==> a in w'.nodes[m].indexByAddr
  {
    hide SameTunnel;
  }

  lemma StepGrows(w: World, w': World, n: bytes, i: u32)
    requires OneNode(w, w', n, i) && RecordsGrow(w, w')
    ensures Grows(w, w') && ChangesOnly(w, w', n, i)
  {
    hide OneNode, RecordsGrow, SameTunnel, ChangesOnly;
    OneNodeChanges(w, w', n, i);
    OneNodeFrame(w, w', n, i);
    forall m, j | IsTunnel(w, m, j) ensures IsTunnel(w', m, j) && SameTunnel(At(w, m, j), At(w', m, j)) {
      OneNodeTunnels(w, w', n, i, m, j);
    }
  }

  /** What a step that touches one entry still has to show for the invariant. */
  lemma Assemble(w: World, w': World, trust: Trust, n: bytes, i: u32)
    requires Invariant(w, trust) && Grows(w, w') && ChangesOnly(w, w', n, i)
    requires w'.begun.Keys <= w'.used <= w'.seen
    requires Has(w', n, i) ==> PeerOk(w', trust, n, i)
    requires forall p :: p in w'.net && p !in w.net ==> PacketOk(w', p)
    requires forall k :: k in w'.holder && k !in w.holder ==> HolderOk(w', k)
    requires forall s :: s in w'.sent && s !in w.sent ==> SentOk(w', s)
    requires AllDeliveredOk(w')
    requires !IsTunnel(w, n, i) && BegunHere(w', n, i) && PeerStatic(At(w', n, i).transport.sendKey) in w'.nodes
             ==> MirroredBy(w', n, i)
    requires forall m, a :: m in w'.nodes && a in w'.nodes[m].indexByAddr
               && !(a in w.nodes[m].indexByAddr && w'.nodes[m].indexByAddr[a] == w.nodes[m].indexByAddr[a])
               ==> AddrOk(w', m, a)
    requires forall c :: c in w'.completed && c !in w.completed ==> c.0 in w'.nodes && c.1 in w'.nodes[c.0].indexByAddr
    ensures Invariant(w', trust)
  {
    hide PeerOk, PacketOk, HolderOk, SentOk, MirroredBy, AddrOk, SameTunnel;
    PeersStay(w, w', trust, n, i);
    NetStays(w, w');
    HoldersStay(w, w');
    SentStays(w, w');
    MirrorsStay(w, w', n, i);
    AddrsStay(w, w');
  }

  /** The same for a step of one node that delivers nothing and gives at most one address a tunnel. */
  lemma Rest(w: World, w': World, trust: Trust, n: bytes, i: u32)
    requires Invariant(w, trust) && Grows(w, w') && ChangesOnly(w, w', n, i) && n in w.nodes
    requires w'.begun.Keys <= w'.used <= w'.seen && w'.delivered == w.delivered && w'.nodes.Keys == w.nodes.Keys
    requires forall m :: m in w.nodes && m != n ==> w'.nodes[m].indexByAddr == w.nodes[m].indexByAddr
    requires w'.nodes[n].indexByAddr == w.nodes[n].indexByAddr
             || (IsTunnel(w', n, i) && w'.nodes[n].indexByAddr == w.nodes[n].indexByAddr[At(w', n, i).vpnAddr := i])
    requires forall c :: c in w'.completed && c !in w.completed ==> c.0 == n && c.1 in w'.nodes[n].indexByAddr
    requires Has(w', n, i) ==> PeerOk(w', trust, n, i)
    requires forall p :: p in w'.net && p !in w.net ==> PacketOk(w', p)
    requires forall k :: k in w'.holder && k !in w.holder ==> HolderOk(w', k)
    requires forall s :: s in w'.sent && s !in w.sent ==> SentOk(w', s)
    requires !IsTunnel(w, n, i) && BegunHere(w', n, i) && PeerStatic(At(w', n, i).transport.sendKey) in w'.nodes
             ==> MirroredBy(w', n, i)
    ensures Invariant(w', trust)
  {
    hide Grows, ChangesOnly, PacketOk, PeerOk, HolderOk, SentOk, DeliveredOk, MirroredBy, CounterIn, SameTunnel;
    DeliveriesStay(w, w', trust);
    Assemble(w, w', trust, n, i);
  }

  // ---- Reading the invariant ----

  lemma PeerFact(w: World, trust: Trust, n: bytes, i: u32)
    requires Invariant(w, trust) && Has(w, n, i)
    ensures PeerOk(w, trust, n, i) && w.nodes[n].config.staticKey == n
  {
    hide PeerOk, AddrsOk, NetOk, HoldersOk, AllSentOk, AllDeliveredOk, MirrorsOk, CompletedOk;
  }

  lemma NodeFact(w: World, trust: Trust, n: bytes)
    requires Invariant(w, trust) && n in w.nodes
    ensures w.nodes[n].config.staticKey == n && w.used <= w.seen && w.begun.Keys <= w.used
  {
    hide PeersOk, AddrsOk, NetOk, HoldersOk, AllSentOk, AllDeliveredOk, MirrorsOk, CompletedOk;
  }

  lemma PacketFact(w: World, trust: Trust, p: Packet)
    requires Invariant(w, trust) && p in w.net
    ensures PacketOk(w, p) && w.used <= w.seen
  {
    hide PacketOk, PeersOk, AddrsOk, HoldersOk, AllSentOk, AllDeliveredOk, MirrorsOk, CompletedOk;
  }

  lemma HolderFact(w: World, trust: Trust, k: Key)
    requires Invariant(w, trust) && k in w.holder
    ensures HolderOk(w, k)
  {
    hide HolderOk, PeersOk, AddrsOk, NetOk, AllSentOk, AllDeliveredOk, MirrorsOk, CompletedOk;
  }

  lemma AddrFact(w: World, trust: Trust, n: bytes, a: IpAddr)
    requires Invariant(w, trust) && n in w.nodes && a in w.nodes[n].indexByAddr
    ensures AddrOk(w, n, a)
  {
    hide AddrOk, PeersOk, HoldersOk, NetOk, AllSentOk, AllDeliveredOk, MirrorsOk, CompletedOk;
  }

  lemma DeliveredFact(w: World, trust: Trust, d: Delivered)
    requires Invariant(w, trust) && d in w.delivered
    ensures DeliveredOk(w, d)
  {
    hide DeliveredOk, PeersOk, AddrsOk, HoldersOk, NetOk, AllSentOk, MirrorsOk, CompletedOk;
  }

  // ---- Injecting ----

  lemma InjectGrows(w: World, p: Packet)
    ensures Grows(w, DoInject(w, p)) && ChangesOnly(w, DoInject(w, p), [], 0)
  {
    var w' := DoInject(w, p);
    assert forall n, i :: Has(w', n, i) <==> Has(w, n, i);
  }

  lemma InjectKeeps(w: World, trust: Trust, p: Packet)
    requires Invariant(w, trust) && Forgeable(w, p.body)
    ensures Grows(w, DoInject(w, p)) && Invariant(DoInject(w, p), trust)
  {
    hide Grows, ChangesOnly;
    var w' := DoInject(w, p);
    InjectGrows(w, p);
    assert PacketOk(w', p);
    hide PacketOk, PeerOk, HolderOk, SentOk, DeliveredOk, MirroredBy, AddrOk, CounterIn;
    hide Ephemerals, KnownOutside, Forgeable;
    DeliveriesStay(w, w', trust);
    if Has(w', [], 0) { PeerStays(w, w', trust, [], 0); }
    Assemble(w, w', trust, [], 0);
  }

  // ---- Connecting ----

  lemma ConnectGrows(w: World, trust: Trust, n: bytes, addr: IpAddr, waiter: nat, index: u32, e: nat)
    requires Invariant(w, trust) && n in w.nodes && Free(w.nodes[n], index) && e !in w.seen
    ensures var w' := DoConnect(w, n, addr, waiter, index, e);
            Grows(w, w') && ChangesOnly(w, w', n, index)
  {
    hide Invariant, DerSpec.HandshakeBytes, HandshakeHeader;
    var w' := DoConnect(w, n, addr, waiter, index, e);
    NodeFact(w, trust, n);
    assert e !in w.begun;
    assert RecordsGrow(w, w');
    assert NodeStep(w.nodes[n], w'.nodes[n], index);
    StepGrows(w, w', n, index);
  }

  /** The handshake begun and the message sent, and what connecting leaves alone. */
  lemma ConnectMakes(w: World, trust: Trust, n: bytes, addr: IpAddr, waiter: nat, index: u32, e: nat)
    requires Invariant(w, trust) && n in w.nodes && Free(w.nodes[n], index) && e !in w.seen
    ensures var w' := DoConnect(w, n, addr, waiter, index, e);
            && Has(w', n, index) && PeerOk(w', trust, n, index) && !IsTunnel(w', n, index)
            && (forall p :: p in w'.net && p !in w.net ==> PacketOk(w', p))
            && w'.begun.Keys <= w'.used <= w'.seen && w'.delivered == w.delivered && w'.completed == w.completed
            && w'.holder == w.holder && w'.sent == w.sent && w'.nodes.Keys == w.nodes.Keys
            && (forall m :: m in w.nodes ==> w'.nodes[m].indexByAddr == w.nodes[m].indexByAddr)
  {
    hide Invariant, DerSpec.HandshakeBytes, HandshakeHeader;
    NodeFact(w, trust, n);
  }

  lemma ConnectKeeps(w: World, trust: Trust, n: bytes, addr: IpAddr, waiter: nat, index: u32, e: nat)
    requires Invariant(w, trust) && n in w.nodes && Free(w.nodes[n], index) && e !in w.seen
    ensures var w' := DoConnect(w, n, addr, waiter, index, e);
            Grows(w, w') && Invariant(w', trust)
  {
    hide Invariant, DoConnect, Grows, ChangesOnly, SameTunnel, PacketOk, PeerOk, HolderOk, SentOk, MirroredBy;
    ConnectGrows(w, trust, n, addr, waiter, index, e);
    ConnectMakes(w, trust, n, addr, waiter, index, e);
    Rest(w, DoConnect(w, n, addr, waiter, index, e), trust, n, index);
  }

  // ---- First messages ----

  /** What a node answers a first message with. */
  lemma FirstAnswer(inner: Inner, trust: Trust, body: Noise, from: nat, index: u32, e: nat, now: int)
    requires HandleFirst(inner, trust, body, from, index, e, now).1.Some?
    ensures body.First? && body.msg.payload.Some? && body.msg.payload.value.initiatorIndex != 0
    ensures var (inner', reply) := HandleFirst(inner, trust, body, from, index, e, now);
            var keys := Split(false, body.msg, e, inner.config.staticKey);
            && inner'.config == inner.config
            && index in inner'.peers && inner'.peers[index].Established?
            && inner'.peers == inner.peers[index := inner'.peers[index]]
            && var p := inner'.peers[index];
               && inner'.indexByAddr == inner.indexByAddr[p.vpnAddr := index]
               && p.transport == Transport.NewState(inner.config.cipher, keys.sendKey, keys.recvKey)
               && p.remoteIndex == body.msg.payload.value.initiatorIndex
               && CheckPeer(inner, trust, body.msg.payload.value.cert, keys.remoteStatic, now)
                  == Some((p.cert, p.vpnAddr))
               && reply == Some(Packet(HandshakeHeader(p.remoteIndex, 2),
                    Hs(Second(inner.config.cipher, body.msg, e, inner.config.staticKey,
                              Some(Details(DerSpec.HandshakeBytes(inner.config.hostCert), p.remoteIndex, index))))))
  {
    hide CheckPeer, DerSpec.HandshakeBytes, HandshakeHeader;
  }

  lemma FirstIgnored(inner: Inner, trust: Trust, body: Noise, from: nat, index: u32, e: nat, now: int)
    requires HandleFirst(inner, trust, body, from, index, e, now).1.None?
    ensures HandleFirst(inner, trust, body, from, index, e, now).0 == inner
  {
    hide CheckPeer, DerSpec.HandshakeBytes, HandshakeHeader;
  }

  /** A peer that checks out has a certificate verified for exactly the key of the handshake. */
  lemma CheckedPeer(inner: Inner, trust: Trust, certBytes: bytes, remoteStatic: bytes, now: int)
    requires CheckPeer(inner, trust, certBytes, remoteStatic, now).Some?
    ensures var (cert, addr) := CheckPeer(inner, trust, certBytes, remoteStatic, now).value;
            && Verified(trust, cert, inner.config.caCert)
            && cert.publicKey == remoteStatic
            && cert.details.networks != [] && cert.details.networks[0].addr == addr
            && DerSpec.Recombine(certBytes, remoteStatic, DerSpec.Curve25519) == DerSpec.Ok(cert)
  {
    hide DerSpec.ReadTlv, DerSpec.ReadTlvRaw, DerSpec.ReadDetails;
    var (cert, _) := CheckPeer(inner, trust, certBytes, remoteStatic, now).value;
    assert trust.verify(cert, inner.config.caCert, now);
  }

  lemma SameNodes(w: World, n: bytes)
    requires n in w.nodes
    ensures With(w, n, w.nodes[n]) == w
  {
    assert w.nodes[n := w.nodes[n]] == w.nodes;
  }

  /** No tunnel sends under a key with an ephemeral key never seen. */
  lemma KeyIsNew(w: World, trust: Trust, k: Key)
    requires Invariant(w, trust) && (k.initEphemeral !in w.seen || k.respEphemeral !in w.seen)
    ensures k !in w.holder
  {
    hide Invariant;
    if k in w.holder { HolderFact(w, trust, k); }
  }

  lemma FirstGrows(w: World, trust: Trust, n: bytes, p: Packet, from: nat, index: u32, e: nat, now: int)
    requires Invariant(w, trust) && n in w.nodes && Free(w.nodes[n], index) && e !in w.seen
    requires HandleFirst(w.nodes[n], trust, AsNoise(p.body), from, index, e, now).1.Some?
    ensures var w' := DoFirst(w, trust, n, p, from, index, e, now);
            Grows(w, w') && ChangesOnly(w, w', n, index)
  {
    hide Invariant, HandleFirst, CheckPeer, HandshakeHeader, DerSpec.HandshakeBytes;
    var w' := DoFirst(w, trust, n, p, from, index, e, now);
    FirstAnswer(w.nodes[n], trust, AsNoise(p.body), from, index, e, now);
    KeyIsNew(w, trust, w'.nodes[n].peers[index].transport.sendKey);
    NodeFact(w, trust, n);
    assert RecordsGrow(w, w');
    assert NodeStep(w.nodes[n], w'.nodes[n], index);
    StepGrows(w, w', n, index);
  }

  /** The new tunnel and its key are as the invariant wants them. */
  lemma FirstMakesTunnel(w: World, trust: Trust, n: bytes, p: Packet, from: nat, index: u32, e: nat, now: int)
    requires Invariant(w, trust) && n in w.nodes && Free(w.nodes[n], index) && e !in w.seen && p in w.net
    requires HandleFirst(w.nodes[n], trust, AsNoise(p.body), from, index, e, now).1.Some?
    ensures var w' := DoFirst(w, trust, n, p, from, index, e, now);
            && IsTunnel(w', n, index) && PeerOk(w', trust, n, index)
            && HolderOk(w', At(w', n, index).transport.sendKey)
            && !BegunHere(w', n, index)
  {
    hide Invariant, HandleFirst, CheckPeer, HandshakeHeader, DerSpec.HandshakeBytes, Verified, OfferOk, KnownOutside;
    var w', body := DoFirst(w, trust, n, p, from, index, e, now), AsNoise(p.body);
    NodeFact(w, trust, n);
    PacketFact(w, trust, p);
    FirstAnswer(w.nodes[n], trust, body, from, index, e, now);
    assert body.msg.ephemeral in Ephemerals(p.body);
    hide PacketOk, Ephemerals;
    var q := At(w', n, index);
    assert q.transport.sendKey == Key(body.msg.ephemeral, body.msg.staticKey, e, n, false);
    CheckedPeer(w.nodes[n], trust, body.msg.payload.value.cert, body.msg.staticKey, now);
    assert KeysOk(w', n, index, q.transport);
    assert IdentityOk(w', trust, n, q);
    hide KeysOk, IdentityOk;
  }

  /** The answer put on the network offers exactly that tunnel. */
  lemma FirstMakesOffer(w: World, trust: Trust, n: bytes, p: Packet, from: nat, index: u32, e: nat, now: int)
    requires Invariant(w, trust) && n in w.nodes && Free(w.nodes[n], index) && e !in w.seen && p in w.net
    requires HandleFirst(w.nodes[n], trust, AsNoise(p.body), from, index, e, now).1.Some?
    ensures PacketOk(DoFirst(w, trust, n, p, from, index, e, now),
                     HandleFirst(w.nodes[n], trust, AsNoise(p.body), from, index, e, now).1.value)
  {
    hide Invariant, HandleFirst, CheckPeer, HandshakeHeader, Verified, KnownOutside;
    hide DerSpec.HandshakeBytes, DerSpec.Recombine;
    var w', body := DoFirst(w, trust, n, p, from, index, e, now), AsNoise(p.body);
    NodeFact(w, trust, n);
    FirstAnswer(w.nodes[n], trust, body, from, index, e, now);
    FirstSeen(w, trust, p);
    CheckedPeer(w.nodes[n], trust, body.msg.payload.value.cert, body.msg.staticKey, now);
    var m := HandleFirst(w.nodes[n], trust, body, from, index, e, now).1.value.body.noise;
    assert OfferOk(w', m);
    assert {body.msg.ephemeral, e} <= w'.seen;
    hide OfferOk, DoFirst;
  }

  lemma FirstSeen(w: World, trust: Trust, p: Packet)
    requires Invariant(w, trust) && p in w.net && AsNoise(p.body).First?
    ensures AsNoise(p.body).msg.ephemeral in w.seen
  {
    hide Invariant;
    PacketFact(w, trust, p);
    assert AsNoise(p.body).msg.ephemeral in Ephemerals(p.body);
  }

  /** What answering a first message changes besides the new tunnel. */
  lemma FirstFrame(w: World, trust: Trust, n: bytes, p: Packet, from: nat, index: u32, e: nat, now: int)
    requires Invariant(w, trust) && n in w.nodes
    requires HandleFirst(w.nodes[n], trust, AsNoise(p.body), from, index, e, now).1.Some?
    ensures var w' := DoFirst(w, trust, n, p, from, index, e, now);
            && w'.begun.Keys <= w'.used <= w'.seen && w'.delivered == w.delivered && w'.completed == w.completed
            && w'.sent == w.sent && w'.nodes.Keys == w.nodes.Keys
            && w'.net == w.net + {HandleFirst(w.nodes[n], trust, AsNoise(p.body), from, index, e, now).1.value}
            && (forall m :: m in w.nodes && m != n ==> w'.nodes[m].indexByAddr == w.nodes[m].indexByAddr)
            && IsTunnel(w', n, index)
            && w'.nodes[n].indexByAddr == w.nodes[n].indexByAddr[At(w', n, index).vpnAddr := index]
            && w'.holder == w.holder[At(w', n, index).transport.sendKey := Place(n, index)]
  {
    hide Invariant, HandleFirst, CheckPeer, HandshakeHeader, DerSpec.HandshakeBytes;
    NodeFact(w, trust, n);
    FirstAnswer(w.nodes[n], trust, AsNoise(p.body), from, index, e, now);
  }

  lemma FirstKeeps(w: World, trust: Trust, n: bytes, p: Packet, from: nat, index: u32, e: nat, now: int)
    requires Invariant(w, trust) && n in w.nodes && Free(w.nodes[n], index) && e !in w.seen && p in w.net
    ensures var w' := DoFirst(w, trust, n, p, from, index, e, now);
            Grows(w, w') && Invariant(w', trust)
  {
    hide HandleFirst, Grows, ChangesOnly, Invariant, PacketOk, PeerOk, HolderOk, SentOk, MirroredBy, SameTunnel;
    var w', body := DoFirst(w, trust, n, p, from, index, e, now), AsNoise(p.body);
    if HandleFirst(w.nodes[n], trust, body, from, index, e, now).1.None? {
      FirstIgnored(w.nodes[n], trust, body, from, index, e, now);
      SameNodes(w, n);
      GrowsRefl(w);
    } else {
      FirstFrame(w, trust, n, p, from, index, e, now);
      FirstGrows(w, trust, n, p, from, index, e, now);
      FirstMakesTunnel(w, trust, n, p, from, index, e, now);
      FirstMakesOffer(w, trust, n, p, from, index, e, now);
      hide DoFirst;
      Rest(w, w', trust, n, index);
    }
  }

  lemma GrowsRefl(w: World)
    ensures Grows(w, w)
  {
  }

  // ---- Second messages ----

  /** The three ways a second message can end: it meets no handshake, it ends the handshake
      without a tunnel, or it turns the handshake into a tunnel. */
  lemma SecondOutcome(inner: Inner, trust: Trust, index: u32, body: Noise, from: nat, now: int)
    ensures var (inner', done) := HandleSecond(inner, trust, index, body, from, now);
            if index !in inner.peers || !inner.peers[index].Handshaking? then inner' == inner && done.None?
            else if index !in inner'.peers then
              inner' == inner.(peers := inner.peers - {index}) && done.None?
            else
              var sent := inner.peers[index].sent;
              && Finish(inner.config.cipher, sent, body).Some?
              && var f := Finish(inner.config.cipher, sent, body).value;
                 && inner'.peers[index].Established?
                 && var p := inner'.peers[index];
                    && inner'.config == inner.config
                    && inner'.peers == inner.peers[index := p]
                    && inner'.indexByAddr == inner.indexByAddr[p.vpnAddr := index]
                    && p.transport == Transport.NewState(inner.config.cipher, f.keys.sendKey, f.keys.recvKey)
                    && p.remoteIndex == f.theirs.responderIndex
                    && CheckPeer(inner, trust, f.theirs.cert, f.keys.remoteStatic, now) == Some((p.cert, p.vpnAddr))
                    && (done.Some? ==> done.value == p.vpnAddr)
  {
    hide CheckPeer, Finish;
  }

  /** No tunnel sends under a key that a handshake still under way could lead to. */
  lemma BegunKeyIsNew(w: World, trust: Trust, n: bytes, i: u32, k: Key)
    requires Invariant(w, trust)
    requires Has(w, n, i) && At(w, n, i).Handshaking? && k.first && k.initEphemeral == At(w, n, i).sent.ephemeral
    ensures k !in w.holder
  {
    hide Invariant, IdentityOk, DerSpec.HandshakeBytes;
    PeerFact(w, trust, n, i);
    if k in w.holder {
      HolderFact(w, trust, k);
      PeerFact(w, trust, w.holder[k].node, w.holder[k].index);
    }
  }

  predicate BecomesTunnel(w: World, w': World, n: bytes, i: u32) {
    Has(w, n, i) && At(w, n, i).Handshaking? && IsTunnel(w', n, i)
  }

  lemma SecondRecords(w: World, trust: Trust, n: bytes, p: Packet, index: u32, from: nat, now: int)
    requires Invariant(w, trust) && n in w.nodes
    ensures RecordsGrow(w, DoSecond(w, trust, n, p, index, from, now))
  {
    hide Invariant, HandleSecond, CheckPeer, Finish;
    SecondKeyIsNew(w, trust, n, p, index, from, now);
  }

  lemma SecondGrows(w: World, trust: Trust, n: bytes, p: Packet, index: u32, from: nat, now: int)
    requires Invariant(w, trust) && n in w.nodes
    ensures var w' := DoSecond(w, trust, n, p, index, from, now);
            Grows(w, w') && ChangesOnly(w, w', n, index)
  {
    hide Invariant, HandleSecond, CheckPeer, Finish, RecordsGrow;
    var w' := DoSecond(w, trust, n, p, index, from, now);
    SecondRecords(w, trust, n, p, index, from, now);
    SecondOutcome(w.nodes[n], trust, index, AsNoise(p.body), from, now);
    assert NodeStep(w.nodes[n], w'.nodes[n], index);
    hide NodeStep;
    StepGrows(w, w', n, index);
  }

  lemma SecondKeyIsNew(w: World, trust: Trust, n: bytes, p: Packet, index: u32, from: nat, now: int)
    requires Invariant(w, trust) && n in w.nodes
    ensures var w' := DoSecond(w, trust, n, p, index, from, now);
            BecomesTunnel(w, w', n, index) ==> At(w', n, index).transport.sendKey !in w.holder
  {
    hide Invariant, HandleSecond, CheckPeer;
    var w', body := DoSecond(w, trust, n, p, index, from, now), AsNoise(p.body);
    SecondOutcome(w.nodes[n], trust, index, body, from, now);
    if BecomesTunnel(w, w', n, index) {
      BegunKeyIsNew(w, trust, n, index, At(w', n, index).transport.sendKey);
    }
  }

  /** The key of the new tunnel, in terms of the handshake that led to it. */
  lemma SecondKey(w: World, trust: Trust, n: bytes, p: Packet, index: u32, from: nat, now: int)
    requires Invariant(w, trust) && n in w.nodes && p in w.net
    requires BecomesTunnel(w, DoSecond(w, trust, n, p, index, from, now), n, index)
    ensures var w', m, sent := DoSecond(w, trust, n, p, index, from, now), AsNoise(p.body), At(w, n, index).sent;
            && m.Second? && m.cipher == w.nodes[n].config.cipher && m.transcript == sent
            && m.payload.Some? && m.payload.value.responderIndex != 0
            && m.ephemeral in w.seen
            && At(w', n, index).transport
               == Transport.NewState(w.nodes[n].config.cipher, KeyOf(m), Mirror(KeyOf(m)))
            && KeyOf(m) == Key(sent.ephemeral, n, m.ephemeral, m.staticKey, true)
            && At(w', n, index).remoteIndex == m.payload.value.responderIndex
            && CheckPeer(w.nodes[n], trust, m.payload.value.cert, m.staticKey, now)
               == Some((At(w', n, index).cert, At(w', n, index).vpnAddr))
            && w'.used == w.used && w'.seen == w.seen && w'.begun == w.begun
            && w'.nodes.Keys == w.nodes.Keys && w'.nodes[n].config == w.nodes[n].config
            && w'.holder == w.holder[KeyOf(m) := Place(n, index)]
  {
    hide Invariant, HandleSecond, CheckPeer, DerSpec.HandshakeBytes, IdentityOk, OfferOk, KnownOutside;
    SecondOutcome(w.nodes[n], trust, index, AsNoise(p.body), from, now);
    PeerFact(w, trust, n, index);
    PacketFact(w, trust, p);
    assert AsNoise(p.body).ephemeral in Ephemerals(p.body);
  }

  lemma SecondMakesTunnel(w: World, trust: Trust, n: bytes, p: Packet, index: u32, from: nat, now: int)
    requires Invariant(w, trust) && n in w.nodes && p in w.net
    requires BecomesTunnel(w, DoSecond(w, trust, n, p, index, from, now), n, index)
    ensures var w' := DoSecond(w, trust, n, p, index, from, now);
            && PeerOk(w', trust, n, index)
            && HolderOk(w', At(w', n, index).transport.sendKey)
  {
    hide Invariant, HandleSecond, CheckPeer, DerSpec.HandshakeBytes, Verified;
    var w', m := DoSecond(w, trust, n, p, index, from, now), AsNoise(p.body);
    SecondKey(w, trust, n, p, index, from, now);
    PeerFact(w, trust, n, index);
    NodeFact(w, trust, n);
    CheckedPeer(w.nodes[n], trust, m.payload.value.cert, m.staticKey, now);
    hide DoSecond;
    var q := At(w', n, index);
    assert KeysOk(w', n, index, q.transport);
    assert IdentityOk(w', trust, n, q);
    hide KeysOk, IdentityOk;
  }

  /** When the peer is a node, its side of the tunnel is there already. */
  lemma SecondIsMirrored(w: World, trust: Trust, n: bytes, p: Packet, index: u32, from: nat, now: int)
    requires Invariant(w, trust) && n in w.nodes && p in w.net
    requires var w' := DoSecond(w, trust, n, p, index, from, now);
             BecomesTunnel(w, w', n, index) && PeerStatic(At(w', n, index).transport.sendKey) in w.nodes
    requires Grows(w, DoSecond(w, trust, n, p, index, from, now))
    ensures MirroredBy(DoSecond(w, trust, n, p, index, from, now), n, index)
  {
    hide Invariant, HandleSecond, CheckPeer, DerSpec.HandshakeBytes, DerSpec.Recombine, Verified;
    var w', m := DoSecond(w, trust, n, p, index, from, now), AsNoise(p.body);
    SecondKey(w, trust, n, p, index, from, now);
    PeerFact(w, trust, n, index);
    PacketFact(w, trust, p);
    CheckedPeer(w.nodes[n], trust, m.payload.value.cert, m.staticKey, now);
    hide DoSecond;
    assert OfferOk(w, m);
    OfferStays(w, w', m);
    hide Grows, PacketOk;
  }

  lemma SecondKeeps(w: World, trust: Trust, n: bytes, p: Packet, index: u32, from: nat, now: int)
    requires Invariant(w, trust) && n in w.nodes && p in w.net
    ensures var w' := DoSecond(w, trust, n, p, index, from, now);
            Grows(w, w') && Invariant(w', trust)
  {
    hide HandleSecond, CheckPeer, DerSpec.HandshakeBytes, Grows, ChangesOnly, Finish;
    hide PacketOk, PeerOk, HolderOk, SentOk, DeliveredOk, MirroredBy, CounterIn;
    var w', body := DoSecond(w, trust, n, p, index, from, now), AsNoise(p.body);
    SecondGrows(w, trust, n, p, index, from, now);
    SecondOutcome(w.nodes[n], trust, index, body, from, now);
    if BecomesTunnel(w, w', n, index) {
      SecondMakesTunnel(w, trust, n, p, index, from, now);
      if PeerStatic(At(w', n, index).transport.sendKey) in w.nodes {
        SecondIsMirrored(w, trust, n, p, index, from, now);
      }
    } else if Has(w', n, index) {
      PeerStays(w, w', trust, n, index);
    }
    NodeFact(w, trust, n);
    hide Invariant;
    Rest(w, w', trust, n, index);
  }

  // ---- Data ----

  lemma AcceptedUsesCounter(win: Window, c: u64)
    requires Fresh(win, c) && (forall x :: x in win.accepted ==> x <= win.highest)
    ensures c !in win.accepted && c in Accept(win, c).accepted && win.accepted <= Accept(win, c).accepted
    ensures forall x :: x in Accept(win, c).accepted ==> x <= Accept(win, c).highest
  {
  }

  lemma DataGrows(w: World, trust: Trust, n: bytes, p: Packet, h: Header)
    requires Invariant(w, trust) && n in w.nodes
    ensures Grows(w, DoData(w, n, p, h)) && ChangesOnly(w, DoData(w, n, p, h), n, h.remoteIndex)
  {
    hide Invariant, Open;
    var w' := DoData(w, n, p, h);
    assert RecordsGrow(w, w');
    assert NodeStep(w.nodes[n], w'.nodes[n], h.remoteIndex);
    StepGrows(w, w', n, h.remoteIndex);
  }

  lemma DataPeer(w: World, trust: Trust, n: bytes, p: Packet, h: Header)
    requires Invariant(w, trust) && n in w.nodes && Has(w, n, h.remoteIndex)
    ensures PeerOk(DoData(w, n, p, h), trust, n, h.remoteIndex)
  {
    hide Invariant, Open, DerSpec.HandshakeBytes, Verified;
    PeerFact(w, trust, n, h.remoteIndex);
    var w' := DoData(w, n, p, h);
    if IsTunnel(w, n, h.remoteIndex) {
      var win := At(w, n, h.remoteIndex).transport.window;
      if Fresh(win, h.counter) { AcceptedUsesCounter(win, h.counter); }
      hide Fresh, Accept;
    }
  }

  /** What delivering a payload shows: a live tunnel, a fresh counter, and a packet that opened. */
  lemma DataOpened(w: World, n: bytes, p: Packet, h: Header)
    requires n in w.nodes && Receive(w.nodes[n], h.remoteIndex, h.counter, p.header, AsBox(p.body)).1.Some?
    ensures IsTunnel(w, n, h.remoteIndex)
    ensures var t := At(w, n, h.remoteIndex).transport;
            var data := Receive(w.nodes[n], h.remoteIndex, h.counter, p.header, AsBox(p.body)).1.value.1;
            && Fresh(t.window, h.counter)
            && p.body.Enc? && p.body.box.Sealed?
            && p.body.box == Sealed(t.cipher, t.recvKey, Transport.Nonce(t.cipher, h.counter), p.header, data)
            && IsTunnel(DoData(w, n, p, h), n, h.remoteIndex)
            && At(DoData(w, n, p, h), n, h.remoteIndex).transport == t.(window := Accept(t.window, h.counter))
  {
    hide Fresh, Accept;
  }

  lemma DataDelivered(w: World, trust: Trust, n: bytes, p: Packet, h: Header)
    requires Invariant(w, trust) && n in w.nodes && p in w.net && Parse(p.header) == Parsed(h) && h.kind == MESSAGE
    requires Receive(w.nodes[n], h.remoteIndex, h.counter, p.header, AsBox(p.body)).1.Some?
    ensures var data := Receive(w.nodes[n], h.remoteIndex, h.counter, p.header, AsBox(p.body)).1.value.1;
            var d := Delivered(Place(n, h.remoteIndex), p.header, data);
            && DeliveredOk(DoData(w, n, p, h), d)
            && (forall prior :: prior in w.delivered && prior.place == d.place ==> CounterIn(prior) != CounterIn(d))
  {
    hide Invariant, Receive, Parse, Fresh, Accept, DerSpec.HandshakeBytes, IdentityOk;
    DataOpened(w, n, p, h);
    PacketFact(w, trust, p);
    PeerFact(w, trust, n, h.remoteIndex);
    AcceptedUsesCounter(At(w, n, h.remoteIndex).transport.window, h.counter);
    forall prior | prior in w.delivered && prior.place == Place(n, h.remoteIndex)
      ensures CounterIn(prior) != h.counter
    {
      DeliveredFact(w, trust, prior);
    }
    var w' := DoData(w, n, p, h);
    assert w'.used == w.used && w'.nodes.Keys == w.nodes.Keys && w'.sent == w.sent;
  }

  lemma DataKeeps(w: World, trust: Trust, n: bytes, p: Packet, h: Header)
    requires Invariant(w, trust) && n in w.nodes && p in w.net && Parse(p.header) == Parsed(h)
    ensures Grows(w, DoData(w, n, p, h)) && Invariant(DoData(w, n, p, h), trust)
  {
    var w' := DoData(w, n, p, h);
    DataGrows(w, trust, n, p, h);
    if Has(w, n, h.remoteIndex) { DataPeer(w, trust, n, p, h); }
    hide Grows, ChangesOnly, Parse, Transport.Receive;
    hide PacketOk, PeerOk, HolderOk, SentOk, DeliveredOk, MirroredBy, CounterIn;
    DataDeliveries(w, trust, n, p, h);
    DataShape(w, n, p, h);
    NodeFact(w, trust, n);
    hide DoData, Invariant, AllDeliveredOk;
    Assemble(w, w', trust, n, h.remoteIndex);
  }

  /** A data packet changes no record but the deliveries, and begins no tunnel. */
  lemma DataShape(w: World, n: bytes, p: Packet, h: Header)
    requires n in w.nodes
    ensures var w' := DoData(w, n, p, h);
            && w'.net == w.net && w'.used == w.used && w'.seen == w.seen && w'.sent == w.sent
            && w'.holder == w.holder && w'.begun == w.begun && w'.completed == w.completed
            && w'.nodes.Keys == w.nodes.Keys
            && (forall m :: m in w.nodes ==> w'.nodes[m].indexByAddr == w.nodes[m].indexByAddr)
            && (IsTunnel(w', n, h.remoteIndex) ==> IsTunnel(w, n, h.remoteIndex))
            && (Has(w', n, h.remoteIndex) ==> Has(w, n, h.remoteIndex))
  {
    hide Transport.Receive;
  }

  lemma DataDeliveries(w: World, trust: Trust, n: bytes, p: Packet, h: Header)
    requires Invariant(w, trust) && n in w.nodes && p in w.net && Parse(p.header) == Parsed(h)
    requires Grows(w, DoData(w, n, p, h))
    ensures AllDeliveredOk(DoData(w, n, p, h))
  {
    hide PeerOk, HolderOk, DeliveredOk, CounterIn, Parse, Grows, SentOk, PacketOk;
    var w' := DoData(w, n, p, h);
    forall d | d in w.delivered ensures DeliveredOk(w', d) {
      DeliveredPlace(w, trust, d);
      DeliveredStays(w, w', d);
    }
    if w'.delivered != w.delivered {
      DataDelivered(w, trust, n, p, h);
    }
    hide Receive;
  }

  // ---- Sending ----

  lemma SendGrows(w: World, trust: Trust, n: bytes, addr: IpAddr, kind: u8, payload: bytes)
    requires n in w.nodes
    requires addr in w.nodes[n].indexByAddr
    ensures var w' := DoSend(w, n, addr, kind, payload);
            Grows(w, w') && ChangesOnly(w, w', n, w.nodes[n].indexByAddr[addr])
  {
    hide Encoded, Transport.Nonce;
    var w' := DoSend(w, n, addr, kind, payload);
    assert RecordsGrow(w, w');
    assert NodeStep(w.nodes[n], w'.nodes[n], w.nodes[n].indexByAddr[addr]);
    StepGrows(w, w', n, w.nodes[n].indexByAddr[addr]);
  }

  /** The packet sent, the record of it and the tunnel it leaves behind. */
  lemma SendMakes(w: World, trust: Trust, n: bytes, addr: IpAddr, kind: u8, payload: bytes)
    requires Invariant(w, trust) && n in w.nodes && (kind == MESSAGE || kind == LIGHTHOUSE)
    requires addr in w.nodes[n].indexByAddr
    ensures var w', i := DoSend(w, n, addr, kind, payload), w.nodes[n].indexByAddr[addr];
            && Has(w, n, i) && PeerOk(w', trust, n, i)
            && (forall p :: p in w'.net && p !in w.net ==> PacketOk(w', p))
            && (forall s :: s in w'.sent && s !in w.sent ==> SentOk(w', s))
  {
    hide Invariant, DerSpec.HandshakeBytes, Verified, Encoded, Transport.Nonce, Parse;
    var i := w.nodes[n].indexByAddr[addr];
    AddrFact(w, trust, n, addr);
    PeerFact(w, trust, n, i);
    var p := At(w, n, i);
    Transport.SendOnWire(p.transport, p.remoteIndex, kind, payload);
  }

  /** What sending leaves alone. */
  lemma SendFrame(w: World, n: bytes, addr: IpAddr, kind: u8, payload: bytes)
    requires n in w.nodes
    ensures var w' := DoSend(w, n, addr, kind, payload);
            && w'.begun == w.begun && w'.used == w.used && w'.seen == w.seen
            && w'.delivered == w.delivered && w'.completed == w.completed && w'.holder == w.holder
            && w'.nodes.Keys == w.nodes.Keys
            && (forall m :: m in w.nodes ==> w'.nodes[m].indexByAddr == w.nodes[m].indexByAddr)
            && (addr !in w.nodes[n].indexByAddr ==> w' == w)
  {
    hide Transport.Send;
    SameNodes(w, n);
  }

  lemma SendKeeps(w: World, trust: Trust, n: bytes, addr: IpAddr, kind: u8, payload: bytes)
    requires Invariant(w, trust) && n in w.nodes && (kind == MESSAGE || kind == LIGHTHOUSE)
    ensures var w' := DoSend(w, n, addr, kind, payload);
            Grows(w, w') && Invariant(w', trust)
  {
    hide Invariant, DoSend, Grows, ChangesOnly, SameTunnel, PacketOk, PeerOk, HolderOk, SentOk, MirroredBy;
    SendFrame(w, n, addr, kind, payload);
    GrowsRefl(w);
    if addr in w.nodes[n].indexByAddr {
      var i := w.nodes[n].indexByAddr[addr];
      SendGrows(w, trust, n, addr, kind, payload);
      SendMakes(w, trust, n, addr, kind, payload);
      NodeFact(w, trust, n);
      AddrFact(w, trust, n, addr);
      Rest(w, DoSend(w, n, addr, kind, payload), trust, n, i);
    }
  }

  // ---- Every step, every run ----

  lemma DeliverKeeps(w: World, trust: Trust, n: bytes, p: Packet, from: nat, index: u32, e: nat, now: int)
    requires Invariant(w, trust) && n in w.nodes && p in w.net
    requires Draws(p) ==> Free(w.nodes[n], index) && e !in w.seen
    ensures var w' := DoDeliver(w, trust, n, p, from, index, e, now);
            Grows(w, w') && Invariant(w', trust)
  {
    var r := Parse(p.header);
    GrowsRefl(w);
    hide Invariant, Grows, DoFirst, DoSecond, DoData, Parse;
    if r.Parsed? {
      if r.header.kind == HANDSHAKE {
        if r.header.remoteIndex == 0 {
          FirstKeeps(w, trust, n, p, from, index, e, now);
        } else {
          SecondKeeps(w, trust, n, p, r.header.remoteIndex, from, now);
        }
      } else if r.header.kind == MESSAGE || r.header.kind == LIGHTHOUSE {
        DataKeeps(w, trust, n, p, r.header);
      }
    }
  }

  lemma StepKeeps(w: World, trust: Trust, a: Action)
    requires Invariant(w, trust)
    ensures Grows(w, Do(w, trust, a)) && Invariant(Do(w, trust, a), trust)
  {
    GrowsRefl(w);
    hide Invariant, Grows, DoConnect, DoDeliver, DoSend, DoInject;
    if Enabled(w, a) {
      match a
      case Connect(n, addr, waiter, index, e) => ConnectKeeps(w, trust, n, addr, waiter, index, e);
      case Deliver(n, p, from, index, e, now) => DeliverKeeps(w, trust, n, p, from, index, e, now);
      case Send(n, addr, kind, payload) => SendKeeps(w, trust, n, addr, kind, payload);
      case Inject(p) => InjectKeeps(w, trust, p);
    }
  }

  lemma StartInvariant(configs: map<bytes, Config>, trust: Trust)
    requires Named(configs)
    ensures Invariant(Tunnel.Start(configs), trust)
  {
  }

  lemma {:induction false} RunInvariant(configs: map<bytes, Config>, trust: Trust, actions: seq<Action>)
    requires Named(configs)
    ensures Invariant(Run(configs, trust, actions), trust)
    ensures Run(configs, trust, actions).nodes.Keys == configs.Keys
  {
    hide Invariant, Do;
    if actions == [] {
      StartInvariant(configs, trust);
    } else {
      var w := Run(configs, trust, actions[..|actions| - 1]);
      RunInvariant(configs, trust, actions[..|actions| - 1]);
      StepKeeps(w, trust, actions[|actions| - 1]);
    }
  }
}
