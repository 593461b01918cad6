/** Any number of nodes on a network that drops, duplicates and reorders, and on which anyone may
    also inject whatever can be made without the secrets of the nodes. */
module Tunnel {
  import opened Optional
  import opened Bits
  import opened Bytes
  import opened Net
  import opened Header
  import opened Ideal
  import opened Handshake
  import opened Session
  import opened ReplaySpec
  import Transport
  import DerSpec
  import DerProofs

  datatype Place = Place(node: bytes, index: u32)

  /** A sealed packet made by a node: its key, the header it was sent under and its payload. */
  datatype Sent = Sent(cipher: Cipher, key: Key, header: bytes, payload: bytes)

  /** A payload put in the inbox of the tunnel at `place`, and the header it came under. */
  datatype Delivered = Delivered(place: Place, header: bytes, payload: bytes)

  /** The nodes, named by their static keys, every datagram ever on the network, and history:
      ephemeral keys drawn by nodes (`used`) or occurring anywhere (`seen`), what was sent and
      delivered, which tunnel sends under each key, where each handshake was begun, and which
      connects succeeded. */
  datatype World = World(
    nodes: map<bytes, Inner>,
    net: set<Packet>,
    used: set<nat>,
    seen: set<nat>,
    sent: seq<Sent>,
    delivered: seq<Delivered>,
    holder: map<Key, Place>,
    begun: map<nat, Place>,
    completed: set<(bytes, IpAddr)>)

  // ---- What outsiders can make ----

  /** A session key mixes the exchange of both ephemerals with that of each static and the other
      end's ephemeral. It is known outside the nodes exactly if one secret of each of these three
      exchanges is: both secrets of one end, or both ephemerals. */
  predicate KnownOutside(w: World, k: Key) {
    && (k.initEphemeral !in w.used || k.respEphemeral !in w.used)
    && (k.initEphemeral !in w.used || k.respStatic !in w.nodes)
    && (k.initStatic !in w.nodes || k.respEphemeral !in w.used)
  }

  function KeyOf(n: Noise): Key
    requires n.Second?
  {
    Split(true, n.transcript, n.ephemeral, n.staticKey).sendKey
  }

  /** Anyone can write a first message; a second message or a sealed packet takes the key. */
  predicate Forgeable(w: World, b: Body) {
    match b
    case Hs(n) => n.Second? ==> KnownOutside(w, KeyOf(n))
    case Enc(box) => box.Sealed? ==> KnownOutside(w, box.key)
  }

  function Ephemerals(b: Body): set<nat> {
    match b
    case Hs(First(m)) => {m.ephemeral}
    case Hs(Second(_, t, e, _, _)) => {t.ephemeral, e}
    case Enc(Sealed(_, k, _, _, _)) => {k.initEphemeral, k.respEphemeral}
    case _ => {}
  }

  // ---- Steps ----

  datatype Action =
    | Connect(node: bytes, addr: IpAddr, waiter: nat, index: u32, ephemeral: nat)
    | Deliver(node: bytes, packet: Packet, from: nat, index: u32, ephemeral: nat, now: int)
    | Send(node: bytes, addr: IpAddr, kind: u8, payload: bytes)
    | Inject(packet: Packet)

  /** A first message makes the node draw a free index and a new ephemeral key. */
  predicate Draws(p: Packet) {
    var r := Parse(p.header);
    r.Parsed? && r.header.kind == HANDSHAKE && r.header.remoteIndex == 0
  }

  predicate Enabled(w: World, a: Action) {
    match a
    case Connect(n, _, _, index, e) => n in w.nodes && Free(w.nodes[n], index) && e !in w.seen
    case Deliver(n, p, _, index, e, _) =>
      n in w.nodes && p in w.net && (Draws(p) ==> Free(w.nodes[n], index) && e !in w.seen)
    case Send(n, _, kind, _) => n in w.nodes && (kind == MESSAGE || kind == LIGHTHOUSE)
    case Inject(p) => Forgeable(w, p.body)
  }

  function With(w: World, n: bytes, inner: Inner): World {
    w.(nodes := w.nodes[n := inner])
  }

  function Draw(w: World, e: nat): World {
    w.(used := w.used + {e}, seen := w.seen + {e})
  }

  function DoConnect(w: World, n: bytes, addr: IpAddr, waiter: nat, index: u32, e: nat): World
    requires n in w.nodes
  {
    var (inner, packet) := Connecting(w.nodes[n], addr, waiter, index, e);
    Draw(With(w, n, inner), e).(net := w.net + {packet}, begun := w.begun[e := Place(n, index)])
  }

  function DoFirst(w: World, trust: Trust, n: bytes, p: Packet, from: nat, index: u32, e: nat, now: int): World
    requires n in w.nodes
  {
    var (inner, reply) := HandleFirst(w.nodes[n], trust, AsNoise(p.body), from, index, e, now);
    if reply.None? || index !in inner.peers || !inner.peers[index].Established? then With(w, n, inner)
    else
      Draw(With(w, n, inner), e).(
        net := w.net + {reply.value},
        holder := w.holder[inner.peers[index].transport.sendKey := Place(n, index)])
  }

  function DoSecond(w: World, trust: Trust, n: bytes, p: Packet, index: u32, from: nat, now: int): World
    requires n in w.nodes
  {
    var (inner, done) := HandleSecond(w.nodes[n], trust, index, AsNoise(p.body), from, now);
    var isNew := index in w.nodes[n].peers && w.nodes[n].peers[index].Handshaking?
                 && index in inner.peers && inner.peers[index].Established?;
    With(w, n, inner).(
      holder := if isNew then w.holder[inner.peers[index].transport.sendKey := Place(n, index)] else w.holder,
      completed := if done.Some? then w.completed + {(n, done.value)} else w.completed)
  }

  function DoData(w: World, n: bytes, p: Packet, h: Header): World
    requires n in w.nodes
  {
    var (inner, data) := Receive(w.nodes[n], h.remoteIndex, h.counter, p.header, AsBox(p.body));
    With(w, n, inner).(
      delivered := if data.Some? && h.kind == MESSAGE
                   then w.delivered + [Delivered(Place(n, h.remoteIndex), p.header, data.value.1)] else w.delivered)
  }

  function DoDeliver(w: World, trust: Trust, n: bytes, p: Packet, from: nat, index: u32, e: nat, now: int): World
    requires n in w.nodes
  {
    match Parse(p.header)
    case HeaderTooShort(_, _) => w
    case Parsed(h) =>
      if h.kind == HANDSHAKE then
        if h.remoteIndex == 0 then DoFirst(w, trust, n, p, from, index, e, now)
        else DoSecond(w, trust, n, p, h.remoteIndex, from, now)
      else if h.kind == MESSAGE || h.kind == LIGHTHOUSE then DoData(w, n, p, h)
      else w
  }

  function DoSend(w: World, n: bytes, addr: IpAddr, kind: u8, payload: bytes): World
    requires n in w.nodes
  {
    var (inner, packet) := Sending(w.nodes[n], addr, kind, payload);
    if packet.None? || !packet.value.body.Enc? || !packet.value.body.box.Sealed? then With(w, n, inner)
    else
      var box := packet.value.body.box;
      With(w, n, inner).(
        net := w.net + {packet.value},
        sent := w.sent + [Sent(box.cipher, box.key, packet.value.header, box.plaintext)])
  }

  function DoInject(w: World, p: Packet): World {
    w.(net := w.net + {p}, seen := w.seen + Ephemerals(p.body))
  }

  /** One atomic step; a step that is not enabled changes nothing. */
  function Do(w: World, trust: Trust, a: Action): World {
    if !Enabled(w, a) then w
    else
      match a
      case Connect(n, addr, waiter, index, e) => DoConnect(w, n, addr, waiter, index, e)
      case Deliver(n, p, from, index, e, now) => DoDeliver(w, trust, n, p, from, index, e, now)
      case Send(n, addr, kind, payload) => DoSend(w, n, addr, kind, payload)
      case Inject(p) => DoInject(w, p)
  }

  /** Each delivery step runs exactly the node's own handler: the node becomes what the handler
      makes of it, its reply goes on the network, its data is delivered under the packet's
      header, and a successful connect is noted. */
  lemma DeliveryRunsHandler(w: World, trust: Trust, n: bytes, p: Packet, from: nat, index: u32, e: nat, now: int)
    requires n in w.nodes
    ensures var effect := Handle(w.nodes[n], trust, p, from, index, e, now);
            var w' := DoDeliver(w, trust, n, p, from, index, e, now);
            && w'.nodes == w.nodes[n := effect.inner]
            && w'.net == w.net + (if effect.reply.Some? then {effect.reply.value} else {})
            && w'.completed == w.completed + (if effect.done.Some? then {(n, effect.done.value)} else {})
            && (effect.data.None? ==> w'.delivered == w.delivered)
            && (effect.data.Some? ==>
                  && Parse(p.header).Parsed?
                  && var d := Delivered(Place(n, Parse(p.header).header.remoteIndex), p.header, effect.data.value.1);
                     w'.delivered == w.delivered + [d])
  {
    assert w.nodes[n := w.nodes[n]] == w.nodes;
    var r := Parse(p.header);
    hide Parse;
    if r.Parsed? && Draws(p) {
      FirstEither(w.nodes[n], trust, AsNoise(p.body), from, index, e, now);
    }
    hide HandleFirst, HandleSecond, Receive;
  }

  lemma FirstEither(inner: Inner, trust: Trust, body: Noise, from: nat, index: u32, e: nat, now: int)
    ensures var (inner', reply) := HandleFirst(inner, trust, body, from, index, e, now);
            && (reply.None? ==> inner' == inner)
            && (reply.Some? ==> index in inner'.peers && inner'.peers[index].Established?)
  {
    hide CheckPeer, DerSpec.HandshakeBytes, HandshakeHeader;
  }

  function Start(configs: map<bytes, Config>): World {
    World(map n | n in configs :: NewInner(configs[n]), {}, {}, {}, [], [], map[], map[], {})
  }

  function Run(configs: map<bytes, Config>, trust: Trust, actions: seq<Action>): World {
    if actions == [] then Start(configs)
    else Do(Run(configs, trust, actions[..|actions| - 1]), trust, actions[|actions| - 1])
  }

  /** Every node is named by the static key it holds. */
  predicate Named(configs: map<bytes, Config>) {
    forall n :: n in configs ==> configs[n].staticKey == n
  }

  // ---- Looking things up ----

  predicate Has(w: World, n: bytes, i: u32) {
    n in w.nodes && i in w.nodes[n].peers
  }

  function At(w: World, n: bytes, i: u32): PeerState
    requires Has(w, n, i)
  {
    w.nodes[n].peers[i]
  }

  predicate IsTunnel(w: World, n: bytes, i: u32) {
    Has(w, n, i) && At(w, n, i).Established?
  }

  /** The same tunnel, possibly after more packets in either direction. */
  predicate SameTunnel(p: PeerState, q: PeerState) {
    && p.Established? && q.Established?
    && p.transport.cipher == q.transport.cipher
    && p.transport.sendKey == q.transport.sendKey && p.transport.recvKey == q.transport.recvKey
    && p.vpnAddr == q.vpnAddr && p.cert == q.cert && p.remoteIndex == q.remoteIndex
    && p.transport.window.accepted <= q.transport.window.accepted
  }

  // ---- The invariant ----

  /** Verified against the authority at some time. */
  ghost predicate Verified(trust: Trust, cert: DerSpec.Certificate, ca: DerSpec.Certificate) {
    exists now :: trust.verify(cert, ca, now)
  }

  function Mirror(k: Key): Key { k.(first := !k.first) }
  function OwnStatic(k: Key): bytes { if k.first then k.initStatic else k.respStatic }
  function PeerStatic(k: Key): bytes { if k.first then k.respStatic else k.initStatic }
  function OwnEphemeral(k: Key): nat { if k.first then k.initEphemeral else k.respEphemeral }

  /** A handshake begun by node `n` under index `i`. */
  predicate PendingOk(w: World, n: bytes, i: u32, m: Stage0)
    requires n in w.nodes
  {
    && m == Handshake.Start(m.ephemeral, n, DerSpec.HandshakeBytes(w.nodes[n].config.hostCert), i)
    && m.ephemeral in w.used
    && m.ephemeral in w.begun && w.begun[m.ephemeral] == Place(n, i)
  }

  /** The keys of a tunnel of node `n` under index `i`. */
  predicate KeysOk(w: World, n: bytes, i: u32, t: Transport.State)
    requires n in w.nodes
  {
    var k := t.sendKey;
    && t.cipher == w.nodes[n].config.cipher
    && t.recvKey == Mirror(k)
    && OwnStatic(k) == n && OwnEphemeral(k) in w.used
    && k.initEphemeral in w.seen && k.respEphemeral in w.seen
    && k in w.holder && w.holder[k] == Place(n, i)
    && (k.first ==> k.initEphemeral in w.begun && w.begun[k.initEphemeral] == Place(n, i))
    && (forall c :: c in t.window.accepted ==> c <= t.window.highest)
  }

  /** The identity behind a tunnel: a verified certificate for the key of the handshake, whose
      first network is the tunnel's address, and a peer index that is not 0. */
  ghost predicate IdentityOk(w: World, trust: Trust, n: bytes, p: PeerState)
    requires n in w.nodes && p.Established?
  {
    && Verified(trust, p.cert, w.nodes[n].config.caCert)
    && p.cert.publicKey == PeerStatic(p.transport.sendKey)
    && p.cert.details.networks != [] && p.cert.details.networks[0].addr == p.vpnAddr
    && p.remoteIndex != 0
  }

  ghost predicate PeerOk(w: World, trust: Trust, n: bytes, i: u32)
    requires Has(w, n, i)
  {
    && i != 0
    && match At(w, n, i)
       case Handshaking(m) => PendingOk(w, n, i, m)
       case Established(t, _, _, _, _) => KeysOk(w, n, i, t) && IdentityOk(w, trust, n, At(w, n, i))
  }

  /** A second message that is not forged was sent by a node that holds the tunnel it offers. */
  predicate OfferOk(w: World, m: Noise)
    requires m.Second?
  {
    && m.payload.Some? && m.transcript.payload.Some?
    && var d, n := m.payload.value, m.staticKey;
       && IsTunnel(w, n, d.responderIndex)
       && var p := At(w, n, d.responderIndex);
          && p.transport.sendKey == Mirror(KeyOf(m)) && p.transport.recvKey == KeyOf(m)
          && p.remoteIndex == m.transcript.payload.value.initiatorIndex
          && d.cert == DerSpec.HandshakeBytes(w.nodes[n].config.hostCert)
          && m.cipher == w.nodes[n].config.cipher
          && DerSpec.Recombine(m.transcript.payload.value.cert, m.transcript.staticKey, DerSpec.Curve25519)
             == DerSpec.Ok(p.cert)
  }

  predicate PacketOk(w: World, p: Packet) {
    && Ephemerals(p.body) <= w.seen
    && match p.body
       case Hs(m) => m.Second? ==> KnownOutside(w, KeyOf(m)) || OfferOk(w, m)
       case Enc(b) => b.Sealed? ==> KnownOutside(w, b.key) || Sent(b.cipher, b.key, b.aad, b.plaintext) in w.sent
  }

  predicate HolderOk(w: World, k: Key)
    requires k in w.holder
  {
    var at := w.holder[k];
    && IsTunnel(w, at.node, at.index) && At(w, at.node, at.index).transport.sendKey == k
    && k.initEphemeral in w.seen && k.respEphemeral in w.seen
  }

  predicate SentOk(w: World, s: Sent) {
    && s.key in w.holder
    && Parse(s.header).Parsed?
    && (Parse(s.header).header.kind == MESSAGE || Parse(s.header).header.kind == LIGHTHOUSE)
  }

  function CounterIn(d: Delivered): u64 {
    var r := Parse(d.header);
    if r.Parsed? then r.header.counter else 0
  }

  predicate IsData(header: bytes) {
    Parse(header).Parsed? && Parse(header).header.kind == MESSAGE
  }

  /** A delivered payload used up its counter, and was sent as data under the tunnel's key unless
      that key is known outside. */
  predicate DeliveredOk(w: World, d: Delivered) {
    && IsTunnel(w, d.place.node, d.place.index)
    && var t := At(w, d.place.node, d.place.index).transport;
       && IsData(d.header)
       && CounterIn(d) in t.window.accepted
       && (KnownOutside(w, t.recvKey) || Sent(t.cipher, t.recvKey, d.header, d.payload) in w.sent)
  }

  /** A tunnel begun by node `n`, seen from its peer: the peer holds the tunnel under the index
      we address, addresses ours, has our keys the other way round and uses the same cipher, and
      each end holds the certificate that the other sent. */
  predicate MirroredBy(w: World, n: bytes, i: u32)
    requires IsTunnel(w, n, i)
  {
    var p := At(w, n, i);
    var m := PeerStatic(p.transport.sendKey);
    && IsTunnel(w, m, p.remoteIndex)
    && var q := At(w, m, p.remoteIndex);
       && q.remoteIndex == i
       && q.transport.sendKey == p.transport.recvKey && q.transport.recvKey == p.transport.sendKey
       && w.nodes[m].config.cipher == w.nodes[n].config.cipher
       && DerSpec.Recombine(DerSpec.HandshakeBytes(w.nodes[m].config.hostCert), m, DerSpec.Curve25519)
          == DerSpec.Ok(p.cert)
       && DerSpec.Recombine(DerSpec.HandshakeBytes(w.nodes[n].config.hostCert), n, DerSpec.Curve25519)
          == DerSpec.Ok(q.cert)
  }

  predicate BegunHere(w: World, n: bytes, i: u32) {
    IsTunnel(w, n, i) && At(w, n, i).transport.sendKey.first
  }

  predicate AddrOk(w: World, n: bytes, a: IpAddr)
    requires n in w.nodes && a in w.nodes[n].indexByAddr
  {
    var i := w.nodes[n].indexByAddr[a];
    IsTunnel(w, n, i) && At(w, n, i).vpnAddr == a
  }

  ghost predicate PeersOk(w: World, trust: Trust) {
    forall n, i :: Has(w, n, i) ==> PeerOk(w, trust, n, i)
  }
  ghost predicate AddrsOk(w: World) {
    forall n, a :: n in w.nodes && a in w.nodes[n].indexByAddr ==> AddrOk(w, n, a)
  }
  ghost predicate NamesOk(w: World) {
    && w.begun.Keys <= w.used <= w.seen
    && forall n :: n in w.nodes ==> w.nodes[n].config.staticKey == n
  }
  ghost predicate NetOk(w: World) {
    forall p :: p in w.net ==> PacketOk(w, p)
  }
  ghost predicate HoldersOk(w: World) {
    forall k :: k in w.holder ==> HolderOk(w, k)
  }
  ghost predicate AllSentOk(w: World) {
    forall s :: s in w.sent ==> SentOk(w, s)
  }
  ghost predicate AllDeliveredOk(w: World) {
    && (forall d :: d in w.delivered ==> DeliveredOk(w, d))
    && (forall j, k :: 0 <= j < k < |w.delivered| && w.delivered[j].place == w.delivered[k].place ==>
          CounterIn(w.delivered[j]) != CounterIn(w.delivered[k]))
  }
  ghost predicate MirrorsOk(w: World) {
    forall n, i :: BegunHere(w, n, i) && PeerStatic(At(w, n, i).transport.sendKey) in w.nodes ==> MirroredBy(w, n, i)
  }
  ghost predicate CompletedOk(w: World) {
    forall c :: c in w.completed ==> c.0 in w.nodes && c.1 in w.nodes[c.0].indexByAddr
  }

  ghost predicate Invariant(w: World, trust: Trust) {
    && NamesOk(w) && PeersOk(w, trust) && AddrsOk(w) && NetOk(w) && HoldersOk(w)
    && AllSentOk(w) && AllDeliveredOk(w) && MirrorsOk(w) && CompletedOk(w)
  }

  // ---- Growth ----

  /** Records only grow, and new ephemeral keys occur nowhere before. */
  ghost predicate RecordsGrow(w: World, w': World) {
    && w.used <= w'.used && w.seen <= w'.seen && (forall e :: e in w'.used && e !in w.used ==> e !in w.seen)
    && w.net <= w'.net && w.sent <= w'.sent && w.delivered <= w'.delivered
    && (forall k :: k in w.holder ==> k in w'.holder && w'.holder[k] == w.holder[k])
    && (forall e :: e in w.begun ==> e in w'.begun && w'.begun[e] == w.begun[e])
    && w.completed <= w'.completed
  }

  /** What no step undoes: tunnels keep their identity and addresses keep a tunnel. */
  ghost predicate Grows(w: World, w': World) {
    && w.nodes.Keys == w'.nodes.Keys
    && (forall n :: n in w.nodes ==> w'.nodes[n].config == w.nodes[n].config)
    && (forall n, i :: IsTunnel(w, n, i) ==> IsTunnel(w', n, i) && SameTunnel(At(w, n, i), At(w', n, i)))
    && (forall n, a :: n in w.nodes && a in w.nodes[n].indexByAddr ==> a in w'.nodes[n].indexByAddr)
    && RecordsGrow(w, w')
  }

  lemma OutsideStays(w: World, w': World, k: Key)
    requires Grows(w, w') && KnownOutside(w, k) && k.initEphemeral in w.seen && k.respEphemeral in w.seen
    ensures KnownOutside(w', k)
  {
  }

  lemma OfferStays(w: World, w': World, m: Noise)
    requires Grows(w, w') && m.Second? && OfferOk(w, m)
    ensures OfferOk(w', m)
  {
    hide DerSpec.HandshakeBytes, DerSpec.Recombine;
  }

  lemma PacketStays(w: World, w': World, p: Packet)
    requires Grows(w, w') && PacketOk(w, p)
    ensures PacketOk(w', p)
  {
    hide OfferOk;
    match p.body
    case Hs(m) =>
      if m.Second? {
        if KnownOutside(w, KeyOf(m)) { OutsideStays(w, w', KeyOf(m)); } else { OfferStays(w, w', m); }
      }
    case Enc(b) =>
      if b.Sealed? && KnownOutside(w, b.key) { OutsideStays(w, w', b.key); }
  }

  lemma NetStays(w: World, w': World)
    requires Grows(w, w') && NetOk(w)
    requires forall p :: p in w'.net && p !in w.net ==> PacketOk(w', p)
    ensures NetOk(w')
  {
    hide PacketOk;
    forall p | p in w'.net ensures PacketOk(w', p) {
      if p in w.net { PacketStays(w, w', p); }
    }
  }

  lemma HoldersStay(w: World, w': World)
    requires Grows(w, w') && HoldersOk(w)
    requires forall k :: k in w'.holder && k !in w.holder ==> HolderOk(w', k)
    ensures HoldersOk(w')
  {
    hide HolderOk, IsTunnel, RecordsGrow;
    forall k | k in w'.holder ensures HolderOk(w', k) {
      if k in w.holder { HolderStays(w, w', k); }
    }
  }

  lemma HolderStays(w: World, w': World, k: Key)
    requires Grows(w, w') && k in w.holder && HolderOk(w, k)
    ensures k in w'.holder && HolderOk(w', k)
  {
  }

  lemma SentStays(w: World, w': World)
    requires Grows(w, w') && AllSentOk(w)
    requires forall s :: s in w'.sent && s !in w.sent ==> SentOk(w', s)
    ensures AllSentOk(w')
  {
    forall s | s in w'.sent ensures SentOk(w', s) {
      if s in w.sent { assert SentOk(w, s); }
    }
  }

  lemma DeliveredStays(w: World, w': World, d: Delivered)
    requires Grows(w, w') && HoldersOk(w) && NamesOk(w) && DeliveredOk(w, d)
    requires IsTunnel(w, d.place.node, d.place.index)
    requires var k := At(w, d.place.node, d.place.index).transport.recvKey;
             k.initEphemeral in w.seen && k.respEphemeral in w.seen
    ensures DeliveredOk(w', d)
  {
    hide Parse;
    var t := At(w, d.place.node, d.place.index).transport;
    if KnownOutside(w, t.recvKey) { OutsideStays(w, w', t.recvKey); }
  }

  lemma PeerStays(w: World, w': World, trust: Trust, n: bytes, i: u32)
    requires Grows(w, w') && Has(w, n, i) && Has(w', n, i) && At(w, n, i) == At(w', n, i)
    requires PeerOk(w, trust, n, i)
    ensures PeerOk(w', trust, n, i)
  {
    hide DerSpec.HandshakeBytes, Verified;
  }

  lemma PeersStay(w: World, w': World, trust: Trust, n0: bytes, i0: u32)
    requires Grows(w, w') && PeersOk(w, trust)
    requires forall n, i :: Has(w', n, i) && !(n == n0 && i == i0) ==> Has(w, n, i) && At(w, n, i) == At(w', n, i)
    requires Has(w', n0, i0) ==> PeerOk(w', trust, n0, i0)
    ensures PeersOk(w', trust)
  {
    hide PeerOk;
    forall n, i | Has(w', n, i) ensures PeerOk(w', trust, n, i) {
      if !(n == n0 && i == i0) { PeerStays(w, w', trust, n, i); }
    }
  }

  lemma MirrorStays(w: World, w': World, n: bytes, i: u32)
    requires Grows(w, w') && IsTunnel(w, n, i) && MirroredBy(w, n, i)
    ensures MirroredBy(w', n, i)
  {
    hide DerSpec.HandshakeBytes, DerSpec.Recombine;
  }

  lemma MirrorsStay(w: World, w': World, n0: bytes, i0: u32)
    requires Grows(w, w') && MirrorsOk(w)
    requires forall n, i :: IsTunnel(w', n, i) && !(n == n0 && i == i0) ==> IsTunnel(w, n, i)
    requires !IsTunnel(w, n0, i0) && BegunHere(w', n0, i0) && PeerStatic(At(w', n0, i0).transport.sendKey) in w'.nodes
             ==> MirroredBy(w', n0, i0)
    ensures MirrorsOk(w')
  {
    forall n, i | BegunHere(w', n, i) && PeerStatic(At(w', n, i).transport.sendKey) in w'.nodes
      ensures MirroredBy(w', n, i)
    {
      if IsTunnel(w, n, i) {
        assert SameTunnel(At(w, n, i), At(w', n, i)) && BegunHere(w, n, i);
        MirrorStays(w, w', n, i);
      }
    }
  }

  lemma AddrsStay(w: World, w': World)
    requires Grows(w, w') && AddrsOk(w)
    requires forall n, a :: n in w'.nodes && a in w'.nodes[n].indexByAddr
               && !(a in w.nodes[n].indexByAddr && w'.nodes[n].indexByAddr[a] == w.nodes[n].indexByAddr[a])
               ==> AddrOk(w', n, a)
    ensures AddrsOk(w')
  {
    forall n, a | n in w'.nodes && a in w'.nodes[n].indexByAddr ensures AddrOk(w', n, a) {
      if a in w.nodes[n].indexByAddr && w'.nodes[n].indexByAddr[a] == w.nodes[n].indexByAddr[a] {
        assert AddrOk(w, n, a);
      }
    }
  }

  lemma DeliveriesStay(w: World, w': World, trust: Trust)
    requires Grows(w, w') && Invariant(w, trust) && w'.delivered == w.delivered
    ensures AllDeliveredOk(w')
  {
    hide DeliveredOk, CounterIn, PeerOk, HolderOk;
    forall d | d in w'.delivered ensures DeliveredOk(w', d) {
      DeliveredPlace(w, trust, d);
      DeliveredStays(w, w', d);
    }
  }

  lemma DeliveredPlace(w: World, trust: Trust, d: Delivered)
    requires PeersOk(w, trust) && DeliveredOk(w, d)
    ensures IsTunnel(w, d.place.node, d.place.index)
    ensures var k := At(w, d.place.node, d.place.index).transport.recvKey;
            k.initEphemeral in w.seen && k.respEphemeral in w.seen
  {
    assert PeerOk(w, trust, d.place.node, d.place.index);
    hide IdentityOk, Parse;
  }
}
