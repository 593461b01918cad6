/** The IX handshake over ideal Noise (section 7.5 of the Noise Protocol Framework): the first
    message travels in the clear, the second is sealed to the whole first message. */
module Handshake {
  import opened Optional
  import opened Bits
  import opened Bytes
  import opened Ideal

  /** The fields of the handshake payload that the protocol uses. */
  datatype Details = Details(cert: bytes, initiatorIndex: u32, responderIndex: u32)

  /** `payload` is absent when it does not decode or carries no details. */
  datatype Stage0 = Stage0(ephemeral: nat, staticKey: bytes, payload: Option<Details>)

  datatype Noise =
    | First(msg: Stage0)
    | Second(cipher: Cipher, transcript: Stage0, ephemeral: nat, staticKey: bytes, payload: Option<Details>)
    | Garbage

  datatype SplitKeys = SplitKeys(remoteStatic: bytes, sendKey: Key, recvKey: Key)

  /** The initiator sends with the first key of the split, the responder with the second
      (section 5.2 of the Noise Protocol Framework). */
  function Split(isInitiator: bool, first: Stage0, respEphemeral: nat, respStatic: bytes): SplitKeys {
    var k1 := Key(first.ephemeral, first.staticKey, respEphemeral, respStatic, true);
    var k2 := k1.(first := false);
    if isInitiator then SplitKeys(respStatic, k1, k2) else SplitKeys(first.staticKey, k2, k1)
  }

  function Start(ephemeral: nat, staticKey: bytes, cert: bytes, index: u32): Stage0 {
    Stage0(ephemeral, staticKey, Some(Details(cert, index, 0)))
  }

  datatype Response = Response(theirs: Details, reply: Noise, keys: SplitKeys)

  /** A first message without details or with initiator index 0 is refused. */
  function Respond(cipher: Cipher, staticKey: bytes, cert: bytes, index: u32, ephemeral: nat, body: Noise)
    : Option<Response>
  {
    if !body.First? || body.msg.payload.None? || body.msg.payload.value.initiatorIndex == 0 then None
    else
      var theirs := body.msg.payload.value;
      var reply := Second(cipher, body.msg, ephemeral, staticKey, Some(Details(cert, theirs.initiatorIndex, index)));
      Some(Response(theirs, reply, Split(false, body.msg, ephemeral, staticKey)))
  }

  datatype Finished = Finished(theirs: Details, keys: SplitKeys)

  /** The second message opens only for the first message it answers, whole payload included. */
  function Finish(cipher: Cipher, sent: Stage0, body: Noise): Option<Finished> {
    if !body.Second? || body.cipher != cipher || body.transcript != sent then None
    else if body.payload.None? || body.payload.value.responderIndex == 0 then None
    else Some(Finished(body.payload.value, Split(true, sent, body.ephemeral, body.staticKey)))
  }

  /** Both ends of a completed handshake hold mirrored keys and each other's indices. The keys come
      from both ephemeral and both static keys, and the initiator sends with the first. */
  lemma EndsAgree(cipher: Cipher, iEph: nat, iStatic: bytes, iCert: bytes, iIndex: u32,
                  rEph: nat, rStatic: bytes, rCert: bytes, rIndex: u32)
    ensures var first := Start(iEph, iStatic, iCert, iIndex);
            var response := Respond(cipher, rStatic, rCert, rIndex, rEph, First(first));
            && (response.Some? <==> iIndex != 0)
            && (response.Some? ==>
                  var finished := Finish(cipher, first, response.value.reply);
                  && (finished.Some? <==> rIndex != 0)
                  && (finished.Some? ==>
                        && response.value.theirs == Details(iCert, iIndex, 0)
                        && finished.value.theirs == Details(rCert, iIndex, rIndex)
                        && finished.value.keys.sendKey == response.value.keys.recvKey
                        && finished.value.keys.recvKey == response.value.keys.sendKey
                        && finished.value.keys.sendKey == Key(iEph, iStatic, rEph, rStatic, true)
                        && finished.value.keys.recvKey == Key(iEph, iStatic, rEph, rStatic, false)
                        && finished.value.keys.remoteStatic == rStatic
                        && response.value.keys.remoteStatic == iStatic))
  {
  }
}

/** One node: its tables of handshakes and tunnels, and the handlers that drive them. */
module Session {
  import opened Optional
  import opened Bits
  import opened Bytes
  import opened Net
  import opened Header
  import opened Ideal
  import opened Handshake
  import ReplaySpec
  import Transport
  import DerSpec

  /** Certificate verification against the authority at a time, kept abstract. */
  datatype Trust = Trust(verify: (DerSpec.Certificate, DerSpec.Certificate, int) -> bool)

  datatype Config = Config(caCert: DerSpec.Certificate, hostCert: DerSpec.Certificate, staticKey: bytes, cipher: Cipher)

  datatype PeerState =
    | Handshaking(sent: Stage0)
    | Established(transport: Transport.State, remote: nat, vpnAddr: IpAddr, cert: DerSpec.Certificate, remoteIndex: u32)

  datatype Inner = Inner(
    config: Config,
    peers: map<u32, PeerState>,
    indexByAddr: map<IpAddr, u32>,
    connected: map<IpAddr, nat>)

  datatype Body = Hs(noise: Noise) | Enc(box: Box)

  /** A datagram: the raw header bytes and what follows them. */
  datatype Packet = Packet(header: bytes, body: Body)

  function AsNoise(b: Body): Noise { if b.Hs? then b.noise else Garbage }
  function AsBox(b: Body): Box { if b.Enc? then b.box else Junk([]) }

  function NewInner(config: Config): Inner {
    Inner(config, map[], map[], map[])
  }

  /** An index that may be allocated: any nonzero one not in use. */
  predicate Free(inner: Inner, index: u32) {
    index != 0 && index !in inner.peers
  }

  /** The certificate and address of a peer whose handshake bytes and key check out. */
  function CheckPeer(inner: Inner, trust: Trust, certBytes: bytes, remoteStatic: bytes, now: int)
    : Option<(DerSpec.Certificate, IpAddr)>
  {
    match DerSpec.Recombine(certBytes, remoteStatic, DerSpec.Curve25519)
    case Malformed => None
    case Ok(cert) =>
      if !trust.verify(cert, inner.config.caCert, now) || cert.details.networks == [] then None
      else Some((cert, cert.details.networks[0].addr))
  }

  function HandshakeHeader(remoteIndex: u32, counter: u64): bytes {
    Encoded(Header(VERSION, HANDSHAKE, IX_PSK0, remoteIndex, counter))
  }

  function WithTunnel(inner: Inner, index: u32, keys: SplitKeys, from: nat, cert: DerSpec.Certificate, addr: IpAddr,
                      remoteIndex: u32): Inner {
    var transport := Transport.NewState(inner.config.cipher, keys.sendKey, keys.recvKey);
    inner.(peers := inner.peers[index := Established(transport, from, addr, cert, remoteIndex)],
           indexByAddr := inner.indexByAddr[addr := index])
  }

  /** A first message: answer it and hold the tunnel established at once. */
  function HandleFirst(inner: Inner, trust: Trust, body: Noise, from: nat, index: u32, ephemeral: nat, now: int)
    : (Inner, Option<Packet>)
  {
    var hostCert := DerSpec.HandshakeBytes(inner.config.hostCert);
    match Respond(inner.config.cipher, inner.config.staticKey, hostCert, index, ephemeral, body)
    case None => (inner, None)
    case Some(r) =>
      match CheckPeer(inner, trust, r.theirs.cert, r.keys.remoteStatic, now)
      case None => (inner, None)
      case Some((cert, addr)) =>
        (WithTunnel(inner, index, r.keys, from, cert, addr, r.theirs.initiatorIndex),
         Some(Packet(HandshakeHeader(r.theirs.initiatorIndex, 2), Hs(r.reply))))
  }

  /** A second message: the handshake stored under our index ends here, for better or worse.
      The result says which address's waiting `connect` succeeds, if any. */
  function HandleSecond(inner: Inner, trust: Trust, index: u32, body: Noise, from: nat, now: int)
    : (Inner, Option<IpAddr>)
  {
    if index !in inner.peers || !inner.peers[index].Handshaking? then (inner, None)
    else
      var sent := inner.peers[index].sent;
      var failed := inner.(peers := inner.peers - {index});
      match Finish(inner.config.cipher, sent, body)
      case None => (failed, None)
      case Some(f) =>
        match CheckPeer(inner, trust, f.theirs.cert, f.keys.remoteStatic, now)
        case None => (failed, None)
        case Some((cert, addr)) =>
          var done := WithTunnel(inner, index, f.keys, from, cert, addr, f.theirs.responderIndex);
          (done.(connected := done.connected - {addr}), if addr in inner.connected then Some(addr) else None)
  }

  /** Decrypts a packet with the tunnel stored under the header's index. */
  function Receive(inner: Inner, index: u32, counter: u64, header: bytes, box: Box): (Inner, Option<(IpAddr, bytes)>) {
    if index !in inner.peers || !inner.peers[index].Established? then (inner, None)
    else
      var p := inner.peers[index];
      var (transport, r) := Transport.Receive(p.transport, counter, header, box);
      (inner.(peers := inner.peers[index := p.(transport := transport)]),
       if r.Plaintext? then Some((p.vpnAddr, r.data)) else None)
  }

  function Connecting(inner: Inner, addr: IpAddr, waiter: nat, index: u32, ephemeral: nat): (Inner, Packet) {
    var sent := Start(ephemeral, inner.config.staticKey, DerSpec.HandshakeBytes(inner.config.hostCert), index);
    (inner.(connected := inner.connected[addr := waiter], peers := inner.peers[index := Handshaking(sent)]),
     Packet(HandshakeHeader(0, 1), Hs(First(sent))))
  }

  /** Seals a payload of any type for the peer at `addr`; nothing is sent if it has no tunnel. */
  function Sending(inner: Inner, addr: IpAddr, kind: u8, payload: bytes): (Inner, Option<Packet>) {
    if addr !in inner.indexByAddr then (inner, None)
    else
      var index := inner.indexByAddr[addr];
      if index !in inner.peers || !inner.peers[index].Established? then (inner, None)
      else
        var p := inner.peers[index];
        var (transport, packet) := Transport.Send(p.transport, p.remoteIndex, kind, payload);
        (inner.(peers := inner.peers[index := p.(transport := transport)]),
         Some(Packet(packet.header, Enc(packet.box))))
  }

  function PeerInfo(inner: Inner, addr: IpAddr): Option<DerSpec.Details> {
    if addr !in inner.indexByAddr then None
    else
      var index := inner.indexByAddr[addr];
      if index !in inner.peers || !inner.peers[index].Established? then None
      else Some(inner.peers[index].cert.details)
  }

  /** What one datagram does: a reply to send, data for the inbox, a `connect` that succeeds. */
  datatype Effect = Effect(inner: Inner, reply: Option<Packet>, data: Option<(IpAddr, bytes)>, done: Option<IpAddr>)

  /** The receive loop's dispatch on the header's type. */
  function Handle(inner: Inner, trust: Trust, packet: Packet, from: nat, index: u32, ephemeral: nat, now: int): Effect {
    match Parse(packet.header)
    case HeaderTooShort(_, _) => Effect(inner, None, None, None)
    case Parsed(h) =>
      if h.kind == HANDSHAKE then
        if h.remoteIndex == 0 then
          var (inner', reply) := HandleFirst(inner, trust, AsNoise(packet.body), from, index, ephemeral, now);
          Effect(inner', reply, None, None)
        else
          var (inner', done) := HandleSecond(inner, trust, h.remoteIndex, AsNoise(packet.body), from, now);
          Effect(inner', None, None, done)
      else if h.kind == MESSAGE then
        var (inner', data) := Receive(inner, h.remoteIndex, h.counter, packet.header, AsBox(packet.body));
        Effect(inner', None, data, None)
      else if h.kind == LIGHTHOUSE then
        var (inner', _) := Receive(inner, h.remoteIndex, h.counter, packet.header, AsBox(packet.body));
        Effect(inner', None, None, None)
      else Effect(inner, None, None, None)
  }

  class Session {
    const config: Config
    const trust: Trust
    var peersByIndex: map<u32, PeerState>
    var indexByVpnAddr: map<IpAddr, u32>
    var connected: map<IpAddr, nat>
    var inbox: seq<(IpAddr, bytes)>

    function Contents(): Inner
      reads this
    {
      Inner(config, peersByIndex, indexByVpnAddr, connected)
    }

    constructor (config: Config, trust: Trust)
      ensures Contents() == NewInner(config) && this.trust == trust && inbox == []
    {
      this.config, this.trust := config, trust;
      peersByIndex, indexByVpnAddr, connected, inbox := map[], map[], map[], [];
    }

    /** `index` and `ephemeral` are the choices the handler draws; `done` reports the waiting
        `connect` that was told of success. */
    method HandleHandshake(h: Header, body: Noise, from: nat, index: u32, ephemeral: nat, now: int)
      returns (reply: Option<Packet>, done: Option<IpAddr>)
      requires h.remoteIndex == 0 ==> Free(Contents(), index)
      modifies this
      ensures inbox == old(inbox)
      ensures h.remoteIndex == 0 ==>
                && (Contents(), reply) == HandleFirst(old(Contents()), trust, body, from, index, ephemeral, now)
                && done.None?
      ensures h.remoteIndex != 0 ==>
                && (Contents(), done) == HandleSecond(old(Contents()), trust, h.remoteIndex, body, from, now)
                && reply.None?
    {
      hide DerSpec.HandshakeBytes, CheckPeer, HandshakeHeader;
      reply, done := None, None;
      if h.remoteIndex == 0 {
        var certBytes := DerSpec.HandshakeBytes(config.hostCert);
        var r := Respond(config.cipher, config.staticKey, certBytes, index, ephemeral, body);
        if r.None? { return; }
        var checked := CheckPeer(Contents(), trust, r.value.theirs.cert, r.value.keys.remoteStatic, now);
        if checked.None? { return; }
        var (cert, addr) := checked.value;
        reply := Some(Packet(HandshakeHeader(r.value.theirs.initiatorIndex, 2), Hs(r.value.reply)));
        var transport := Transport.NewState(config.cipher, r.value.keys.sendKey, r.value.keys.recvKey);
        peersByIndex := peersByIndex[index := Established(transport, from, addr, cert, r.value.theirs.initiatorIndex)];
        indexByVpnAddr := indexByVpnAddr[addr := index];
      } else {
        var own := h.remoteIndex;
        if own !in peersByIndex || !peersByIndex[own].Handshaking? { return; }
        var sent := peersByIndex[own].sent;
        ghost var before := Contents();
        peersByIndex := peersByIndex - {own};
        var f := Finish(config.cipher, sent, body);
        if f.None? { return; }
        var checked := CheckPeer(Contents(), trust, f.value.theirs.cert, f.value.keys.remoteStatic, now);
        CheckPeerIgnoresTables(before, Contents(), trust, f.value.theirs.cert, f.value.keys.remoteStatic, now);
        if checked.None? { return; }
        var (cert, addr) := checked.value;
        var transport := Transport.NewState(config.cipher, f.value.keys.sendKey, f.value.keys.recvKey);
        peersByIndex := peersByIndex[own := Established(transport, from, addr, cert, f.value.theirs.responderIndex)];
        assert peersByIndex == before.peers[own := peersByIndex[own]];
        indexByVpnAddr := indexByVpnAddr[addr := own];
        if addr in connected {
          done := Some(addr);
        }
        connected := connected - {addr};
      }
    }

    method HandleMessage(h: Header, header: bytes, box: Box)
      modifies this
      ensures var (inner', data) := Receive(old(Contents()), h.remoteIndex, h.counter, header, box);
              && Contents() == inner'
              && inbox == old(inbox) + if data.Some? then [data.value] else []
    {
      hide Transport.Receive;
      if h.remoteIndex !in peersByIndex || !peersByIndex[h.remoteIndex].Established? { return; }
      var p := peersByIndex[h.remoteIndex];
      var (transport, r) := Transport.Receive(p.transport, h.counter, header, box);
      peersByIndex := peersByIndex[h.remoteIndex := p.(transport := transport)];
      if r.Plaintext? {
        inbox := inbox + [(p.vpnAddr, r.data)];
      }
    }

    /** Uses the same transport and counter window as data, but never fills the inbox. */
    method HandleLighthousePacket(h: Header, header: bytes, box: Box)
      modifies this
      ensures Contents() == Receive(old(Contents()), h.remoteIndex, h.counter, header, box).0
      ensures inbox == old(inbox)
    {
      hide Transport.Receive;
      if h.remoteIndex !in peersByIndex || !peersByIndex[h.remoteIndex].Established? { return; }
      var p := peersByIndex[h.remoteIndex];
      var (transport, _) := Transport.Receive(p.transport, h.counter, header, box);
      peersByIndex := peersByIndex[h.remoteIndex := p.(transport := transport)];
    }

    method Connect(addr: IpAddr, waiter: nat, index: u32, ephemeral: nat) returns (packet: Packet)
      requires Free(Contents(), index)
      modifies this
      ensures inbox == old(inbox)
      ensures (Contents(), packet) == Connecting(old(Contents()), addr, waiter, index, ephemeral)
    {
      hide DerSpec.HandshakeBytes, HandshakeHeader;
      connected := connected[addr := waiter];
      var sent := Start(ephemeral, config.staticKey, DerSpec.HandshakeBytes(config.hostCert), index);
      peersByIndex := peersByIndex[index := Handshaking(sent)];
      packet := Packet(HandshakeHeader(0, 1), Hs(First(sent)));
    }

    method SendTyped(addr: IpAddr, kind: u8, payload: bytes) returns (packet: Option<Packet>)
      modifies this
      ensures inbox == old(inbox)
      ensures (Contents(), packet) == Sending(old(Contents()), addr, kind, payload)
    {
      hide Transport.Send;
      if addr !in indexByVpnAddr { return None; }
      var index := indexByVpnAddr[addr];
      if index !in peersByIndex || !peersByIndex[index].Established? { return None; }
      var p := peersByIndex[index];
      var (transport, sealed) := Transport.Send(p.transport, p.remoteIndex, kind, payload);
      peersByIndex := peersByIndex[index := p.(transport := transport)];
      packet := Some(Packet(sealed.header, Enc(sealed.box)));
    }
  }

  lemma CheckPeerIgnoresTables(a: Inner, b: Inner, trust: Trust, certBytes: bytes, remoteStatic: bytes, now: int)
    requires a.config == b.config
    ensures CheckPeer(a, trust, certBytes, remoteStatic, now) == CheckPeer(b, trust, certBytes, remoteStatic, now)
  {
    hide DerSpec.Recombine;
  }

  // ---- The handlers, written out ----

  /** The certificate in a handshake payload, for the key of that handshake, is accepted at this
      time by the authority configured, and has an address. */
  ghost predicate Admits(
    inner: Inner, trust: Trust, certBytes: bytes, key: bytes, now: int, cert: DerSpec.Certificate, addr: IpAddr)
  {
    && DerSpec.Recombine(certBytes, key, DerSpec.Curve25519) == DerSpec.Ok(cert)
    && trust.verify(cert, inner.config.caCert, now)
    && |cert.details.networks| > 0 && addr == cert.details.networks[0].addr
  }

  lemma AdmitsIsCheck(inner: Inner, trust: Trust, certBytes: bytes, key: bytes, now: int)
    ensures forall cert, addr ::
              Admits(inner, trust, certBytes, key, now, cert, addr)
              <==> CheckPeer(inner, trust, certBytes, key, now) == Some((cert, addr))
  {
    hide DerSpec.Recombine;
  }

  /** A tunnel as it is when new: counters start after 2 and nothing was received. */
  predicate IsNew(p: PeerState, cipher: Cipher, send: Key, recv: Key, from: nat, addr: IpAddr,
                  cert: DerSpec.Certificate, remoteIndex: u32) {
    p == Established(Transport.State(cipher, send, recv, 2, ReplaySpec.Window(0, {})), from, addr, cert, remoteIndex)
  }

  /** A first message is answered exactly if it carries details with a nonzero index and a
      certificate that is admitted for its static key. The node then holds a new tunnel under the
      index drawn, sending with the second key of the handshake, and its address table leads there;
      the answer goes to the sender's index and offers the node's own certificate and index.
      Otherwise nothing changes. */
  lemma FirstExactly(inner: Inner, trust: Trust, body: Noise, from: nat, index: u32, ephemeral: nat, now: int,
                     cert: DerSpec.Certificate, addr: IpAddr)
    ensures var (inner', reply) := HandleFirst(inner, trust, body, from, index, ephemeral, now);
            if body.First? && body.msg.payload.Some? && body.msg.payload.value.initiatorIndex != 0
               && Admits(inner, trust, body.msg.payload.value.cert, body.msg.staticKey, now, cert, addr)
            then
              var m, theirs := body.msg, body.msg.payload.value;
              var own := Details(DerSpec.HandshakeBytes(inner.config.hostCert), theirs.initiatorIndex, index);
              var send := Key(m.ephemeral, m.staticKey, ephemeral, inner.config.staticKey, false);
              var recv := Key(m.ephemeral, m.staticKey, ephemeral, inner.config.staticKey, true);
              && index in inner'.peers
              && IsNew(inner'.peers[index], inner.config.cipher, send, recv, from, addr, cert, theirs.initiatorIndex)
              && inner'.peers == inner.peers[index := inner'.peers[index]]
              && inner'.indexByAddr == inner.indexByAddr[addr := index]
              && inner'.connected == inner.connected && inner'.config == inner.config
              && reply.Some?
              && reply.value.header
                 == [16, 0, 0, 0] + FourBytes(theirs.initiatorIndex) + [0, 0, 0, 0, 0, 0, 0, 2]
              && reply.value.body
                 == Hs(Second(inner.config.cipher, m, ephemeral, inner.config.staticKey, Some(own)))
            else
              (forall c, a ::
                 !(body.First? && body.msg.payload.Some? && body.msg.payload.value.initiatorIndex != 0
                   && Admits(inner, trust, body.msg.payload.value.cert, body.msg.staticKey, now, c, a)))
              ==> inner' == inner && reply == None
  {
    hide Admits, CheckPeer, DerSpec.HandshakeBytes, HandshakeHeader, FourBytes;
    if body.First? && body.msg.payload.Some? {
      AdmitsIsCheck(inner, trust, body.msg.payload.value.cert, body.msg.staticKey, now);
      HandshakeHeaderBytes(body.msg.payload.value.initiatorIndex, 2);
      var checked := CheckPeer(inner, trust, body.msg.payload.value.cert, body.msg.staticKey, now);
      if checked.Some? {
        var (c, a) := checked.value;
        assert Admits(inner, trust, body.msg.payload.value.cert, body.msg.staticKey, now, c, a);
      }
    }
  }

  lemma SmallCounter(n: u8)
    ensures EightBytes(n) == [0, 0, 0, 0, 0, 0, 0, n]
  {
  }

  lemma HandshakeHeaderBytes(remoteIndex: u32, counter: u8)
    ensures HandshakeHeader(remoteIndex, counter)
            == [16, 0, 0, 0] + FourBytes(remoteIndex) + [0, 0, 0, 0, 0, 0, 0, counter]
  {
    Layout(Header(VERSION, HANDSHAKE, IX_PSK0, remoteIndex, counter));
    hide Encoded, FourBytes;
    SmallCounter(counter);
    hide EightBytes;
  }

  /** A second message ends the handshake under its index, if there is one. It becomes a tunnel
      exactly if the message answers this very first message under the same cipher, carries details
      with a nonzero index, and a certificate that is admitted for its static key; whoever waits for
      a connect to the address of that certificate is woken. */
  lemma SecondExactly(inner: Inner, trust: Trust, index: u32, body: Noise, from: nat, now: int,
                      cert: DerSpec.Certificate, addr: IpAddr)
    ensures var (inner', done) := HandleSecond(inner, trust, index, body, from, now);
            if index !in inner.peers || !inner.peers[index].Handshaking? then inner' == inner && done == None
            else
              var sent := inner.peers[index].sent;
              if body.Second? && body.cipher == inner.config.cipher && body.transcript == sent
                 && body.payload.Some? && body.payload.value.responderIndex != 0
                 && Admits(inner, trust, body.payload.value.cert, body.staticKey, now, cert, addr)
              then
                var send := Key(sent.ephemeral, sent.staticKey, body.ephemeral, body.staticKey, true);
                var recv := Key(sent.ephemeral, sent.staticKey, body.ephemeral, body.staticKey, false);
                && index in inner'.peers
                && IsNew(inner'.peers[index], inner.config.cipher, send, recv, from, addr, cert,
                         body.payload.value.responderIndex)
                && inner'.peers == inner.peers[index := inner'.peers[index]]
                && inner'.indexByAddr == inner.indexByAddr[addr := index]
                && inner'.connected == inner.connected - {addr} && inner'.config == inner.config
                && done == (if addr in inner.connected then Some(addr) else None)
              else
                (forall c, a ::
                   !(body.Second? && body.cipher == inner.config.cipher && body.transcript == sent
                     && body.payload.Some? && body.payload.value.responderIndex != 0
                     && Admits(inner, trust, body.payload.value.cert, body.staticKey, now, c, a)))
                ==> inner' == inner.(peers := inner.peers - {index}) && done == None
  {
    hide Admits, CheckPeer;
    if body.Second? && body.payload.Some? {
      AdmitsIsCheck(inner, trust, body.payload.value.cert, body.staticKey, now);
      var checked := CheckPeer(inner, trust, body.payload.value.cert, body.staticKey, now);
      if checked.Some? {
        var (c, a) := checked.value;
        assert Admits(inner, trust, body.payload.value.cert, body.staticKey, now, c, a);
      }
    }
  }

  /** A connect sends one first message under the index drawn, and registers its waiter. */
  lemma ConnectExactly(inner: Inner, addr: IpAddr, waiter: nat, index: u32, ephemeral: nat)
    ensures var (inner', packet) := Connecting(inner, addr, waiter, index, ephemeral);
            var own := Details(DerSpec.HandshakeBytes(inner.config.hostCert), index, 0);
            var sent := Stage0(ephemeral, inner.config.staticKey, Some(own));
            && packet == Packet([16, 0, 0, 0, 0, 0, 0, 0, 0, 0, 0, 0, 0, 0, 0, 1], Hs(First(sent)))
            && inner' == Inner(inner.config, inner.peers[index := Handshaking(sent)], inner.indexByAddr,
                               inner.connected[addr := waiter])
  {
    ConnectHeader();
    hide DerSpec.HandshakeBytes, HandshakeHeader;
  }

  lemma ConnectHeader()
    ensures HandshakeHeader(0, 1) == [16, 0, 0, 0, 0, 0, 0, 0, 0, 0, 0, 0, 0, 0, 0, 1]
  {
    hide HandshakeHeader, FourBytes;
    HandshakeHeaderBytes(0, 1);
    FourZeros();
  }

  lemma FourZeros()
    ensures FourBytes(0) == [0, 0, 0, 0]
  {
  }

  /** What each kind of datagram does: only data reaches the inbox, with the address of the tunnel
      that opened it. Kinds are 0 for handshakes, 1 for data and 3 for lighthouse packets. */
  lemma DispatchExactly(inner: Inner, trust: Trust, packet: Packet, from: nat, index: u32, ephemeral: nat, now: int)
    ensures var e := Handle(inner, trust, packet, from, index, ephemeral, now);
            var b := packet.header;
            && (|b| < 16 || b[0] % 16 !in {0, 1, 3} ==> e == Effect(inner, None, None, None))
            && (|b| >= 16 && b[0] % 16 != 0 ==>
                  e.reply == None && e.done == None && e.inner.indexByAddr == inner.indexByAddr)
            && (e.data.Some? ==>
                  && |b| >= 16 && b[0] % 16 == 1
                  && Value(b[4..8]) in inner.peers && inner.peers[Value(b[4..8])].Established?
                  && e.data.value.0 == inner.peers[Value(b[4..8])].vpnAddr)
            && (|b| >= 16 && b[0] % 16 == 0 && Value(b[4..8]) == 0 ==> e.data == None && e.done == None)
            && (|b| >= 16 && b[0] % 16 == 0 && Value(b[4..8]) != 0 ==> e.data == None && e.reply == None)
  {
    ParsedNumbers(packet.header);
    hide Parse, Value, HandleFirst, HandleSecond, Transport.Receive;
  }
}
