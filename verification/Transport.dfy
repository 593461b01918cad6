/** Authenticated encryption and Noise keys as ideal constructors: a ciphertext carries the
    key, nonce, associated data and plaintext it was made from and opens under nothing else. */
module Ideal {
  import opened Optional
  import opened Bits
  import opened Bytes

  datatype Cipher = AesGcm | ChaChaPoly

  /** One of the two keys of a Noise Split. The chaining key depends on the two ephemeral
      and the two static keys; `first` selects the initiator-to-responder key. */
  datatype Key = Key(initEphemeral: nat, initStatic: bytes, respEphemeral: nat, respStatic: bytes, first: bool)

  datatype Box =
    | Sealed(cipher: Cipher, key: Key, nonce: bytes, aad: bytes, plaintext: bytes)
    | Junk(raw: bytes)

  function Open(cipher: Cipher, key: Key, nonce: bytes, aad: bytes, box: Box): Option<bytes> {
    if box.Sealed? && box == Sealed(cipher, key, nonce, aad, box.plaintext) then Some(box.plaintext) else None
  }
}

/** Steady-state packet encryption: one counter per tunnel, used as nonce and in the header. */
module Transport {
  import opened Optional
  import opened Bits
  import opened Bytes
  import opened Ideal
  import opened Header
  import opened ReplaySpec
  import ReplayBitmap

  datatype Opened = Plaintext(data: bytes) | ReplayedPacket | DecryptFailed

  /** Four zero bytes and the counter, big-endian for AES-GCM and little-endian for ChaChaPoly. */
  function Nonce(cipher: Cipher, counter: u64): (nb: bytes)
    ensures |nb| == 12
  {
    [0, 0, 0, 0] + if cipher.AesGcm? then ToBE(counter, 8) else ToLE(counter, 8)
  }

  /** The nonce in numbers: four zero bytes, then the counter with its most significant byte first
      for AES-GCM and its least significant byte first for ChaChaPoly. */
  predicate IsNonce(cipher: Cipher, c: u64, nonce: bytes) {
    nonce == [0, 0, 0, 0] +
      if cipher == ChaChaPoly then
        [c % 256, c / 0x100 % 256, c / 0x1_0000 % 256, c / 0x100_0000 % 256, c / 0x1_0000_0000 % 256,
         c / 0x100_0000_0000 % 256, c / 0x1_0000_0000_0000 % 256, c / 0x100_0000_0000_0000]
      else
        [c / 0x100_0000_0000_0000, c / 0x1_0000_0000_0000 % 256, c / 0x100_0000_0000 % 256, c / 0x1_0000_0000 % 256,
         c / 0x100_0000 % 256, c / 0x1_0000 % 256, c / 0x100 % 256, c % 256]
  }

  lemma NonceBytes(cipher: Cipher, c: u64, nonce: bytes)
    ensures nonce == Nonce(cipher, c) <==> IsNonce(cipher, c, nonce)
  {
    EightBytesAreBE(c);
    ReverseEight(EightBytes(c));
    hide ToBE, Reverse;
  }

  lemma ReverseEight(s: bytes)
    requires |s| == 8
    ensures Reverse(s) == [s[7], s[6], s[5], s[4], s[3], s[2], s[1], s[0]]
  {
    assert Reverse(s) == [s[7]] + Reverse(s[..7]);
    assert Reverse(s[..7]) == [s[6]] + Reverse(s[..6]) by { assert s[..7][..6] == s[..6]; }
    assert Reverse(s[..6]) == [s[5]] + Reverse(s[..5]) by { assert s[..6][..5] == s[..5]; }
    assert Reverse(s[..5]) == [s[4]] + Reverse(s[..4]) by { assert s[..5][..4] == s[..4]; }
    assert Reverse(s[..4]) == [s[3]] + Reverse(s[..3]) by { assert s[..4][..3] == s[..3]; }
    assert Reverse(s[..3]) == [s[2]] + Reverse(s[..2]) by { assert s[..3][..2] == s[..2]; }
    assert Reverse(s[..2]) == [s[1]] + Reverse(s[..1]) by { assert s[..2][..1] == s[..1]; }
    assert Reverse(s[..1]) == [s[0]] by { assert s[..1][..0] == []; }
  }

  lemma NonceInjective(cipher: Cipher, c: u64, d: u64)
    ensures Nonce(cipher, c) == Nonce(cipher, d) <==> c == d
  {
    if Nonce(cipher, c) == Nonce(cipher, d) {
      Pow256Values();
      assert Nonce(cipher, c)[4..] == Nonce(cipher, d)[4..];
      if cipher.ChaChaPoly? {
        ReverseInjective(ToBE(c, 8), ToBE(d, 8));
      }
      BEInjective(c, d, 8);
    }
  }

  /** A transport as a value: its keys, send counter and the replay window's plain set. */
  datatype State = State(cipher: Cipher, sendKey: Key, recvKey: Key, sendCounter: u64, window: Window)

  function NewState(cipher: Cipher, sendKey: Key, recvKey: Key): State {
    State(cipher, sendKey, recvKey, 2, EMPTY)
  }

  /** The counter is consumed before authentication, so a failed decryption uses it up. */
  function Receive(t: State, counter: u64, aad: bytes, box: Box): (State, Opened) {
    if !Fresh(t.window, counter) then (t, ReplayedPacket)
    else
      var t' := t.(window := Accept(t.window, counter));
      match Open(t.cipher, t.recvKey, Nonce(t.cipher, counter), aad, box)
      case Some(data) => (t', Plaintext(data))
      case None => (t', DecryptFailed)
  }

  /** A packet as a transport is given it, genuine or not. */
  datatype Arrival = Arrival(counter: u64, aad: bytes, box: Box)

  function ReceiveAll(t: State, arrivals: seq<Arrival>): State {
    if arrivals == [] then t
    else
      var last := arrivals[|arrivals| - 1];
      Receive(ReceiveAll(t, arrivals[..|arrivals| - 1]), last.counter, last.aad, last.box).0
  }

  /** A counter that is used up or behind the window stays so, whatever arrives. */
  lemma {:induction false} SpentStaysSpent(t: State, arrivals: seq<Arrival>, counter: u64)
    requires !Fresh(t.window, counter)
    ensures !Fresh(ReceiveAll(t, arrivals).window, counter)
  {
    if arrivals != [] { SpentStaysSpent(t, arrivals[..|arrivals| - 1], counter); }
  }

  /** Whatever came first under a counter - the genuine packet, a forgery, an attempt that failed
      to decrypt - and whatever came after it, every later packet with that counter is refused,
      with the transport unchanged. */
  lemma {:induction false} CounterWorksOnce(t: State, first: Arrival, between: seq<Arrival>, later: Arrival)
    requires later.counter == first.counter
    ensures var t' := ReceiveAll(Receive(t, first.counter, first.aad, first.box).0, between);
            Receive(t', later.counter, later.aad, later.box) == (t', ReplayedPacket)
  {
    SpentStaysSpent(Receive(t, first.counter, first.aad, first.box).0, between, first.counter);
    hide Open, Nonce, ReceiveAll;
  }

  function Counters(arrivals: seq<Arrival>): seq<u64> {
    if arrivals == [] then [] else Counters(arrivals[..|arrivals| - 1]) + [arrivals[|arrivals| - 1].counter]
  }

  lemma {:induction false} WindowAfter(cipher: Cipher, sendKey: Key, recvKey: Key, arrivals: seq<Arrival>)
    ensures ReceiveAll(NewState(cipher, sendKey, recvKey), arrivals)
            == NewState(cipher, sendKey, recvKey).(window := After(Counters(arrivals)))
  {
    if arrivals != [] {
      var front := arrivals[..|arrivals| - 1];
      WindowAfter(cipher, sendKey, recvKey, front);
      assert Counters(arrivals)[..|arrivals| - 1] == Counters(front) by { CountersLength(front); }
      hide Open, Nonce;
    }
  }

  lemma {:induction false} CountersLength(arrivals: seq<Arrival>)
    ensures |Counters(arrivals)| == |arrivals|
  {
    if arrivals != [] { CountersLength(arrivals[..|arrivals| - 1]); }
  }

  /** Exactly which packets a tunnel opens, whatever arrived before: those sealed under its
      receive key with this very header and counter, when that counter exceeds all that arrived
      before, forgeries included, or is less than the window size behind the largest of them and
      did not arrive before. */
  lemma OpensExactly(
      cipher: Cipher, sendKey: Key, recvKey: Key, earlier: seq<Arrival>, a: Arrival, data: bytes)
    ensures Receive(ReceiveAll(NewState(cipher, sendKey, recvKey), earlier), a.counter, a.aad, a.box).1
            == Plaintext(data)
            <==> && a.box.Sealed? && IsNonce(cipher, a.counter, a.box.nonce)
                 && a.box == Sealed(cipher, recvKey, a.box.nonce, a.aad, data)
                 && var before := Counters(earlier);
                    a.counter > Largest(before)
                    || (Largest(before) - a.counter < 1024 && a.counter !in before)
  {
    if a.box.Sealed? { NonceBytes(cipher, a.counter, a.box.nonce); }
    WindowAfter(cipher, sendKey, recvKey, earlier);
    VerdictOnHistory(Counters(earlier), a.counter);
    hide Nonce, IsNonce, Fresh, Accept, ReceiveAll, Counters, Largest, After;
  }

  /** A packet as it travels: the sixteen header bytes and an encrypted body. */
  datatype DataPacket = DataPacket(header: bytes, box: Box)

  /** Takes the next counter, builds the header around it and seals the payload under both. */
  function Send(t: State, remoteIndex: u32, kind: u8, payload: bytes): (State, DataPacket) {
    var counter: u64 := Inc64(t.sendCounter);
    var header := Encoded(Header(VERSION, kind, 0, remoteIndex, counter));
    (t.(sendCounter := counter),
     DataPacket(header, Sealed(t.cipher, t.sendKey, Nonce(t.cipher, counter), header, payload)))
  }

  /** The bytes of a sent packet's header, what the receiver parses off them, and what the packet's
      box authenticates. */
  lemma SendOnWire(t: State, remoteIndex: u32, kind: u8, payload: bytes)
    ensures var (t', p) := Send(t, remoteIndex, kind, payload);
            && t'.sendCounter == (if t.sendCounter == 0xFFFF_FFFF_FFFF_FFFF then 0 else t.sendCounter + 1)
            && p.header == [16 + kind % 16, 0, 0, 0] + FourBytes(remoteIndex) + EightBytes(t'.sendCounter)
            && Parse(p.header) == Parsed(Header(VERSION, kind % 16, 0, remoteIndex, t'.sendCounter))
            && p.box == Sealed(t.cipher, t.sendKey, Nonce(t.cipher, t'.sendCounter), p.header, payload)
            && IsNonce(t.cipher, t'.sendCounter, p.box.nonce)
  {
    hide FourBytes, EightBytes, IsNonce;
    var h := Header(VERSION, kind, 0, remoteIndex, Send(t, remoteIndex, kind, payload).0.sendCounter);
    assert Encoded(h) + [] == Encoded(h);
    ParseEncoded(h, []);
    Layout(h);
    NonceBytes(t.cipher, h.counter, Nonce(t.cipher, h.counter));
    hide Encoded, Parse, Nonce;
  }

  class Transport {
    const cipher: Cipher
    const sendKey: Key
    const recvKey: Key
    var sendCounter: u64
    const replay: ReplayBitmap.ReplayWindow

    ghost predicate Valid()
      reads this, replay, replay.seen
    {
      replay.Valid()
    }

    ghost function View(): State
      reads this, replay
    {
      State(cipher, sendKey, recvKey, sendCounter, replay.view)
    }

    constructor (cipher: Cipher, sendKey: Key, recvKey: Key)
      ensures Valid() && fresh(replay) && fresh(replay.seen)
      ensures View() == NewState(cipher, sendKey, recvKey)
    {
      this.cipher, this.sendKey, this.recvKey := cipher, sendKey, recvKey;
      sendCounter := 2;
      replay := new ReplayBitmap.ReplayWindow();
    }

    method NextCounter() returns (counter: u64)
      requires Valid()
      modifies this`sendCounter
      ensures Valid()
      ensures counter == Inc64(old(sendCounter))
      ensures View() == old(View()).(sendCounter := counter)
    {
      sendCounter := Inc64(sendCounter);
      counter := sendCounter;
    }

    method Encrypt(counter: u64, aad: bytes, plaintext: bytes) returns (box: Box)
      ensures forall c, k, n, a ::
                Open(c, k, n, a, box) == if c == cipher && k == sendKey && IsNonce(cipher, counter, n) && a == aad
                                         then Some(plaintext) else None
    {
      forall n ensures n == Nonce(cipher, counter) <==> IsNonce(cipher, counter, n) { NonceBytes(cipher, counter, n); }
      hide Nonce, IsNonce;
      box := Sealed(cipher, sendKey, Nonce(cipher, counter), aad, plaintext);
    }

    method Decrypt(counter: u64, aad: bytes, box: Box) returns (r: Opened)
      requires Valid()
      modifies replay, replay.seen
      ensures Valid()
      ensures (View(), r) == Receive(old(View()), counter, aad, box)
    {
      var ok := replay.CheckAndUpdate(counter);
      if !ok {
        return ReplayedPacket;
      }
      var plain := Open(cipher, recvKey, Nonce(cipher, counter), aad, box);
      r := if plain.Some? then Plaintext(plain.value) else DecryptFailed;
    }
  }

  /** One outbound packet: data and lighthouse traffic share the transport and its counter. */
  datatype Outbound = Outbound(remoteIndex: u32, kind: u8, payload: bytes)

  function SendAll(t: State, sends: seq<Outbound>): (r: (State, seq<DataPacket>))
    ensures |r.1| == |sends|
  {
    if sends == [] then (t, [])
    else
      var (t1, packets) := SendAll(t, sends[..|sends| - 1]);
      var last := sends[|sends| - 1];
      var (t2, packet) := Send(t1, last.remoteIndex, last.kind, last.payload);
      (t2, packets + [packet])
  }

  /** The counter of the k-th packet of a new transport, whatever its type. */
  function CounterOf(k: nat): u64 {
    Wrap64(k + 3)
  }

  lemma CounterOfSmall(k: nat)
    requires k + 3 < 0x1_0000_0000_0000_0000
    ensures CounterOf(k) == k + 3
  {
    WrapSmall(k + 3);
  }

  lemma {:induction false} SendAllState(t: State, sends: seq<Outbound>)
    ensures SendAll(t, sends).0 == t.(sendCounter := Wrap64(t.sendCounter + |sends|))
  {
    if sends == [] {
      WrapSmall(t.sendCounter);
    } else {
      SendAllState(t, sends[..|sends| - 1]);
      IncWraps(t.sendCounter + |sends| - 1);
    }
  }

  lemma {:induction false} SendAllPacket(t: State, sends: seq<Outbound>, k: nat)
    requires k < |sends|
    ensures SendAll(t, sends).1[k]
            == Send(SendAll(t, sends[..k]).0, sends[k].remoteIndex, sends[k].kind, sends[k].payload).1
  {
    hide Send;
    var n := |sends| - 1;
    if k < n {
      SendAllPacket(t, sends[..n], k);
      assert sends[..n][..k] == sends[..k];
    }
  }

  /** For every interleaving of sends on one transport, the counter parsed back off the wire
      is the one that made the nonce, counters run from 3, and the header is what was
      authenticated. */
  lemma WireCounterIsNonceCounter(cipher: Cipher, sendKey: Key, recvKey: Key, sends: seq<Outbound>, k: nat)
    requires k < |sends|
    ensures var p := SendAll(NewState(cipher, sendKey, recvKey), sends).1[k];
            && Parse(p.header) == Parsed(Header(VERSION, sends[k].kind % 16, 0, sends[k].remoteIndex, CounterOf(k)))
            && p.box == Sealed(cipher, sendKey, Nonce(cipher, CounterOf(k)), p.header, sends[k].payload)
            && IsNonce(cipher, CounterOf(k), p.box.nonce)
            && (k + 3 < 0x1_0000_0000_0000_0000 ==> CounterOf(k) == k + 3)
  {
    if k + 3 < TWO64 { CounterOfSmall(k); }
    SendAllPacket(NewState(cipher, sendKey, recvKey), sends, k);
    StateBefore(cipher, sendKey, recvKey, sends[..k]);
    hide SendAll, Send, NewState, CounterOf, IsNonce, FourBytes, EightBytes, Encoded, Nonce, Parse;
    var t := SendAll(NewState(cipher, sendKey, recvKey), sends[..k]).0;
    SendOnWire(t, sends[k].remoteIndex, sends[k].kind, sends[k].payload);
  }

  /** After some packets the next one gets the counter of its place. */
  lemma StateBefore(cipher: Cipher, sendKey: Key, recvKey: Key, sends: seq<Outbound>)
    ensures var t := SendAll(NewState(cipher, sendKey, recvKey), sends).0;
            && t.cipher == cipher && t.sendKey == sendKey
            && forall remoteIndex, kind, payload ::
                 Send(t, remoteIndex, kind, payload).0.sendCounter == CounterOf(|sends|)
  {
    SendAllState(NewState(cipher, sendKey, recvKey), sends);
    IncWraps(|sends| + 2);
    hide Wrap64, Inc64, SendAll, Encoded, Nonce;
  }

  lemma CounterRepeats(i: nat, j: nat)
    ensures CounterOf(i) == CounterOf(j) <==> Wrap64(i) == Wrap64(j)
  {
    WrapShift(i, j, 3);
  }

  /** Two packets of one transport share a nonce exactly when 2^64 or a multiple of it lies
      between them. */
  lemma NonceRepeats(cipher: Cipher, sendKey: Key, recvKey: Key, sends: seq<Outbound>, i: nat, j: nat)
    requires i < |sends| && j < |sends|
    ensures var packets := SendAll(NewState(cipher, sendKey, recvKey), sends).1;
            && packets[i].box.Sealed? && packets[j].box.Sealed?
            && (packets[i].box.nonce == packets[j].box.nonce <==> Wrap64(i) == Wrap64(j))
  {
    WireCounterIsNonceCounter(cipher, sendKey, recvKey, sends, i);
    WireCounterIsNonceCounter(cipher, sendKey, recvKey, sends, j);
    NonceInjective(cipher, CounterOf(i), CounterOf(j));
    CounterRepeats(i, j);
  }

  /** The first 2^64 - 3 packets: counters strictly increase from 3, nonces never repeat. */
  lemma NoncesDistinct(cipher: Cipher, sendKey: Key, recvKey: Key, sends: seq<Outbound>, i: nat, j: nat)
    requires i < j < |sends| <= TWO64 - 3
    ensures var packets := SendAll(NewState(cipher, sendKey, recvKey), sends).1;
            && packets[i].box.Sealed? && packets[j].box.Sealed?
            && packets[i].box.nonce != packets[j].box.nonce
            && Parse(packets[i].header).Parsed? && Parse(packets[j].header).Parsed?
            && 3 <= Parse(packets[i].header).header.counter < Parse(packets[j].header).header.counter
  {
    NonceRepeats(cipher, sendKey, recvKey, sends, i, j);
    WireCounterIsNonceCounter(cipher, sendKey, recvKey, sends, i);
    WireCounterIsNonceCounter(cipher, sendKey, recvKey, sends, j);
    WrapSmall(i);
    WrapSmall(j);
    WrapSmall(i + 3);
    WrapSmall(j + 3);
  }
}
