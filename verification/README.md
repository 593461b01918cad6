# A verified model of a Nebula overlay node

Dafny models of the parts of this Rust workspace that decide which packets a node sends,
accepts and delivers, with proofs of what they promise:

- **Tunnels** (`Session.dfy`, `Tunnel.dfy`, `TunnelSteps.dfy`, `TunnelTheorems.dfy`,
  `TunnelPending.dfy`, `TunnelProgress.dfy`, `TunnelIdentity.dfy`, `Transport.dfy`, `Header.dfy`): the IX handshake, the session tables and
  the encrypted data path. Any number of nodes run on a network that drops, duplicates and reorders; on top of that,
  anyone may inject any datagram that can be made without the nodes' secrets. Noise and the AEAD
  are ideal constructors: a ciphertext carries its key, nonce, associated data and plaintext, a
  second handshake message carries the whole first one.
- **Replay window** (`Replay.dfy`): the 1024-bit bitmap in sixteen words, shifted bit by bit with
  carry, against the plain set of counters accepted.
- **Firewall** (`FirewallPacket.dfy`, `Rules.dfy`, `Conntrack.dfy`, `Firewall.dfy`,
  `FirewallRuns.dfy`, `FirewallTimes.dfy`, `FirewallFlows.dfy`): the rule compiler and its nested
  index against a flat list of rules; the connection table with its lazy expiry heap against the
  plain history of what was recorded, in and out of time order; and whole evaluations, both
  sequential and interleaved with each other and with reloads.
- **Certificates** (`DerSpec.dfy`, `DerProofs.dfy`, `DerGrammar.dfy`, `Utf8Text.dfy`,
  `DerCodec.dfy`): the hand-written DER codec against the format as a grammar over plain bytes, the
  reduced handshake form and the signed byte string.
- **IP packets** (`IpPacket.dfy`, `IpCases.dfy`): the five-tuple parser, the IPv6 extension-header
  walk, what becomes of every byte string there is, and why both legs of a flow share one key.

`Bits.dfy`, `Bytes.dfy`, `Net.dfy` and `Optional.dfy` hold machine integers, byte encodings, address
prefixes and absent values.

Where the source changes things in place the model does too: classes for the replay window,
transport, DER cursor and output buffer, connection table, firewall, rule builder and session, each
method proved equal to a function of the old state; the properties are then lemmas about those
functions and about runs of them.

## How runs are modelled

A run is a sequence of actions applied to a start state; an action that is not enabled changes
nothing, so "for every sequence of actions" is "for every run". Each session handler runs under one
lock (nebula-protocol/src/session.rs:278) and is one step. An evaluation of the firewall is four
steps: snapshot of version and rules, first locked section, checks without the lock, final record.

History that the code does not keep is added to the state so that theorems can speak of it: what
was sent and delivered, which tunnel sends under a key, every ruleset ever installed, the origin of
every tracked flow.

## Where the code differs from what one might expect

- The counter of a packet is consumed before it is authenticated
  (nebula-protocol/src/transport.rs:224-227), so a failed decryption uses up its counter. Delivery
  is at most once; it is not claimed that every genuine packet is delivered.
- The send counter wraps at 2^64 when overflow checks are off. `Transport.NonceRepeats` says exactly
  which packets then share a nonce, `Transport.NoncesDistinct` that none of the first 2^64 - 3 do.
- The ruleset version is 16 bits wide. `FirewallFlows.RevokedFlowPassesExactlyOnWrap` says exactly
  after how many reloads a revoked flow still passes.
- The comment at nebula-listener/src/packet.rs:95-99 says the fragment flag folds in the
  more-fragments bit. The code (nebula-listener/src/packet.rs:81-82) uses the offset alone, and so
  does the model.
- The comment on `encode_der_int` calls the encoding minimal and assumes a non-negative argument.
  The round trip holds for every 64-bit integer; `DerProofs.DerIntMinimal` says exactly for which
  ones the encoding is the shortest.
- An evaluation takes its time before it takes the lock (nebula-firewall/src/firewall.rs:98), so the
  connection table can see times out of order. `ConntrackRuns.LookupIsExactWhen` and
  `FirewallTimes.ConcurrentExpiry` say exactly when a lookup is still what the latest record says,
  and that it is never off by more than the times go back;
  `FirewallTimes.OverlappingCallsOutlive` is a run of two evaluations in which it is off.
- A pending handshake is removed before the datagram that claims to answer it is opened
  (nebula-protocol/src/session.rs:162-170), and its index travels in the clear. So the first such
  datagram decides, whoever sent it: `TunnelPending.HandshakeOutcome` says exactly which handshakes
  become tunnels, `TunnelPending.ForgedAnswerAborts` shows one forged datagram ending one for good.
- A first handshake message is answered every time it arrives
  (nebula-protocol/src/session.rs:105-158). `TunnelProgress.ReplayedFirstMessageStrands` shows that a
  duplicate moves the answering node to a tunnel that the other node knows nothing of, so that what
  it sends from then on is lost; `TunnelTheorems.WhenEndsMeet` says exactly which tunnels have their
  other end.
- Delivered data carries only the peer's address (nebula-protocol/src/session.rs:219), and the
  identity is looked up by that address afterwards. `TunnelIdentity.DeliveredIdentity` says exactly
  when it is that of the delivering tunnel, `TunnelIdentity.NewerTunnelAnswers` shows it need not be.
- Port 0 is the same key as "any port" (nebula-firewall/src/rule/tree.rs:8): a rule whose ports
  include 0 selects every packet, fragments included.

## Model

| member | source | states |
|---|---|---|
| Header.Encode | nebula-protocol/src/header.rs:36-42 | in-place encoding leaves exactly the sixteen header bytes, reserved field zero |
| Header.ParseEncoded | nebula-protocol/src/header.rs:36-58 | whatever follows the header, the receiver parses every field as sent, nibbles reduced to four bits |
| Header.ParseInvertsEncode | nebula-protocol/src/header.rs:36-58 | the round trip is the identity exactly when version and type fit in four bits |
| Header.EncodeInvertsParse | nebula-protocol/src/header.rs:36-58 | re-encoding reproduces the received bytes exactly when they are one header long with the reserved field zero |
| Header.Layout | nebula-protocol/src/header.rs:36-42 | the sixteen bytes in numbers: version and kind in the nibbles of the first, subtype, two zeros, index and counter most significant byte first |
| Header.ParsedNumbers | nebula-protocol/src/header.rs:44-58 | what any bytes parse to, in numbers; only fewer than sixteen are refused |
| ReplaySpec.VerdictOnHistory | nebula-protocol/src/transport.rs:52-71 | a counter is accepted exactly when it exceeds all offered before, or is less than 1024 behind the largest and was not offered before |
| ReplayBitmap.ShiftedWordsShiftBits | nebula-protocol/src/transport.rs:87-96 | one pass of the carry loop over sixteen words moves all 1024 bits up by one |
| ReplayBitmap.ReplayWindow.ShiftLeft | nebula-protocol/src/transport.rs:87-96 | the nested loops are a 1024-bit shift by n with zeros coming in |
| ReplayBitmap.ReplayWindow.CheckAndUpdate | nebula-protocol/src/transport.rs:52-71 | the bitmap always represents the plain set of accepted counters (bit d set iff highest - d was accepted) and the verdict is the set's |
| ReplayBitmap.OfferAll | nebula-protocol/src/transport.rs:42-96 | for every sequence of counters, each verdict in terms of the raw earlier counters alone |
| Transport.NonceBytes | nebula-protocol/src/transport.rs:122-129 | the nonce byte by byte: four zeros, then the counter most significant byte first for AES-GCM and least significant first for ChaChaPoly |
| Transport.NonceInjective | nebula-protocol/src/transport.rs:122-129 | nonces are equal exactly when the counters are, in both byte orders |
| Transport.Transport.NextCounter | nebula-protocol/src/transport.rs:195-198 | the counter returned is the old one plus one, wrapping, and nothing else changes |
| Transport.Transport.Encrypt | nebula-protocol/src/transport.rs:202-212 | what is sealed opens to the plaintext under exactly this cipher, send key, associated data and the nonce of those twelve bytes |
| Transport.Transport.Decrypt | nebula-protocol/src/transport.rs:217-230 | window check first, then authentication; the transport over the real bitmap does what the one over the plain set does |
| Transport.CounterWorksOnce | nebula-protocol/src/transport.rs:217-230 | after any packet, opened or not, and any packets after it, every later packet with the same counter is refused |
| Transport.OpensExactly | nebula-protocol/src/transport.rs:52-230 | whatever arrived before, a packet opens to given data exactly if it was sealed so under this key, header and counter, and the counter passes the window by the raw counters that arrived before |
| Transport.SendOnWire | nebula-protocol/src/session.rs:542-554 | the header bytes in numbers; the counter the receiver parses is the one in the nonce, and the header is the associated data |
| Transport.WireCounterIsNonceCounter | nebula-protocol/src/session.rs:517-563 | over any interleaving of data and lighthouse sends, packet k carries and is sealed under counter k + 3 |
| Transport.NonceRepeats | nebula-protocol/src/transport.rs:184-198 | two packets of one transport share a nonce exactly when their positions agree modulo 2^64 |
| Transport.NoncesDistinct | nebula-protocol/src/transport.rs:184-198 | for up to 2^64 - 3 sends counters strictly increase from 3 and nonces are pairwise distinct |
| Handshake.EndsAgree | nebula-protocol/src/handshake.rs:47-184 | stage 0, response and finish together: refused exactly on a zero index, otherwise mirrored keys made of both ephemeral and both static keys, the initiator sending with the first, and each other's indices and static keys |
| Session.FirstExactly | nebula-protocol/src/session.rs:105-158 | when a first message is answered, condition by condition, and the whole new state and answer, header bytes included; otherwise nothing changes |
| Session.SecondExactly | nebula-protocol/src/session.rs:159-199 | when a second message completes the handshake, condition by condition, and the whole new state and wake-up; otherwise the handshake is gone |
| Session.ConnectExactly | nebula-protocol/src/session.rs:467-491 | the first message and its header bytes, the pending handshake and the waiter |
| Session.DispatchExactly | nebula-protocol/src/session.rs:266-292 | by the numbers in the header: which datagrams are handshakes, data or lighthouse packets, and that only data reaches the inbox |
| Session.Session.HandleHandshake | nebula-protocol/src/session.rs:104-200 | the handler makes exactly the state change, reply and wake-up of the specification, failures included |
| Session.Session.HandleMessage | nebula-protocol/src/session.rs:202-220 | one decryption with the addressed tunnel; the inbox grows by exactly the plaintext opened, if any |
| Session.Session.HandleLighthousePacket | nebula-protocol/src/session.rs:227-239 | the same transport and window are used and the inbox never changes |
| Session.Session.Connect | nebula-protocol/src/session.rs:467-497 | one new handshake under a free index, one waiter, one first message |
| Session.Session.SendTyped | nebula-protocol/src/session.rs:517-563 | one packet under the tunnel's next counter and the peer's index, or nothing without a tunnel |
| Tunnel.DeliveryRunsHandler | nebula-protocol/src/session.rs:266-292 | a delivery step of the network model is the receive loop's dispatch to the node's own handler, with its reply, data and wake-up |
| TunnelSteps.ConnectKeeps | nebula-protocol/src/session.rs:467-503 | connecting keeps the invariant of the whole system and undoes nothing |
| TunnelSteps.FirstKeeps | nebula-protocol/src/session.rs:105-158 | so does answering, or ignoring, any first message, forged or replayed ones included |
| TunnelSteps.SecondKeeps | nebula-protocol/src/session.rs:159-199 | so does any second message, whether it fails or completes the handshake |
| TunnelSteps.SecondIsMirrored | nebula-protocol/src/session.rs:159-199 | when an initiator completes with a node, that node already holds the mirror image of the tunnel |
| TunnelSteps.DataKeeps | nebula-protocol/src/session.rs:202-239 | so does any data or lighthouse packet |
| TunnelSteps.SendKeeps | nebula-protocol/src/session.rs:517-563 | so does sending |
| TunnelSteps.RunInvariant | nebula-protocol/src/session.rs:95-239 | the invariant holds in every run of any number of nodes |
| TunnelTheorems.InitiatedTunnelsAreMirrored | nebula-protocol/src/session.rs:104-200 | when a handshake became a tunnel with a peer running this code, the peer holds from then on the tunnel under the initiator's remote index, with the initiator's index, mirrored keys and the same cipher, and each end holds the other's certificate |
| TunnelTheorems.TunnelsAreForever | nebula-protocol/src/session.rs:95-200 | established entries never disappear or change identity |
| TunnelTheorems.IndexZeroIsNeverUsed | nebula-protocol/src/session.rs:95-200 | in every run no node stores anything under index 0, and no tunnel addresses it |
| TunnelTheorems.AddressesLeadToVerifiedTunnels | nebula-protocol/src/session.rs:119-158 | each address in the table leads to a tunnel for that address whose certificate was verified, names it first and is for the handshake's key, with a nonzero peer index |
| TunnelTheorems.ConnectedPeersAreKnown | nebula-protocol/src/session.rs:396-408 | after a connect to an address succeeded, the peer's identity is known from then on |
| TunnelTheorems.DeliveredAtMostOnce | nebula-protocol/src/session.rs:202-239 | what a tunnel delivers is a sub-multiset of the data payloads sent under its receive key, and only the peer's one end sends under it; lighthouse traffic is never delivered as data |
| TunnelTheorems.PacketReachesPeer | nebula-protocol/src/session.rs:202-220 | a packet sent into a tunnel is delivered, unchanged, exactly if the receiver holds the other end under the addressed index and the counter is still fresh there |
| TunnelTheorems.WhenEndsMeet | nebula-protocol/src/session.rs:104-239 | in every run, a tunnel begun here has its other end at the peer; one answered here has it exactly if some tunnel sends under its receive key, and has it once it has delivered anything |
| TunnelTheorems.EndsStayMet | nebula-protocol/src/session.rs:104-239 | ends that meet go on meeting in every continuation of the run |
| TunnelPending.PassesExactly | nebula-protocol/src/session.rs:170-188 | what a datagram must carry to complete a handshake, condition by condition |
| TunnelPending.HandshakeOutcome | nebula-protocol/src/session.rs:159-199 | over any actions from any reachable state: a handshake waits until a handshake datagram is delivered under its index, and the first one decides for good - a tunnel exactly if it opens and its certificate checks out, otherwise never one |
| TunnelPending.OutcomeInRun | nebula-protocol/src/session.rs:159-199 | the same at any point of any run from the start |
| TunnelPending.ForgedAnswerAborts | nebula-protocol/src/session.rs:162-170 | one datagram with the index and a body that does not open ends the handshake, whatever comes later |
| TunnelProgress.HandshakeCompletes | nebula-protocol/src/session.rs:104-200 | connect, the first message arriving, its answer arriving, with any actions whatever between them: the handshake is then the tunnel offered exactly if nothing decided it otherwise before, and if so both ends hold each other's exact certificates and address each other, and a connect for that address has succeeded |
| TunnelProgress.ReplayedFirstMessageStrands | nebula-protocol/src/session.rs:105-158 | a first message that arrives again once its handshake is decided gives the answering node a new tunnel, to which its address table moves, and whose ends do not meet in any later state; the initiator's own tunnel keeps its other end |
| TunnelProgress.StrandedSendsAreLost | nebula-protocol/src/session.rs:202-239 | what is sent into such a tunnel is not delivered |
| TunnelIdentity.TableLeadsToNewest | nebula-protocol/src/session.rs:104-200 | in every run the address table leads to the tunnel established last for each address |
| TunnelIdentity.DeliveredIdentity | nebula-protocol/src/session.rs:202-220 | in every run, the identity looked up for a delivered packet's address is a verified one naming it first, and is the delivering tunnel's own exactly if that tunnel is the newest for the address or the newest carries the same details |
| TunnelIdentity.NewerTunnelAnswers | nebula-protocol/src/session.rs:119-158 | a first message with another certificate that checks out for the address makes that one answer, while the older tunnel goes on delivering |
| RuleBuilder.RuleSetBuilder.Add | nebula-firewall/src/rule/builder.rs:119-180 | the verdict and the new rules, a rejected call changing nothing; the loop over ports included |
| RuleMeaning.DefaultRestrictsToAssigned | nebula-firewall/src/rule/builder.rs:85-112 | rules without a local network match what they would match anyway, restricted to assigned prefixes exactly if the host has unsafe networks and the option to allow any is off |
| RuleBuilder.RuleSetBuilder.constructor | nebula-firewall/src/rule/builder.rs:95-112 | no rules yet, and that default for rules without a local network |
| RuleMeaning.MergeCidrMeaning | nebula-firewall/src/rule/builder.rs:305-313 | merging into an existing prefix or adding a new one matches exactly that prefix's traffic in addition |
| RuleMeaning.PeerRuleMeaning | nebula-firewall/src/rule/builder.rs:256-314 | adding a rule to a peer node adds exactly the packets its any, groups, host, cidr and local network select |
| RuleMeaning.CaRuleMeaning | nebula-firewall/src/rule/builder.rs:319-342 | the same one level up: no authority, the authority's name or its hash |
| RuleMeaning.AddRuleMeaning | nebula-firewall/src/rule/builder.rs:119-180 | adding a rule makes exactly the packets it selects on its own match in addition; a rejected rule changes no answer |
| RuleMeaning.VerdictMeaning | nebula-firewall/src/rule/builder.rs:119-180 | a rule is rejected exactly if its range is inverted or its protocol unknown, with that error, the range first |
| RuleMeaning.CompiledRulesMeanTheList | nebula-firewall/src/rule/tree.rs:48-160 | for every list of calls, packet, direction and peer, the index answers yes exactly when some accepted rule selects the packet by its flat meaning |
| RuleMeaning.FragmentRules | nebula-firewall/src/rule/tree.rs:108-160 | a later fragment is matched exactly by rules on fragments, on any port or port 0, and on ICMP |
| RuleMeaning.OnlyTheSetOfRulesMatters | nebula-firewall/src/rule/tree.rs:48-160 | order and repetition do not matter, and more rules never match less |
| Net.ContainsIsPrefixMatch | nebula-firewall/src/identity.rs:25-28 | a prefix contains exactly the addresses of its family that agree with it in the leading bits |
| Conntrack.PopDrains | nebula-firewall/src/conntrack.rs:43-61 | every turn of the purge leaves fewer due slots, even when it pushes one back |
| Conntrack.Conntrack.PurgeExpired | nebula-firewall/src/conntrack.rs:43-61 | the pop and push loop ends and computes the specified purge |
| Conntrack.Conntrack.Get | nebula-firewall/src/conntrack.rs:65-70 | purge first, then look up |
| Conntrack.Conntrack.Record | nebula-firewall/src/conntrack.rs:76-97 | the entry is replaced; a slot is pushed only for a new flow |
| Conntrack.Conntrack.Remove | nebula-firewall/src/conntrack.rs:99-101 | the flow goes, its slot stays |
| ConntrackRuns.PurgeKeeps | nebula-firewall/src/conntrack.rs:43-61 | with any times: purging keeps a flow exactly if it has not expired or none of its slots is due |
| ConntrackRuns.PurgeIsExact | nebula-firewall/src/conntrack.rs:43-61 | under the invariant that every tracked flow has a slot no later than its expiry, purging removes exactly the expired flows and keeps the invariant |
| ConntrackRuns.RunIsFates | nebula-firewall/src/conntrack.rs:43-101 | in every run, with any times and timeouts, the table and its shared heap do to each flow what the flow's own records, removes and the times of purges make of it |
| ConntrackRuns.LookupIsExactWhen | nebula-firewall/src/conntrack.rs:43-101 | in every run, with any times: a lookup is what the latest record or remove says exactly if a record within its timeout is still tracked, and one past it is gone or has a due slot; whatever it answers is that record |
| ConntrackRuns.GetWithinLag | nebula-firewall/src/conntrack.rs:43-101 | when times go back by at most a lag, expiry is exact up to that lag |
| ConntrackRuns.GetIsExact | nebula-firewall/src/conntrack.rs:43-101 | in every run with nondecreasing times and a fixed timeout per flow, a lookup answers exactly what the latest record or remove of the flow says, and every tracked flow has a slot no later than its expiry |
| ConntrackRuns.EarlierRefreshOutlives | nebula-firewall/src/conntrack.rs:76-97 | after a refresh with an earlier time the lookup is wrong exactly between the two expiries |
| ConntrackRuns.HeapIsBounded | nebula-firewall/src/conntrack.rs:76-101 | in every run there are at least as many slots as flows and at most as many more as effective removes |
| Firewall.RoutableExactly | nebula-firewall/src/firewall.rs:58-65 | an assigned prefix makes its own address routable and nothing else, an unsafe network all of it |
| Firewall.Firewall.Reload | nebula-firewall/src/firewall.rs:82-86 | next version, new rules, tracked flows untouched |
| Firewall.NewFlowVerdict | nebula-firewall/src/firewall.rs:131-157 | the four verdicts on a flow not tracked, each exactly when: remote address in no network of the peer, local address not routable, no rule, accept |
| Firewall.Firewall.Evaluate | nebula-firewall/src/firewall.rs:92-157 | verdict and new connection table are those of the four parts run without interruption, and a flow not tracked is judged as new |
| FirewallRuns.StepsMakeEvaluation | nebula-firewall/src/firewall.rs:92-157 | the four interleavable steps in a row are one whole evaluation |
| FirewallRuns.StepKeepsInvariant | nebula-firewall/src/firewall.rs:82-157 | every step of every call and every reload keeps the link from tracked flows to the rules that matched them |
| FirewallRuns.AcceptsAreJustified | nebula-firewall/src/firewall.rs:92-157 | in every interleaving an accept implies a routable local address, an admission by this packet or an earlier one whose peer owned the remote address, and a match of the snapshot's own rules, in the direction of that admission, for a peer presented with this packet or an earlier one, with fewer than 65536 reloads between |
| FirewallTimes.FirstSectionDecides | nebula-firewall/src/firewall.rs:92-129 | in every interleaving, the first locked section accepts exactly if what the flow's own history leaves tracked has the snapshot's version or is matched by its rules |
| FirewallTimes.ConcurrentExpiry | nebula-firewall/src/firewall.rs:92-157 | in every interleaving, exactly when the table agrees with the latest record of a flow, and that it is never off by more than the calls' times go back |
| FirewallTimes.OverlappingCallsOutlive | nebula-firewall/src/firewall.rs:92-157 | two evaluations side by side, with a clock that never goes back, after which the flow stays tracked past its latest expiry, exactly up to the other one |
| FirewallFlows.AcceptedFlowStaysOpen | nebula-firewall/src/firewall.rs:104-125 | after an accept every packet with the same key passes until the timeout configured for TCP, UDP or the rest, whatever arrives between |
| FirewallFlows.RepliesPass | nebula-listener/src/packet.rs:28-56 | an accepted outgoing packet lets every answer to it in until the protocol's timeout, whatever options or extension headers either carries |
| FirewallFlows.RevokedFlowPassesExactlyOnWrap | nebula-firewall/src/firewall.rs:82-129 | after any reloads and packets of other flows, a live flow that the rules in force do not match passes exactly when its entry's version has come round modulo 65536 |
| FirewallFlows.DecisionIsExact | nebula-firewall/src/firewall.rs:92-157 | in every sequential run, reloads included: a flow tracked by the history of records and removes passes by its version or the rules in its direction; any other is judged as new |
| DerProofs.LengthRoundTrip | nebula-protocol/src/cert/der.rs:41-99 | reading inverts writing for every 64-bit length, whatever follows |
| DerProofs.LengthIsMinimal | nebula-protocol/src/cert/der.rs:41-99 | no accepted length form is shorter than the one written |
| DerProofs.TlvSelfDelimiting | nebula-protocol/src/cert/der.rs:102-124 | replacing everything after a field leaves its content as it was |
| DerProofs.DerIntRoundTrip | nebula-protocol/src/cert/der.rs:150-170 | decoding inverts encoding for every 64-bit integer |
| DerProofs.DerIntMinimal | nebula-protocol/src/cert/der.rs:150-170 | the encoding is the shortest exactly for non-negative integers and those below -2^55 |
| DerProofs.NetworkListRoundTrip | nebula-protocol/src/cert/der.rs:200-230 | any list of networks of both families reads back |
| DerProofs.DetailsRoundTrip | nebula-protocol/src/cert/der.rs:247-346 | decoding inverts encoding for every details value, every list length and every choice of absent fields |
| DerProofs.BuiltCertificateRoundTrips | nebula-protocol/src/cert/der.rs:247-449 | every certificate made of any details, curve, key and signature survives both encodings |
| DerProofs.CertificateRoundTrip | nebula-protocol/src/cert/der.rs:361-399 | a decoded certificate, whatever length forms or trailing bytes it came from, survives encoding and decoding |
| DerProofs.RecombineRoundTrip | nebula-protocol/src/cert/der.rs:417-449 | the handshake form with key and curve restores the certificate |
| DerProofs.SigningBytesInjective | nebula-protocol/src/cert/der.rs:404-410 | two certificates obtained by decoding or recombining any bytes have equal signed bytes exactly if they are equal but for the signature |
| DerProofs.SigningLayout | nebula-protocol/src/cert/der.rs:404-410 | where each part of the signed bytes stands: one details field, one byte 0 or 1 for the curve, the public key |
| DerGrammar.ReadTlvExactly | nebula-protocol/src/cert/der.rs:74-124 | a field is read exactly if the bytes start with its tag, a definite length of any accepted form, and that many bytes |
| DerGrammar.ReadDerIntExactly | nebula-protocol/src/cert/der.rs:159-170 | the integer read is the two's complement value of one to eight bytes |
| DerGrammar.DetailsExactly | nebula-protocol/src/cert/der.rs:294-346 | the decoder accepts exactly the details of the grammar, written with the format's numbers, each as what it stands for |
| DerGrammar.CertificateExactly | nebula-protocol/src/cert/der.rs:361-385 | the same for certificates |
| DerGrammar.RecombineExactly | nebula-protocol/src/cert/der.rs:429-449 | the same for the handshake form |
| DerGrammar.TlvIsShort | nebula-protocol/src/cert/der.rs:35-54 | a written field is of the grammar, and no field with that tag and content is shorter |
| DerGrammar.DetailsLayout | nebula-protocol/src/cert/der.rs:247-292 | the fields written, in order, with their tags as numbers |
| DerGrammar.CertificateLayout | nebula-protocol/src/cert/der.rs:387-424 | the same for the certificate and its handshake form |
| Utf8Text.TextExactly | nebula-protocol/src/cert/der.rs:298-336 | bytes are accepted as text exactly if they encode some code points |
| DerCodec.Reader.ReadLength | nebula-protocol/src/cert/der.rs:74-99 | the cursor ends where the specified length ends, with its value |
| DerCodec.Reader.ReadTlv | nebula-protocol/src/cert/der.rs:102-124 | the same for a field |
| DerCodec.Reader.ReadTlvRaw | nebula-protocol/src/cert/der.rs:129-133 | the same, returning tag and length bytes too |
| DerCodec.Reader.ReadTlvOpt | nebula-protocol/src/cert/der.rs:137-143 | the same for a field that may be absent |
| DerCodec.Writer.WriteTlv | nebula-protocol/src/cert/der.rs:35-54 | the buffer grows by exactly the field |
| DerCodec.EncodeDerInt | nebula-protocol/src/cert/der.rs:150-157 | the byte-dropping loop computes the specified encoding |
| DerCodec.EncodeDetails | nebula-protocol/src/cert/der.rs:247-292 | the writer produces the specified bytes |
| DerCodec.DecodeNetworks | nebula-protocol/src/cert/der.rs:303-317 | the list loop computes the specified list or failure |
| DerCodec.DecodeDetails | nebula-protocol/src/cert/der.rs:294-346 | the decoder computes the specified value or failure |
| DerCodec.DecodeCertificate | nebula-protocol/src/cert/der.rs:361-385 | the same for a certificate |
| DerCodec.EncodeCertificate | nebula-protocol/src/cert/der.rs:387-399 | the encoder produces the specified bytes |
| DerCodec.EncodeForHandshake | nebula-protocol/src/cert/der.rs:417-424 | the same for the handshake form |
| DerCodec.RecombineCertificate | nebula-protocol/src/cert/der.rs:429-449 | recombination computes the specified value or failure |
| DerCodec.EncodeThenDecode | nebula-protocol/src/cert/der.rs:247-346 | running encoder and decoder one after the other returns the details |
| IpPacket.StepAdvances | nebula-listener/src/packet.rs:186-253 | each header is at least 8 bytes and the walk stays within 2046 bytes of the buffer's end |
| IpPacket.ParseIpv6 | nebula-listener/src/packet.rs:157-254 | the loop ends for every byte string, never reads outside it, and computes the recursive chain walk |
| IpFlows.WalkChain | nebula-listener/src/packet.rs:183-253 | any list of well-formed extension headers is walked exactly to the upper layer |
| IpFlows.ReadWire6 | nebula-listener/src/packet.rs:157-254 | building an IPv6 packet with any such list and parsing it returns its transport protocol and ports or identifier |
| IpFlows.ReadWire4 | nebula-listener/src/packet.rs:67-130 | the same for IPv4 with any options |
| IpCases.ReadAny4 | nebula-listener/src/packet.rs:67-130 | any IPv4 header with any offset, flags, options and protocol, and whatever follows: what is read or that it is dropped, in numbers; a later fragment by addresses and protocol, with the fragment mark |
| IpCases.EveryIpv4 | nebula-listener/src/packet.rs:67-130 | any bytes of version 4 are such a packet, or are dropped for a header shorter than 20 bytes or than announced |
| IpCases.ReadAny6 | nebula-listener/src/packet.rs:157-254 | any IPv6 header, any chain of whole extension headers and any end of it - transport, ICMPv6 of any type, encrypted, nothing, later fragment, cut short, overrunning: what is read or that it is dropped |
| IpCases.EveryIpv6 | nebula-listener/src/packet.rs:157-254 | any bytes of version 6 and at least 40 bytes are such a packet |
| IpCases.LaterFragmentKey | nebula-listener/src/packet.rs:28-56 | the firewall's key of a later fragment of either version |
| IpCases.ProtocolNames | nebula-firewall/src/packet.rs:28-39 | protocols by number |
| IpFlows.ParsedKey | nebula-listener/src/packet.rs:28-56 | our side is the source of an outgoing and the destination of an incoming packet; identifiers stand in the remote port |
| IpFlows.BothLegsShareOneKey | nebula-listener/src/packet.rs:28-56 | an outgoing and an incoming packet have the same key exactly when the second answers the first |

## Left out

- The tun device, the forwarding loops, sockets, environment parsing and PEM: I/O around the modelled logic.
- Cryptography inside the Noise, AEAD, signature and hash libraries: ideal constructors, and certificate verification as an abstract predicate of certificate, authority and time.
- Protobuf: a handshake payload is its three protocol fields, or absent when it does not decode or has no details.
- Address resolution, lighthouse replies and known addresses: they only choose where a first message is sent, and the network model lets any datagram reach any node.
- The index generator and its clock: an index is a free choice among the unused nonzero ones, and termination of its retry loop is not claimed.
- Timeouts of `connect`: a connect either succeeds, as recorded, or is never reported.
- Rule warnings: advisory text.
- Session.Session.HandleMessage: the tunnels in the session's table hold the replay window as its plain set; that the bitmap behaves like that set is Transport.Transport.Decrypt and ReplayBitmap.ReplayWindow.CheckAndUpdate.
- Session.Session.HandleLighthousePacket: what a decrypted lighthouse reply does to known addresses and to those waiting for one.
- Session.Session.HandleHandshake: the reply and the new entry appear in one step, since both happen under the session's lock.
- Conntrack.Conntrack.PurgeExpired: slots due at the same instant are popped in the order they were pushed rather than in packet order; by ConntrackRuns.PurgeSweeps, which is about any heap in order of time, and ConntrackRuns.RunIsFates no flow's fate depends on it.
- DerCodec.Reader.ReadTlv: after a failure only says that the cursor has not moved back; every caller gives up then. The text of error messages is not modelled.
- DerCodec.EncodeDetails: needs the encoding to be shorter than 2^64 bytes, the width of a length.
- FirewallFlows.DecisionIsExact: for sequential runs with times in order; FirewallTimes.ConcurrentExpiry says what remains of it when evaluations overlap.
- Packets past the first fragment have no ports, so the theorems on requests and replies do not speak of them; IpCases.ReadAny4 and IpCases.ReadAny6 do.
