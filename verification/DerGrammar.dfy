/** The certificate format as a grammar over plain bytes, and the proof that the decoder accepts
    exactly it. Nothing here names a function of the codec except in those proofs. */
module DerGrammar {
  import opened Optional
  import opened Bits
  import opened Bytes
  import opened Net
  import opened DerSpec
  import DerProofs

  // ---- Lengths and fields ----

  /** A definite length: one byte below 128, or 128 and a count from 1 to 8 and then that many
      bytes, which need not be the fewest possible. */
  predicate LengthForm(b: bytes, n: nat) {
    || (|b| == 1 && b[0] < 128 && n == b[0])
    || (2 <= |b| <= 9 && b[0] == 128 + |b| - 1 && n == Value(b[1..]))
  }

  /** One tagged field. */
  ghost predicate FieldForm(b: bytes, tag: u8, content: bytes) {
    exists length: bytes :: LengthForm(length, |content|) && b == [tag] + length + content
  }

  /** A string that starts with one field of this tag. */
  ghost predicate FieldThen(s: bytes, tag: u8, content: bytes, rest: bytes) {
    exists field: bytes :: FieldForm(field, tag, content) && s == field + rest
  }

  /** The same for a field that may be absent, in which case something else comes next. */
  ghost predicate MaybeFieldThen(s: bytes, tag: u8, content: Option<bytes>, rest: bytes) {
    match content
    case Some(c) => FieldThen(s, tag, c, rest)
    case None => rest == s && (s == [] || s[0] != tag)
  }

  lemma ReadLengthExactly(s: bytes, n: nat, rest: bytes)
    ensures ReadLength(s) == Ok(Item(n, rest)) <==> exists length: bytes :: LengthForm(length, n) && s == length + rest
  {
    if ReadLength(s) == Ok(Item(n, rest)) {
      var length := s[..|s| - |rest|];
      assert s == length + rest;
      if s[0] >= 0x80 {
        FromBEIsValue(s[1..1 + (s[0] - 0x80)]);
        assert length[1..] == s[1..1 + (s[0] - 0x80)];
      }
      hide Value, FromBE;
      assert LengthForm(length, n);
    }
    if length: bytes :| LengthForm(length, n) && s == length + rest {
      if |length| > 1 {
        assert s[1..|length|] == length[1..];
        FromBEIsValue(length[1..]);
      }
      hide Value, FromBE;
      assert s[|length|..] == rest;
    }
  }

  lemma ReadTlvExactly(s: bytes, tag: u8, content: bytes, rest: bytes)
    ensures ReadTlv(s, tag) == Ok(Item(content, rest)) <==> FieldThen(s, tag, content, rest)
  {
    hide ReadLength, LengthForm;
    if ReadTlv(s, tag) == Ok(Item(content, rest)) {
      var after := ReadLength(s[1..]).value.rest;
      ReadLengthExactly(s[1..], |content|, after);
      var length: bytes :| LengthForm(length, |content|) && s[1..] == length + after;
      assert after == content + rest;
      assert s == ([tag] + length + content) + rest;
      assert FieldForm([tag] + length + content, tag, content);
    }
    if FieldThen(s, tag, content, rest) {
      var field: bytes :| FieldForm(field, tag, content) && s == field + rest;
      var length: bytes :| LengthForm(length, |content|) && field == [tag] + length + content;
      assert s[1..] == length + (content + rest);
      ReadLengthExactly(s[1..], |content|, content + rest);
      assert (content + rest)[..|content|] == content && (content + rest)[|content|..] == rest;
    }
  }

  lemma ReadTlvOptExactly(s: bytes, tag: u8, content: Option<bytes>, rest: bytes)
    ensures ReadTlvOpt(s, tag) == Ok(Item(content, rest)) <==> MaybeFieldThen(s, tag, content, rest)
  {
    if content.Some? { ReadTlvExactly(s, tag, content.value, rest); }
    hide ReadTlv;
    if content.Some? && FieldThen(s, tag, content.value, rest) {
      var field: bytes :| FieldForm(field, tag, content.value) && s == field + rest;
      assert field[0] == tag;
    }
  }

  // ---- Contents ----

  /** One to eight bytes of two's complement, most significant first, not necessarily the fewest. */
  predicate IntForm(b: bytes, v: int) {
    1 <= |b| <= 8 && v == Value(b) - if b[0] >= 128 then Pow256(|b|) else 0
  }

  lemma ReadDerIntExactly(b: bytes, v: i64)
    ensures ReadDerInt(b) == Ok(v) <==> IntForm(b, v)
  {
    if 1 <= |b| <= 8 { DerProofs.SignedValue(b); }
    FromBEIsValue(b);
    hide FromBE, Value, Pow256;
  }

  /** Four or sixteen address bytes and the prefix length. */
  predicate NetworkForm(b: bytes, n: Network) {
    match n.addr
    case V4(octets) => b == octets + [n.prefixLen]
    case V6(octets) => b == octets + [n.prefixLen]
  }

  lemma ReadNetworkExactly(b: bytes, n: Network)
    ensures ReadNetwork(b) == Ok(n) <==> NetworkForm(b, n)
  {
    if |b| == 5 { assert b == b[..4] + [b[4]]; }
    if |b| == 17 { assert b == b[..16] + [b[16]]; }
    if NetworkForm(b, n) { assert b[..|b| - 1] == Octets(n.addr); }
  }

  /** Octet strings, one network each. */
  ghost predicate NetworksForm(s: bytes, ns: seq<Network>)
    decreases |ns|
  {
    if ns == [] then s == []
    else exists content: bytes, rest: bytes ::
           FieldThen(s, 0x04, content, rest) && NetworkForm(content, ns[0]) && NetworksForm(rest, ns[1..])
  }

  lemma {:induction false} ReadNetworksExactly(s: bytes, ns: seq<Network>)
    ensures ReadNetworkList(s) == Ok(ns) <==> NetworksForm(s, ns)
    decreases |s| + |ns|
  {
    hide ReadTlv, ReadNetwork, NetworkForm, FieldThen;
    if s != [] && ReadNetworkList(s) == Ok(ns) {
      var item := ReadTlv(s, UNIVERSAL_OCTET_STRING).value;
      ReadTlvExactly(s, 0x04, item.value, item.rest);
      ReadNetworkExactly(item.value, ns[0]);
      ReadNetworksExactly(item.rest, ns[1..]);
    }
    if ns != [] && NetworksForm(s, ns) {
      var content: bytes, rest: bytes :|
        FieldThen(s, 0x04, content, rest) && NetworkForm(content, ns[0]) && NetworksForm(rest, ns[1..]);
      ReadTlvExactly(s, 0x04, content, rest);
      ReadNetworkExactly(content, ns[0]);
      ReadNetworksExactly(rest, ns[1..]);
      assert ns == [ns[0]] + ns[1..];
    }
  }

  /** UTF-8 strings, one group each. */
  ghost predicate GroupsForm(s: bytes, gs: seq<Utf8>)
    decreases |gs|
  {
    if gs == [] then s == []
    else exists rest: bytes :: FieldThen(s, 0x0C, gs[0], rest) && GroupsForm(rest, gs[1..])
  }

  lemma {:induction false} ReadGroupsExactly(s: bytes, gs: seq<Utf8>)
    ensures ReadGroupList(s) == Ok(gs) <==> GroupsForm(s, gs)
    decreases |s| + |gs|
  {
    hide ReadTlv, FieldThen, ValidUtf8;
    if s != [] && ReadGroupList(s) == Ok(gs) {
      var item := ReadTlv(s, UNIVERSAL_UTF8_STRING).value;
      ReadTlvExactly(s, 0x0C, item.value, item.rest);
      ReadGroupsExactly(item.rest, gs[1..]);
    }
    if gs != [] && GroupsForm(s, gs) {
      var rest: bytes :| FieldThen(s, 0x0C, gs[0], rest) && GroupsForm(rest, gs[1..]);
      ReadTlvExactly(s, 0x0C, gs[0], rest);
      ReadGroupsExactly(rest, gs[1..]);
      assert gs == [gs[0]] + gs[1..];
    }
  }

  // ---- Details ----

  /** A list of networks, absent when empty or present all the same. */
  ghost predicate NetworksField(s: bytes, tag: u8, ns: seq<Network>, rest: bytes) {
    || (MaybeFieldThen(s, tag, None, rest) && ns == [])
    || exists content: bytes :: FieldThen(s, tag, content, rest) && NetworksForm(content, ns)
  }

  ghost predicate GroupsField(s: bytes, tag: u8, gs: seq<Utf8>, rest: bytes) {
    || (MaybeFieldThen(s, tag, None, rest) && gs == [])
    || exists content: bytes :: FieldThen(s, tag, content, rest) && GroupsForm(content, gs)
  }

  ghost predicate ListsForm(s: bytes, l: Lists, rest: bytes) {
    exists s1: bytes, s2: bytes ::
      NetworksField(s, 0xA1, l.networks, s1) && NetworksField(s1, 0xA2, l.unsafeNetworks, s2)
      && GroupsField(s2, 0xA3, l.groups, rest)
  }

  /** The authority flag counts by its presence, whatever its content; anything may follow the
      issuer. */
  ghost predicate TailForm(s: bytes, t: Tail) {
    exists flag: Option<bytes>, issuer: Option<bytes>, from: bytes, to: bytes,
           s1: bytes, s2: bytes, s3: bytes, s4: bytes ::
      && MaybeFieldThen(s, 0x84, flag, s1) && t.isCa == flag.Some?
      && FieldThen(s1, 0x85, from, s2) && IntForm(from, t.notBefore)
      && FieldThen(s2, 0x86, to, s3) && IntForm(to, t.notAfter)
      && MaybeFieldThen(s3, 0x87, issuer, s4) && t.issuer == (if issuer.Some? then issuer.value else [])
  }

  /** The details: name, networks, unsafe networks, groups, flag, the two times, issuer. */
  ghost predicate DetailsForm(s: bytes, d: Details) {
    exists fields: bytes, after: bytes, s1: bytes, s2: bytes ::
      && FieldThen(s, 0xA0, fields, after)
      && FieldThen(fields, 0x80, d.name, s1)
      && ListsForm(s1, Lists(d.networks, d.unsafeNetworks, d.groups), s2)
      && TailForm(s2, Tail(d.isCa, d.notBefore, d.notAfter, d.issuer))
  }

  /** What reading an optional list gives. */
  function ReadNetworksField(s: bytes, tag: u8): Result<Item<seq<Network>>> {
    var field :- ReadTlvOpt(s, tag);
    var ns :- ReadNetworkList(OrEmpty(field.value));
    Ok(Item(ns, field.rest))
  }

  lemma NetworksFieldExactly(s: bytes, tag: u8, ns: seq<Network>, rest: bytes)
    ensures ReadNetworksField(s, tag) == Ok(Item(ns, rest)) <==> NetworksField(s, tag, ns, rest)
  {
    hide ReadNetworkList, NetworksForm, FieldThen;
    forall content ensures ReadTlvOpt(s, tag) == Ok(Item(content, rest)) <==> MaybeFieldThen(s, tag, content, rest) {
      ReadTlvOptExactly(s, tag, content, rest);
    }
    forall c ensures ReadNetworkList(c) == Ok(ns) <==> NetworksForm(c, ns) { ReadNetworksExactly(c, ns); }
    ReadNetworksExactly([], ns);
    NoNetworks();
    if content: bytes :| FieldThen(s, tag, content, rest) && NetworksForm(content, ns) {
      assert MaybeFieldThen(s, tag, Some(content), rest);
    }
    hide ReadTlvOpt;
    assert MaybeFieldThen(s, tag, None, rest) <==> ReadTlvOpt(s, tag) == Ok(Item(None, rest));
  }

  lemma NoNetworks()
    ensures ReadNetworkList([]) == Ok([]) && ReadGroupList([]) == Ok([])
  {
  }

  function ReadGroupsField(s: bytes, tag: u8): Result<Item<seq<Utf8>>> {
    var field :- ReadTlvOpt(s, tag);
    var gs :- ReadGroupList(OrEmpty(field.value));
    Ok(Item(gs, field.rest))
  }

  lemma GroupsFieldExactly(s: bytes, tag: u8, gs: seq<Utf8>, rest: bytes)
    ensures ReadGroupsField(s, tag) == Ok(Item(gs, rest)) <==> GroupsField(s, tag, gs, rest)
  {
    hide ReadGroupList, GroupsForm, FieldThen;
    forall content ensures ReadTlvOpt(s, tag) == Ok(Item(content, rest)) <==> MaybeFieldThen(s, tag, content, rest) {
      ReadTlvOptExactly(s, tag, content, rest);
    }
    forall c ensures ReadGroupList(c) == Ok(gs) <==> GroupsForm(c, gs) { ReadGroupsExactly(c, gs); }
    ReadGroupsExactly([], gs);
    NoNetworks();
    if content: bytes :| FieldThen(s, tag, content, rest) && GroupsForm(content, gs) {
      assert MaybeFieldThen(s, tag, Some(content), rest);
    }
    hide ReadTlvOpt;
    assert MaybeFieldThen(s, tag, None, rest) <==> ReadTlvOpt(s, tag) == Ok(Item(None, rest));
  }

  lemma ListsExactly(s: bytes, l: Lists, rest: bytes)
    ensures ReadLists(s) == Ok(Item(l, rest)) <==> ListsForm(s, l, rest)
  {
    hide ReadTlvOpt, ReadNetworkList, ReadGroupList, NetworksField, GroupsField;
    if ReadLists(s) == Ok(Item(l, rest)) {
      var s1 := ReadTlvOpt(s, TAG_DETAILS_NETWORKS).value.rest;
      var s2 := ReadTlvOpt(s1, TAG_DETAILS_UNSAFE_NETWORKS).value.rest;
      NetworksFieldExactly(s, 0xA1, l.networks, s1);
      NetworksFieldExactly(s1, 0xA2, l.unsafeNetworks, s2);
      GroupsFieldExactly(s2, 0xA3, l.groups, rest);
    }
    if ListsForm(s, l, rest) {
      var s1: bytes, s2: bytes :|
        NetworksField(s, 0xA1, l.networks, s1) && NetworksField(s1, 0xA2, l.unsafeNetworks, s2)
        && GroupsField(s2, 0xA3, l.groups, rest);
      NetworksFieldExactly(s, 0xA1, l.networks, s1);
      NetworksFieldExactly(s1, 0xA2, l.unsafeNetworks, s2);
      GroupsFieldExactly(s2, 0xA3, l.groups, rest);
    }
  }

  lemma TailExactly(s: bytes, t: Tail)
    ensures ReadTail(s) == Ok(t) <==> TailForm(s, t)
  {
    hide ReadTlv, ReadTlvOpt, ReadDerInt, FieldThen, MaybeFieldThen, IntForm;
    if ReadTail(s) == Ok(t) {
      var ca := ReadTlvOpt(s, TAG_DETAILS_IS_CA).value;
      var nb := ReadTlv(ca.rest, TAG_DETAILS_NOT_BEFORE).value;
      var na := ReadTlv(nb.rest, TAG_DETAILS_NOT_AFTER).value;
      var issuer := ReadTlvOpt(na.rest, TAG_DETAILS_ISSUER).value;
      ReadTlvOptExactly(s, 0x84, ca.value, ca.rest);
      ReadTlvExactly(ca.rest, 0x85, nb.value, nb.rest);
      ReadDerIntExactly(nb.value, t.notBefore);
      ReadTlvExactly(nb.rest, 0x86, na.value, na.rest);
      ReadDerIntExactly(na.value, t.notAfter);
      ReadTlvOptExactly(na.rest, 0x87, issuer.value, issuer.rest);
    }
    if TailForm(s, t) {
      var flag: Option<bytes>, issuer: Option<bytes>, from: bytes, to: bytes,
          s1: bytes, s2: bytes, s3: bytes, s4: bytes :|
        && MaybeFieldThen(s, 0x84, flag, s1) && t.isCa == flag.Some?
        && FieldThen(s1, 0x85, from, s2) && IntForm(from, t.notBefore)
        && FieldThen(s2, 0x86, to, s3) && IntForm(to, t.notAfter)
        && MaybeFieldThen(s3, 0x87, issuer, s4) && t.issuer == (if issuer.Some? then issuer.value else []);
      ReadTlvOptExactly(s, 0x84, flag, s1);
      ReadTlvExactly(s1, 0x85, from, s2);
      ReadDerIntExactly(from, t.notBefore);
      ReadTlvExactly(s2, 0x86, to, s3);
      ReadDerIntExactly(to, t.notAfter);
      ReadTlvOptExactly(s3, 0x87, issuer, s4);
    }
  }

  /** The decoder reads exactly the details that the bytes stand for, and nothing else. */
  lemma DetailsExactly(s: bytes, d: Details)
    ensures ReadDetails(s) == Ok(d) <==> DetailsForm(s, d)
  {
    hide ReadTlv, ReadLists, ReadTail, FieldThen, ListsForm, TailForm, ValidUtf8;
    var lists := Lists(d.networks, d.unsafeNetworks, d.groups);
    var tail := Tail(d.isCa, d.notBefore, d.notAfter, d.issuer);
    if ReadDetails(s) == Ok(d) {
      var inner := ReadTlv(s, TAG_CERT_DETAILS).value;
      var name := ReadTlv(inner.value, TAG_DETAILS_NAME).value;
      var rest := ReadLists(name.rest).value.rest;
      ReadTlvExactly(s, 0xA0, inner.value, inner.rest);
      ReadTlvExactly(inner.value, 0x80, d.name, name.rest);
      ListsExactly(name.rest, lists, rest);
      TailExactly(rest, tail);
    }
    if DetailsForm(s, d) {
      var fields: bytes, after: bytes, s1: bytes, s2: bytes :|
        && FieldThen(s, 0xA0, fields, after) && FieldThen(fields, 0x80, d.name, s1)
        && ListsForm(s1, lists, s2) && TailForm(s2, tail);
      ReadTlvExactly(s, 0xA0, fields, after);
      ReadTlvExactly(fields, 0x80, d.name, s1);
      ListsExactly(s1, lists, s2);
      TailExactly(s2, tail);
    }
  }

  // ---- Certificates ----

  /** The curve's single byte, 0 for Curve25519 and 1 for P256; Curve25519 when absent. */
  predicate CurveForm(content: Option<bytes>, curve: Curve) {
    match curve
    case Curve25519 => content == None || content == Some([0])
    case P256 => content == Some([1])
  }

  /** The envelope's content up to the details: one field, kept as it is. */
  ghost predicate RawThen(s: bytes, raw: bytes, d: Details, rest: bytes) {
    s == raw + rest && (exists content: bytes :: FieldForm(raw, 0xA0, content)) && DetailsForm(raw, d)
  }

  /** A certificate: details, curve if not the default, public key, signature; bytes after the
      signature, and after the envelope, do not matter. */
  ghost predicate CertificateForm(der: bytes, c: Certificate) {
    exists curve: Option<bytes>, envelope: bytes, s0: bytes, s1: bytes, s2: bytes, s3: bytes, s4: bytes ::
      && FieldThen(der, 0x30, envelope, s0)
      && RawThen(envelope, c.rawDetails, c.details, s1)
      && MaybeFieldThen(s1, 0x81, curve, s2) && CurveForm(curve, c.curve)
      && FieldThen(s2, 0x82, c.publicKey, s3)
      && FieldThen(s3, 0x83, c.signature, s4)
  }

  /** The reduced form: details and signature alone. */
  ghost predicate HandshakeForm(b: bytes, raw: bytes, d: Details, signature: bytes) {
    exists envelope: bytes, s0: bytes, s1: bytes, s2: bytes ::
      FieldThen(b, 0x30, envelope, s0) && RawThen(envelope, raw, d, s1) && FieldThen(s1, 0x83, signature, s2)
  }

  lemma RawExactly(s: bytes, raw: bytes, d: Details, rest: bytes)
    ensures ReadTlvRaw(s, TAG_CERT_DETAILS) == Ok(Item(raw, rest)) && ReadDetails(raw) == Ok(d)
            <==> RawThen(s, raw, d, rest)
  {
    hide ReadTlv, ReadDetails, DetailsForm, FieldForm;
    DetailsExactly(raw, d);
    if ReadTlvRaw(s, TAG_CERT_DETAILS) == Ok(Item(raw, rest)) {
      var content := ReadTlv(s, TAG_CERT_DETAILS).value.value;
      ReadTlvExactly(s, 0xA0, content, rest);
      var field: bytes :| FieldForm(field, 0xA0, content) && s == field + rest;
      assert field == s[..|s| - |rest|] == raw;
    }
    if RawThen(s, raw, d, rest) {
      var content: bytes :| FieldForm(raw, 0xA0, content);
      assert FieldThen(s, 0xA0, content, rest);
      ReadTlvExactly(s, 0xA0, content, rest);
      assert s[..|s| - |rest|] == raw;
    }
  }

  lemma ReadCurveExactly(content: Option<bytes>, curve: Curve)
    ensures ReadCurve(content) == Ok(curve) <==> CurveForm(content, curve)
  {
    if content.Some? && |content.value| == 1 { assert content.value == [content.value[0]]; }
  }

  /** The decoder accepts exactly the certificates of the format, each as what it stands for. */
  lemma CertificateExactly(der: bytes, c: Certificate)
    ensures ReadCertificate(der) == Ok(c) <==> CertificateForm(der, c)
  {
    hide ReadTlv, ReadTlvRaw, ReadTlvOpt, ReadDetails, ReadCurve, FieldThen, MaybeFieldThen, RawThen, CurveForm;
    if ReadCertificate(der) == Ok(c) {
      var envelope := ReadTlv(der, UNIVERSAL_SEQUENCE).value;
      var raw := ReadTlvRaw(envelope.value, TAG_CERT_DETAILS).value;
      var curve := ReadTlvOpt(raw.rest, TAG_CERT_CURVE).value;
      var key := ReadTlv(curve.rest, TAG_CERT_PUBLIC_KEY).value;
      var signature := ReadTlv(key.rest, TAG_CERT_SIGNATURE).value;
      ReadTlvExactly(der, 0x30, envelope.value, envelope.rest);
      RawExactly(envelope.value, c.rawDetails, c.details, raw.rest);
      ReadTlvOptExactly(raw.rest, 0x81, curve.value, curve.rest);
      ReadCurveExactly(curve.value, c.curve);
      ReadTlvExactly(curve.rest, 0x82, key.value, key.rest);
      ReadTlvExactly(key.rest, 0x83, signature.value, signature.rest);
    }
    if CertificateForm(der, c) {
      var curve: Option<bytes>, envelope: bytes, s0: bytes, s1: bytes, s2: bytes, s3: bytes, s4: bytes :|
        && FieldThen(der, 0x30, envelope, s0) && RawThen(envelope, c.rawDetails, c.details, s1)
        && MaybeFieldThen(s1, 0x81, curve, s2) && CurveForm(curve, c.curve)
        && FieldThen(s2, 0x82, c.publicKey, s3) && FieldThen(s3, 0x83, c.signature, s4);
      ReadTlvExactly(der, 0x30, envelope, s0);
      RawExactly(envelope, c.rawDetails, c.details, s1);
      ReadTlvOptExactly(s1, 0x81, curve, s2);
      ReadCurveExactly(curve, c.curve);
      ReadTlvExactly(s2, 0x82, c.publicKey, s3);
      ReadTlvExactly(s3, 0x83, c.signature, s4);
    }
  }

  lemma RecombineExactly(b: bytes, key: bytes, curve: Curve, c: Certificate)
    ensures Recombine(b, key, curve) == Ok(c) <==>
            c.publicKey == key && c.curve == curve && HandshakeForm(b, c.rawDetails, c.details, c.signature)
  {
    hide ReadTlv, ReadTlvRaw, ReadDetails, FieldThen, RawThen;
    if Recombine(b, key, curve) == Ok(c) {
      var envelope := ReadTlv(b, UNIVERSAL_SEQUENCE).value;
      var raw := ReadTlvRaw(envelope.value, TAG_CERT_DETAILS).value;
      var signature := ReadTlv(raw.rest, TAG_CERT_SIGNATURE).value;
      ReadTlvExactly(b, 0x30, envelope.value, envelope.rest);
      RawExactly(envelope.value, c.rawDetails, c.details, raw.rest);
      ReadTlvExactly(raw.rest, 0x83, signature.value, signature.rest);
    }
    if HandshakeForm(b, c.rawDetails, c.details, c.signature) {
      var envelope: bytes, s0: bytes, s1: bytes, s2: bytes :|
        FieldThen(b, 0x30, envelope, s0) && RawThen(envelope, c.rawDetails, c.details, s1)
        && FieldThen(s1, 0x83, c.signature, s2);
      ReadTlvExactly(b, 0x30, envelope, s0);
      RawExactly(envelope, c.rawDetails, c.details, s1);
      ReadTlvExactly(s1, 0x83, c.signature, s2);
    }
  }

  // ---- What the encoders write ----

  /** The one field whose length takes the fewest bytes. */
  ghost predicate ShortField(b: bytes, tag: u8, content: bytes) {
    && FieldForm(b, tag, content)
    && forall other :: FieldForm(other, tag, content) ==> |b| <= |other|
  }

  lemma TlvIsShort(tag: u8, content: bytes)
    requires |content| < TWO64
    ensures ShortField(Tlv(tag, content), tag, content)
  {
    hide Length, ReadLength, LengthForm;
    DerProofs.LengthRoundTrip(|content|, []);
    assert Length(|content|) + [] == Length(|content|);
    ReadLengthExactly(Length(|content|), |content|, []);
    var length: bytes :| LengthForm(length, |content|) && Length(|content|) == length + [];
    assert Length(|content|) == length;
    forall other | FieldForm(other, tag, content) ensures |Tlv(tag, content)| <= |other| {
      var l: bytes :| LengthForm(l, |content|) && other == [tag] + l + content;
      assert l + [] == l;
      ReadLengthExactly(l, |content|, []);
      DerProofs.LengthIsMinimal(l);
    }
  }

  /** The encoded details: every field in its place under its own tag, absent exactly when empty. */
  lemma DetailsLayout(d: Details)
    ensures DetailsTlv(d) ==
              Tlv(0xA0, Tlv(0x80, d.name)
                        + ((if d.networks == [] then [] else Tlv(0xA1, NetworkList(d.networks)))
                        + ((if d.unsafeNetworks == [] then [] else Tlv(0xA2, NetworkList(d.unsafeNetworks)))
                        + ((if d.groups == [] then [] else Tlv(0xA3, GroupList(d.groups)))
                        + ((if d.isCa then Tlv(0x84, [255]) else [])
                        + (Tlv(0x85, DerInt(d.notBefore))
                        + (Tlv(0x86, DerInt(d.notAfter))
                        + (if d.issuer == [] then [] else Tlv(0x87, d.issuer)))))))))
  {
    hide Tlv, NetworkList, GroupList, DerInt;
  }

  lemma ListLayout(ns: seq<Network>, gs: seq<Utf8>)
    ensures NetworkList([]) == [] && GroupList([]) == []
    ensures ns != [] ==> exists octets: bytes ::
              && NetworkForm(octets, ns[0]) && NetworkList(ns) == Tlv(0x04, octets) + NetworkList(ns[1..])
    ensures gs != [] ==> GroupList(gs) == Tlv(0x0C, gs[0]) + GroupList(gs[1..])
  {
    hide Tlv;
    if ns != [] { assert NetworkForm(NetworkBytes(ns[0]), ns[0]); }
  }

  /** The encoded certificate and its reduced form. */
  lemma CertificateLayout(c: Certificate)
    ensures CertificateBytes(c) ==
              Tlv(0x30, c.rawDetails + ((if c.curve == P256 then Tlv(0x81, [1]) else [])
                                        + (Tlv(0x82, c.publicKey) + Tlv(0x83, c.signature))))
    ensures HandshakeBytes(c) == Tlv(0x30, c.rawDetails + Tlv(0x83, c.signature))
  {
    hide Tlv;
  }
}
